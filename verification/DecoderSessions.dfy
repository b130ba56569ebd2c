/** Sessions, connections and the bounded single-worker queues in front of the decoders.

    One producer thread reads bundles from a connection and submits frames and decoder resets; every
    stream has a worker that runs its tasks in order, and a semaphore with as many permits as the ring
    has slots.  A run is any interleaving of the producer, the workers and `stop`. */
module DecoderSessions {
  import opened Options

  /** Where a payload comes from. */
  datatype Origin = Origin(connection: nat, session: nat)

  datatype Task = Reset | Frame(origin: Origin)

  /** `submit`: wait for a permit, look at the stop flag again, hand over to the executor. */
  datatype Phase = Acquiring | Holding | Checked

  datatype Producer =
    | Connecting
    | Reading
    | Resetting(session: nat, items: seq<nat>, at: nat, phase: Phase)   // a new session: reset every stream
    | Dispatching(items: seq<nat>, phase: Phase)                        // one frame per stream present
    | Closing(at: nat, phase: Phase)                                    // connection gone: reset every stream
    | Ended

  /** One stream.  `decoders[camera]` is the history of the decoder instance in that place: the origins of
      the payloads it was fed.  `retired` are the histories of the instances that were reset. */
  datatype Runtime = Runtime(
    free: nat,
    queue: seq<Task>,
    running: Option<Task>,
    finished: nat,                          // done, permit not yet released by the callback
    closed: bool,
    decoders: map<nat, set<Origin>>,
    retired: set<set<Origin>>)
  {
    function Tasks(): seq<Task> { (if running.Some? then [running.value] else []) + queue }

    ghost function Live(): set<Origin> { set camera, o | camera in decoders && o in decoders[camera] :: o }
  }

  datatype Config = Config(streams: nat, depths: seq<nat>) {
    function Depth(r: nat): nat { if r < |depths| then depths[r] else 6 }
  }

  datatype State = State(
    producer: Producer,
    connection: nat,
    session: Option<nat>,
    stop: bool,
    runtimes: map<nat, Runtime>,
    refused: set<nat>)                      // streams whose reset was refused because of `stop`
  {
    function RuntimeOf(c: Config, r: nat): Runtime {
      if r in runtimes then runtimes[r] else Runtime(c.Depth(r), [], None, 0, false, map[], {})
    }
  }

  predicate Init(s: State) {
    s == State(Connecting, 0, None, false, map[], {})
  }

  // ---------------------------------------------------------------- the submit in progress

  datatype Pending = Nothing | Pending(r: nat, task: Task, phase: Phase)

  function PendingOf(c: Config, s: State): Pending {
    match s.producer
    case Resetting(_, _, at, phase) => if at < c.streams then Pending(at, Reset, phase) else Nothing
    case Closing(at, phase) => if at < c.streams then Pending(at, Reset, phase) else Nothing
    case Dispatching(items, phase) =>
      if items == [] || s.session.None? then Nothing
      else Pending(items[0], Frame(Origin(s.connection, s.session.value)), phase)
    case _ => Nothing
  }

  /** The producer after the current submit has returned. */
  function Continued(p: Producer): Producer
    requires p.Resetting? || p.Closing? || (p.Dispatching? && p.items != [])
  {
    match p
    case Resetting(session, items, at, _) => Resetting(session, items, at + 1, Acquiring)
    case Dispatching(items, _) => Dispatching(items[1..], Acquiring)
    case Closing(at, _) => Closing(at + 1, Acquiring)
  }

  datatype SubmitAction = Refuse | Acquire | Withdraw | Recheck | Accept | Raise

  predicate SubmitStep(c: Config, s: State, s': State, action: SubmitAction) {
    var pending := PendingOf(c, s);
    && pending.Pending?
    && var r, task, rt := pending.r, pending.task, s.RuntimeOf(c, pending.r);
       match action
       case Refuse =>
         && pending.phase.Acquiring? && s.stop
         && s' == s.(producer := Continued(s.producer), refused := if task.Reset? then s.refused + {r} else s.refused)
       case Acquire =>
         && pending.phase.Acquiring? && 0 < rt.free
         && s' == s.(producer := s.producer.(phase := Holding), runtimes := s.runtimes[r := rt.(free := rt.free - 1)])
       case Withdraw =>
         && pending.phase.Holding? && s.stop
         && s' == s.(producer := Continued(s.producer), runtimes := s.runtimes[r := rt.(free := rt.free + 1)],
                     refused := if task.Reset? then s.refused + {r} else s.refused)
       case Recheck =>
         pending.phase.Holding? && !s.stop && s' == s.(producer := s.producer.(phase := Checked))
       case Accept =>
         && pending.phase.Checked? && !rt.closed
         && s' == s.(producer := Continued(s.producer), runtimes := s.runtimes[r := rt.(queue := rt.queue + [task])])
       case Raise =>     // the executor refuses; the connection is torn down, or the producer dies
         && pending.phase.Checked?
         && s' == s.(producer := if s.producer.Closing? then Ended else Closing(0, Acquiring), session := None,
                     runtimes := s.runtimes[r := rt.(free := rt.free + 1)])
  }

  // ---------------------------------------------------------------- the producer

  datatype ProduceAction =
    | Connect
    | GiveUp
    | Receive(session: nat, items: seq<nat>)
    | Lose                                  // end of stream, bad record, socket error or stop
    | ResetsDone
    | Dispatched
    | Closed

  predicate ProduceStep(c: Config, s: State, s': State, action: ProduceAction) {
    match action
    case Connect =>
      s.producer.Connecting? && s' == s.(producer := Reading, connection := s.connection + 1, session := None)
    case GiveUp => s.producer.Connecting? && s.stop && s' == s.(producer := Ended)
    case Receive(session, items) =>
      && s.producer.Reading? && (forall r <- items :: r < c.streams)
      && s' == if s.session.Some? && s.session.value != session
               then s.(producer := Resetting(session, items, 0, Acquiring))
               else s.(producer := Dispatching(items, Acquiring), session := Some(session))
    case Lose => s.producer.Reading? && s' == s.(producer := Closing(0, Acquiring), session := None)
    case ResetsDone =>
      && s.producer.Resetting? && c.streams <= s.producer.at
      && s' == s.(producer := Dispatching(s.producer.items, Acquiring), session := Some(s.producer.session))
    case Dispatched => s.producer.Dispatching? && s.producer.items == [] && s' == s.(producer := Reading)
    case Closed => s.producer.Closing? && c.streams <= s.producer.at && s' == s.(producer := Connecting)
  }

  // ---------------------------------------------------------------- workers and shutdown

  datatype WorkAction =
    | Start
    | Feed(camera: nat, decodes: bool)      // creates the decoder if there is none
    | Finish
    | Callback
    | ShutDown
    | FinalReset

  /** `reset_decoders`: the places are empty afterwards, the histories are kept. */
  function AfterReset(rt: Runtime): Runtime {
    rt.(decoders := map[], retired := rt.retired + rt.decoders.Values)
  }

  predicate WorkStep(c: Config, s: State, s': State, r: nat, action: WorkAction) {
    var rt := s.RuntimeOf(c, r);
    match action
    case Start =>
      && rt.running.None? && rt.queue != []
      && s' == s.(runtimes := s.runtimes[r := rt.(running := Some(rt.queue[0]), queue := rt.queue[1..])])
    case Feed(camera, decodes) =>
      && rt.running.Some? && rt.running.value.Frame?
      && var before := if camera in rt.decoders then rt.decoders[camera] else {};
         var after := if decodes then before + {rt.running.value.origin} else before;
         s' == s.(runtimes := s.runtimes[r := rt.(decoders := rt.decoders[camera := after])])
    case Finish =>
      && rt.running.Some?
      && var done := if rt.running.value.Reset? then AfterReset(rt) else rt;
         s' == s.(runtimes := s.runtimes[r := done.(running := None, finished := rt.finished + 1)])
    case Callback =>
      && 0 < rt.finished
      && s' == s.(runtimes := s.runtimes[r := rt.(finished := rt.finished - 1, free := rt.free + 1)])
    case ShutDown => s.stop && s' == s.(runtimes := s.runtimes[r := rt.(closed := true)])
    case FinalReset =>
      && rt.closed && rt.queue == [] && rt.running.None?
      && s' == s.(runtimes := s.runtimes[r := AfterReset(rt)])
  }

  // ---------------------------------------------------------------- runs

  datatype Step =
    | OfSubmit(submit: SubmitAction)
    | OfProducer(produce: ProduceAction)
    | OfWorker(r: nat, work: WorkAction)
    | Stop

  predicate NextStep(c: Config, s: State, s': State, step: Step) {
    match step
    case OfSubmit(action) => SubmitStep(c, s, s', action)
    case OfProducer(action) => ProduceStep(c, s, s', action)
    case OfWorker(r, action) => WorkStep(c, s, s', r, action)
    case Stop => s' == s.(stop := true)
  }

  datatype Run = Run(states: seq<State>, steps: seq<Step>)

  ghost predicate IsRun(c: Config, run: Run) {
    && |run.states| == |run.steps| + 1
    && Init(run.states[0])
    && forall i | 0 <= i < |run.steps| :: NextStep(c, run.states[i], run.states[i + 1], run.steps[i])
  }
}
