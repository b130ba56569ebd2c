/** No decoder instance is ever fed payloads of two sessions or two connections, and no permit of a
    stream's semaphore is lost or released twice. */
module DecoderIsolation {
  import opened DecoderSessions
  import opened Options
  import opened Sets

  // ---------------------------------------------------------------- tasks in order

  /** Running `tasks` with decoders that have seen `live` never mixes origins. */
  predicate Clean(live: set<Origin>, tasks: seq<Task>)
    decreases tasks
  {
    if tasks == [] then |live| <= 1
    else match tasks[0]
         case Reset => |live| <= 1 && Clean({}, tasks[1..])
         case Frame(o) => live <= {o} && Clean({o}, tasks[1..])
  }

  /** What the decoders may have seen once `tasks` have run. */
  function After(live: set<Origin>, tasks: seq<Task>): set<Origin>
    decreases tasks
  {
    if tasks == [] then live
    else match tasks[0]
         case Reset => After({}, tasks[1..])
         case Frame(o) => After({o}, tasks[1..])
  }

  lemma {:induction false} CleanAppends(live: set<Origin>, tasks: seq<Task>, task: Task)
    requires Clean(live, tasks) && (task.Frame? ==> After(live, tasks) <= {task.origin})
    ensures Clean(live, tasks + [task])
    ensures After(live, tasks + [task]) == if task.Frame? then {task.origin} else {}
    decreases tasks
  {
    if tasks == [] {
      assert tasks + [task] == [task] && [task][1..] == [];
    } else {
      assert (tasks + [task])[1..] == tasks[1..] + [task];
      CleanAppends(if tasks[0].Reset? then {} else {tasks[0].origin}, tasks[1..], task);
    }
  }

  /** Decoders that have seen less are as clean. */
  lemma CleanShrinks(smaller: set<Origin>, live: set<Origin>, tasks: seq<Task>)
    requires smaller <= live && Clean(live, tasks)
    ensures Clean(smaller, tasks) && After(smaller, tasks) <= After(live, tasks)
  {
    if tasks == [] || tasks[0].Reset? {
      SubsetSize(smaller, live);
    }
  }

  lemma CleanIsSmall(live: set<Origin>, tasks: seq<Task>)
    requires Clean(live, tasks)
    ensures |live| <= 1
  {
    if tasks != [] && tasks[0].Frame? {
      SubsetSize(live, {tasks[0].origin});
    }
  }

  // ---------------------------------------------------------------- the inductive invariant

  /** The permit a submit in progress holds. */
  function Held(c: Config, s: State, r: nat): nat {
    var pending := PendingOf(c, s);
    if pending.Pending? && pending.r == r && !pending.phase.Acquiring? then 1 else 0
  }

  function InUse(rt: Runtime): nat { |rt.queue| + (if rt.running.Some? then 1 else 0) + rt.finished }

  predicate PermitsOk(c: Config, s: State, r: nat) {
    s.RuntimeOf(c, r).free + Held(c, s, r) + InUse(s.RuntimeOf(c, r)) == c.Depth(r)
  }

  /** The origins a stream's decoders may end up with, given how far the producer is. */
  ghost predicate EndOk(c: Config, s: State, r: nat) {
    var end := After(s.RuntimeOf(c, r).Live(), s.RuntimeOf(c, r).Tasks());
    match s.producer
    case Connecting => end == {}
    case Reading => end <= Current(s)
    case Dispatching(_, _) => end <= Current(s)
    case Resetting(_, _, at, _) => r < at ==> end == {}
    case Closing(at, _) => r < at ==> end == {}
    case Ended => true
  }

  function Current(s: State): set<Origin> {
    if s.session.Some? then {Origin(s.connection, s.session.value)} else {}
  }

  ghost predicate StreamOk(c: Config, s: State, r: nat) {
    var rt := s.RuntimeOf(c, r);
    && PermitsOk(c, s, r)
    && Clean(rt.Live(), rt.Tasks())
    && (forall history <- rt.retired :: |history| <= 1)
    && (r < c.streams && r !in s.refused ==> EndOk(c, s, r))
  }

  /** A refused reset means that `stop` is set, and nothing gets past the second look at it any more. */
  ghost predicate ProducerOk(c: Config, s: State) {
    && (s.producer.Dispatching? ==> s.session.Some? && forall r <- s.producer.items :: r < c.streams)
    && (s.producer.Resetting? ==> forall r <- s.producer.items :: r < c.streams)
    && (s.refused != {} ==> s.stop)
    && (PendingOf(c, s).Pending? && PendingOf(c, s).phase.Checked? && PendingOf(c, s).task.Frame?
        ==> PendingOf(c, s).r !in s.refused)
  }

  ghost predicate Inv(c: Config, s: State) {
    ProducerOk(c, s) && forall r :: StreamOk(c, s, r)
  }

  // ---------------------------------------------------------------- preservation: submit

  /** A stream that is not the one being submitted to only sees the producer move on. */
  lemma SubmitOther(c: Config, s: State, s': State, action: SubmitAction, q: nat)
    requires Inv(c, s) && SubmitStep(c, s, s', action) && q != PendingOf(c, s).r
    ensures StreamOk(c, s', q)
  {
    assert StreamOk(c, s, q);
    assert s'.RuntimeOf(c, q) == s.RuntimeOf(c, q);
  }

  lemma AcceptOwn(c: Config, s: State, s': State)
    requires Inv(c, s) && SubmitStep(c, s, s', Accept)
    ensures StreamOk(c, s', PendingOf(c, s).r)
  {
    var pending := PendingOf(c, s);
    var rt, rt' := s.RuntimeOf(c, pending.r), s'.RuntimeOf(c, pending.r);
    assert StreamOk(c, s, pending.r);
    assert rt'.Tasks() == rt.Tasks() + [pending.task] && rt'.Live() == rt.Live();
    if pending.task.Frame? {
      assert pending.r in s.producer.items;
      assert EndOk(c, s, pending.r);
    }
    CleanAppends(rt.Live(), rt.Tasks(), pending.task);
  }

  lemma SubmitOwn(c: Config, s: State, s': State, action: SubmitAction)
    requires Inv(c, s) && SubmitStep(c, s, s', action)
    ensures StreamOk(c, s', PendingOf(c, s).r)
  {
    if action.Accept? {
      AcceptOwn(c, s, s');
    } else {
      RefuseOwn(c, s, s', action);
    }
  }

  /** Until a task is accepted the stream's own tasks and decoders stay as they are. */
  lemma RefuseOwn(c: Config, s: State, s': State, action: SubmitAction)
    requires Inv(c, s) && SubmitStep(c, s, s', action) && !action.Accept?
    ensures StreamOk(c, s', PendingOf(c, s).r)
  {
    hide Clean, After;
    var r := PendingOf(c, s).r;
    var rt, rt' := s.RuntimeOf(c, r), s'.RuntimeOf(c, r);
    assert StreamOk(c, s, r);
    assert rt'.Tasks() == rt.Tasks() && rt'.Live() == rt.Live();
  }

  lemma SubmitProducer(c: Config, s: State, s': State, action: SubmitAction)
    requires ProducerOk(c, s) && SubmitStep(c, s, s', action)
    ensures ProducerOk(c, s')
  {
    if s.producer.Dispatching? && s'.producer.Dispatching? {
      assert forall r <- s'.producer.items :: r in s.producer.items;
    }
  }

  lemma SubmitKeeps(c: Config, s: State, s': State, action: SubmitAction)
    requires Inv(c, s) && SubmitStep(c, s, s', action)
    ensures Inv(c, s')
  {
    hide StreamOk;
    SubmitProducer(c, s, s', action);
    SubmitOwn(c, s, s', action);
    forall q ensures StreamOk(c, s', q) {
      if q != PendingOf(c, s).r {
        SubmitOther(c, s, s', action, q);
      }
    }
  }

  // ---------------------------------------------------------------- preservation: producer

  lemma ProduceStream(c: Config, s: State, s': State, action: ProduceAction, q: nat)
    requires Inv(c, s) && ProduceStep(c, s, s', action)
    ensures StreamOk(c, s', q)
  {
    assert StreamOk(c, s, q);
    assert s'.RuntimeOf(c, q) == s.RuntimeOf(c, q);
  }

  lemma ProduceKeeps(c: Config, s: State, s': State, action: ProduceAction)
    requires Inv(c, s) && ProduceStep(c, s, s', action)
    ensures Inv(c, s')
  {
    forall q ensures StreamOk(c, s', q) {
      ProduceStream(c, s, s', action, q);
    }
    hide StreamOk;
  }

  // ---------------------------------------------------------------- preservation: workers

  lemma WorkOther(c: Config, s: State, s': State, r: nat, action: WorkAction, q: nat)
    requires Inv(c, s) && WorkStep(c, s, s', r, action) && q != r
    ensures StreamOk(c, s', q)
  {
    hide Clean, After;
    assert s'.RuntimeOf(c, q) == s.RuntimeOf(c, q) && s' == s.(runtimes := s'.runtimes);
    hide WorkStep;
    assert StreamOk(c, s, q);
  }

  lemma RetiredAreSmall(rt: Runtime)
    requires Clean(rt.Live(), rt.Tasks()) && forall history <- rt.retired :: |history| <= 1
    ensures forall history <- AfterReset(rt).retired :: |history| <= 1
  {
    CleanIsSmall(rt.Live(), rt.Tasks());
    forall history | history in rt.decoders.Values ensures |history| <= 1 {
      var camera :| camera in rt.decoders && rt.decoders[camera] == history;
      assert history <= rt.Live();
      SubsetSize(history, rt.Live());
    }
  }

  /** What a worker has to see to when it changes its own stream. */
  ghost predicate Moves(rt: Runtime, rt': Runtime) {
    && rt'.free + InUse(rt') == rt.free + InUse(rt)
    && Clean(rt'.Live(), rt'.Tasks()) && After(rt'.Live(), rt'.Tasks()) <= After(rt.Live(), rt.Tasks())
    && forall history <- rt'.retired :: |history| <= 1
  }

  lemma MovesKeep(c: Config, s: State, s': State, r: nat, rt': Runtime)
    requires StreamOk(c, s, r) && Moves(s.RuntimeOf(c, r), rt') && s' == s.(runtimes := s.runtimes[r := rt'])
    ensures StreamOk(c, s', r)
  {
    hide Clean, After, InUse;
    assert s'.RuntimeOf(c, r) == rt' && Held(c, s', r) == Held(c, s, r);
  }

  lemma SameMoves(rt: Runtime, rt': Runtime)
    requires Clean(rt.Live(), rt.Tasks()) && forall history <- rt.retired :: |history| <= 1
    requires rt'.Tasks() == rt.Tasks() && rt'.Live() == rt.Live() && rt'.retired == rt.retired
    requires rt'.free + InUse(rt') == rt.free + InUse(rt)
    ensures Moves(rt, rt')
  {
  }

  lemma StartMoves(rt: Runtime, rt': Runtime)
    requires rt.running.None? && rt.queue != []
    requires rt' == rt.(running := Some(rt.queue[0]), queue := rt.queue[1..])
    ensures rt'.Tasks() == rt.Tasks() && rt'.Live() == rt.Live() && InUse(rt') == InUse(rt)
  {
    assert rt'.decoders == rt.decoders;
  }

  /** While a frame runs, its decoders only see that frame's origin. */
  lemma FeedMoves(rt: Runtime, rt': Runtime, camera: nat, o: Origin)
    requires rt.running == Some(Frame(o)) && Clean(rt.Live(), rt.Tasks())
    requires forall history <- rt.retired :: |history| <= 1
    requires rt'.decoders.Keys == rt.decoders.Keys + {camera} && rt' == rt.(decoders := rt'.decoders)
    requires rt'.decoders[camera] <= (if camera in rt.decoders then rt.decoders[camera] else {}) + {o}
    requires forall place <- rt.decoders | place != camera :: rt'.decoders[place] == rt.decoders[place]
    ensures Moves(rt, rt')
  {
    var rest := rt.queue;
    assert rt.Tasks() == [Frame(o)] + rest && rt'.Tasks() == rt.Tasks() && rt.Tasks()[1..] == rest;
    assert rt.Live() <= {o};
    forall x | x in rt'.Live() ensures x == o {
      var place :| place in rt'.decoders && x in rt'.decoders[place];
      assert place in rt.decoders && x in rt.decoders[place] ==> x in rt.Live();
    }
  }

  lemma FinishMoves(rt: Runtime, rt': Runtime)
    requires rt.running.Some? && Clean(rt.Live(), rt.Tasks()) && forall history <- rt.retired :: |history| <= 1
    requires var done := if rt.running.value.Reset? then AfterReset(rt) else rt;
             rt' == done.(running := None, finished := rt.finished + 1)
    ensures Moves(rt, rt')
  {
    assert rt.Tasks()[1..] == rt.queue == rt'.Tasks();
    if rt.running.value.Reset? {
      assert rt'.Live() == {};
      RetiredAreSmall(rt);
    } else {
      assert rt'.Live() == rt.Live();
      CleanShrinks(rt.Live(), {rt.running.value.origin}, rt.queue);
    }
  }

  lemma FinalResetMoves(rt: Runtime)
    requires rt.queue == [] && rt.running.None? && Clean(rt.Live(), rt.Tasks())
    requires forall history <- rt.retired :: |history| <= 1
    ensures Moves(rt, AfterReset(rt))
  {
    var rt' := AfterReset(rt);
    assert rt.Tasks() == [] && rt'.Tasks() == [] && rt'.Live() == {};
    RetiredAreSmall(rt);
  }

  lemma WorkMoves(c: Config, s: State, s': State, r: nat, action: WorkAction)
    requires Inv(c, s) && WorkStep(c, s, s', r, action)
    ensures Moves(s.RuntimeOf(c, r), s'.RuntimeOf(c, r))
    ensures s' == s.(runtimes := s.runtimes[r := s'.RuntimeOf(c, r)])
  {
    hide Moves, Clean, PermitsOk, EndOk;
    var rt, rt' := s.RuntimeOf(c, r), s'.RuntimeOf(c, r);
    assert StreamOk(c, s, r);
    match action {
      case Feed(camera, decodes) => FeedMoves(rt, rt', camera, rt.running.value.origin);
      case Finish => FinishMoves(rt, rt');
      case FinalReset => FinalResetMoves(rt);
      case Start =>
        StartMoves(rt, rt');
        SameMoves(rt, rt');
      case _ => SameMoves(rt, rt');
    }
  }

  lemma WorkOwn(c: Config, s: State, s': State, r: nat, action: WorkAction)
    requires Inv(c, s) && WorkStep(c, s, s', r, action)
    ensures StreamOk(c, s', r)
  {
    hide StreamOk, Moves, WorkStep;
    WorkMoves(c, s, s', r, action);
    MovesKeep(c, s, s', r, s'.RuntimeOf(c, r));
  }

  lemma WorkKeeps(c: Config, s: State, s': State, r: nat, action: WorkAction)
    requires Inv(c, s) && WorkStep(c, s, s', r, action)
    ensures Inv(c, s')
  {
    assert s' == s.(runtimes := s'.runtimes);
    WorkOwn(c, s, s', r, action);
    forall q ensures StreamOk(c, s', q) {
      if q != r {
        WorkOther(c, s, s', r, action, q);
      }
    }
  }

  lemma StopKeeps(c: Config, s: State, s': State)
    requires Inv(c, s) && s' == s.(stop := true)
    ensures Inv(c, s')
  {
    forall q ensures StreamOk(c, s', q) {
      assert StreamOk(c, s, q);
      assert s'.RuntimeOf(c, q) == s.RuntimeOf(c, q);
    }
  }

  lemma NextKeeps(c: Config, s: State, s': State, step: Step)
    requires Inv(c, s) && NextStep(c, s, s', step)
    ensures Inv(c, s')
  {
    hide Inv, SubmitStep, ProduceStep, WorkStep;
    match step {
      case OfSubmit(action) => SubmitKeeps(c, s, s', action);
      case OfProducer(action) => ProduceKeeps(c, s, s', action);
      case OfWorker(r, action) => WorkKeeps(c, s, s', r, action);
      case Stop => StopKeeps(c, s, s');
    }
  }

  lemma InitKeeps(c: Config, s: State)
    requires Init(s)
    ensures Inv(c, s)
  {
    forall q ensures StreamOk(c, s, q) {
      assert s.RuntimeOf(c, q).Live() == {} && s.RuntimeOf(c, q).Tasks() == [];
    }
  }

  lemma {:induction false} RunKeeps(c: Config, run: Run, i: nat)
    requires IsRun(c, run) && i < |run.states|
    ensures Inv(c, run.states[i])
  {
    hide Inv, NextStep;
    if i == 0 {
      InitKeeps(c, run.states[0]);
    } else {
      RunKeeps(c, run, i - 1);
      NextKeeps(c, run.states[i - 1], run.states[i], run.steps[i - 1]);
    }
  }

  // ---------------------------------------------------------------- the main results

  /** Every decoder instance, in place or retired, has seen payloads of at most one session of one
      connection. */
  lemma DecodersSeeOneOrigin(c: Config, run: Run, i: nat, r: nat)
    requires IsRun(c, run) && i < |run.states|
    ensures var rt := run.states[i].RuntimeOf(c, r);
            && (forall camera <- rt.decoders :: |rt.decoders[camera]| <= 1)
            && (forall history <- rt.retired :: |history| <= 1)
  {
    RunKeeps(c, run, i);
    assert StreamOk(c, run.states[i], r);
    var rt := run.states[i].RuntimeOf(c, r);
    CleanIsSmall(rt.Live(), rt.Tasks());
    forall camera | camera in rt.decoders ensures |rt.decoders[camera]| <= 1 {
      assert rt.decoders[camera] <= rt.Live();
      SubsetSize(rt.decoders[camera], rt.Live());
    }
  }

  /** The eyes of one stream agree: all decoders in place have seen the same origin or none. */
  lemma EyesShareTheOrigin(c: Config, run: Run, i: nat, r: nat, a: nat, b: nat)
    requires IsRun(c, run) && i < |run.states|
    requires var rt := run.states[i].RuntimeOf(c, r);
             a in rt.decoders && b in rt.decoders && rt.decoders[a] != {} && rt.decoders[b] != {}
    ensures var rt := run.states[i].RuntimeOf(c, r); rt.decoders[a] == rt.decoders[b]
  {
    RunKeeps(c, run, i);
    assert StreamOk(c, run.states[i], r);
    var rt := run.states[i].RuntimeOf(c, r);
    CleanIsSmall(rt.Live(), rt.Tasks());
    forall x, y | x in rt.Live() && y in rt.Live() ensures x == y {
      if x != y {
        assert {x, y} <= rt.Live();
        SubsetSize({x, y}, rt.Live());
        assert false;
      }
    }
    var x :| x in rt.decoders[a];
    assert x in rt.Live();
    assert forall o <- rt.decoders[a] :: o in rt.Live();
    assert forall o <- rt.decoders[b] :: o in rt.Live();
    assert rt.decoders[a] == {x};
    var y :| y in rt.decoders[b];
    assert rt.decoders[b] == {x};
  }

  /** Free permits, the permit a submit holds and accepted unfinished tasks always make up the depth of
      the ring, so that at most that many tasks are in flight. */
  lemma PermitsAreConserved(c: Config, run: Run, i: nat, r: nat)
    requires IsRun(c, run) && i < |run.states|
    ensures var s, rt := run.states[i], run.states[i].RuntimeOf(c, r);
            && rt.free + Held(c, s, r) + |rt.queue| + (if rt.running.Some? then 1 else 0) + rt.finished == c.Depth(r)
            && rt.free <= c.Depth(r)
  {
    RunKeeps(c, run, i);
    assert StreamOk(c, run.states[i], r);
  }

  /** No release ever exceeds the initial value, which is what `BoundedSemaphore` would raise on. */
  lemma ReleaseNeverExceeds(c: Config, run: Run, i: nat, r: nat)
    requires IsRun(c, run) && i < |run.steps|
    requires run.states[i + 1].RuntimeOf(c, r).free > run.states[i].RuntimeOf(c, r).free
    ensures run.states[i + 1].RuntimeOf(c, r).free == run.states[i].RuntimeOf(c, r).free + 1
    ensures run.states[i].RuntimeOf(c, r).free < c.Depth(r)
  {
    PermitsAreConserved(c, run, i + 1, r);
    assert NextStep(c, run.states[i], run.states[i + 1], run.steps[i]);
  }
}
