/** The CUDA IPC slot protocol: stream workers write ring slots, a broadcaster sends
    notifications, and consumers read slots under a shared lock.

    Every lock operation, guard write, pixel write, queue operation and socket send is one atomic
    step; a run is any interleaving of the steps of any number of workers and consumers.

    A slot of the ring of one eye of one stream is guarded by a file that holds a generation and
    carries a shared/exclusive lock.  The state keeps, next to what the processes can observe, the
    history that the properties speak about: the image committed under every notification, and the
    notifications in the order they entered the queue. */
module SlotProtocol {

  type Pixels = seq<nat>

  /** One CUDA IPC stream: an eye of a camera stream. */
  datatype Ring = Ring(runtime: nat, eye: nat)

  datatype Slot = Slot(ring: Ring, index: nat)

  /** A frame notification; it names the slot and the generation committed for it. */
  datatype Message = Message(slot: Slot, generation: nat)

  datatype Reader = Broadcaster | Consumer(id: nat)

  /** A guard file: generation 0 says "being rewritten"; `writer` is an exclusive lock. */
  datatype Guard = Guard(generation: nat, writer: bool, readers: set<Reader>)

  /** The progress of one eye's sample thread through `write_slot`. */
  datatype Eye =
    | Waiting                               // wants the exclusive lock
    | Locked                                // holds it, old generation still in place
    | Writing                               // generation zeroed, pixels being written
    | Settled(ok: bool, image: Pixels)      // GPU work synchronised, lock still held
    | Released(ok: bool, image: Pixels)

  /** The progress of `publish` for one eye. */
  datatype Stage =
    | Bump
    | CheckStarted(generation: nat)
    | CommitWait(generation: nat)
    | CommitLocked(generation: nat)
    | CommitWritten(generation: nat)
    | Put(generation: nat)
    | MakeRoom(generation: nat)
    | PutAgain(generation: nat)

  datatype Phase =
    | Idle
    | Decoding(eyes: seq<Eye>)
    | Publishing(images: seq<Pixels>, eye: nat, stage: Stage)

  datatype Worker = Worker(index: nat, phase: Phase)

  datatype Caster =
    | Listening
    | Taken(message: Message, position: nat)
    | Checking(message: Message, position: nat)   // holds the shared lock of the message's slot
    | Sending(message: Message, position: nat, rest: seq<nat>, dead: set<nat>)

  /** `received[i]` is the notification that entered the queue as number `at[i]`. */
  datatype Client = Client(joined: bool, rings: set<Ring>, received: seq<Message>, at: seq<nat>)

  datatype Reading =
    | NoRead
    | Holding(message: Message)             // shared lock taken, generation not yet compared
    | Valid(message: Message)               // `read_frame` has yielded the array

  /** `capacity <= 0` is an unbounded queue, as `queue.Queue` reads it. */
  datatype Config = Config(depths: map<nat, nat>, stereo: set<nat>, capacity: int) {
    function Depth(r: nat): (d: nat)
      ensures 3 <= d
    {
      if r in depths && 3 <= depths[r] then depths[r] else 6
    }

    function Cameras(r: nat): nat { if r in stereo then 2 else 1 }

    predicate Full(queue: seq<Message>) { 0 < capacity <= |queue| }
  }

  /** The publisher's notification side. */
  datatype Mail = Mail(
    started: bool,
    queue: seq<Message>,
    caster: Caster,
    clients: seq<nat>,
    sessions: map<nat, Client>,
    log: seq<Message>,                      // history: everything ever put on the queue
    taken: nat)                             // history: how much of the log has left the queue
  {
    function ClientOf(id: nat): Client {
      if id in sessions then sessions[id] else Client(false, {}, [], [])
    }

    function Enqueue(m: Message): Mail { this.(queue := queue + [m], log := log + [m]) }

    function Dequeue(): Mail
      requires queue != []
    {
      this.(queue := queue[1..], taken := taken + 1)
    }

    function Deliver(id: nat, m: Message, position: nat): Mail {
      var client := ClientOf(id);
      this.(sessions := sessions[id := client.(received := client.received + [m],
                                               at := client.at + [position])])
    }
  }

  datatype State = State(
    guards: map<Slot, Guard>,
    pixels: map<Slot, Pixels>,
    counters: map<Slot, nat>,               // slot_generations
    workers: map<nat, Worker>,
    readers: map<nat, Reading>,
    published: map<Message, Pixels>,        // history: the image committed under a message
    mail: Mail)
  {
    function GuardOf(k: Slot): Guard { if k in guards then guards[k] else Guard(0, false, {}) }
    function PixelsOf(k: Slot): Pixels { if k in pixels then pixels[k] else [] }
    function CounterOf(k: Slot): nat { if k in counters then counters[k] else 0 }
    function WorkerOf(r: nat): Worker { if r in workers then workers[r] else Worker(0, Idle) }
    function ReadingOf(id: nat): Reading { if id in readers then readers[id] else NoRead }
    function SlotOf(r: nat, eye: nat): Slot { Slot(Ring(r, eye), WorkerOf(r).index) }

    /** No lock is held, so an exclusive `flock` succeeds. */
    predicate Free(k: Slot) { !GuardOf(k).writer && GuardOf(k).readers == {} }

    /** The workers after worker `r` has moved on to `p`; likewise for one eye and for one stage. */
    function Phased(r: nat, p: Phase): map<nat, Worker> { workers[r := WorkerOf(r).(phase := p)] }
    function Eyed(r: nat, e: nat, eye: Eye): map<nat, Worker>
      requires WorkerOf(r).phase.Decoding? && e < |WorkerOf(r).phase.eyes|
    {
      Phased(r, Decoding(WorkerOf(r).phase.eyes[e := eye]))
    }
    function Staged(r: nat, stage: Stage): map<nat, Worker>
      requires WorkerOf(r).phase.Publishing?
    {
      Phased(r, WorkerOf(r).phase.(stage := stage))
    }

    /** The guards after one change to the guard of `k`. */
    function Stamped(k: Slot, g: nat): map<Slot, Guard> { guards[k := GuardOf(k).(generation := g)] }
    function Locking(k: Slot): map<Slot, Guard> { guards[k := GuardOf(k).(writer := true)] }
    function Unlocking(k: Slot): map<Slot, Guard> { guards[k := GuardOf(k).(writer := false)] }
    function Sharing(k: Slot, who: Reader): map<Slot, Guard> {
      guards[k := GuardOf(k).(readers := GuardOf(k).readers + {who})]
    }
    function Unsharing(k: Slot, who: Reader): map<Slot, Guard> {
      guards[k := GuardOf(k).(readers := GuardOf(k).readers - {who})]
    }
  }

  predicate Init(s: State) {
    s == State(map[], map[], map[], map[], map[], map[], Mail(false, [], Listening, [], map[], [], 0))
  }

  // ---------------------------------------------------------------- the steps of one eye

  datatype EyeAction =
    | Cancel                                // the stop flag interrupts the wait
    | Acquire
    | Invalidate
    | Abort                                 // the guard cannot be written
    | Write(image: Pixels)                  // whatever part of the frame is there by now
    | Settle(ok: bool, image: Pixels)
    | Release

  predicate EyeIs(s: State, r: nat, e: nat) {
    s.WorkerOf(r).phase.Decoding? && e < |s.WorkerOf(r).phase.eyes|
  }

  function EyeOf(s: State, r: nat, e: nat): Eye
    requires EyeIs(s, r, e)
  {
    s.WorkerOf(r).phase.eyes[e]
  }

  predicate EyeStep(s: State, s': State, r: nat, e: nat, action: EyeAction) {
    && EyeIs(s, r, e)
    && var k, eye := s.SlotOf(r, e), EyeOf(s, r, e);
       match action
       case Cancel => eye.Waiting? && s' == s.(workers := s.Eyed(r, e, Released(false, [])))
       case Acquire => eye.Waiting? && s.Free(k) && s' == s.(workers := s.Eyed(r, e, Locked), guards := s.Locking(k))
       case Invalidate =>
         eye.Locked? && s' == s.(workers := s.Eyed(r, e, Writing), guards := s.Stamped(k, 0))
       case Abort => eye.Locked? && s' == s.(workers := s.Eyed(r, e, Released(false, [])), guards := s.Unlocking(k))
       case Write(image) => eye.Writing? && s' == s.(pixels := s.pixels[k := image])
       case Settle(ok, image) =>
         eye.Writing? && s' == s.(workers := s.Eyed(r, e, Settled(ok, image)), pixels := s.pixels[k := image])
       case Release =>
         eye.Settled? && s' == s.(workers := s.Eyed(r, e, Released(eye.ok, eye.image)), guards := s.Unlocking(k))
  }

  // ---------------------------------------------------------------- the steps of a worker

  datatype WorkAction = Begin | Join

  predicate WorkStep(c: Config, s: State, s': State, r: nat, action: WorkAction) {
    var phase := s.WorkerOf(r).phase;
    match action
    case Begin =>
      phase.Idle? && s' == s.(workers := s.Phased(r, Decoding(seq(c.Cameras(r), _ => Waiting))))
    case Join =>
      && phase.Decoding?
      && (forall e | 0 <= e < |phase.eyes| :: phase.eyes[e].Released?)
      && var ok := forall e | 0 <= e < |phase.eyes| :: phase.eyes[e].ok;
         s' == s.(workers := s.Phased(r, if ok then Publishing(Images(phase.eyes), 0, Bump) else Idle))
  }

  function Images(eyes: seq<Eye>): seq<Pixels>
    requires forall e | 0 <= e < |eyes| :: eyes[e].Released?
  {
    seq(|eyes|, e requires 0 <= e < |eyes| => eyes[e].image)
  }

  datatype PublishAction =
    | Draw                                  // next_generation
    | CheckPublisher
    | Raise
    | CommitLock
    | CommitWrite
    | CommitUnlock

  datatype QueueAction = PutNoWait | GetNoWait | PutNoWaitAgain

  const GENERATION_LIMIT: nat := 0x1_0000_0000_0000_0000   // what "!Q" cannot pack

  /** `(index + 1) % depth` for an index of the ring; see `SlotSafety.NextIndexIsModulo`. */
  function NextIndex(index: nat, depth: nat): nat {
    if index + 1 < depth then index + 1 else 0
  }

  /** What follows the last action for one eye: the next eye, or the next slot of the ring. */
  function Advanced(c: Config, s: State, r: nat): map<nat, Worker>
    requires s.WorkerOf(r).phase.Publishing?
  {
    var w := s.WorkerOf(r);
    if w.phase.eye + 1 < |w.phase.images|
    then s.Phased(r, Publishing(w.phase.images, w.phase.eye + 1, Bump))
    else s.workers[r := Worker(NextIndex(w.index, c.Depth(r)), Idle)]
  }

  predicate PublishStep(c: Config, s: State, s': State, r: nat, action: PublishAction) {
    var phase := s.WorkerOf(r).phase;
    && phase.Publishing?
    && var k, stage := s.SlotOf(r, phase.eye), phase.stage;
       match action
       case Draw =>
         && stage.Bump?
         && var g := s.CounterOf(k) + 1;
            s' == s.(workers := s.Staged(r, CheckStarted(g)), counters := s.counters[k := g])
       case CheckPublisher =>
         && stage.CheckStarted?
         && s' == s.(workers := if s.mail.started then s.Staged(r, CommitWait(stage.generation)) else Advanced(c, s, r))
       case Raise =>
         || (((stage.Bump? && phase.eye == 0) || stage.CheckStarted? || stage.CommitWait?)
             && s' == s.(workers := s.Phased(r, Idle)))
         || (stage.CommitLocked? && s' == s.(workers := s.Phased(r, Idle), guards := s.Unlocking(k)))
       case CommitLock =>
         && stage.CommitWait? && s.Free(k)
         && s' == s.(workers := s.Staged(r, CommitLocked(stage.generation)), guards := s.Locking(k))
       case CommitWrite =>
         && stage.CommitLocked? && stage.generation < GENERATION_LIMIT && phase.eye < |phase.images|
         && s' == s.(workers := s.Staged(r, CommitWritten(stage.generation)),
                     guards := s.Stamped(k, stage.generation),
                     published := s.published[Message(k, stage.generation) := phase.images[phase.eye]])
       case CommitUnlock =>
         && stage.CommitWritten?
         && s' == s.(workers := s.Staged(r, Put(stage.generation)), guards := s.Unlocking(k))
  }

  /** The notification enters the queue; the oldest one makes room for it. */
  predicate QueueStep(c: Config, s: State, s': State, r: nat, action: QueueAction) {
    var phase := s.WorkerOf(r).phase;
    && phase.Publishing?
    && var k, stage := s.SlotOf(r, phase.eye), phase.stage;
       match action
       case PutNoWait =>
         && stage.Put?
         && if c.Full(s.mail.queue) then s' == s.(workers := s.Staged(r, MakeRoom(stage.generation)))
            else s' == s.(workers := Advanced(c, s, r), mail := s.mail.Enqueue(Message(k, stage.generation)))
       case GetNoWait =>
         && stage.MakeRoom?
         && s' == s.(workers := s.Staged(r, PutAgain(stage.generation)),
                     mail := if s.mail.queue == [] then s.mail else s.mail.Dequeue())
       case PutNoWaitAgain =>
         && stage.PutAgain?
         && s' == s.(workers := Advanced(c, s, r),
                     mail := if c.Full(s.mail.queue) then s.mail
                             else s.mail.Enqueue(Message(k, stage.generation)))
  }

  // ---------------------------------------------------------------- broadcaster

  datatype CastAction = Take | TryShared | Check | Send(delivered: bool) | Done

  function Dropped(clients: seq<nat>, dead: set<nat>): seq<nat> {
    if clients == [] then []
    else (if clients[0] in dead then [] else [clients[0]]) + Dropped(clients[1..], dead)
  }

  /** The comparison `read_slot` makes while it holds the shared lock. */
  predicate IsCurrent(s: State, m: Message) {
    0 < m.generation && s.GuardOf(m.slot).generation == m.generation
  }

  predicate CastStep(s: State, s': State, action: CastAction) {
    var mail, caster := s.mail, s.mail.caster;
    match action
    case Take =>
      && caster.Listening? && mail.queue != []
      && s' == s.(mail := mail.Dequeue().(caster := Taken(mail.queue[0], mail.taken)))
    case TryShared =>
      && caster.Taken?
      && var m := caster.message;
         if s.GuardOf(m.slot).writer then s' == s.(mail := mail.(caster := Listening))
         else s' == s.(mail := mail.(caster := Checking(m, caster.position)),
                       guards := s.Sharing(m.slot, Broadcaster))
    case Check =>
      && caster.Checking?
      && var m := caster.message;
         s' == s.(mail := mail.(caster := if IsCurrent(s, m) then Sending(m, caster.position, mail.clients, {})
                                          else Listening),
                  guards := s.Unsharing(m.slot, Broadcaster))
    case Send(delivered) =>
      && caster.Sending? && caster.rest != []
      && s' == s.(mail := SentOne(mail, delivered))
    case Done =>
      && caster.Sending? && caster.rest == []
      && s' == s.(mail := mail.(caster := Listening, clients := Dropped(mail.clients, caster.dead)))
  }

  /** The message goes to the next client if that client subscribed; a failed send marks it dead. */
  function SentOne(mail: Mail, delivered: bool): Mail
    requires mail.caster.Sending? && mail.caster.rest != []
  {
    var caster := mail.caster;
    var id, next := caster.rest[0], caster.(rest := caster.rest[1..]);
    if caster.message.slot.ring !in mail.ClientOf(id).rings then mail.(caster := next)
    else if delivered then mail.Deliver(id, caster.message, caster.position).(caster := next)
    else mail.(caster := next.(dead := next.dead + {id}))
  }

  // ---------------------------------------------------------------- consumers and the publisher

  datatype ReadAction = Open(message: Message) | Compare | Close

  /** `read_frame`, for any notification at all, however old. */
  predicate ReadStep(s: State, s': State, id: nat, action: ReadAction) {
    match action
    case Open(m) =>
      && s.ReadingOf(id).NoRead? && !s.GuardOf(m.slot).writer
      && s' == s.(readers := s.readers[id := Holding(m)], guards := s.Sharing(m.slot, Consumer(id)))
    case Compare =>
      && s.ReadingOf(id).Holding?
      && var m := s.ReadingOf(id).message;
         if IsCurrent(s, m) then s' == s.(readers := s.readers[id := Valid(m)])
         else s' == s.(readers := s.readers[id := NoRead], guards := s.Unsharing(m.slot, Consumer(id)))
    case Close =>
      && s.ReadingOf(id).Valid?
      && s' == s.(readers := s.readers[id := NoRead],
                  guards := s.Unsharing(s.ReadingOf(id).message.slot, Consumer(id)))
  }

  datatype ServeAction = Start | Stop | Subscribe(id: nat, rings: set<Ring>)

  predicate ServeStep(s: State, s': State, action: ServeAction) {
    match action
    case Start => s' == s.(mail := s.mail.(started := true))
    case Stop => s' == s.(mail := s.mail.(started := false, clients := []))
    case Subscribe(id, rings) =>
      && !s.mail.ClientOf(id).joined
      && s' == s.(mail := s.mail.(clients := s.mail.clients + [id],
                                  sessions := s.mail.sessions[id := Client(true, rings, [], [])]))
  }

  // ---------------------------------------------------------------- runs

  datatype Step =
    | OfEye(r: nat, e: nat, eye: EyeAction)
    | OfWorker(r: nat, work: WorkAction)
    | OfPublish(r: nat, publish: PublishAction)
    | OfQueue(r: nat, queue: QueueAction)
    | OfCaster(cast: CastAction)
    | OfReader(id: nat, read: ReadAction)
    | OfServer(serve: ServeAction)

  predicate NextStep(c: Config, s: State, s': State, step: Step) {
    match step
    case OfEye(r, e, action) => EyeStep(s, s', r, e, action)
    case OfWorker(r, action) => WorkStep(c, s, s', r, action)
    case OfPublish(r, action) => PublishStep(c, s, s', r, action)
    case OfQueue(r, action) => QueueStep(c, s, s', r, action)
    case OfCaster(action) => CastStep(s, s', action)
    case OfReader(id, action) => ReadStep(s, s', id, action)
    case OfServer(action) => ServeStep(s, s', action)
  }

  /** A run: states and the steps between them. */
  datatype Run = Run(states: seq<State>, steps: seq<Step>)

  ghost predicate IsRun(c: Config, run: Run) {
    && |run.states| == |run.steps| + 1
    && Init(run.states[0])
    && forall i | 0 <= i < |run.steps| :: NextStep(c, run.states[i], run.states[i + 1], run.steps[i])
  }
}
