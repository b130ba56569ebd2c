/** What every interleaving of the slot protocol keeps. */
module SlotSafety {
  import opened SlotProtocol
  import opened Arithmetic

  // ---------------------------------------------------------------- the inductive invariant

  /** The slot holds `image`, uncommitted: the gap between release and commit. */
  predicate Ready(s: State, k: Slot, image: Pixels) {
    s.GuardOf(k).generation == 0 && s.PixelsOf(k) == image
  }

  predicate EyeOk(s: State, k: Slot, eye: Eye) {
    match eye
    case Waiting => true
    case Locked => s.GuardOf(k).writer
    case Writing => s.GuardOf(k).writer && s.GuardOf(k).generation == 0
    case Settled(_, image) => s.GuardOf(k).writer && Ready(s, k, image)
    case Released(ok, image) => ok ==> Ready(s, k, image)
  }

  predicate StageOk(s: State, k: Slot, image: Pixels, stage: Stage) {
    && (stage.Bump? || 0 < stage.generation == s.CounterOf(k))
    && (stage.Bump? || Uncommitted(stage) ==> Ready(s, k, image))
    && (stage.CommitLocked? || stage.CommitWritten? ==> s.GuardOf(k).writer)
  }

  predicate WorkerOk(c: Config, s: State, r: nat) {
    && s.WorkerOf(r).index < c.Depth(r)
    && match s.WorkerOf(r).phase
       case Idle => true
       case Decoding(eyes) =>
         |eyes| == c.Cameras(r) && forall e | 0 <= e < |eyes| :: EyeOk(s, s.SlotOf(r, e), eyes[e])
       case Publishing(images, eye, stage) =>
         && eye < |images| == c.Cameras(r)
         && StageOk(s, s.SlotOf(r, eye), images[eye], stage)
         && forall e | eye < e < |images| :: Ready(s, s.SlotOf(r, e), images[e])
  }

  /** The worker has drawn a generation it has not committed yet. */
  predicate Uncommitted(stage: Stage) {
    stage.CheckStarted? || stage.CommitWait? || stage.CommitLocked?
  }

  predicate ReadingOk(s: State, id: nat) {
    match s.ReadingOf(id)
    case NoRead => true
    case Holding(m) => Consumer(id) in s.GuardOf(m.slot).readers
    case Valid(m) => Consumer(id) in s.GuardOf(m.slot).readers && IsCurrent(s, m)
  }

  /** Locks exclude each other, and a nonzero generation vouches for the pixels. */
  predicate SlotOk(s: State, k: Slot) {
    var g := s.GuardOf(k);
    && (g.writer ==> g.readers == {})
    && (g.generation != 0 ==> Message(k, g.generation) in s.published
                              && s.PixelsOf(k) == s.published[Message(k, g.generation)])
  }

  /** A generation is committed at most once, and never before it is drawn. */
  predicate StampOk(s: State, m: Message) {
    && 0 < m.generation <= s.CounterOf(m.slot)
    && var w := s.WorkerOf(m.slot.ring.runtime);
       w.phase.Publishing? && Uncommitted(w.phase.stage) && m.slot == s.SlotOf(m.slot.ring.runtime, w.phase.eye)
       ==> m.generation < w.phase.stage.generation
  }

  ghost predicate Inv(c: Config, s: State) {
    && (forall k :: SlotOk(s, k))
    && (forall r :: WorkerOk(c, s, r))
    && (forall id :: ReadingOk(s, id))
    && (forall m <- s.published :: StampOk(s, m))
    && (s.mail.caster.Checking? ==> Broadcaster in s.GuardOf(s.mail.caster.message.slot).readers)
  }

  // ---------------------------------------------------------------- preservation

  /** A step of worker `r` that touches only the slot `k`, which is one of its own. */
  ghost predicate Local(s: State, s': State, r: nat, k: Slot) {
    && k.ring.runtime == r
    && LocalSlots(s, s', k)
    && (forall q | q != r :: s'.WorkerOf(q) == s.WorkerOf(q))
    && s'.readers == s.readers && s'.mail.caster == s.mail.caster
    && (forall m <- s.published :: m in s'.published && (m.slot != k ==> s'.published[m] == s.published[m]))
    && (forall m <- s'.published :: m in s.published || m.slot == k)
  }

  ghost predicate LocalSlots(s: State, s': State, k: Slot) {
    && (forall q | q != k :: s'.GuardOf(q) == s.GuardOf(q) && s'.PixelsOf(q) == s.PixelsOf(q)
                             && s'.CounterOf(q) == s.CounterOf(q))
    && s'.GuardOf(k).readers == s.GuardOf(k).readers
    && (s'.GuardOf(k).generation == s.GuardOf(k).generation || s.GuardOf(k).writer)
    && s.CounterOf(k) <= s'.CounterOf(k)
  }

  lemma LocalKeepsReading(c: Config, s: State, s': State, r: nat, k: Slot, id: nat)
    requires Inv(c, s) && Local(s, s', r, k)
    ensures ReadingOk(s', id)
  {
    assert ReadingOk(s, id);
    assert SlotOk(s, k);
  }

  lemma LocalKeepsOther(c: Config, s: State, s': State, r: nat, k: Slot, q: nat)
    requires Inv(c, s) && Local(s, s', r, k) && q != r
    ensures WorkerOk(c, s', q)
  {
    assert WorkerOk(c, s, q);
    assert forall e :: s'.SlotOf(q, e) == s.SlotOf(q, e) && s.SlotOf(q, e) != k;
  }

  /** It is enough to look at the slot and the worker that a step touches. */
  lemma LocalKeeps(c: Config, s: State, s': State, r: nat, k: Slot)
    requires Inv(c, s) && Local(s, s', r, k)
    requires SlotOk(s', k) && WorkerOk(c, s', r)
    requires forall m <- s'.published :: m.slot.ring.runtime == r ==> StampOk(s', m)
    ensures Inv(c, s')
  {
    forall q ensures SlotOk(s', q) {
      assert SlotOk(s, q);
    }
    forall id ensures ReadingOk(s', id) {
      LocalKeepsReading(c, s, s', r, k, id);
    }
    forall q ensures WorkerOk(c, s', q) {
      if q != r {
        LocalKeepsOther(c, s, s', r, k, q);
      }
    }
    forall m | m in s'.published ensures StampOk(s', m) {
      assert m in s.published ==> StampOk(s, m);
    }
  }

  // Steps of one eye.

  lemma EyeStepLocal(c: Config, s: State, s': State, r: nat, e: nat, action: EyeAction)
    requires WorkerOk(c, s, r) && EyeStep(s, s', r, e, action)
    ensures Local(s, s', r, s.SlotOf(r, e))
  {
    hide LocalSlots;
    EyeStepLocalSlots(c, s, s', r, e, action);
  }

  lemma EyeStepLocalSlots(c: Config, s: State, s': State, r: nat, e: nat, action: EyeAction)
    requires WorkerOk(c, s, r) && EyeStep(s, s', r, e, action)
    ensures LocalSlots(s, s', s.SlotOf(r, e))
  {
    assert EyeOk(s, s.SlotOf(r, e), EyeOf(s, r, e));
  }

  lemma EyeStepSlot(c: Config, s: State, s': State, r: nat, e: nat, action: EyeAction)
    requires WorkerOk(c, s, r) && SlotOk(s, s.SlotOf(r, e)) && EyeStep(s, s', r, e, action)
    ensures SlotOk(s', s.SlotOf(r, e))
  {
    assert EyeOk(s, s.SlotOf(r, e), EyeOf(s, r, e));
  }

  lemma EyeStepWorker(c: Config, s: State, s': State, r: nat, e: nat, action: EyeAction)
    requires WorkerOk(c, s, r) && EyeStep(s, s', r, e, action)
    ensures WorkerOk(c, s', r)
  {
    var eyes := s'.WorkerOf(r).phase.eyes;
    forall x | 0 <= x < |eyes| ensures EyeOk(s', s'.SlotOf(r, x), eyes[x]) {
      assert EyeOk(s, s.SlotOf(r, x), s.WorkerOf(r).phase.eyes[x]);
      assert s'.SlotOf(r, x) == s.SlotOf(r, x);
    }
  }

  lemma EyeStepKeeps(c: Config, s: State, s': State, r: nat, e: nat, action: EyeAction)
    requires Inv(c, s) && EyeStep(s, s', r, e, action)
    ensures Inv(c, s')
  {
    assert WorkerOk(c, s, r) && SlotOk(s, s.SlotOf(r, e));
    EyeStepLocal(c, s, s', r, e, action);
    EyeStepSlot(c, s, s', r, e, action);
    EyeStepWorker(c, s, s', r, e, action);
    forall m | m in s'.published && m.slot.ring.runtime == r ensures StampOk(s', m) {
      assert StampOk(s, m);
    }
    LocalKeeps(c, s, s', r, s.SlotOf(r, e));
  }

  // Steps of a worker between decoding and publishing.

  lemma WorkStepWorker(c: Config, s: State, s': State, r: nat, action: WorkAction)
    requires WorkerOk(c, s, r) && WorkStep(c, s, s', r, action)
    ensures WorkerOk(c, s', r)
  {
    var phase := s.WorkerOf(r).phase;
    if phase.Decoding? && s'.WorkerOf(r).phase.Publishing? {
      forall e | 0 <= e < |phase.eyes| ensures Ready(s', s'.SlotOf(r, e), Images(phase.eyes)[e]) {
        assert EyeOk(s, s.SlotOf(r, e), phase.eyes[e]);
      }
    }
  }

  lemma WorkStepKeeps(c: Config, s: State, s': State, r: nat, action: WorkAction)
    requires Inv(c, s) && WorkStep(c, s, s', r, action)
    ensures Inv(c, s')
  {
    assert WorkerOk(c, s, r);
    WorkStepWorker(c, s, s', r, action);
    PhaseKeeps(c, s, s', r);
  }

  /** A step that only moves worker `r`. */
  lemma PhaseKeeps(c: Config, s: State, s': State, r: nat)
    requires Inv(c, s) && WorkerOk(c, s', r)
    requires s' == s.(workers := s'.workers) && forall q | q != r :: s'.WorkerOf(q) == s.WorkerOf(q)
    requires s'.WorkerOf(r).phase.Publishing? ==> !Uncommitted(s'.WorkerOf(r).phase.stage)
    ensures Inv(c, s')
  {
    var k := s.SlotOf(r, 0);
    assert SlotOk(s, k) && Local(s, s', r, k);
    forall m | m in s'.published && m.slot.ring.runtime == r ensures StampOk(s', m) {
      assert StampOk(s, m);
    }
    LocalKeeps(c, s, s', r, k);
  }

  // Steps of `publish`.

  lemma AdvanceWorker(c: Config, s: State, r: nat)
    requires WorkerOk(c, s, r) && s.WorkerOf(r).phase.Publishing?
    ensures WorkerOk(c, s.(workers := Advanced(c, s, r)), r)
  {
    var s', w := s.(workers := Advanced(c, s, r)), s.WorkerOf(r);
    if w.phase.eye + 1 < |w.phase.images| {
      forall e | w.phase.eye < e < |w.phase.images| ensures Ready(s', s'.SlotOf(r, e), w.phase.images[e]) {
        assert Ready(s, s.SlotOf(r, e), w.phase.images[e]);
      }
    }
  }

  lemma PublishStepLocal(c: Config, s: State, s': State, r: nat, action: PublishAction)
    requires WorkerOk(c, s, r) && PublishStep(c, s, s', r, action)
    ensures Local(s, s', r, s.SlotOf(r, s.WorkerOf(r).phase.eye))
  {
    hide LocalSlots, WorkerOk, Passes;
    PublishStepLocalSlots(c, s, s', r, action);
    PublishStepFrame(c, s, s', r, action);
  }

  lemma PublishStepLocalSlots(c: Config, s: State, s': State, r: nat, action: PublishAction)
    requires WorkerOk(c, s, r) && PublishStep(c, s, s', r, action)
    ensures LocalSlots(s, s', s.SlotOf(r, s.WorkerOf(r).phase.eye))
  {
    hide PublishStep, WorkerOk, LocalSlots;
    PublishStepGuard(c, s, s', r, action);
    if action.CommitWrite? {
      CommitHoldsLock(c, s, s', r);
    }
    GuardIsLocal(s, s', s.SlotOf(r, s.WorkerOf(r).phase.eye));
  }

  lemma PublishStepGuard(c: Config, s: State, s': State, r: nat, action: PublishAction)
    requires PublishStep(c, s, s', r, action)
    ensures s.WorkerOf(r).phase.Publishing?
    ensures var k := s.SlotOf(r, s.WorkerOf(r).phase.eye);
            && (s'.guards == s.guards || s'.guards == s.guards[k := s'.GuardOf(k)])
            && s'.GuardOf(k).readers == s.GuardOf(k).readers
            && (s'.GuardOf(k).generation == s.GuardOf(k).generation || action.CommitWrite?)
            && s'.pixels == s.pixels
            && (s'.counters == s.counters || s'.counters == s.counters[k := s.CounterOf(k) + 1])
  {
  }

  lemma CommitHoldsLock(c: Config, s: State, s': State, r: nat)
    requires WorkerOk(c, s, r) && PublishStep(c, s, s', r, CommitWrite)
    ensures s.GuardOf(s.SlotOf(r, s.WorkerOf(r).phase.eye)).writer
  {
  }

  lemma GuardIsLocal(s: State, s': State, k: Slot)
    requires s'.guards == s.guards || s'.guards == s.guards[k := s'.GuardOf(k)]
    requires s'.GuardOf(k).readers == s.GuardOf(k).readers
    requires s'.GuardOf(k).generation == s.GuardOf(k).generation || s.GuardOf(k).writer
    requires s'.pixels == s.pixels
    requires s'.counters == s.counters || s'.counters == s.counters[k := s.CounterOf(k) + 1]
    ensures LocalSlots(s, s', k)
  {
  }

  lemma PublishStepSlot(c: Config, s: State, s': State, r: nat, action: PublishAction)
    requires WorkerOk(c, s, r) && PublishStep(c, s, s', r, action)
    requires SlotOk(s, s.SlotOf(r, s.WorkerOf(r).phase.eye))
    ensures SlotOk(s', s.SlotOf(r, s.WorkerOf(r).phase.eye))
  {
  }

  lemma PublishStepWorker(c: Config, s: State, s': State, r: nat, action: PublishAction)
    requires WorkerOk(c, s, r) && PublishStep(c, s, s', r, action)
    ensures WorkerOk(c, s', r)
  {
    if action.CheckPublisher? && !s.mail.started {
      AdvanceWorker(c, s, r);
    } else if !action.Raise? {
      PublishStepStages(c, s, s', r, action);
      hide PublishStep, StageOk;
      var phase := s.WorkerOf(r).phase;
      forall e | phase.eye < e < |phase.images| ensures Ready(s', s'.SlotOf(r, e), phase.images[e]) {
        assert Ready(s, s.SlotOf(r, e), phase.images[e]);
      }
    }
  }

  lemma PublishStepStages(c: Config, s: State, s': State, r: nat, action: PublishAction)
    requires WorkerOk(c, s, r) && PublishStep(c, s, s', r, action)
    requires !action.Raise? && (action.CheckPublisher? ==> s.mail.started)
    ensures s'.WorkerOf(r).phase.Publishing?
    ensures s'.WorkerOf(r) == s.WorkerOf(r).(phase := s.WorkerOf(r).phase.(stage := s'.WorkerOf(r).phase.stage))
    ensures var phase := s'.WorkerOf(r).phase;
            && StageOk(s', s.SlotOf(r, phase.eye), phase.images[phase.eye], phase.stage)
            && s'.pixels == s.pixels
            && forall e | e != phase.eye :: s'.GuardOf(s.SlotOf(r, e)) == s.GuardOf(s.SlotOf(r, e))
  {
  }

  lemma PublishStepStamp(c: Config, s: State, s': State, r: nat, action: PublishAction, m: Message)
    requires WorkerOk(c, s, r) && PublishStep(c, s, s', r, action)
    requires m in s'.published && m.slot.ring.runtime == r && (m in s.published ==> StampOk(s, m))
    ensures StampOk(s', m)
  {
  }

  lemma PublishStepKeeps(c: Config, s: State, s': State, r: nat, action: PublishAction)
    requires Inv(c, s) && PublishStep(c, s, s', r, action)
    ensures Inv(c, s')
  {
    assert WorkerOk(c, s, r) && SlotOk(s, s.SlotOf(r, s.WorkerOf(r).phase.eye));
    PublishStepLocal(c, s, s', r, action);
    PublishStepSlot(c, s, s', r, action);
    PublishStepWorker(c, s, s', r, action);
    forall m | m in s'.published && m.slot.ring.runtime == r ensures StampOk(s', m) {
      assert m in s.published ==> StampOk(s, m);
      PublishStepStamp(c, s, s', r, action, m);
    }
    LocalKeeps(c, s, s', r, s.SlotOf(r, s.WorkerOf(r).phase.eye));
  }

  lemma QueueStepWorker(c: Config, s: State, s': State, r: nat, action: QueueAction)
    requires WorkerOk(c, s, r) && QueueStep(c, s, s', r, action)
    ensures WorkerOk(c, s.(workers := s'.workers), r)
  {
    if s'.workers == Advanced(c, s, r) {
      AdvanceWorker(c, s, r);
    } else {
      var phase, next := s.WorkerOf(r).phase, s.(workers := s'.workers);
      forall e | phase.eye < e < |phase.images| ensures Ready(next, next.SlotOf(r, e), phase.images[e]) {
        assert Ready(s, s.SlotOf(r, e), phase.images[e]);
      }
    }
  }

  lemma QueueStepKeeps(c: Config, s: State, s': State, r: nat, action: QueueAction)
    requires Inv(c, s) && QueueStep(c, s, s', r, action)
    ensures Inv(c, s')
  {
    hide QueueStep;
    assert WorkerOk(c, s, r);
    QueueStepWorker(c, s, s', r, action);
    QueueStepFrame(c, s, s', r, action);
    PhaseKeeps(c, s, s.(workers := s'.workers), r);
    QuietKeeps(c, s.(workers := s'.workers), s');
  }

  // Steps that only take or drop shared locks, or touch no slot.

  /** Generations, writers and pixels stay; only the set of shared lock holders may change. */
  ghost predicate Passive(s: State, s': State) {
    && (forall k :: s'.GuardOf(k).generation == s.GuardOf(k).generation
                    && s'.GuardOf(k).writer == s.GuardOf(k).writer)
    && (forall k :: s'.GuardOf(k).writer ==> s'.GuardOf(k).readers <= s.GuardOf(k).readers)
    && s'.pixels == s.pixels && s'.counters == s.counters
    && s'.workers == s.workers && s'.published == s.published
  }

  lemma PassiveKeeps(c: Config, s: State, s': State)
    requires Inv(c, s) && Passive(s, s')
    requires forall id :: ReadingOk(s', id)
    requires s'.mail.caster.Checking? ==> Broadcaster in s'.GuardOf(s'.mail.caster.message.slot).readers
    ensures Inv(c, s')
  {
    forall k ensures SlotOk(s', k) {
      assert SlotOk(s, k);
    }
    forall q ensures WorkerOk(c, s', q) {
      assert WorkerOk(c, s, q);
      assert forall e :: s'.SlotOf(q, e) == s.SlotOf(q, e);
    }
    forall m | m in s'.published ensures StampOk(s', m) {
      assert StampOk(s, m);
    }
  }

  /** Nothing about slots changes. */
  lemma QuietKeeps(c: Config, s: State, s': State)
    requires Inv(c, s)
    requires s'.guards == s.guards && s'.pixels == s.pixels && s'.counters == s.counters
    requires s'.workers == s.workers && s'.readers == s.readers && s'.published == s.published
    requires s'.mail.caster.Checking? ==> s'.mail.caster == s.mail.caster
    ensures Inv(c, s')
  {
    forall id ensures ReadingOk(s', id) {
      assert ReadingOk(s, id);
    }
    PassiveKeeps(c, s, s');
  }

  /** One reader takes or drops a shared lock on `k`. */
  lemma SharedKeeps(c: Config, s: State, s': State, k: Slot, who: Reader)
    requires Inv(c, s)
    requires s'.guards == s.Unsharing(k, who) || (s'.guards == s.Sharing(k, who) && !s.GuardOf(k).writer)
    requires s'.pixels == s.pixels && s'.counters == s.counters
    requires s'.workers == s.workers && s'.published == s.published
    requires forall id | who != Consumer(id) :: s'.ReadingOf(id) == s.ReadingOf(id)
    requires who.Consumer? ==> ReadingOk(s', who.id) && s'.mail.caster == s.mail.caster
    requires who.Broadcaster? && s'.mail.caster.Checking?
             ==> s'.mail.caster.message.slot == k && s'.guards == s.Sharing(k, who)
    ensures Inv(c, s')
  {
    forall id ensures ReadingOk(s', id) {
      assert ReadingOk(s, id);
    }
    PassiveKeeps(c, s, s') by {
      assert SlotOk(s, k);
    }
  }

  lemma CastStepKeeps(c: Config, s: State, s': State, action: CastAction)
    requires Inv(c, s) && CastStep(s, s', action)
    ensures Inv(c, s')
  {
    hide Inv;
    if action.Check? || (action.TryShared? && !s.GuardOf(s.mail.caster.message.slot).writer) {
      SharedKeeps(c, s, s', s.mail.caster.message.slot, Broadcaster);
    } else {
      QuietKeeps(c, s, s');
    }
  }

  lemma ReadStepKeeps(c: Config, s: State, s': State, id: nat, action: ReadAction)
    requires Inv(c, s) && ReadStep(s, s', id, action)
    ensures Inv(c, s')
  {
    match action {
      case Open(m) =>
        hide Inv;
        SharedKeeps(c, s, s', m.slot, Consumer(id));
      case Compare =>
        if IsCurrent(s, s.ReadingOf(id).message) {
          ValidateKeeps(c, s, id);
        } else {
          hide Inv;
          SharedKeeps(c, s, s', s.ReadingOf(id).message.slot, Consumer(id));
        }
      case Close =>
        hide Inv;
        SharedKeeps(c, s, s', s.ReadingOf(id).message.slot, Consumer(id));
    }
  }

  lemma ValidateKeeps(c: Config, s: State, id: nat)
    requires Inv(c, s) && s.ReadingOf(id).Holding? && IsCurrent(s, s.ReadingOf(id).message)
    ensures Inv(c, s.(readers := s.readers[id := Valid(s.ReadingOf(id).message)]))
  {
    var s' := s.(readers := s.readers[id := Valid(s.ReadingOf(id).message)]);
    forall other ensures ReadingOk(s', other) {
      assert ReadingOk(s, other);
    }
    PassiveKeeps(c, s, s') by {
      hide Inv, ReadingOk;
    }
  }

  lemma ServeStepKeeps(c: Config, s: State, s': State, action: ServeAction)
    requires Inv(c, s) && ServeStep(s, s', action)
    ensures Inv(c, s')
  {
    QuietKeeps(c, s, s');
  }

  lemma NextKeeps(c: Config, s: State, s': State, step: Step)
    requires Inv(c, s) && NextStep(c, s, s', step)
    ensures Inv(c, s')
  {
    hide Inv, EyeStep, WorkStep, PublishStep, QueueStep, CastStep, ReadStep, ServeStep;
    match step {
      case OfEye(r, e, action) => EyeStepKeeps(c, s, s', r, e, action);
      case OfWorker(r, action) => WorkStepKeeps(c, s, s', r, action);
      case OfPublish(r, action) => PublishStepKeeps(c, s, s', r, action);
      case OfQueue(r, action) => QueueStepKeeps(c, s, s', r, action);
      case OfCaster(action) => CastStepKeeps(c, s, s', action);
      case OfReader(id, action) => ReadStepKeeps(c, s, s', id, action);
      case OfServer(action) => ServeStepKeeps(c, s, s', action);
    }
  }

  lemma {:induction false} RunKeeps(c: Config, run: Run, i: nat)
    requires IsRun(c, run) && i < |run.states|
    ensures Inv(c, run.states[i])
  {
    if i > 0 {
      RunKeeps(c, run, i - 1);
      NextKeeps(c, run.states[i - 1], run.states[i], run.steps[i - 1]);
    }
  }

  // ---------------------------------------------------------------- what readers see

  /** In every run the index of every worker stays within its ring, and the next one is taken modulo the
      depth. */
  lemma NextIndexIsModulo(c: Config, run: Run, i: nat, r: nat)
    requires IsRun(c, run) && i < |run.states|
    ensures var index := run.states[i].WorkerOf(r).index;
            index < c.Depth(r) && NextIndex(index, c.Depth(r)) == (index + 1) % c.Depth(r)
  {
    RunKeeps(c, run, i);
    assert WorkerOk(c, run.states[i], r);
    var index, depth := run.states[i].WorkerOf(r).index, c.Depth(r);
    if index + 1 < depth {
      DivModIs(index + 1, depth, 0, index + 1);
    } else {
      DivModIs(index + 1, depth, 1, 0);
    }
  }

  /** The safety property: while `read_frame` has yielded the array of a notification, the slot holds
      exactly the image that was committed under that notification's generation. */
  lemma ReaderSeesPublished(c: Config, run: Run, i: nat, id: nat)
    requires IsRun(c, run) && i < |run.states|
    requires run.states[i].ReadingOf(id).Valid?
    ensures var s, m := run.states[i], run.states[i].ReadingOf(id).message;
            m in s.published && s.PixelsOf(m.slot) == s.published[m]
  {
    RunKeeps(c, run, i);
    var s := run.states[i];
    assert ReadingOk(s, id) && SlotOk(s, s.ReadingOf(id).message.slot);
  }

  /** Only the commit of a generation extends the history of committed images. */
  lemma OnlyCommitPublishes(c: Config, s: State, s': State, step: Step)
    requires NextStep(c, s, s', step)
    ensures s'.published == s.published || (step.OfPublish? && step.publish.CommitWrite?)
  {
    hide Passes, EyeStep, WorkStep, PublishStep, QueueStep, CastStep, ReadStep, ServeStep;
    match step {
      case OfEye(r, e, action) => EyeStepFrame(s, s', r, e, action);
      case OfWorker(r, action) => WorkStepFrame(c, s, s', r, action);
      case OfPublish(r, action) => PublishStepFrame(c, s, s', r, action);
      case OfQueue(r, action) => QueueStepFrame(c, s, s', r, action);
      case OfCaster(action) => CastStepFrame(s, s', action);
      case OfReader(id, action) => ReadStepFrame(s, s', id, action);
      case OfServer(action) => ServeStepFrame(s, s', action);
    }
  }

  lemma EyeStepFrame(s: State, s': State, r: nat, e: nat, action: EyeAction)
    requires EyeStep(s, s', r, e, action)
    ensures s'.published == s.published && s'.mail == s.mail && s'.counters == s.counters
    ensures forall q | q != r :: s'.WorkerOf(q) == s.WorkerOf(q)
  {
  }

  lemma WorkStepFrame(c: Config, s: State, s': State, r: nat, action: WorkAction)
    requires WorkStep(c, s, s', r, action)
    ensures s' == s.(workers := s'.workers)
    ensures Passes(s.WorkerOf(r), s'.WorkerOf(r)) && forall q | q != r :: s'.WorkerOf(q) == s.WorkerOf(q)
  {
  }

  lemma ServeStepFrame(s: State, s': State, action: ServeAction)
    requires ServeStep(s, s', action)
    ensures s' == s.(mail := s'.mail)
  {
  }

  lemma PublishStepFrame(c: Config, s: State, s': State, r: nat, action: PublishAction)
    requires PublishStep(c, s, s', r, action)
    ensures s'.mail == s.mail && (s'.published == s.published || action.CommitWrite?)
    ensures Passes(s.WorkerOf(r), s'.WorkerOf(r)) && forall q | q != r :: s'.WorkerOf(q) == s.WorkerOf(q)
  {
  }

  lemma QueueStepFrame(c: Config, s: State, s': State, r: nat, action: QueueAction)
    requires QueueStep(c, s, s', r, action)
    ensures s' == s.(workers := s'.workers, mail := s'.mail) && s'.mail.caster == s.mail.caster
    ensures s'.WorkerOf(r).phase.Publishing? ==> !Uncommitted(s'.WorkerOf(r).phase.stage)
    ensures Passes(s.WorkerOf(r), s'.WorkerOf(r)) && forall q | q != r :: s'.WorkerOf(q) == s.WorkerOf(q)
  {
  }

  lemma CastStepFrame(s: State, s': State, action: CastAction)
    requires CastStep(s, s', action)
    ensures s'.published == s.published && s'.counters == s.counters && s'.workers == s.workers
  {
  }

  lemma ReadStepFrame(s: State, s': State, id: nat, action: ReadAction)
    requires ReadStep(s, s', id, action)
    ensures s'.published == s.published && s'.counters == s.counters && s'.workers == s.workers && s'.mail == s.mail
  {
  }

  /** What was committed under a notification never changes afterwards. */
  lemma StepKeepsPublished(c: Config, s: State, s': State, step: Step, m: Message)
    requires Inv(c, s) && NextStep(c, s, s', step) && m in s.published
    ensures m in s'.published && s'.published[m] == s.published[m]
  {
    OnlyCommitPublishes(c, s, s', step);
    assert StampOk(s, m);
    if step.OfPublish? && step.publish.CommitWrite? {
      assert WorkerOk(c, s, step.r) && PublishStep(c, s, s', step.r, step.publish);
    } else {
      hide NextStep;
    }
  }

  lemma {:induction false} PublishedIsFinal(c: Config, run: Run, i: nat, j: nat, m: Message)
    requires IsRun(c, run) && i <= j < |run.states| && m in run.states[i].published
    ensures m in run.states[j].published && run.states[j].published[m] == run.states[i].published[m]
    decreases j - i
  {
    hide NextStep, Inv;
    if i < j {
      PublishedIsFinal(c, run, i, j - 1, m);
      RunKeeps(c, run, j - 1);
      StepKeepsPublished(c, run.states[j - 1], run.states[j], run.steps[j - 1], m);
    }
  }

  /** The pixels do not move under a reader, however long it holds the array. */
  lemma PixelsStayUnderReader(c: Config, run: Run, i: nat, j: nat, id: nat)
    requires IsRun(c, run) && i <= j < |run.states|
    requires run.states[i].ReadingOf(id).Valid?
    requires run.states[j].ReadingOf(id) == run.states[i].ReadingOf(id)
    ensures var k := run.states[i].ReadingOf(id).message.slot;
            run.states[j].PixelsOf(k) == run.states[i].PixelsOf(k)
  {
    ReaderSeesPublished(c, run, i, id);
    ReaderSeesPublished(c, run, j, id);
    PublishedIsFinal(c, run, i, j, run.states[i].ReadingOf(id).message);
  }

  /** The slot of eye `e` is being written, or is written and released but not committed yet: the gap that
      lasts from the start of a write, past its release, to the commit. */
  predicate InGap(s: State, r: nat, e: nat) {
    match s.WorkerOf(r).phase
    case Idle => false
    case Decoding(eyes) => e < |eyes| && (eyes[e].Writing? || eyes[e].Settled? || (eyes[e].Released? && eyes[e].ok))
    case Publishing(images, eye, stage) =>
      e < |images| && (eye < e || (e == eye && (stage.Bump? || Uncommitted(stage))))
  }

  /** No reader holds a slot in the gap, and no notification at all would pass the comparison there. */
  lemma UncommittedIsNeverRead(c: Config, run: Run, i: nat, r: nat, e: nat)
    requires IsRun(c, run) && i < |run.states| && InGap(run.states[i], r, e)
    ensures var s := run.states[i];
            && (forall m: Message | m.slot == s.SlotOf(r, e) :: !IsCurrent(s, m))
            && forall id | s.ReadingOf(id).Valid? :: s.ReadingOf(id).message.slot != s.SlotOf(r, e)
  {
    RunKeeps(c, run, i);
    var s := run.states[i];
    assert WorkerOk(c, s, r);
    var phase := s.WorkerOf(r).phase;
    if phase.Decoding? {
      assert EyeOk(s, s.SlotOf(r, e), phase.eyes[e]);
    } else if phase.eye < e {
      assert Ready(s, s.SlotOf(r, e), phase.images[e]);
    }
    assert s.GuardOf(s.SlotOf(r, e)).generation == 0;
    forall id | s.ReadingOf(id).Valid? ensures s.ReadingOf(id).message.slot != s.SlotOf(r, e) {
      assert ReadingOk(s, id);
    }
  }

  /** A step that writes a generation either clears it or writes one that no notification for the slot has had. */
  lemma GenerationMoves(c: Config, s: State, s': State, step: Step, k: Slot)
    requires NextStep(c, s, s', step) && s'.GuardOf(k).generation != s.GuardOf(k).generation
    ensures s'.GuardOf(k).generation == 0
            || (step.OfPublish? && step.publish.CommitWrite? && k == s.SlotOf(step.r, s.WorkerOf(step.r).phase.eye)
                && s'.GuardOf(k).generation == s.WorkerOf(step.r).phase.stage.generation)
    ensures step.OfPublish? && step.publish.CommitWrite? ==> PublishStep(c, s, s', step.r, step.publish)
  {
    hide EyeStep, WorkStep, QueueStep, CastStep, ReadStep, ServeStep, PublishStep;
    match step {
      case OfEye(r, e, action) => EyeStepGeneration(s, s', r, e, action, k);
      case OfWorker(r, action) => WorkStepFrame(c, s, s', r, action);
      case OfPublish(r, action) => PublishStepGeneration(c, s, s', r, action, k);
      case OfQueue(r, action) => QueueStepFrame(c, s, s', r, action);
      case OfCaster(action) => CastStepGeneration(s, s', action, k);
      case OfReader(id, action) => ReadStepGeneration(s, s', id, action, k);
      case OfServer(action) => ServeStepFrame(s, s', action);
    }
  }

  lemma EyeStepGeneration(s: State, s': State, r: nat, e: nat, action: EyeAction, k: Slot)
    requires EyeStep(s, s', r, e, action)
    ensures s'.GuardOf(k).generation == s.GuardOf(k).generation || s'.GuardOf(k).generation == 0
  {
  }

  lemma PublishStepGeneration(c: Config, s: State, s': State, r: nat, action: PublishAction, k: Slot)
    requires PublishStep(c, s, s', r, action)
    ensures s'.GuardOf(k).generation == s.GuardOf(k).generation
            || (action.CommitWrite? && k == s.SlotOf(r, s.WorkerOf(r).phase.eye)
                && s'.GuardOf(k).generation == s.WorkerOf(r).phase.stage.generation)
  {
  }

  lemma CastStepGeneration(s: State, s': State, action: CastAction, k: Slot)
    requires CastStep(s, s', action)
    ensures s'.GuardOf(k).generation == s.GuardOf(k).generation
  {
  }

  lemma ReadStepGeneration(s: State, s': State, id: nat, action: ReadAction, k: Slot)
    requires ReadStep(s, s', id, action)
    ensures s'.GuardOf(k).generation == s.GuardOf(k).generation
  {
  }

  lemma StaleStays(c: Config, s: State, s': State, step: Step, m: Message)
    requires Inv(c, s) && NextStep(c, s, s', step) && m in s.published && !IsCurrent(s, m)
    ensures !IsCurrent(s', m)
  {
    hide NextStep;
    assert StampOk(s, m);
    if s'.GuardOf(m.slot).generation != s.GuardOf(m.slot).generation {
      GenerationMoves(c, s, s', step, m.slot);
    }
  }

  /** Once the slot of a notification carries another generation, that notification never passes the comparison
      again: no reader and no broadcast takes it for current at any later point of the run. */
  lemma {:induction false} StaleNeverValidates(c: Config, run: Run, i: nat, j: nat, m: Message)
    requires IsRun(c, run) && i <= j < |run.states|
    requires m in run.states[i].published && run.states[i].GuardOf(m.slot).generation != m.generation
    ensures !IsCurrent(run.states[j], m) && forall id :: run.states[j].ReadingOf(id) != Valid(m)
    decreases j - i
  {
    hide NextStep;
    RunKeeps(c, run, j);
    if i < j {
      StaleNeverValidates(c, run, i, j - 1, m);
      PublishedIsFinal(c, run, i, j - 1, m);
      RunKeeps(c, run, j - 1);
      StaleStays(c, run.states[j - 1], run.states[j], run.steps[j - 1], m);
    }
    forall id ensures run.states[j].ReadingOf(id) != Valid(m) {
      assert ReadingOk(run.states[j], id);
    }
  }

  // ---------------------------------------------------------------- where committed images come from

  /** Step `b` is the last frame that worker `r` began before state `i`. */
  ghost predicate Began(run: Run, b: nat, i: nat, r: nat) {
    && b < i <= |run.steps| && run.steps[b] == OfWorker(r, Begin)
    && forall x | b < x < i :: run.steps[x] != OfWorker(r, Begin)
  }

  /** The step puts pixels into the slots of ring `ring`. */
  predicate WritesTo(step: Step, ring: Ring) {
    step.OfEye? && step.r == ring.runtime && step.e == ring.eye && (step.eye.Write? || step.eye.Settle?)
  }

  /** Between step `b` and state `i` the decoder of slot `k` completed `image`, and nothing has been written there
      since. */
  ghost predicate Completed(run: Run, b: nat, i: nat, k: Slot, image: Pixels)
    requires i <= |run.steps| < |run.states|
  {
    exists j :: b < j < i && IsCompletion(run, j, k, image) && forall x | j < x < i :: !WritesTo(run.steps[x], k.ring)
  }

  ghost predicate IsCompletion(run: Run, j: nat, k: Slot, image: Pixels)
    requires j < |run.steps| < |run.states|
  {
    && run.steps[j] == OfEye(k.ring.runtime, k.ring.eye, Settle(true, image))
    && run.states[j].SlotOf(k.ring.runtime, k.ring.eye) == k
  }

  /** What worker `r` holds in state `i` was completed in the frame that it began at step `b`. */
  ghost predicate SourcedSince(run: Run, i: nat, r: nat, b: nat)
    requires i < |run.states| == |run.steps| + 1
  {
    var s := run.states[i];
    && Began(run, b, i, r)
    && match s.WorkerOf(r).phase
       case Idle => true
       case Decoding(eyes) =>
         forall e | 0 <= e < |eyes| && Pictured(eyes[e]) :: Completed(run, b, i, s.SlotOf(r, e), eyes[e].image)
       case Publishing(images, _, _) =>
         forall e | 0 <= e < |images| :: Completed(run, b, i, s.SlotOf(r, e), images[e])
  }

  ghost predicate WorkerSourced(run: Run, i: nat, r: nat)
    requires i < |run.states| == |run.steps| + 1
  {
    !run.states[i].WorkerOf(r).phase.Idle? ==> exists b :: SourcedSince(run, i, r, b)
  }

  /** Step `t` commits `image` under the notification `m`, in a frame all of whose eyes were completed since it
      was begun at step `b`. */
  ghost predicate CommitsAt(run: Run, t: nat, b: nat, m: Message, image: Pixels)
    requires |run.states| == |run.steps| + 1
  {
    && t < |run.steps| && run.steps[t] == OfPublish(m.slot.ring.runtime, CommitWrite)
    && var s, r := run.states[t], m.slot.ring.runtime;
       && s.WorkerOf(r).phase.Publishing? && SourcedSince(run, t, r, b)
       && var phase := s.WorkerOf(r).phase;
          && phase.eye < |phase.images| && phase.images[phase.eye] == image
          && m.slot == s.SlotOf(r, phase.eye) && !phase.stage.Bump? && m.generation == phase.stage.generation
  }

  ghost predicate Committed(run: Run, i: nat, m: Message, image: Pixels)
    requires |run.states| == |run.steps| + 1
  {
    exists t, b :: 0 <= t < i && 0 <= b && CommitsAt(run, t, b, m, image)
  }

  lemma CompletedLater(run: Run, b: nat, i: nat, k: Slot, image: Pixels)
    requires i < |run.steps| < |run.states| && Completed(run, b, i, k, image) && !WritesTo(run.steps[i], k.ring)
    ensures Completed(run, b, i + 1, k, image)
  {
    var j :| b < j < i && IsCompletion(run, j, k, image) && forall x | j < x < i :: !WritesTo(run.steps[x], k.ring);
    assert IsCompletion(run, j, k, image);
  }

  lemma CompletedNow(run: Run, b: nat, i: nat, k: Slot, image: Pixels)
    requires b < i < |run.steps| < |run.states|
    requires run.steps[i] == OfEye(k.ring.runtime, k.ring.eye, Settle(true, image))
    requires run.states[i].SlotOf(k.ring.runtime, k.ring.eye) == k
    ensures Completed(run, b, i + 1, k, image)
  {
    assert IsCompletion(run, i, k, image);
  }

  /** The eye holds a completed picture. */
  predicate Pictured(eye: Eye) { (eye.Settled? || eye.Released?) && eye.ok }

  /** An eye step touches one eye only, which holds a picture afterwards only if it has just settled, or held
      that picture before and wrote nothing. */
  lemma EyeMoves(s: State, s': State, r: nat, e: nat, action: EyeAction)
    requires EyeStep(s, s', r, e, action)
    ensures s.WorkerOf(r).phase.Decoding? && s'.WorkerOf(r).phase.Decoding?
    ensures var eyes, eyes' := s.WorkerOf(r).phase.eyes, s'.WorkerOf(r).phase.eyes;
            && |eyes'| == |eyes| && e < |eyes| && (forall x | 0 <= x < |eyes| && x != e :: eyes'[x] == eyes[x])
            && (Pictured(eyes'[e]) ==> action == Settle(true, eyes'[e].image)
                                       || (Pictured(eyes[e]) && eyes'[e].image == eyes[e].image
                                           && !action.Write? && !action.Settle?))
    ensures forall x :: s'.SlotOf(r, x) == s.SlotOf(r, x)
  {
  }

  lemma EyeStaysSourced(run: Run, i: nat, r: nat, b: nat)
    requires |run.states| == |run.steps| + 1 && i + 1 < |run.states| && SourcedSince(run, i, r, b)
    requires run.steps[i].OfEye? && run.steps[i].r == r
    requires EyeStep(run.states[i], run.states[i + 1], r, run.steps[i].e, run.steps[i].eye)
    ensures SourcedSince(run, i + 1, r, b)
  {
    hide Completed, IsCompletion, EyeStep;
    var s, s', e, action := run.states[i], run.states[i + 1], run.steps[i].e, run.steps[i].eye;
    EyeMoves(s, s', r, e, action);
    var eyes, eyes' := s.WorkerOf(r).phase.eyes, s'.WorkerOf(r).phase.eyes;
    forall x | 0 <= x < |eyes'| && Pictured(eyes'[x])
      ensures Completed(run, b, i + 1, s'.SlotOf(r, x), eyes'[x].image)
    {
      if x == e && action == Settle(true, eyes'[x].image) {
        CompletedNow(run, b, i, s.SlotOf(r, e), eyes'[x].image);
      } else {
        assert Completed(run, b, i, s.SlotOf(r, x), eyes[x].image);
        CompletedLater(run, b, i, s.SlotOf(r, x), eyes[x].image);
      }
    }
  }

  /** A step that is not one of the worker's own eyes leaves its pictures alone. */
  lemma OtherStaysSourced(run: Run, i: nat, r: nat, b: nat)
    requires |run.states| == |run.steps| + 1 && i + 1 < |run.states| && SourcedSince(run, i, r, b)
    requires !(run.steps[i].OfEye? && run.steps[i].r == r) && run.steps[i] != OfWorker(r, Begin)
    requires Passes(run.states[i].WorkerOf(r), run.states[i + 1].WorkerOf(r))
    ensures run.states[i + 1].WorkerOf(r).phase.Idle? || SourcedSince(run, i + 1, r, b)
  {
    hide Completed, IsCompletion;
    var s, s' := run.states[i], run.states[i + 1];
    var w, w' := s.WorkerOf(r), s'.WorkerOf(r);
    forall e: nat, image | Completed(run, b, i, s.SlotOf(r, e), image)
      ensures Completed(run, b, i + 1, s.SlotOf(r, e), image)
    {
      CompletedLater(run, b, i, s.SlotOf(r, e), image);
    }
    if w' == w || w'.index == w.index {
      assert forall e :: s'.SlotOf(r, e) == s.SlotOf(r, e);
    }
  }

  lemma BeginIsSourced(c: Config, run: Run, i: nat, r: nat)
    requires IsRun(c, run) && i + 1 < |run.states| && run.steps[i] == OfWorker(r, Begin)
    ensures SourcedSince(run, i + 1, r, i)
  {
    assert NextStep(c, run.states[i], run.states[i + 1], run.steps[i]);
  }

  lemma WorkerStaysSourced(c: Config, run: Run, i: nat, r: nat)
    requires IsRun(c, run) && i + 1 < |run.states| && WorkerSourced(run, i, r)
    ensures WorkerSourced(run, i + 1, r)
  {
    hide SourcedSince, EyeStep, WorkStep, PublishStep, QueueStep, CastStep, ReadStep, ServeStep, Passes;
    var s, s', step := run.states[i], run.states[i + 1], run.steps[i];
    assert NextStep(c, s, s', step);
    if step == OfWorker(r, Begin) {
      BeginIsSourced(c, run, i, r);
    } else if step.OfEye? && step.r == r {
      EyeIsDecoding(s, s', r, step.e, step.eye);
      var b :| SourcedSince(run, i, r, b);
      EyeStaysSourced(run, i, r, b);
    } else {
      WorkerMoves(c, s, s', step, r);
      if s.WorkerOf(r).phase.Idle? {
        IdleStays(c, s, s', step, r);
      } else {
        var b :| SourcedSince(run, i, r, b);
        OtherStaysSourced(run, i, r, b);
      }
    }
  }

  lemma EyeIsDecoding(s: State, s': State, r: nat, e: nat, action: EyeAction)
    requires EyeStep(s, s', r, e, action)
    ensures s.WorkerOf(r).phase.Decoding?
  {
  }

  /** Only the start of a frame takes a worker out of idleness. */
  lemma IdleStays(c: Config, s: State, s': State, step: Step, r: nat)
    requires NextStep(c, s, s', step) && s.WorkerOf(r).phase.Idle? && step != OfWorker(r, Begin)
    ensures s'.WorkerOf(r).phase.Idle?
  {
    hide Passes, CastStep, ReadStep, ServeStep, EyeStep, WorkStep, PublishStep, QueueStep;
    match step {
      case OfEye(q, e, action) =>
        EyeStepFrame(s, s', q, e, action);
        EyeIsDecoding(s, s', q, e, action);
      case OfWorker(q, action) =>
        WorkStepFrame(c, s, s', q, action);
        JoinNeedsDecoding(c, s, s', q, action);
      case OfPublish(q, action) =>
        PublishStepFrame(c, s, s', q, action);
        PublishNeedsPublishing(c, s, s', q, action);
      case OfQueue(q, action) =>
        QueueStepFrame(c, s, s', q, action);
        QueueNeedsPublishing(c, s, s', q, action);
      case OfCaster(action) => CastStepFrame(s, s', action);
      case OfReader(id, action) => ReadStepFrame(s, s', id, action);
      case OfServer(action) => ServeStepFrame(s, s', action);
    }
  }

  lemma JoinNeedsDecoding(c: Config, s: State, s': State, r: nat, action: WorkAction)
    requires WorkStep(c, s, s', r, action)
    ensures action.Begin? || s.WorkerOf(r).phase.Decoding?
  {
  }

  lemma PublishNeedsPublishing(c: Config, s: State, s': State, r: nat, action: PublishAction)
    requires PublishStep(c, s, s', r, action)
    ensures s.WorkerOf(r).phase.Publishing?
  {
  }

  lemma QueueNeedsPublishing(c: Config, s: State, s': State, r: nat, action: QueueAction)
    requires QueueStep(c, s, s', r, action)
    ensures s.WorkerOf(r).phase.Publishing?
  {
  }

  /** Apart from decoding, a worker only ever passes on the images it has. */
  predicate Passes(w: Worker, w': Worker) {
    || w' == w
    || w'.phase.Idle?
    || (w'.phase.Decoding? && forall e | 0 <= e < |w'.phase.eyes| :: w'.phase.eyes[e].Waiting?)
    || (w'.phase.Publishing? && w'.index == w.index && w.phase.Publishing? && w'.phase.images == w.phase.images)
    || (w'.phase.Publishing? && w'.index == w.index && w.phase.Decoding?
        && (forall e | 0 <= e < |w.phase.eyes| :: w.phase.eyes[e].Released? && w.phase.eyes[e].ok)
        && w'.phase.images == Images(w.phase.eyes))
  }

  lemma WorkerMoves(c: Config, s: State, s': State, step: Step, r: nat)
    requires NextStep(c, s, s', step) && !(step.OfEye? && step.r == r)
    ensures Passes(s.WorkerOf(r), s'.WorkerOf(r))
  {
    hide Passes, EyeStep, WorkStep, PublishStep, QueueStep, CastStep, ReadStep, ServeStep;
    PassesSame(s.WorkerOf(r));
    match step {
      case OfEye(q, e, action) => EyeStepFrame(s, s', q, e, action);
      case OfWorker(q, action) => WorkStepFrame(c, s, s', q, action);
      case OfPublish(q, action) => PublishStepFrame(c, s, s', q, action);
      case OfQueue(q, action) => QueueStepFrame(c, s, s', q, action);
      case OfCaster(action) => CastStepFrame(s, s', action);
      case OfReader(id, action) => ReadStepFrame(s, s', id, action);
      case OfServer(action) => ServeStepFrame(s, s', action);
    }
  }

  lemma PassesSame(w: Worker)
    ensures Passes(w, w)
  {
  }

  /** In every state of every run, what a worker holds was completed in the frame it is in, and every committed
      image was committed in a frame all of whose eyes were completed in it. */
  lemma {:induction false} RunIsSourced(c: Config, run: Run, i: nat)
    requires IsRun(c, run) && i < |run.states|
    ensures forall r :: WorkerSourced(run, i, r)
    ensures forall m <- run.states[i].published :: Committed(run, i, m, run.states[i].published[m])
  {
    hide WorkerSourced, Committed, NextStep;
    if i == 0 {
      NothingIsSourced(c, run);
    } else {
      RunIsSourced(c, run, i - 1);
      forall r ensures WorkerSourced(run, i, r) {
        WorkerStaysSourced(c, run, i - 1, r);
      }
      forall m | m in run.states[i].published ensures Committed(run, i, m, run.states[i].published[m]) {
        PublishedIsSourced(c, run, i - 1, m);
      }
    }
  }

  lemma NothingIsSourced(c: Config, run: Run)
    requires IsRun(c, run)
    ensures forall r :: WorkerSourced(run, 0, r)
    ensures run.states[0].published == map[]
  {
  }

  lemma CommitIsSourced(c: Config, run: Run, t: nat, m: Message)
    requires IsRun(c, run) && t + 1 < |run.states| && m in run.states[t + 1].published && m !in run.states[t].published
    requires WorkerSourced(run, t, m.slot.ring.runtime)
    ensures Committed(run, t + 1, m, run.states[t + 1].published[m])
  {
    hide SourcedSince, NextStep;
    var s, s', step, r := run.states[t], run.states[t + 1], run.steps[t], m.slot.ring.runtime;
    assert NextStep(c, s, s', step);
    OnlyCommitPublishes(c, s, s', step);
    CommitIs(c, s, s', step, m);
    var b :| SourcedSince(run, t, r, b);
    BeganIsNat(run, t, r, b);
    assert CommitsAt(run, t, b, m, s'.published[m]);
  }

  lemma BeganIsNat(run: Run, i: nat, r: nat, b: nat)
    requires |run.states| == |run.steps| + 1 && i < |run.states| && SourcedSince(run, i, r, b)
    ensures b < i
  {
  }

  /** The step that commits a notification, seen from the notification. */
  lemma CommitIs(c: Config, s: State, s': State, step: Step, m: Message)
    requires NextStep(c, s, s', step) && step.OfPublish? && step.publish.CommitWrite?
    requires m in s'.published && m !in s.published
    ensures step.r == m.slot.ring.runtime && s.WorkerOf(step.r).phase.Publishing?
    ensures var phase := s.WorkerOf(step.r).phase;
            && phase.eye < |phase.images| && s'.published[m] == phase.images[phase.eye]
            && m.slot == s.SlotOf(step.r, phase.eye) && !phase.stage.Bump? && m.generation == phase.stage.generation
  {
    assert PublishStep(c, s, s', step.r, step.publish);
  }

  lemma PublishedIsSourced(c: Config, run: Run, i: nat, m: Message)
    requires IsRun(c, run) && i + 1 < |run.states| && m in run.states[i + 1].published
    requires WorkerSourced(run, i, m.slot.ring.runtime)
    requires m in run.states[i].published ==> Committed(run, i, m, run.states[i].published[m])
    ensures Committed(run, i + 1, m, run.states[i + 1].published[m])
  {
    hide WorkerSourced, CommitsAt, Inv, NextStep;
    var s, s', step := run.states[i], run.states[i + 1], run.steps[i];
    assert NextStep(c, s, s', step);
    RunKeeps(c, run, i);
    if m in s.published {
      StepKeepsPublished(c, s, s', step, m);
    } else {
      CommitIsSourced(c, run, i, m);
    }
  }

  /** What a consumer sees was completed, for that very slot, in the frame in which its notification was committed,
      and nothing was written there between completion and commit. */
  lemma ReaderSeesACompletedFrame(c: Config, run: Run, i: nat, id: nat)
    requires IsRun(c, run) && i < |run.states|
    requires run.states[i].ReadingOf(id).Valid?
    ensures var m := run.states[i].ReadingOf(id).message;
            exists t, b :: 0 <= t < i && 0 <= b && CommitsAt(run, t, b, m, run.states[i].PixelsOf(m.slot))
                           && Completed(run, b, t, m.slot, run.states[i].PixelsOf(m.slot))
  {
    hide NextStep, Inv, Completed;
    ReaderSeesPublished(c, run, i, id);
    RunIsSourced(c, run, i);
    var s, m := run.states[i], run.states[i].ReadingOf(id).message;
    assert Committed(run, i, m, s.published[m]);
    var t, b :| 0 <= t < i && 0 <= b && CommitsAt(run, t, b, m, s.published[m]);
    var phase := run.states[t].WorkerOf(m.slot.ring.runtime).phase;
    assert Completed(run, b, t, run.states[t].SlotOf(m.slot.ring.runtime, phase.eye), phase.images[phase.eye]);
  }

  /** One eye is committed only in a frame in which every eye of the stream was completed, after the frame was begun
      and undisturbed since. */
  lemma CommitNeedsEveryEye(c: Config, run: Run, i: nat) returns (b: nat)
    requires IsRun(c, run) && i < |run.steps|
    requires run.steps[i].OfPublish? && run.steps[i].publish.CommitWrite?
    ensures var s, r := run.states[i], run.steps[i].r;
            && Began(run, b, i, r)
            && s.WorkerOf(r).phase.Publishing? && |s.WorkerOf(r).phase.images| == c.Cameras(r)
            && forall e | 0 <= e < c.Cameras(r) :: Completed(run, b, i, s.SlotOf(r, e), s.WorkerOf(r).phase.images[e])
  {
    hide Completed;
    RunKeeps(c, run, i);
    RunIsSourced(c, run, i);
    var s, r := run.states[i], run.steps[i].r;
    assert NextStep(c, s, run.states[i + 1], run.steps[i]);
    PublishNeedsPublishing(c, s, run.states[i + 1], r, run.steps[i].publish);
    assert WorkerOk(c, s, r) && WorkerSourced(run, i, r);
    b :| SourcedSince(run, i, r, b);
  }
}
