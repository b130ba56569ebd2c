/** A run that ends with a consumer holding an array: the safety properties speak about something. */
module SlotWitness {
  import opened SlotProtocol

  const FIRST := Slot(Ring(0, 0), 0)

  /** One stream of one camera: where its worker is, and the guard of its first slot. */
  predicate Shows(s: State, phase: Phase, guard: Guard) {
    s.mail.started && s.WorkerOf(0) == Worker(0, phase) && s.GuardOf(FIRST) == guard && s.ReadingOf(0) == NoRead
  }

  function Last(run: Run): State
    requires run.states != []
  {
    run.states[|run.states| - 1]
  }

  lemma Goes(c: Config, run: Run, s: State, step: Step) returns (longer: Run)
    requires IsRun(c, run) && NextStep(c, Last(run), s, step)
    ensures IsRun(c, longer) && Last(longer) == s
  {
    hide NextStep;
    longer := Run(run.states + [s], run.steps + [step]);
    var n := |run.steps|;
    forall i | 0 <= i < n + 1 ensures NextStep(c, longer.states[i], longer.states[i + 1], longer.steps[i]) {
      if i < n {
        assert NextStep(c, run.states[i], run.states[i + 1], run.steps[i]);
      }
    }
  }

  lemma Starts(c: Config) returns (run: Run)
    requires c.Cameras(0) == 1
    ensures IsRun(c, run) && Last(run).counters == map[]
    ensures Shows(Last(run), Decoding([Waiting]), Guard(0, false, {}))
  {
    var s0 := State(map[], map[], map[], map[], map[], map[], Mail(false, [], Listening, [], map[], [], 0));
    run := Run([s0], []);
    var s1 := s0.(mail := s0.mail.(started := true));
    assert ServeStep(s0, s1, Start);
    run := Goes(c, run, s1, OfServer(Start));
    var eyes := seq(c.Cameras(0), _ => Waiting);
    var s2 := s1.(workers := s1.Phased(0, Decoding(eyes)));
    assert WorkStep(c, s1, s2, 0, Begin) && eyes == [Waiting];
    run := Goes(c, run, s2, OfWorker(0, Begin));
  }

  lemma EyeGoes(c: Config, run: Run, eye: Eye, guard: Guard, action: EyeAction, eye': Eye, guard': Guard)
    returns (longer: Run)
    requires IsRun(c, run) && Shows(Last(run), Decoding([eye]), guard)
    requires match action
             case Acquire =>
               eye.Waiting? && guard == Guard(0, false, {}) && eye' == Locked && guard' == Guard(0, true, {})
             case Invalidate => eye.Locked? && eye' == Writing && guard' == guard.(generation := 0)
             case Settle(ok, image) => eye.Writing? && eye' == Settled(ok, image) && guard' == guard
             case Release => eye.Settled? && eye' == Released(eye.ok, eye.image) && guard' == guard.(writer := false)
             case _ => false
    ensures IsRun(c, longer) && Shows(Last(longer), Decoding([eye']), guard')
            && Last(longer).counters == Last(run).counters
    ensures Last(longer).PixelsOf(FIRST) == if action.Settle? then action.image else Last(run).PixelsOf(FIRST)
  {
    var s := Last(run);
    assert s.SlotOf(0, 0) == FIRST && s.WorkerOf(0).phase.eyes[0 := eye'] == [eye'];
    var guards := if action.Settle? then s.guards else s.guards[FIRST := guard'];
    var pixels := if action.Settle? then s.pixels[FIRST := action.image] else s.pixels;
    var s' := s.(workers := s.Eyed(0, 0, eye'), guards := guards, pixels := pixels);
    assert EyeStep(s, s', 0, 0, action);
    longer := Goes(c, run, s', OfEye(0, 0, action));
  }

  lemma Joins(c: Config, run: Run, image: Pixels) returns (longer: Run)
    requires IsRun(c, run) && Shows(Last(run), Decoding([Released(true, image)]), Guard(0, false, {}))
    ensures IsRun(c, longer) && Shows(Last(longer), Publishing([image], 0, Bump), Guard(0, false, {}))
    ensures Last(longer).counters == Last(run).counters && Last(longer).pixels == Last(run).pixels
  {
    var s := Last(run);
    var eyes := s.WorkerOf(0).phase.eyes;
    assert eyes[0] == Released(true, image) && Images(eyes) == [image];
    var s' := s.(workers := s.Phased(0, Publishing(Images(eyes), 0, Bump)));
    assert WorkStep(c, s, s', 0, Join);
    longer := Goes(c, run, s', OfWorker(0, Join));
  }

  lemma Draws(c: Config, run: Run, image: Pixels) returns (longer: Run)
    requires IsRun(c, run) && Shows(Last(run), Publishing([image], 0, Bump), Guard(0, false, {}))
    requires Last(run).counters == map[]
    ensures IsRun(c, longer) && Shows(Last(longer), Publishing([image], 0, CheckStarted(1)), Guard(0, false, {}))
    ensures Last(longer).pixels == Last(run).pixels
  {
    var s := Last(run);
    var s' := s.(workers := s.Staged(0, CheckStarted(1)), counters := s.counters[FIRST := 1]);
    assert PublishStep(c, s, s', 0, Draw);
    longer := Goes(c, run, s', OfPublish(0, Draw));
  }

  lemma PublishGoes(c: Config, run: Run, image: Pixels, stage: Stage, guard: Guard, action: PublishAction,
                    stage': Stage, guard': Guard)
    returns (longer: Run)
    requires IsRun(c, run) && Shows(Last(run), Publishing([image], 0, stage), guard)
    requires match action
             case CheckPublisher => stage == CheckStarted(1) && stage' == CommitWait(1) && guard' == guard
             case CommitLock =>
               && stage == CommitWait(1) && guard == Guard(0, false, {})
               && stage' == CommitLocked(1) && guard' == Guard(0, true, {})
             case CommitWrite =>
               stage == CommitLocked(1) && stage' == CommitWritten(1) && guard' == guard.(generation := 1)
             case CommitUnlock => stage == CommitWritten(1) && stage' == Put(1) && guard' == guard.(writer := false)
             case _ => false
    ensures IsRun(c, longer) && Shows(Last(longer), Publishing([image], 0, stage'), guard')
    ensures Last(longer).pixels == Last(run).pixels
  {
    var s := Last(run);
    assert s.SlotOf(0, 0) == FIRST;
    var guards := if action.CheckPublisher? then s.guards else s.guards[FIRST := guard'];
    var published := if action.CommitWrite? then s.published[Message(FIRST, 1) := image] else s.published;
    var s' := s.(workers := s.Staged(0, stage'), guards := guards, published := published);
    assert PublishStep(c, s, s', 0, action);
    longer := Goes(c, run, s', OfPublish(0, action));
  }

  lemma Reads(c: Config, run: Run, phase: Phase) returns (longer: Run)
    requires IsRun(c, run) && Shows(Last(run), phase, Guard(1, false, {}))
    ensures IsRun(c, longer) && Last(longer).ReadingOf(0) == Valid(Message(FIRST, 1))
    ensures Last(longer).pixels == Last(run).pixels
  {
    var s, m := Last(run), Message(FIRST, 1);
    var s1 := s.(readers := s.readers[0 := Holding(m)], guards := s.Sharing(m.slot, Consumer(0)));
    assert ReadStep(s, s1, 0, Open(m));
    longer := Goes(c, run, s1, OfReader(0, Open(m)));
    var s2 := s1.(readers := s1.readers[0 := Valid(m)]);
    assert ReadStep(s1, s2, 0, Compare);
    longer := Goes(c, longer, s2, OfReader(0, Compare));
  }

  lemma Decodes(c: Config, image: Pixels) returns (run: Run)
    requires c.Cameras(0) == 1
    ensures IsRun(c, run) && Shows(Last(run), Publishing([image], 0, Bump), Guard(0, false, {}))
    ensures Last(run).counters == map[] && Last(run).PixelsOf(FIRST) == image
  {
    hide IsRun, Shows;
    var free, held := Guard(0, false, {}), Guard(0, true, {});
    run := Starts(c);
    run := EyeGoes(c, run, Waiting, free, Acquire, Locked, held);
    run := EyeGoes(c, run, Locked, held, Invalidate, Writing, held);
    run := EyeGoes(c, run, Writing, held, Settle(true, image), Settled(true, image), held);
    run := EyeGoes(c, run, Settled(true, image), held, Release, Released(true, image), free);
    run := Joins(c, run, image);
  }

  /** For every image there is a run at whose end a consumer holds an array that shows it. */
  lemma SomeReaderReads(c: Config, image: Pixels) returns (run: Run)
    requires c.Cameras(0) == 1
    ensures IsRun(c, run) && Last(run).ReadingOf(0).Valid?
    ensures Last(run).PixelsOf(Last(run).ReadingOf(0).message.slot) == image
  {
    hide IsRun, Shows;
    var free, held := Guard(0, false, {}), Guard(0, true, {});
    run := Decodes(c, image);
    run := Draws(c, run, image);
    run := PublishGoes(c, run, image, CheckStarted(1), free, CheckPublisher, CommitWait(1), free);
    run := PublishGoes(c, run, image, CommitWait(1), free, CommitLock, CommitLocked(1), held);
    run := PublishGoes(c, run, image, CommitLocked(1), held, CommitWrite, CommitWritten(1), Guard(1, true, {}));
    run := PublishGoes(c, run, image, CommitWritten(1), Guard(1, true, {}), CommitUnlock, Put(1), Guard(1, false, {}));
    run := Reads(c, run, Publishing([image], 0, Put(1)));
  }
}
