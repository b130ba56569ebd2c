/** What every interleaving keeps of the notification queue and of each consumer's notifications. */
module SlotDelivery {
  import opened SlotProtocol
  import SlotSafety

  // ---------------------------------------------------------------- the inductive invariant

  /** The queue is what remains of the log, within its capacity, and generations only rise per slot. */
  ghost predicate QueueOk(c: Config, mail: Mail) {
    && mail.taken <= |mail.log|
    && mail.queue == mail.log[mail.taken..]
    && (0 < c.capacity ==> |mail.queue| <= c.capacity)
    && Rising(mail.log)
  }

  /** Two messages for one slot carry strictly rising generations. */
  ghost predicate Rising(log: seq<Message>) {
    forall i, j | 0 <= i < j < |log| && log[i].slot == log[j].slot :: log[i].generation < log[j].generation
  }

  predicate CasterOk(mail: Mail) {
    match mail.caster
    case Listening => true
    case Taken(m, p) => p < mail.taken && p < |mail.log| && mail.log[p] == m
    case Checking(m, p) => p < mail.taken && p < |mail.log| && mail.log[p] == m
    case Sending(m, p, rest, _) => p < mail.taken && p < |mail.log| && mail.log[p] == m && Distinct(rest)
  }

  predicate Distinct(ids: seq<nat>) {
    forall i, j | 0 <= i < j < |ids| :: ids[i] != ids[j]
  }

  /** Positions of the log below which everything a client received lies. */
  predicate Below(mail: Mail, id: nat, p: nat) {
    match mail.caster
    case Listening => p < mail.taken
    case Taken(_, now) => p < now
    case Checking(_, now) => p < now
    case Sending(_, now, rest, _) => if id in rest then p < now else p <= now
  }

  /** A client holds a subsequence of the log, restricted to the rings it subscribed to. */
  ghost predicate ClientOk(mail: Mail, id: nat) {
    var client := mail.ClientOf(id);
    && |client.at| == |client.received|
    && (forall i, j | 0 <= i < j < |client.at| :: client.at[i] < client.at[j])
    && (forall i | 0 <= i < |client.at| ::
          && client.at[i] < |mail.log|
          && mail.log[client.at[i]] == client.received[i]
          && client.received[i].slot.ring in client.rings
          && Below(mail, id, client.at[i]))
    && (!client.joined ==> client.received == [])
  }

  ghost predicate ClientsOk(mail: Mail) {
    && Distinct(mail.clients)
    && (forall id <- mail.clients :: mail.ClientOf(id).joined)
    && (mail.caster.Sending? ==> forall id <- mail.caster.rest :: mail.ClientOf(id).joined)
    && (forall id :: ClientOk(mail, id))
  }

  ghost predicate MailOk(c: Config, mail: Mail) {
    QueueOk(c, mail) && CasterOk(mail) && ClientsOk(mail)
  }

  /** The message a worker is about to enqueue is newer than everything in the log for that slot. */
  ghost predicate NextIsNewer(s: State, r: nat) {
    var phase := s.WorkerOf(r).phase;
    phase.Publishing? && !phase.stage.Bump? ==>
      var k := s.SlotOf(r, phase.eye);
      && phase.stage.generation == s.CounterOf(k)
      && (forall m <- s.mail.log :: m.slot == k ==> m.generation < phase.stage.generation)
      && (phase.stage.CommitWritten? || phase.stage.Put? || phase.stage.MakeRoom? || phase.stage.PutAgain?
          ==> Message(k, phase.stage.generation) in s.published)
  }

  ghost predicate LogOk(s: State) {
    forall m <- s.mail.log :: m in s.published && m.generation <= s.CounterOf(m.slot)
  }

  ghost predicate Inv(c: Config, s: State) {
    MailOk(c, s.mail) && LogOk(s) && forall r :: NextIsNewer(s, r)
  }

  // ---------------------------------------------------------------- preservation: queue and broadcaster

  lemma EnqueueKeeps(c: Config, mail: Mail, m: Message)
    requires MailOk(c, mail) && !c.Full(mail.queue)
    requires forall x <- mail.log :: x.slot == m.slot ==> x.generation < m.generation
    ensures MailOk(c, mail.Enqueue(m))
  {
    var mail' := mail.Enqueue(m);
    assert mail'.log[mail'.taken..] == mail.log[mail.taken..] + [m];
    forall id ensures ClientOk(mail', id) {
      assert ClientOk(mail, id) && mail'.ClientOf(id) == mail.ClientOf(id);
    }
  }

  lemma DequeueKeeps(c: Config, mail: Mail)
    requires MailOk(c, mail) && mail.queue != []
    ensures MailOk(c, mail.Dequeue())
  {
    var mail' := mail.Dequeue();
    forall id ensures ClientOk(mail', id) {
      assert ClientOk(mail, id) && mail'.ClientOf(id) == mail.ClientOf(id);
    }
  }

  lemma TakeKeeps(c: Config, mail: Mail)
    requires MailOk(c, mail) && mail.queue != [] && mail.caster.Listening?
    ensures MailOk(c, mail.Dequeue().(caster := Taken(mail.queue[0], mail.taken)))
  {
    var mail' := mail.Dequeue().(caster := Taken(mail.queue[0], mail.taken));
    forall id ensures ClientOk(mail', id) {
      assert ClientOk(mail, id) && mail'.ClientOf(id) == mail.ClientOf(id);
    }
  }

  /** The broadcaster gives a message up, or goes on to send it to the clients of that moment. */
  lemma CasterMoves(c: Config, mail: Mail, caster: Caster)
    requires MailOk(c, mail) && (mail.caster.Taken? || mail.caster.Checking?)
    requires || caster.Listening?
             || caster == Checking(mail.caster.message, mail.caster.position)
             || caster == Sending(mail.caster.message, mail.caster.position, mail.clients, {})
    ensures MailOk(c, mail.(caster := caster))
  {
    var mail' := mail.(caster := caster);
    forall id ensures ClientOk(mail', id) {
      assert ClientOk(mail, id) && mail'.ClientOf(id) == mail.ClientOf(id);
    }
  }

  lemma SendKeepsClient(mail: Mail, delivered: bool, id: nat)
    requires mail.caster.Sending? && mail.caster.rest != [] && CasterOk(mail)
    requires ClientOk(mail, id)
    requires mail.ClientOf(mail.caster.rest[0]).joined
    ensures ClientOk(SentOne(mail, delivered), id)
  {
    var mail', first := SentOne(mail, delivered), mail.caster.rest[0];
    var client, client' := mail.ClientOf(id), mail'.ClientOf(id);
    assert first !in mail.caster.rest[1..];
    if id != first {
      assert client' == client;
      assert id in mail'.caster.rest <==> id in mail.caster.rest;
    } else {
      hide SentOne, CasterOk;
      forall i | 0 <= i < |client'.at| ensures
        && client'.at[i] < |mail'.log|
        && mail'.log[client'.at[i]] == client'.received[i]
        && client'.received[i].slot.ring in client'.rings
        && Below(mail', id, client'.at[i])
      {
        if i < |client.at| {
          assert Below(mail, id, client.at[i]);
        }
      }
    }
  }

  lemma SendKeeps(c: Config, mail: Mail, delivered: bool)
    requires MailOk(c, mail) && mail.caster.Sending? && mail.caster.rest != []
    ensures MailOk(c, SentOne(mail, delivered))
  {
    hide ClientOk;
    var mail' := SentOne(mail, delivered);
    forall id ensures ClientOk(mail', id) && mail'.ClientOf(id).joined == mail.ClientOf(id).joined {
      SendKeepsClient(mail, delivered, id);
    }
  }

  lemma {:induction false} DroppedKeeps(clients: seq<nat>, dead: set<nat>)
    requires Distinct(clients)
    ensures Distinct(Dropped(clients, dead))
    ensures forall id :: id in Dropped(clients, dead) <==> id in clients && id !in dead
  {
    if clients != [] {
      DroppedKeeps(clients[1..], dead);
      assert clients[0] !in clients[1..];
    }
  }

  lemma DoneKeeps(c: Config, mail: Mail)
    requires MailOk(c, mail) && mail.caster.Sending? && mail.caster.rest == []
    ensures MailOk(c, mail.(caster := Listening, clients := Dropped(mail.clients, mail.caster.dead)))
  {
    var mail' := mail.(caster := Listening, clients := Dropped(mail.clients, mail.caster.dead));
    DroppedKeeps(mail.clients, mail.caster.dead);
    forall id ensures ClientOk(mail', id) {
      assert ClientOk(mail, id) && mail'.ClientOf(id) == mail.ClientOf(id);
    }
  }

  lemma SubscribeKeeps(c: Config, mail: Mail, id: nat, rings: set<Ring>)
    requires MailOk(c, mail) && !mail.ClientOf(id).joined
    ensures MailOk(c, mail.(clients := mail.clients + [id],
                            sessions := mail.sessions[id := Client(true, rings, [], [])]))
  {
    var mail' := mail.(clients := mail.clients + [id],
                       sessions := mail.sessions[id := Client(true, rings, [], [])]);
    forall other ensures ClientOk(mail', other) {
      assert ClientOk(mail, other);
      assert other != id ==> mail'.ClientOf(other) == mail.ClientOf(other);
    }
  }

  // ---------------------------------------------------------------- preservation: every step

  /** Steps that leave the log, the counters and the committed images alone. */
  lemma QuietKeeps(c: Config, s: State, s': State)
    requires Inv(c, s) && MailOk(c, s'.mail) && s'.mail.log == s.mail.log
    requires s'.counters == s.counters && s'.published == s.published
    requires forall r :: s'.WorkerOf(r) == s.WorkerOf(r)
                         || (s'.WorkerOf(r).phase.Publishing? ==> s'.WorkerOf(r).phase.stage.Bump?)
    ensures Inv(c, s')
  {
    hide MailOk;
    assert LogOk(s');
    forall r ensures NextIsNewer(s', r) {
      assert NextIsNewer(s, r);
    }
  }

  lemma EyeStepKeeps(c: Config, s: State, s': State, r: nat, e: nat, action: EyeAction)
    requires Inv(c, s) && EyeStep(s, s', r, e, action)
    ensures Inv(c, s')
  {
    SlotSafety.EyeStepFrame(s, s', r, e, action);
    assert !s'.WorkerOf(r).phase.Publishing?;
    hide EyeStep;
    QuietKeeps(c, s, s');
  }

  lemma WorkStepKeeps(c: Config, s: State, s': State, r: nat, action: WorkAction)
    requires Inv(c, s) && WorkStep(c, s, s', r, action)
    ensures Inv(c, s')
  {
    SlotSafety.WorkStepFrame(c, s, s', r, action);
    assert s'.WorkerOf(r).phase.Publishing? ==> s'.WorkerOf(r).phase.stage.Bump?;
    hide WorkStep, SlotSafety.Passes;
    QuietKeeps(c, s, s');
  }

  lemma PublishStepKeeps(c: Config, s: State, s': State, r: nat, action: PublishAction)
    requires Inv(c, s) && PublishStep(c, s, s', r, action)
    ensures Inv(c, s')
  {
    hide MailOk;
    hide PublishStep, SlotSafety.Passes;
    assert NextIsNewer(s, r);
    PublishStepOwn(c, s, s', r, action);
    PublishStepGrows(c, s, s', r, action);
    SlotSafety.PublishStepFrame(c, s, s', r, action);
    forall q ensures NextIsNewer(s', q) {
      assert NextIsNewer(s, q);
    }
  }

  lemma PublishStepGrows(c: Config, s: State, s': State, r: nat, action: PublishAction)
    requires PublishStep(c, s, s', r, action)
    ensures forall q: Slot | q.ring.runtime != r :: s'.CounterOf(q) == s.CounterOf(q)
    ensures forall q :: s.CounterOf(q) <= s'.CounterOf(q)
    ensures forall m <- s.published :: m in s'.published
  {
  }

  /** The worker that publishes keeps its own claim: a drawn generation is new. */
  lemma PublishStepOwn(c: Config, s: State, s': State, r: nat, action: PublishAction)
    requires LogOk(s) && NextIsNewer(s, r) && PublishStep(c, s, s', r, action)
    ensures NextIsNewer(s', r)
  {
    var phase' := s'.WorkerOf(r).phase;
    if phase'.Publishing? && !phase'.stage.Bump? {
      assert s'.mail == s.mail && s'.SlotOf(r, phase'.eye) == s.SlotOf(r, s.WorkerOf(r).phase.eye);
      if !action.Draw? {
        assert s'.counters == s.counters && phase'.stage.generation == s.WorkerOf(r).phase.stage.generation;
      }
    }
  }

  lemma QueueStepKeeps(c: Config, s: State, s': State, r: nat, action: QueueAction)
    requires Inv(c, s) && QueueStep(c, s, s', r, action)
    ensures Inv(c, s')
  {
    hide MailOk, QueueStep, SlotSafety.Passes;
    assert NextIsNewer(s, r);
    SlotSafety.QueueStepFrame(c, s, s', r, action);
    QueueStepOwn(c, s, s', r, action);
    QueueStepMail(c, s, s', r, action);
    forall q ensures NextIsNewer(s', q) {
      assert NextIsNewer(s, q);
    }
    assert LogOk(s');
    hide LogOk;
    var m := Message(s.SlotOf(r, s.WorkerOf(r).phase.eye), s.WorkerOf(r).phase.stage.generation);
    if s'.mail.log == s.mail.log {
      if s'.mail != s.mail {
        DequeueKeeps(c, s.mail);
      }
    } else {
      EnqueueKeeps(c, s.mail, m);
    }
  }

  lemma QueueStepOwn(c: Config, s: State, s': State, r: nat, action: QueueAction)
    requires NextIsNewer(s, r) && QueueStep(c, s, s', r, action)
    ensures NextIsNewer(s', r)
  {
    hide QueueStep;
    QueueStepStages(c, s, s', r, action);
  }

  lemma QueueStepStages(c: Config, s: State, s': State, r: nat, action: QueueAction)
    requires QueueStep(c, s, s', r, action)
    ensures s.WorkerOf(r).phase.Publishing? && !s.WorkerOf(r).phase.stage.Bump?
    ensures var stage := s.WorkerOf(r).phase.stage; stage.Put? || stage.MakeRoom? || stage.PutAgain?
    ensures s'.counters == s.counters && s'.published == s.published
    ensures var w, w' := s.WorkerOf(r), s'.WorkerOf(r);
            w'.phase.Publishing? && !w'.phase.stage.Bump? ==>
              && s'.mail.log == s.mail.log && w' == w.(phase := w.phase.(stage := w'.phase.stage))
              && w'.phase.stage.generation == w.phase.stage.generation
  {
  }

  lemma QueueStepMail(c: Config, s: State, s': State, r: nat, action: QueueAction)
    requires QueueStep(c, s, s', r, action)
    ensures s.WorkerOf(r).phase.Publishing?
    ensures var stage := s.WorkerOf(r).phase.stage; stage.Put? || stage.MakeRoom? || stage.PutAgain?
    ensures var m := Message(s.SlotOf(r, s.WorkerOf(r).phase.eye), s.WorkerOf(r).phase.stage.generation);
            || s'.mail == s.mail
            || (s.mail.queue != [] && s'.mail == s.mail.Dequeue())
            || (!c.Full(s.mail.queue) && s'.mail == s.mail.Enqueue(m))
  {
  }

  lemma CastStepKeeps(c: Config, s: State, s': State, action: CastAction)
    requires Inv(c, s) && CastStep(s, s', action)
    ensures Inv(c, s')
  {
    hide MailOk;
    SlotSafety.CastStepFrame(s, s', action);
    match action {
      case Take => TakeKeeps(c, s.mail);
      case TryShared => CasterMoves(c, s.mail, s'.mail.caster);
      case Check => CasterMoves(c, s.mail, s'.mail.caster);
      case Send(delivered) => SendKeeps(c, s.mail, delivered);
      case Done => DoneKeeps(c, s.mail);
    }
    QuietKeeps(c, s, s');
  }

  lemma ReadStepKeeps(c: Config, s: State, s': State, id: nat, action: ReadAction)
    requires Inv(c, s) && ReadStep(s, s', id, action)
    ensures Inv(c, s')
  {
    SlotSafety.ReadStepFrame(s, s', id, action);
    hide ReadStep;
    QuietKeeps(c, s, s');
  }

  lemma ServeStepKeeps(c: Config, s: State, s': State, action: ServeAction)
    requires Inv(c, s) && ServeStep(s, s', action)
    ensures Inv(c, s')
  {
    match action {
      case Subscribe(id, rings) =>
        SubscribeKeeps(c, s.mail, id, rings);
      case _ =>
        forall id ensures ClientOk(s'.mail, id) {
          assert ClientOk(s.mail, id) && s'.mail.ClientOf(id) == s.mail.ClientOf(id);
        }
    }
    QuietKeeps(c, s, s');
  }

  lemma NextKeeps(c: Config, s: State, s': State, step: Step)
    requires Inv(c, s) && NextStep(c, s, s', step)
    ensures Inv(c, s')
  {
    hide Inv, EyeStep, WorkStep, PublishStep, QueueStep, CastStep, ReadStep, ServeStep;
    match step {
      case OfEye(r, e, action) => EyeStepKeeps(c, s, s', r, e, action);
      case OfWorker(r, action) => WorkStepKeeps(c, s, s', r, action);
      case OfPublish(r, action) => PublishStepKeeps(c, s, s', r, action);
      case OfQueue(r, action) => QueueStepKeeps(c, s, s', r, action);
      case OfCaster(action) => CastStepKeeps(c, s, s', action);
      case OfReader(id, action) => ReadStepKeeps(c, s, s', id, action);
      case OfServer(action) => ServeStepKeeps(c, s, s', action);
    }
  }

  lemma {:induction false} RunKeeps(c: Config, run: Run, i: nat)
    requires IsRun(c, run) && i < |run.states|
    ensures Inv(c, run.states[i])
  {
    if i > 0 {
      hide NextStep, Inv;
      RunKeeps(c, run, i - 1);
      NextKeeps(c, run.states[i - 1], run.states[i], run.steps[i - 1]);
    }
  }

  // ---------------------------------------------------------------- what consumers receive

  /** The queue stays within its capacity, and holds the newest part of what was put on it. */
  lemma QueueIsBounded(c: Config, run: Run, i: nat)
    requires IsRun(c, run) && i < |run.states|
    ensures 0 < c.capacity ==> |run.states[i].mail.queue| <= c.capacity
    ensures run.states[i].mail.taken <= |run.states[i].mail.log|
    ensures run.states[i].mail.queue == run.states[i].mail.log[run.states[i].mail.taken..]
  {
    RunKeeps(c, run, i);
  }

  /** A client's notifications are a subsequence of publish order, all from its own rings, each of them
      committed with an image. */
  lemma ClientReceivesSubsequence(c: Config, run: Run, i: nat, id: nat)
    requires IsRun(c, run) && i < |run.states|
    ensures var mail, client := run.states[i].mail, run.states[i].mail.ClientOf(id);
            && |client.at| == |client.received|
            && (forall x, y | 0 <= x < y < |client.at| :: client.at[x] < client.at[y])
            && (forall x | 0 <= x < |client.at| ::
                  && client.at[x] < |mail.log|
                  && mail.log[client.at[x]] == client.received[x]
                  && client.received[x].slot.ring in client.rings
                  && client.received[x] in run.states[i].published)
  {
    RunKeeps(c, run, i);
    assert ClientOk(run.states[i].mail, id) && LogOk(run.states[i]);
  }

  /** Per stream and slot, a client sees strictly rising generations. */
  lemma ClientGenerationsRise(c: Config, run: Run, i: nat, id: nat)
    requires IsRun(c, run) && i < |run.states|
    ensures Rising(run.states[i].mail.ClientOf(id).received)
  {
    RunKeeps(c, run, i);
    assert ClientOk(run.states[i].mail, id);
  }
}
