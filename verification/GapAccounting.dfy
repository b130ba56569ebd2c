/** The consumer's count of frames and of overwritten slots. */
module GapAccounting {
  import opened SlotProtocol
  import SlotDelivery

  /** The generations announced for slot `k`, in the order received. */
  function Generations(messages: seq<Message>, k: Slot): seq<nat> {
    if messages == [] then []
    else
      var last := messages[|messages| - 1];
      Generations(messages[..|messages| - 1], k) + (if last.slot == k then [last.generation] else [])
  }

  function Slots(messages: seq<Message>): set<Slot> { set m <- messages :: m.slot }

  /** The generations one announcement skips. */
  function Skipped(previous: nat, generation: nat): nat {
    if generation > previous + 1 then generation - previous - 1 else 0
  }

  function Gaps(generations: seq<nat>): nat {
    if |generations| < 2 then 0
    else
      var n := |generations|;
      Gaps(generations[..n - 1]) + Skipped(generations[n - 2], generations[n - 1])
  }

  predicate StrictlyRising(generations: seq<nat>) {
    forall i, j | 0 <= i < j < |generations| :: generations[i] < generations[j]
  }

  predicate StepsRise(generations: seq<nat>) {
    forall i | 0 < i < |generations| :: generations[i - 1] < generations[i]
  }

  lemma {:induction false} StepsRiseIsStrict(generations: seq<nat>)
    ensures StepsRise(generations) <==> StrictlyRising(generations)
  {
    if |generations| > 0 {
      var shorter := generations[..|generations| - 1];
      StepsRiseIsStrict(shorter);
      if StepsRise(generations) {
        assert StepsRise(shorter);
        forall i, j | 0 <= i < j < |generations| ensures generations[i] < generations[j] {
          if j < |shorter| {
            assert shorter[i] < shorter[j];
          } else if i < j - 1 {
            assert shorter[i] < shorter[j - 1];
          }
        }
      }
    }
  }

  /** Frames received plus frames counted as overwritten never fall short of the generations that
      passed, and they are exactly those if and only if the generations strictly rise. */
  lemma {:induction false} GapsAreExact(generations: seq<nat>)
    requires generations != []
    ensures var passed := generations[|generations| - 1] as int - generations[0] + 1;
            && passed <= |generations| + Gaps(generations)
            && (passed == |generations| + Gaps(generations) <==> StrictlyRising(generations))
  {
    StepsRiseIsStrict(generations);
    var n := |generations|;
    if n > 1 {
      var shorter := generations[..n - 1];
      GapsAreExact(shorter);
      StepsRiseIsStrict(shorter);
      assert StepsRise(generations) <==> StepsRise(shorter) && generations[n - 2] < generations[n - 1] by {
        if StepsRise(shorter) && generations[n - 2] < generations[n - 1] {
          forall i | 0 < i < n ensures generations[i - 1] < generations[i] {
            assert i < n - 1 ==> shorter[i - 1] < shorter[i];
          }
        }
        if StepsRise(generations) {
          forall i | 0 < i < n - 1 ensures shorter[i - 1] < shorter[i] {
            assert generations[i - 1] < generations[i];
          }
        }
      }
    }
  }

  // ---------------------------------------------------------------- sums over slots

  ghost function Sum(slots: set<Slot>, value: Slot -> int): int {
    if slots == {} then 0
    else
      var k :| k in slots;
      value(k) + Sum(slots - {k}, value)
  }

  lemma {:induction false} SumTakesOut(slots: set<Slot>, value: Slot -> int, k: Slot)
    requires k in slots
    ensures Sum(slots, value) == value(k) + Sum(slots - {k}, value)
  {
    var first :| first in slots && Sum(slots, value) == value(first) + Sum(slots - {first}, value);
    if first != k {
      SumTakesOut(slots - {first}, value, k);
      SumTakesOut(slots - {k}, value, first);
      assert slots - {first} - {k} == slots - {k} - {first};
    }
  }

  lemma {:induction false} SumAgrees(slots: set<Slot>, value: Slot -> int, other: Slot -> int)
    requires forall k <- slots :: value(k) == other(k)
    ensures Sum(slots, value) == Sum(slots, other)
  {
    if slots != {} {
      var k :| k in slots;
      SumTakesOut(slots, value, k);
      SumTakesOut(slots, other, k);
      SumAgrees(slots - {k}, value, other);
    }
  }

  ghost function GapsOf(messages: seq<Message>): Slot -> int { k => Gaps(Generations(messages, k)) }

  ghost function CountOf(messages: seq<Message>): Slot -> int { k => |Generations(messages, k)| }

  ghost function PassedOf(messages: seq<Message>): Slot -> int {
    k => var g := Generations(messages, k);
         if g == [] then 0 else g[|g| - 1] as int - g[0] + 1
  }

  // ---------------------------------------------------------------- the accounting loop

  lemma {:induction false} GenerationsOfOthers(messages: seq<Message>, k: Slot)
    ensures k in Slots(messages) <==> Generations(messages, k) != []
  {
    if messages != [] {
      var n := |messages|;
      GenerationsOfOthers(messages[..n - 1], k);
      assert messages == messages[..n - 1] + [messages[n - 1]];
    }
  }

  /** The frames received of one stream. */
  function Frames(messages: seq<Message>, ring: Ring): nat {
    if messages == [] then 0
    else
      var n := |messages| - 1;
      Frames(messages[..n], ring) + (if messages[n].slot.ring == ring then 1 else 0)
  }

  lemma SumChangesAt(slots: set<Slot>, k: Slot, before: Slot -> int, after: Slot -> int)
    requires forall q <- slots :: q != k ==> after(q) == before(q)
    requires k !in slots ==> before(k) == 0
    ensures Sum(slots + {k}, after) == Sum(slots, before) + after(k) - before(k)
  {
    var rest := slots - {k};
    assert slots + {k} - {k} == rest;
    SumTakesOut(slots + {k}, after, k);
    SumAgrees(rest, after, before);
    if k in slots {
      SumTakesOut(slots, before, k);
    } else {
      assert rest == slots;
    }
  }

  lemma OneMoreGeneration(messages: seq<Message>, m: Message, k: Slot)
    ensures Generations(messages + [m], k)
            == Generations(messages, k) + (if k == m.slot then [m.generation] else [])
  {
    assert (messages + [m])[..|messages|] == messages;
  }

  /** One more message changes the sums of its own slot only. */
  lemma OneMore(messages: seq<Message>, m: Message)
    ensures Slots(messages + [m]) == Slots(messages) + {m.slot}
    ensures Sum(Slots(messages + [m]), CountOf(messages + [m])) == Sum(Slots(messages), CountOf(messages)) + 1
    ensures var g := Generations(messages, m.slot);
            Sum(Slots(messages + [m]), GapsOf(messages + [m]))
            == Sum(Slots(messages), GapsOf(messages))
               + (if g == [] then 0 else Skipped(g[|g| - 1], m.generation))
  {
    hide Generations, Sum;
    var longer, k := messages + [m], m.slot;
    assert Slots(longer) == Slots(messages) + {k};
    forall q | q != k ensures Generations(longer, q) == Generations(messages, q) {
      OneMoreGeneration(messages, m, q);
    }
    OneMoreGeneration(messages, m, k);
    var g, g' := Generations(messages, k), Generations(longer, k);
    assert g'[..|g|] == g;
    GenerationsOfOthers(messages, k);
    SumChangesAt(Slots(messages), k, CountOf(messages), CountOf(longer));
    SumChangesAt(Slots(messages), k, GapsOf(messages), GapsOf(longer));
  }

  /** `latest` maps every slot heard of to its last announced generation. */
  ghost predicate IsLatest(messages: seq<Message>, latest: map<Slot, nat>) {
    && latest.Keys == Slots(messages)
    && forall k <- latest :: IsLast(Generations(messages, k), latest[k])
  }

  predicate IsLast(g: seq<nat>, x: nat) { g != [] && x == g[|g| - 1] }

  ghost predicate IsCounted(messages: seq<Message>, counts: map<Ring, nat>) {
    forall ring :: (if ring in counts then counts[ring] else 0) == Frames(messages, ring)
  }

  lemma LatestMoves(messages: seq<Message>, m: Message, latest: map<Slot, nat>)
    requires IsLatest(messages, latest)
    ensures IsLatest(messages + [m], latest[m.slot := m.generation])
    ensures var g := Generations(messages, m.slot);
            (m.slot in latest <==> g != []) && (g != [] ==> latest[m.slot] == g[|g| - 1])
  {
    hide Generations, Slots;
    SlotsAdd(messages, m);
    GenerationsOfOthers(messages, m.slot);
    var next := latest[m.slot := m.generation];
    forall k <- next ensures IsLast(Generations(messages + [m], k), next[k]) {
      OneMoreGeneration(messages, m, k);
    }
  }

  lemma SlotsAdd(messages: seq<Message>, m: Message)
    ensures Slots(messages + [m]) == Slots(messages) + {m.slot}
  {
  }

  lemma CountsMove(messages: seq<Message>, m: Message, counts: map<Ring, nat>)
    requires IsCounted(messages, counts)
    ensures IsCounted(messages + [m],
                      counts[m.slot.ring := (if m.slot.ring in counts then counts[m.slot.ring] else 0) + 1])
  {
    assert (messages + [m])[..|messages|] == messages;
  }

  lemma NothingYet()
    ensures IsLatest([], map[]) && IsCounted([], map[])
    ensures Sum(Slots([]), GapsOf([])) == 0 == Sum(Slots([]), CountOf([]))
  {
  }

  /** The message loop of the consumer: `latest_generation_by_slot`, `counts`, `frames_seen` and the part
      of `overwritten` that counts skipped generations. */
  method Account(messages: seq<Message>)
    returns (latest: map<Slot, nat>, counts: map<Ring, nat>, framesSeen: nat, overwritten: nat)
    ensures IsLatest(messages, latest) && IsCounted(messages, counts)
    ensures overwritten == Sum(Slots(messages), GapsOf(messages))
    ensures framesSeen == |messages| == Sum(Slots(messages), CountOf(messages))
  {
    hide Sum, GapsOf, CountOf, IsCounted, IsLatest, Generations, Slots;
    latest, counts, framesSeen, overwritten := map[], map[], 0, 0;
    assert messages[..0] == [];
    NothingYet();
    for n := 0 to |messages|
      invariant IsLatest(messages[..n], latest) && IsCounted(messages[..n], counts)
      invariant overwritten == Sum(Slots(messages[..n]), GapsOf(messages[..n]))
      invariant framesSeen == n == Sum(Slots(messages[..n]), CountOf(messages[..n]))
    {
      var m := messages[n];
      OneMore(messages[..n], m);
      LatestMoves(messages[..n], m, latest);
      CountsMove(messages[..n], m, counts);
      assert messages[..n + 1] == messages[..n] + [m];
      if m.slot in latest && m.generation > latest[m.slot] + 1 {
        overwritten := overwritten + (m.generation - latest[m.slot] - 1);
      }
      latest := latest[m.slot := m.generation];
      counts := counts[m.slot.ring := (if m.slot.ring in counts then counts[m.slot.ring] else 0) + 1];
      framesSeen := framesSeen + 1;
    }
    assert messages[..|messages|] == messages;
  }

  // ---------------------------------------------------------------- exactness for real runs

  lemma {:induction false} RisingGenerations(messages: seq<Message>, k: Slot)
    requires SlotDelivery.Rising(messages)
    ensures StrictlyRising(Generations(messages, k))
    ensures forall g <- Generations(messages, k) :: exists m <- messages :: m == Message(k, g)
  {
    if messages != [] {
      var n := |messages|;
      var shorter, last := messages[..n - 1], messages[n - 1];
      RisingGenerations(shorter, k);
      var before := Generations(shorter, k);
      if last.slot == k {
        forall g | g in before ensures g < last.generation {
          var m :| m in shorter && m == Message(k, g);
          var i :| 0 <= i < n - 1 && shorter[i] == m;
          assert messages[i].slot == messages[n - 1].slot;
        }
        forall i | 0 <= i < |before| ensures before[i] < last.generation {
          assert before[i] in before;
        }
      }
      assert forall m <- shorter :: m in messages;
      assert last in messages;
    }
  }

  lemma {:induction false} SumAdds(slots: set<Slot>, a: Slot -> int, b: Slot -> int, c: Slot -> int)
    requires forall k <- slots :: a(k) + b(k) == c(k)
    ensures Sum(slots, a) + Sum(slots, b) == Sum(slots, c)
  {
    if slots != {} {
      var k :| k in slots;
      SumTakesOut(slots, a, k);
      SumTakesOut(slots, b, k);
      SumTakesOut(slots, c, k);
      SumAdds(slots - {k}, a, b, c);
    }
  }

  /** For the notifications any client holds at any point of any run, per slot and in total: received
      plus overwritten is last minus first generation plus one. */
  lemma AccountingIsExact(c: Config, run: Run, i: nat, id: nat)
    requires IsRun(c, run) && i < |run.states|
    ensures var messages := run.states[i].mail.ClientOf(id).received;
            && (forall k <- Slots(messages) ::
                  CountOf(messages)(k) + GapsOf(messages)(k) == PassedOf(messages)(k))
            && Sum(Slots(messages), CountOf(messages)) + Sum(Slots(messages), GapsOf(messages))
               == Sum(Slots(messages), PassedOf(messages))
  {
    SlotDelivery.ClientGenerationsRise(c, run, i, id);
    hide IsRun;
    var messages := run.states[i].mail.ClientOf(id).received;
    forall k | k in Slots(messages)
      ensures CountOf(messages)(k) + GapsOf(messages)(k) == PassedOf(messages)(k)
    {
      RisingGenerations(messages, k);
      GenerationsOfOthers(messages, k);
      GapsAreExact(Generations(messages, k));
    }
    SumAdds(Slots(messages), CountOf(messages), GapsOf(messages), PassedOf(messages));
  }
}
