/** The write index and the slot generations of one stream. */
module StreamRing {
  import opened Arithmetic

  /** How one received frame of a stream ends.  `Raised(e)`: every eye decoded, but publishing eye `e`
      raised, after the earlier eyes were published. */
  datatype Outcome = Failed | Published | Raised(eye: nat)

  /** What publishing one eye meets: it goes out, the publisher has not been started and returns at once, or it
      raises. */
  datatype Attempt = Announced | NotStarted | Raises

  /** The first eye whose publishing raises, or the number of eyes. */
  function Stop(attempts: seq<Attempt>): (e: nat)
    ensures e <= |attempts| && (e < |attempts| ==> attempts[e].Raises?)
    ensures forall i | 0 <= i < e :: !attempts[i].Raises?
  {
    if attempts == [] then 0
    else if attempts[0].Raises? then 0
    else 1 + Stop(attempts[1..])
  }

  /** Publishing draws a generation for eye `e` before anything can raise. */
  predicate Draws(outcome: Outcome, e: nat) {
    outcome.Published? || (outcome.Raised? && e <= outcome.eye)
  }

  function Successes(frames: seq<Outcome>): nat {
    if frames == [] then 0
    else Successes(frames[..|frames| - 1]) + (if frames[|frames| - 1].Published? then 1 else 0)
  }

  /** The slot frame `i` is written to. */
  function SlotAt(depth: nat, frames: seq<Outcome>, i: nat): nat
    requires 0 < depth && i <= |frames|
  {
    Successes(frames[..i]) % depth
  }

  /** The frames that draw a generation of slot `s` for eye `e`. */
  ghost function Drawing(depth: nat, frames: seq<Outcome>, e: nat, s: nat): set<nat>
    requires 0 < depth
  {
    set i | 0 <= i < |frames| && Draws(frames[i], e) && SlotAt(depth, frames, i) == s
  }

  /** The numbers below `n` that fall on slot `s`. */
  ghost function Visits(depth: nat, n: nat, s: nat): set<nat>
    requires 0 < depth
  {
    set k | 0 <= k < n && k % depth == s
  }

  function Drawn(generations: seq<seq<nat>>, camera: nat, slot: nat, generation: nat): seq<seq<nat>>
    requires camera < |generations| && slot < |generations[camera]|
  {
    var row: seq<nat> := generations[camera][slot := generation];
    generations[camera := row]
  }

  class StreamRuntime {
    const depth: nat
    const cameras: nat
    var writeIndex: nat
    var generations: seq<seq<nat>>
    ghost var frames: seq<Outcome>

    ghost predicate Shaped()
      reads this
    {
      && 0 < depth && (cameras == 1 || cameras == 2)
      && |generations| == cameras
      && (forall e | 0 <= e < cameras :: |generations[e]| == depth)
      && writeIndex < depth
    }

    /** The fields are what the frames so far make them. */
    ghost predicate Valid()
      reads this
    {
      && Shaped()
      && (forall i | 0 <= i < |frames| && frames[i].Raised? :: frames[i].eye < cameras)
      && writeIndex == SlotAt(depth, frames, |frames|)
      && forall e, s | 0 <= e < cameras && 0 <= s < depth ::
           generations[e][s] == |Drawing(depth, frames, e, s)|
    }

    constructor (depth: nat, stereo: bool)
      requires 3 <= depth
      ensures Valid() && frames == [] && this.depth == depth && cameras == if stereo then 2 else 1
    {
      this.depth := depth;
      this.cameras := if stereo then 2 else 1;
      writeIndex := 0;
      generations := seq(if stereo then 2 else 1, _ => seq(depth, _ => 0));
      frames := [];
    }

    method NextGeneration(camera: nat, slot: nat) returns (generation: nat)
      requires Shaped() && camera < cameras && slot < depth
      modifies this`generations
      ensures Shaped()
      ensures generation == old(generations)[camera][slot] + 1
      ensures generations == Drawn(old(generations), camera, slot, generation)
    {
      generation := generations[camera][slot] + 1;
      generations := Drawn(generations, camera, slot, generation);
    }

    /** One frame: `decoded` are the results of the sample threads, `booked` says that the latencies could be worked
        out without raising, `attempts` what publishing each eye meets. `published` maps the eyes that are announced
        to their generations. */
    method ProcessStream(decoded: seq<bool>, booked: bool, attempts: seq<Attempt>)
      returns (published: map<nat, nat>, ghost outcome: Outcome)
      requires Valid() && |attempts| == cameras
      modifies this`writeIndex, this`generations, this`frames
      ensures Valid() && frames == old(frames) + [outcome]
      ensures outcome == if |decoded| != cameras || false in decoded || !booked then Failed
                         else if Stop(attempts) < cameras then Raised(Stop(attempts)) else Published
      ensures outcome.Failed? ==> published == map[]
      ensures !outcome.Failed? ==> Announces(published, attempts, old(writeIndex), old(generations))
    {
      hide SlotAt, Drawing;
      published := map[];
      if |decoded| != cameras || !(forall ok <- decoded :: ok) || !booked {
        outcome := Failed;
        FrameAdds(depth, frames, outcome);
        frames := frames + [outcome];
        return;
      }
      outcome := if Stop(attempts) < cameras then Raised(Stop(attempts)) else Published;
      FrameAdds(depth, frames, outcome);
      var raised;
      published, raised := PublishEyes(attempts);
      if !raised {
        writeIndex := (writeIndex + 1) % depth;
      }
      frames := frames + [outcome];
    }

    /** Draws and publishes for one eye after the other, up to the one that raises. */
    method PublishEyes(attempts: seq<Attempt>) returns (published: map<nat, nat>, raised: bool)
      requires Shaped() && |attempts| == cameras
      modifies this`generations
      ensures Shaped() && (raised <==> Stop(attempts) < cameras)
      ensures Announces(published, attempts, writeIndex, old(generations))
      ensures forall e, s | 0 <= e < cameras && 0 <= s < depth ::
                generations[e][s] == old(generations)[e][s] + (if e <= Stop(attempts) && s == writeIndex then 1 else 0)
    {
      published := map[];
      var camera := 0;
      while camera < cameras
        invariant 0 <= camera <= Stop(attempts)
        invariant Shaped()
        invariant published.Keys == set e | 0 <= e < camera && attempts[e].Announced?
        invariant forall e <- published :: published[e] == old(generations)[e][writeIndex] + 1
        invariant forall e, s | 0 <= e < cameras && 0 <= s < depth ::
                    generations[e][s] == old(generations)[e][s] + (if e < camera && s == writeIndex then 1 else 0)
      {
        var generation := NextGeneration(camera, writeIndex);
        match attempts[camera] {
          case Raises =>
            return published, true;
          case NotStarted =>
          case Announced =>
            published := published[camera := generation];
        }
        camera := camera + 1;
      }
      raised := false;
    }
  }

  /** Of the eyes before the one that raises, those that go out are announced, with the next generation of `slot`. */
  ghost predicate Announces(published: map<nat, nat>, attempts: seq<Attempt>, slot: nat, generations: seq<seq<nat>>)
    requires |attempts| <= |generations| && forall e | 0 <= e < |generations| :: slot < |generations[e]|
  {
    && published.Keys == (set e | 0 <= e < Stop(attempts) && attempts[e].Announced?)
    && forall e <- published :: published[e] == generations[e][slot] + 1
  }

  /** A stereo pair is announced for both eyes or for none exactly if the left publish raises, or both eyes go out,
      or neither does. */
  lemma BothEyesOrNoneIff(published: map<nat, nat>, attempts: seq<Attempt>, slot: nat, generations: seq<seq<nat>>)
    requires |attempts| == 2 <= |generations| && forall e | 0 <= e < |generations| :: slot < |generations[e]|
    requires Announces(published, attempts, slot, generations)
    ensures published.Keys == {} || published.Keys == {0, 1}
            <==> attempts[0].Raises? || (attempts[0].Announced? <==> attempts[1].Announced?)
  {
    var stop := Stop(attempts);
    assert attempts[0].Raises? ==> stop == 0;
    assert !attempts[0].Raises? && attempts[1].Raises? ==> stop == 1;
    assert !attempts[0].Raises? && !attempts[1].Raises? ==> stop == 2;
    assert 0 in published <==> attempts[0].Announced?;
    assert 1 in published <==> !attempts[0].Raises? && attempts[1].Announced?;
  }

  /** With a publisher that stays started or stays stopped over the frame, that is all but a right publish that raises
      after the left eye went out. */
  lemma HalfPairIff(published: map<nat, nat>, attempts: seq<Attempt>, slot: nat, generations: seq<seq<nat>>)
    requires |attempts| == 2 <= |generations| && forall e | 0 <= e < |generations| :: slot < |generations[e]|
    requires Announces(published, attempts, slot, generations)
    requires (forall a <- attempts :: !a.NotStarted?) || (forall a <- attempts :: !a.Announced?)
    ensures !(published.Keys == {} || published.Keys == {0, 1}) <==> attempts == [Announced, Raises]
  {
    BothEyesOrNoneIff(published, attempts, slot, generations);
    assert attempts[0] in attempts && attempts[1] in attempts;
    assert attempts == [attempts[0], attempts[1]];
  }

  // ---------------------------------------------------------------- one more frame

  lemma SlotsStay(depth: nat, frames: seq<Outcome>, outcome: Outcome, i: nat)
    requires 0 < depth && i <= |frames|
    ensures SlotAt(depth, frames + [outcome], i) == SlotAt(depth, frames, i)
  {
    assert (frames + [outcome])[..i] == frames[..i];
  }

  /** A frame moves the index if it was published and draws for the current slot only. */
  lemma FrameAdds(depth: nat, frames: seq<Outcome>, outcome: Outcome)
    requires 0 < depth
    ensures var longer, slot := frames + [outcome], SlotAt(depth, frames, |frames|);
            && SlotAt(depth, longer, |longer|) == (if outcome.Published? then (slot + 1) % depth else slot)
            && forall e, s | 0 <= e && 0 <= s ::
                 |Drawing(depth, longer, e, s)|
                 == |Drawing(depth, frames, e, s)| + (if Draws(outcome, e) && s == slot then 1 else 0)
  {
    hide Drawing;
    var longer, n := frames + [outcome], |frames|;
    assert frames[..n] == frames && longer[..n + 1] == longer;
    SuccessesStep(frames, outcome);
    ModuloSteps(Successes(frames), depth);
    forall e, s | 0 <= e && 0 <= s
      ensures |Drawing(depth, longer, e, s)|
              == |Drawing(depth, frames, e, s)| + (if Draws(outcome, e) && s == SlotAt(depth, frames, n) then 1 else 0)
    {
      DrawingAdds(depth, frames, outcome, e, s);
    }
  }

  lemma DrawingAdds(depth: nat, frames: seq<Outcome>, outcome: Outcome, e: nat, s: nat)
    requires 0 < depth
    ensures |Drawing(depth, frames + [outcome], e, s)|
            == |Drawing(depth, frames, e, s)|
               + (if Draws(outcome, e) && s == SlotAt(depth, frames, |frames|) then 1 else 0)
  {
    hide SlotAt;
    var longer, n := frames + [outcome], |frames|;
    forall i | 0 <= i <= n ensures SlotAt(depth, longer, i) == SlotAt(depth, frames, i) {
      SlotsStay(depth, frames, outcome, i);
    }
    assert forall i | 0 <= i < n :: longer[i] == frames[i];
    assert Drawing(depth, longer, e, s)
        == Drawing(depth, frames, e, s) + (if Draws(outcome, e) && s == SlotAt(depth, frames, n) then {n} else {});
  }

  // ---------------------------------------------------------------- closed forms

  /** Without a raising publish, slot `s` has as many generations as published frames fell on it, for
      every eye alike. */
  lemma {:induction false} GenerationsCountVisits(depth: nat, frames: seq<Outcome>, e: nat, s: nat)
    requires 0 < depth && s < depth && forall i | 0 <= i < |frames| :: !frames[i].Raised?
    ensures |Drawing(depth, frames, e, s)| == |Visits(depth, Successes(frames), s)|
  {
    if frames != [] {
      var n := |frames| - 1;
      var shorter, last := frames[..n], frames[n];
      GenerationsCountVisits(depth, shorter, e, s);
      OneMoreFrame(depth, shorter, last, e, s);
      assert shorter + [last] == frames;
    }
  }

  lemma OneMoreFrame(depth: nat, frames: seq<Outcome>, last: Outcome, e: nat, s: nat)
    requires 0 < depth && s < depth && !last.Raised?
    requires |Drawing(depth, frames, e, s)| == |Visits(depth, Successes(frames), s)|
    ensures |Drawing(depth, frames + [last], e, s)| == |Visits(depth, Successes(frames + [last]), s)|
  {
    hide Drawing, Visits;
    FrameAdds(depth, frames, last);
    SuccessesStep(frames, last);
    VisitsStep(depth, Successes(frames), s);
    assert frames[..|frames|] == frames;
  }

  lemma SuccessesStep(frames: seq<Outcome>, last: Outcome)
    ensures Successes(frames + [last]) == Successes(frames) + if last.Published? then 1 else 0
  {
    assert (frames + [last])[..|frames|] == frames;
  }

  lemma VisitsStep(depth: nat, k: nat, s: nat)
    requires 0 < depth
    ensures |Visits(depth, k + 1, s)| == |Visits(depth, k, s)| + if k % depth == s then 1 else 0
  {
    assert Visits(depth, k + 1, s) == Visits(depth, k, s) + (if k % depth == s then {k} else {});
  }

  /** The quotient and remainder of `depth * q + m` moved up by `depth - 1 - s`. */
  lemma MovedUp(q: nat, m: nat, depth: nat, s: nat)
    requires m <= depth && s < depth
    ensures (depth * q + m + depth - 1 - s) / depth == if m > s then q + 1 else q
  {
    assert depth * (q + 1) == depth * q + depth;
    if m > s {
      DivModIs(depth * q + m + depth - 1 - s, depth, q + 1, m - 1 - s);
    } else {
      DivModIs(depth * q + m + depth - 1 - s, depth, q, m + depth - 1 - s);
    }
  }

  lemma CeilingSteps(n: nat, depth: nat, s: nat)
    requires 0 < n && s < depth
    ensures (n + depth - 1 - s) / depth
            == (n - 1 + depth - 1 - s) / depth + (if (n - 1) % depth == s then 1 else 0)
  {
    var q, m := (n - 1) / depth, (n - 1) % depth;
    assert n - 1 == depth * q + m;
    MovedUp(q, m, depth, s);
    MovedUp(q, m + 1, depth, s);
    assert n == depth * q + (m + 1);
  }

  /** ... which is `ceil((n - s) / depth)`. */
  lemma {:induction false} VisitsInClosedForm(depth: nat, n: nat, s: nat)
    requires 0 < depth && s < depth
    ensures |Visits(depth, n, s)| == (n + depth - 1 - s) / depth
  {
    if n == 0 {
      DivModIs(depth - 1 - s, depth, 0, depth - 1 - s);
    } else {
      VisitsInClosedForm(depth, n - 1, s);
      VisitsStep(depth, n - 1, s);
      CeilingSteps(n, depth, s);
    }
  }

  /** The frames whose left eye drew a generation of slot `s` that the right eye did not. */
  ghost function LeftOnly(depth: nat, frames: seq<Outcome>, s: nat): set<nat>
    requires 0 < depth
  {
    set i | 0 <= i < |frames| && frames[i] == Raised(0) && SlotAt(depth, frames, i) == s
  }

  /** The eyes of a stereo stream stay in step if and only if publishing the left eye never raised; each
      such raise puts the left eye one generation ahead on its slot. */
  lemma EyesAgreeIff(depth: nat, frames: seq<Outcome>)
    requires 0 < depth
    ensures forall s | 0 <= s :: |Drawing(depth, frames, 0, s)|
                                 == |Drawing(depth, frames, 1, s)| + |LeftOnly(depth, frames, s)|
    ensures (forall s | 0 <= s < depth :: |Drawing(depth, frames, 0, s)| == |Drawing(depth, frames, 1, s)|)
       <==> Raised(0) !in frames
  {
    forall s | 0 <= s ensures |Drawing(depth, frames, 0, s)|
                              == |Drawing(depth, frames, 1, s)| + |LeftOnly(depth, frames, s)|
    {
      var left, right, only := Drawing(depth, frames, 0, s), Drawing(depth, frames, 1, s), LeftOnly(depth, frames, s);
      assert left == right + only && right !! only;
    }
    if Raised(0) in frames {
      var i :| 0 <= i < |frames| && frames[i] == Raised(0);
      var s := SlotAt(depth, frames, i);
      assert i in LeftOnly(depth, frames, s);
    } else {
      forall s | 0 <= s < depth ensures |Drawing(depth, frames, 0, s)| == |Drawing(depth, frames, 1, s)| {
        assert LeftOnly(depth, frames, s) == {};
      }
    }
  }

  /** A left publish that raises: one frame is enough to put the eyes out of step. */
  lemma LeftRaiseSplitsEyes()
    ensures |Drawing(3, [Raised(0)], 0, 0)| == 1 && |Drawing(3, [Raised(0)], 1, 0)| == 0
  {
    assert SlotAt(3, [Raised(0)], 0) == 0;
    assert Drawing(3, [Raised(0)], 0, 0) == {0};
    assert Drawing(3, [Raised(0)], 1, 0) == {};
  }
}
