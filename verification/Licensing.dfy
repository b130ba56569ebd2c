/** License identification: thresholds on shared n-grams, dropping dominated matches within a family of
    near-identical texts, and grouping the matches that are left.

    Thresholds and scores are exact rationals. */
module Licensing {
  import opened Sets

  /** An n-gram of normalized words, numbered. */
  type Gram = nat

  type Text = set<Gram>

  /** The reference texts by license identifier. */
  datatype Corpus = Corpus(texts: map<string, Text>) {
    /** Texts without n-grams are not loaded. */
    predicate Valid() { forall id <- texts :: texts[id] != {} }
  }

  function Min(a: nat, b: nat): nat { if a <= b then a else b }

  /** At least 0.90 of the reference is in the input and at least 0.20 of the input is in the reference. */
  predicate Passes(c: Corpus, input: Text, id: string) {
    && id in c.texts
    && var overlap := |c.texts[id] * input|;
       0 < overlap && 10 * overlap >= 9 * |c.texts[id]| && 5 * overlap >= |input|
  }

  function Score(c: Corpus, input: Text, id: string): real {
    if id !in c.texts || c.texts[id] + input == {} then 0.0
    else |c.texts[id] * input| as real / |c.texts[id] + input| as real
  }

  /** At least 0.90 of the smaller text is in the other one. */
  predicate Family(c: Corpus, a: string, b: string) {
    && a in c.texts && b in c.texts
    && 10 * |c.texts[a] * c.texts[b]| >= 9 * Min(|c.texts[a]|, |c.texts[b]|)
  }

  lemma FamilyIsSymmetric(c: Corpus, a: string, b: string)
    ensures Family(c, a, b) <==> Family(c, b, a)
  {
    if a in c.texts && b in c.texts {
      assert c.texts[a] * c.texts[b] == c.texts[b] * c.texts[a];
    }
  }

  lemma FamilyIsReflexive(c: Corpus, a: string)
    requires a in c.texts
    ensures Family(c, a, a)
  {
    assert c.texts[a] * c.texts[a] == c.texts[a];
  }

  /** `winner` is in the family of `loser` and scores higher. */
  predicate Beats(c: Corpus, input: Text, winner: string, loser: string) {
    loser != winner && Family(c, loser, winner) && Score(c, input, winner) > Score(c, input, loser)
  }

  // ---------------------------------------------------------------- dropping dominated matches

  /** The matches dropped after looking at the first `n`, one after another. */
  function Dropped(c: Corpus, input: Text, order: seq<string>, n: nat): (dropped: set<string>)
    requires n <= |order|
    ensures forall id <- dropped :: id in order[..n]
  {
    if n == 0 then {}
    else
      var before := Dropped(c, input, order, n - 1);
      assert order[..n] == order[..n - 1] + [order[n - 1]];
      if exists right <- order :: right !in before && Beats(c, input, right, order[n - 1])
      then before + {order[n - 1]} else before
  }

  function Kept(c: Corpus, input: Text, order: seq<string>): set<string> {
    (set id <- order) - Dropped(c, input, order, |order|)
  }

  method Dominated(c: Corpus, input: Text, order: seq<string>) returns (dropped: set<string>)
    ensures dropped == Dropped(c, input, order, |order|)
  {
    dropped := {};
    for i := 0 to |order|
      invariant dropped == Dropped(c, input, order, i)
    {
      var left := order[i];
      var beaten := false;
      for j := 0 to |order|
        invariant dropped == Dropped(c, input, order, i)
        invariant !beaten && forall right <- order[..j] :: right in dropped || !Beats(c, input, right, left)
      {
        var right := order[j];
        if left == right || right in dropped {
          continue;
        }
        if Family(c, left, right) && Score(c, input, right) > Score(c, input, left) {
          beaten := true;
          break;
        }
      }
      if beaten {
        dropped := dropped + {left};
      }
    }
  }

  /** Identification of a text, `order` being the identifiers of the corpus as it iterates over them. */
  method Identify(c: Corpus, input: Text, order: seq<string>) returns (matches: set<string>)
    requires c.Valid() && Lists(order, c.texts.Keys)
    ensures matches == Kept(c, input, Matching(c, input, order))
  {
    var scored := [];
    for i := 0 to |order|
      invariant scored == Matching(c, input, order[..i])
    {
      assert order[..i + 1][..i] == order[..i];
      var overlap := |c.texts[order[i]] * input|;
      if overlap != 0 {
        if 10 * overlap >= 9 * |c.texts[order[i]]| && 5 * overlap >= |input| {
          scored := scored + [order[i]];
        }
      }
    }
    assert order[..|order|] == order;
    var dropped := Dominated(c, input, scored);
    matches := (set id <- scored) - dropped;
  }

  function Matching(c: Corpus, input: Text, order: seq<string>): seq<string> {
    if order == [] then []
    else
      var n := |order| - 1;
      Matching(c, input, order[..n]) + if Passes(c, input, order[n]) then [order[n]] else []
  }

  /** `order` lists each element of `ids` once. */
  ghost predicate Lists(order: seq<string>, ids: set<string>) {
    && (forall i, j | 0 <= i < j < |order| :: order[i] != order[j])
    && (forall id :: id in order <==> id in ids)
  }

  // ---------------------------------------------------------------- what every order keeps

  lemma {:induction false} DroppedGrows(c: Corpus, input: Text, order: seq<string>, m: nat, n: nat)
    requires m <= n <= |order|
    ensures Dropped(c, input, order, m) <= Dropped(c, input, order, n)
  {
    if m < n {
      DroppedGrows(c, input, order, m, n - 1);
    }
  }

  /** A kept match is beaten by no kept match, so kept matches of one family are tied. */
  lemma KeptAreTied(c: Corpus, input: Text, order: seq<string>, a: string, b: string)
    requires a in Kept(c, input, order) && b in Kept(c, input, order) && Family(c, a, b)
    ensures Score(c, input, a) == Score(c, input, b)
  {
    FamilyIsSymmetric(c, a, b);
    if Score(c, input, a) < Score(c, input, b) {
      NotBeatenByKept(c, input, order, a, b);
    } else if Score(c, input, b) < Score(c, input, a) {
      NotBeatenByKept(c, input, order, b, a);
    }
  }

  lemma NotBeatenByKept(c: Corpus, input: Text, order: seq<string>, a: string, b: string)
    requires a in Kept(c, input, order) && b in Kept(c, input, order)
    ensures !Beats(c, input, b, a)
  {
    hide Score, Family;
    var i :| 0 <= i < |order| && order[i] == a;
    DroppedGrows(c, input, order, i, |order|);
    DroppedGrows(c, input, order, i + 1, |order|);
  }

  /** A match that nothing beats is kept in every order. */
  lemma {:induction false} UnbeatenIsKept(c: Corpus, input: Text, order: seq<string>, a: string, n: nat)
    requires n <= |order| && forall b <- order :: !Beats(c, input, b, a)
    ensures a !in Dropped(c, input, order, n)
  {
    hide Beats;
    if n > 0 {
      UnbeatenIsKept(c, input, order, a, n - 1);
    }
  }

  /** The best match is kept in every order. */
  lemma BestIsKept(c: Corpus, input: Text, order: seq<string>, a: string)
    requires a in order && forall b <- order :: Score(c, input, b) <= Score(c, input, a)
    ensures a in Kept(c, input, order)
  {
    hide Score;
    UnbeatenIsKept(c, input, order, a, |order|);
  }

  /** A rising chain from `a` to `b`: each match is beaten by the next one. */
  ghost predicate Chain(c: Corpus, input: Text, order: seq<string>, path: seq<string>, a: string, b: string) {
    && 1 < |path| && path[0] == a && path[|path| - 1] == b
    && (forall id <- path :: id in order)
    && forall i | 0 <= i < |path| - 1 :: Beats(c, input, path[i + 1], path[i])
  }

  /** Each dropped match is below some kept match of higher score, along a chain within families. */
  lemma {:induction false} DroppedIsBelowKept(c: Corpus, input: Text, order: seq<string>, a: string)
    returns (path: seq<string>, b: string)
    requires a in Dropped(c, input, order, |order|)
    ensures Chain(c, input, order, path, a, b) && b in Kept(c, input, order)
    ensures Score(c, input, b) > Score(c, input, a)
    decreases |Above(c, input, order, a)|
  {
    hide Score, Family;
    var r := Beater(c, input, order, a, |order|);
    BeatenIsBelow(c, input, r, a);
    if r in Kept(c, input, order) {
      path, b := [a, r], r;
    } else {
      AboveShrinks(c, input, order, a, r);
      var rest;
      rest, b := DroppedIsBelowKept(c, input, order, r);
      path := [a] + rest;
    }
  }

  function Above(c: Corpus, input: Text, order: seq<string>, a: string): set<string> {
    set id <- order | Score(c, input, id) > Score(c, input, a)
  }

  lemma BeatenIsBelow(c: Corpus, input: Text, winner: string, loser: string)
    requires Beats(c, input, winner, loser)
    ensures Score(c, input, winner) > Score(c, input, loser)
  {
  }

  lemma AboveShrinks(c: Corpus, input: Text, order: seq<string>, a: string, r: string)
    requires r in order && Score(c, input, r) > Score(c, input, a)
    ensures |Above(c, input, order, r)| < |Above(c, input, order, a)|
  {
    hide Score;
    var low, high := Above(c, input, order, r), Above(c, input, order, a);
    assert low <= high - {r};
    SubsetSize(low, high - {r});
  }

  lemma {:induction false} Beater(c: Corpus, input: Text, order: seq<string>, a: string, n: nat) returns (r: string)
    requires n <= |order| && a in Dropped(c, input, order, n)
    ensures r in order && a in order && Beats(c, input, r, a)
  {
    hide Beats;
    var before := Dropped(c, input, order, n - 1);
    if a in before {
      r := Beater(c, input, order, a, n - 1);
    } else {
      r :| r in order && r !in before && Beats(c, input, r, order[n - 1]);
    }
  }

  // ---------------------------------------------------------------- when the order does not matter

  predicate Beaten(c: Corpus, input: Text, ids: set<string>, a: string) {
    exists b <- ids :: Beats(c, input, b, a)
  }

  /** Every match that is beaten is beaten by one that is not. */
  predicate Capped(c: Corpus, input: Text, ids: set<string>) {
    forall a <- ids | Beaten(c, input, ids, a) ::
      exists b <- ids :: Beats(c, input, b, a) && !Beaten(c, input, ids, b)
  }

  function Unbeaten(c: Corpus, input: Text, ids: set<string>): set<string> {
    set a <- ids | !Beaten(c, input, ids, a)
  }

  lemma CappedKeepsUnbeaten(c: Corpus, input: Text, ids: set<string>, order: seq<string>)
    requires Capped(c, input, ids) && Lists(order, ids)
    ensures Kept(c, input, order) == Unbeaten(c, input, ids)
  {
    hide Beats, Dropped;
    forall a <- ids ensures a in Kept(c, input, order) <==> !Beaten(c, input, ids, a) {
      if Beaten(c, input, ids, a) {
        var b :| b in ids && Beats(c, input, b, a) && !Beaten(c, input, ids, b);
        UnbeatenIsKept(c, input, order, b, |order|);
        if a in Kept(c, input, order) {
          NotBeatenByKept(c, input, order, a, b);
        }
      } else {
        UnbeatenIsKept(c, input, order, a, |order|);
      }
    }
  }

  /** Listed by rising score. */
  predicate Rising(c: Corpus, input: Text, order: seq<string>) {
    forall i, j | 0 <= i < j < |order| :: Score(c, input, order[i]) <= Score(c, input, order[j])
  }

  lemma {:induction false} Lowest(c: Corpus, input: Text, ids: set<string>) returns (a: string)
    requires ids != {}
    ensures a in ids && forall b <- ids :: Score(c, input, a) <= Score(c, input, b)
  {
    hide Score;
    a :| a in ids;
    assert forall b <- ids :: b == a || b in ids - {a};
    if ids - {a} != {} {
      var b := Lowest(c, input, ids - {a});
      if Score(c, input, b) < Score(c, input, a) {
        a := b;
      }
    }
  }

  lemma {:induction false} RisingList(c: Corpus, input: Text, ids: set<string>) returns (order: seq<string>)
    ensures Lists(order, ids) && Rising(c, input, order)
  {
    hide Score;
    if ids == {} {
      order := [];
    } else {
      var a := Lowest(c, input, ids);
      var rest := RisingList(c, input, ids - {a});
      order := [a] + rest;
    }
  }

  /** In a rising list nothing is dropped before what it beats has been looked at, whatever follows. */
  lemma {:induction false} RisingDropsBeaten(c: Corpus, input: Text, ids: set<string>, order: seq<string>, m: nat,
                                             n: nat)
    requires Lists(order, ids) && n <= m <= |order| && Rising(c, input, order[..m])
    ensures forall i | 0 <= i < n :: Beaten(c, input, ids, order[i]) ==> order[i] in Dropped(c, input, order, n)
  {
    hide Score, Family, Beats, Dropped, Rising;
    if n > 0 {
      RisingDropsBeaten(c, input, ids, order, m, n - 1);
      var a := order[n - 1];
      DroppedGrows(c, input, order, n - 1, n);
      if Beaten(c, input, ids, a) {
        var b :| b in ids && Beats(c, input, b, a);
        BeatenIsBelow(c, input, b, a);
        HigherComesLater(c, input, order, m, n, b);
        DropsBeaten(c, input, order, n, b);
      }
    }
  }

  lemma HigherComesLater(c: Corpus, input: Text, order: seq<string>, m: nat, n: nat, b: string)
    requires 0 < n <= m <= |order| && Rising(c, input, order[..m])
    requires Score(c, input, b) > Score(c, input, order[n - 1])
    ensures b !in order[..n - 1]
  {
    hide Score;
    forall i | 0 <= i < n - 1 ensures order[i] != b {
      assert order[..m][i] == order[i] && order[..m][n - 1] == order[n - 1];
    }
  }

  lemma DropsBeaten(c: Corpus, input: Text, order: seq<string>, n: nat, b: string)
    requires 0 < n <= |order| && b in order && b !in order[..n - 1] && Beats(c, input, b, order[n - 1])
    ensures order[n - 1] in Dropped(c, input, order, n)
  {
    hide Beats;
  }

  /** Listed by rising score, every beaten match is dropped. */
  lemma RisingDropsAll(c: Corpus, input: Text, ids: set<string>, order: seq<string>, a: string)
    requires Lists(order, ids) && Rising(c, input, order) && a in ids && Beaten(c, input, ids, a)
    ensures a !in Kept(c, input, order)
  {
    hide Beats, Dropped, Score, Beaten;
    assert order[..|order|] == order;
    RisingDropsBeaten(c, input, ids, order, |order|, |order|);
    var i :| 0 <= i < |order| && order[i] == a;
  }

  /** Put last, a match is kept if all that beat it are themselves beaten. */
  lemma LastSurvives(c: Corpus, input: Text, ids: set<string>, others: seq<string>, a: string)
    requires a in ids && Lists(others, ids - {a}) && Rising(c, input, others)
    requires forall b <- ids :: Beats(c, input, b, a) ==> Beaten(c, input, ids, b)
    ensures Lists(others + [a], ids) && a in Kept(c, input, others + [a])
  {
    hide Beats, Dropped, Score, Beaten, Kept;
    var order := others + [a];
    ListGrows(others, ids, a);
    assert order[..|others|] == others;
    RisingDropsBeaten(c, input, ids, order, |others|, |others|);
    LastIsKept(c, input, ids, order, a);
  }

  lemma ListGrows(others: seq<string>, ids: set<string>, a: string)
    requires a in ids && Lists(others, ids - {a})
    ensures Lists(others + [a], ids)
  {
  }

  lemma UncappedDepends(c: Corpus, input: Text, ids: set<string>) returns (one: seq<string>, two: seq<string>)
    requires !Capped(c, input, ids)
    ensures Lists(one, ids) && Lists(two, ids) && Kept(c, input, one) != Kept(c, input, two)
  {
    hide Beats, Score, Beaten, Kept, Lists, Rising;
    var a :| a in ids && Beaten(c, input, ids, a)
             && forall b <- ids :: Beats(c, input, b, a) ==> Beaten(c, input, ids, b);
    one := RisingList(c, input, ids);
    RisingDropsAll(c, input, ids, one, a);
    var others := RisingList(c, input, ids - {a});
    LastSurvives(c, input, ids, others, a);
    two := others + [a];
  }

  lemma LastIsKept(c: Corpus, input: Text, ids: set<string>, order: seq<string>, a: string)
    requires Lists(order, ids) && order != [] && order[|order| - 1] == a
    requires forall b <- ids :: Beats(c, input, b, a) ==> Beaten(c, input, ids, b)
    requires forall i | 0 <= i < |order| - 1 ::
               Beaten(c, input, ids, order[i]) ==> order[i] in Dropped(c, input, order, |order| - 1)
    ensures a in Kept(c, input, order)
  {
    hide Score, Family;
    var before := Dropped(c, input, order, |order| - 1);
    forall right <- order ensures right in before || !Beats(c, input, right, a) {
    }
  }

  /** What is kept is the same for every order of the corpus exactly if every beaten match is beaten by an
      unbeaten one; then it is the unbeaten matches. */
  lemma OrderFreeIff(c: Corpus, input: Text, ids: set<string>)
    ensures Capped(c, input, ids) <==>
            forall one, two | Lists(one, ids) && Lists(two, ids) :: Kept(c, input, one) == Kept(c, input, two)
  {
    hide Capped, Kept, Lists;
    if Capped(c, input, ids) {
      forall one, two | Lists(one, ids) && Lists(two, ids) ensures Kept(c, input, one) == Kept(c, input, two) {
        CappedKeepsUnbeaten(c, input, ids, one);
        CappedKeepsUnbeaten(c, input, ids, two);
      }
    } else {
      var one, two := UncappedDepends(c, input, ids);
    }
  }

  // ---------------------------------------------------------------- an order that matters

  /** The grams `lo` to `hi - 1`. */
  function Span(lo: nat, hi: nat): (s: Text)
    requires lo <= hi
    ensures |s| == hi - lo && forall x: Gram :: x in s <==> lo <= x < hi
    decreases hi
  {
    if lo == hi then {} else Span(lo, hi - 1) + {hi - 1}
  }

  lemma SpansMeet(a: nat, b: nat, a': nat, b': nat)
    requires a <= a' < b <= b'
    ensures |Span(a, b) * Span(a', b')| == |Span(a', b') * Span(a, b)| == b - a'
    ensures |Span(a, b) + Span(a', b')| == |Span(a', b') + Span(a, b)| == b' - a
  {
    hide Span;
    assert Span(a, b) * Span(a', b') == Span(a', b);
    assert Span(a', b') * Span(a, b) == Span(a', b);
    assert Span(a, b) + Span(a', b') == Span(a, b');
    assert Span(a', b') + Span(a, b) == Span(a, b');
  }

  function ThreeLicenses(): Corpus {
    Corpus(map["A" := Span(0, 10), "B" := Span(1, 11), "C" := Span(2, 14)])
  }

  lemma ThreePass()
    ensures var c, input := ThreeLicenses(), Span(1, 14);
            && c.Valid() && Passes(c, input, "A") && Passes(c, input, "B") && Passes(c, input, "C")
            && Score(c, input, "A") < Score(c, input, "B") < Score(c, input, "C")
  {
    hide Span;
    SpansMeet(0, 10, 1, 14);
    SpansMeet(1, 11, 1, 14);
    SpansMeet(1, 14, 2, 14);
    var c, input := ThreeLicenses(), Span(1, 14);
    assert 0 in c.texts["A"] && 1 in c.texts["B"] && 2 in c.texts["C"] && 1 in input;
    assert Score(c, input, "A") == 9.0 / 14.0;
    assert Score(c, input, "B") == 10.0 / 13.0;
    assert Score(c, input, "C") == 12.0 / 13.0;
  }

  lemma ThreeFamilies()
    ensures var c := ThreeLicenses(); Family(c, "A", "B") && Family(c, "B", "C") && !Family(c, "A", "C")
  {
    hide Span;
    SpansMeet(0, 10, 1, 11);
    SpansMeet(1, 11, 2, 14);
    SpansMeet(0, 10, 2, 14);
  }

  lemma FirstIsDropped(c: Corpus, input: Text, order: seq<string>, right: string)
    requires order != [] && right in order && Beats(c, input, right, order[0])
    ensures order[0] in Dropped(c, input, order, 1)
  {
    hide Beats;
    assert Dropped(c, input, order, 0) == {};
  }

  lemma SecondIsKept(c: Corpus, input: Text)
    requires var order := ["B", "A", "C"]; "B" in Dropped(c, input, order, 1) && !Beats(c, input, "C", "A")
    ensures "A" in Kept(c, input, ["B", "A", "C"])
  {
    hide Score, Family;
    var order := ["B", "A", "C"];
    assert Dropped(c, input, order, 0) == {};
    var first := Dropped(c, input, order, 1);
    assert "A" !in first;
    assert forall right <- order :: right in first || !Beats(c, input, right, "A");
    assert order[1] == "A" && order[2] == "C";
    assert Dropped(c, input, order, 2) == first;
    assert "A" !in Dropped(c, input, order, 3);
  }

  /** Three texts that all match, A near B and B near C but A not near C: looking at A first drops A, looking
      at B first keeps it. */
  lemma OrderMatters()
    ensures var c, input := ThreeLicenses(), Span(1, 14);
            && c.Valid() && Passes(c, input, "A") && Passes(c, input, "B") && Passes(c, input, "C")
            && Kept(c, input, ["A", "B", "C"]) != Kept(c, input, ["B", "A", "C"])
  {
    hide Dropped, Passes, Score, Family, ThreeLicenses, Span, Corpus.Valid;
    var c, input := ThreeLicenses(), Span(1, 14);
    ThreePass();
    ThreeFamilies();
    var one, two := ["A", "B", "C"], ["B", "A", "C"];
    assert one[1] == "B" && two[2] == "C";
    FirstIsDropped(c, input, one, "B");
    DroppedGrows(c, input, one, 1, 3);
    FirstIsDropped(c, input, two, "C");
    SecondIsKept(c, input);
  }

  // ---------------------------------------------------------------- grouping

  /** The first group with a member of the family of `id`, or the number of groups. */
  function Home(c: Corpus, groups: seq<seq<string>>, id: string): (i: nat)
    ensures i <= |groups|
    ensures i < |groups| ==> Touches(c, groups[i], id)
    ensures forall j | 0 <= j < i :: !Touches(c, groups[j], id)
  {
    if groups == [] then 0
    else
      var n := |groups| - 1;
      var i := Home(c, groups[..n], id);
      if i < n then i else if Touches(c, groups[n], id) then n else n + 1
  }

  predicate Touches(c: Corpus, group: seq<string>, id: string) { exists other <- group :: Family(c, id, other) }

  function Joined(c: Corpus, groups: seq<seq<string>>, id: string): seq<seq<string>> {
    var i := Home(c, groups, id);
    if i < |groups| then groups[i := groups[i] + [id]] else groups + [[id]]
  }

  function Groups(c: Corpus, matches: seq<string>): seq<seq<string>> {
    if matches == [] then [] else Joined(c, Groups(c, matches[..|matches| - 1]), matches[|matches| - 1])
  }

  method Alternatives(c: Corpus, matches: seq<string>) returns (groups: seq<seq<string>>)
    ensures groups == Groups(c, matches)
  {
    hide Home, Touches;
    groups := [];
    assert matches[..0] == [];
    for k := 0 to |matches|
      invariant groups == Groups(c, matches[..k])
    {
      assert matches[..k + 1][..k] == matches[..k];
      var id := matches[k];
      var i := 0;
      while i < |groups| && !Touches(c, groups[i], id)
        invariant 0 <= i <= |groups|
        invariant forall j | 0 <= j < i :: !Touches(c, groups[j], id)
      {
        i := i + 1;
      }
      HomeIs(c, groups, id, i);
      if i == |groups| {
        groups := groups + [[id]];
      } else {
        groups := groups[i := groups[i] + [id]];
      }
    }
    assert matches[..|matches|] == matches;
  }

  lemma HomeIs(c: Corpus, groups: seq<seq<string>>, id: string, i: nat)
    requires i <= |groups| && (i < |groups| ==> Touches(c, groups[i], id))
    requires forall j | 0 <= j < i :: !Touches(c, groups[j], id)
    ensures Home(c, groups, id) == i
  {
    hide Touches;
  }

  function Flat(groups: seq<seq<string>>): seq<string> {
    if groups == [] then [] else Flat(groups[..|groups| - 1]) + groups[|groups| - 1]
  }

  lemma {:induction false} FlatJoins(groups: seq<seq<string>>, i: nat, id: string)
    requires i < |groups|
    ensures multiset(Flat(groups[i := groups[i] + [id]])) == multiset(Flat(groups)) + multiset{id}
  {
    hide Flat;
    var n := |groups| - 1;
    var joined := groups[i := groups[i] + [id]];
    FlatEnds(groups);
    FlatEnds(joined);
    if i < n {
      FlatJoins(groups[..n], i, id);
      assert joined[..n] == groups[..n][i := groups[i] + [id]];
    } else {
      assert joined[..n] == groups[..n];
    }
  }

  lemma FlatEnds(groups: seq<seq<string>>)
    requires groups != []
    ensures Flat(groups) == Flat(groups[..|groups| - 1]) + groups[|groups| - 1]
  {
  }

  lemma FlatOpens(groups: seq<seq<string>>, id: string)
    ensures Flat(groups + [[id]]) == Flat(groups) + [id]
  {
    assert (groups + [[id]])[..|groups|] == groups;
  }

  lemma JoinedHolds(c: Corpus, groups: seq<seq<string>>, id: string)
    ensures multiset(Flat(Joined(c, groups, id))) == multiset(Flat(groups)) + multiset{id}
  {
    hide Home, Flat;
    var i := Home(c, groups, id);
    if i < |groups| {
      FlatJoins(groups, i, id);
    } else {
      FlatOpens(groups, id);
    }
  }

  /** Grouping loses no match and repeats none. */
  lemma {:induction false} GroupsHoldMatches(c: Corpus, matches: seq<string>)
    ensures multiset(Flat(Groups(c, matches))) == multiset(matches)
  {
    hide Home, Joined;
    if matches != [] {
      var n := |matches| - 1;
      GroupsHoldMatches(c, matches[..n]);
      JoinedHolds(c, Groups(c, matches[..n]), matches[n]);
      assert matches == matches[..n] + [matches[n]];
    }
  }

  /** All members of a group score the same. */
  predicate Tied(c: Corpus, input: Text, groups: seq<seq<string>>) {
    forall g <- groups, a <- g, b <- g :: Score(c, input, a) == Score(c, input, b)
  }

  lemma JoinedIsTied(c: Corpus, input: Text, order: seq<string>, groups: seq<seq<string>>, id: string)
    requires Tied(c, input, groups) && id in Kept(c, input, order)
    requires forall g <- groups, a <- g :: a in Kept(c, input, order)
    ensures Tied(c, input, Joined(c, groups, id))
    ensures forall g <- Joined(c, groups, id), a <- g :: a in Kept(c, input, order)
  {
    hide Score, Family, Kept, Home;
    var i := Home(c, groups, id);
    if i < |groups| {
      var other :| other in groups[i] && Family(c, id, other);
      KeptAreTied(c, input, order, id, other);
      assert forall a <- groups[i] :: Score(c, input, a) == Score(c, input, other);
    }
  }

  /** Only tied matches are offered as alternatives of each other. */
  lemma {:induction false} AlternativesAreTied(c: Corpus, input: Text, order: seq<string>, matches: seq<string>)
    requires forall id <- matches :: id in Kept(c, input, order)
    ensures Tied(c, input, Groups(c, matches))
    ensures forall g <- Groups(c, matches), a <- g :: a in Kept(c, input, order)
  {
    hide Score, Family, Kept, Home;
    if matches != [] {
      var n := |matches| - 1;
      AlternativesAreTied(c, input, order, matches[..n]);
      JoinedIsTied(c, input, order, Groups(c, matches[..n]), matches[n]);
    }
  }

  /** Matches of one family are in one group. */
  ghost predicate Clustered(c: Corpus, groups: seq<seq<string>>) {
    forall i, j | 0 <= i < j < |groups| :: Apart(c, groups[i], groups[j])
  }

  ghost predicate Apart(c: Corpus, g: seq<string>, h: seq<string>) {
    forall a <- g, b <- h :: !Family(c, a, b)
  }

  ghost predicate Transitive(c: Corpus, ids: set<string>) {
    forall a <- ids, z <- ids, b <- ids :: Family(c, a, z) && Family(c, z, b) ==> Family(c, a, b)
  }

  /** A path from `a` to `b` by family steps within `ids`. */
  ghost predicate Path(c: Corpus, ids: seq<string>, path: seq<string>, a: string, b: string) {
    && path != [] && path[0] == a && path[|path| - 1] == b && (forall x <- path :: x in ids)
    && forall i | 0 < i < |path| :: Family(c, path[i - 1], path[i])
  }

  ghost predicate Linked(c: Corpus, ids: seq<string>, a: string, b: string) {
    exists path :: Path(c, ids, path, a, b)
  }

  lemma LinkedToItself(c: Corpus, ids: seq<string>, a: string)
    requires a in ids
    ensures Linked(c, ids, a, a)
  {
    assert Path(c, ids, [a], a, a);
  }

  lemma LinkedWithin(c: Corpus, ids: seq<string>, more: seq<string>, a: string, b: string)
    requires Linked(c, ids, a, b)
    ensures Linked(c, ids + more, a, b)
  {
    hide Family;
    var path :| Path(c, ids, path, a, b);
    assert Path(c, ids + more, path, a, b);
  }

  lemma LinkedFurther(c: Corpus, ids: seq<string>, a: string, b: string, z: string)
    requires Linked(c, ids, a, b) && Family(c, b, z) && z in ids
    ensures Linked(c, ids, a, z)
  {
    hide Family;
    var path :| Path(c, ids, path, a, b);
    var longer := path + [z];
    forall i | 0 < i < |longer| ensures Family(c, longer[i - 1], longer[i]) {
      assert i < |path| ==> Family(c, path[i - 1], path[i]);
    }
    assert Path(c, ids, longer, a, z);
  }

  lemma LinkedBack(c: Corpus, ids: seq<string>, a: string, b: string)
    requires Linked(c, ids, a, b)
    ensures Linked(c, ids, b, a)
  {
    hide Family;
    var path :| Path(c, ids, path, a, b);
    var n := |path|;
    var back := seq(n, i requires 0 <= i < n => path[n - 1 - i]);
    forall i | 0 < i < n ensures Family(c, back[i - 1], back[i]) {
      assert Family(c, path[n - 1 - i], path[n - 1 - i + 1]);
      FamilyIsSymmetric(c, path[n - 1 - i], path[n - i]);
    }
    forall x <- back ensures x in ids {
      var i :| 0 <= i < n && back[i] == x;
      assert path[n - 1 - i] in path;
    }
    assert Path(c, ids, back, b, a);
  }

  /** Every group is linked within the matches. */
  ghost predicate Connected(c: Corpus, matches: seq<string>, groups: seq<seq<string>>) {
    forall g <- groups, a <- g, b <- g :: Linked(c, matches, a, b)
  }

  ghost predicate Covers(matches: seq<string>, groups: seq<seq<string>>) {
    && (forall g <- groups, a <- g :: a in matches)
    && forall a <- matches :: Grouped(groups, a)
  }

  ghost predicate Grouped(groups: seq<seq<string>>, a: string) {
    exists i: nat :: i < |groups| && a in groups[i]
  }

  lemma JoinedCovers(c: Corpus, matches: seq<string>, groups: seq<seq<string>>, id: string)
    requires Covers(matches, groups)
    ensures Covers(matches + [id], Joined(c, groups, id))
  {
    hide Home;
    var k, joined := Home(c, groups, id), Joined(c, groups, id);
    forall a <- matches + [id] ensures Grouped(joined, a) {
      if a in matches {
        var i: nat :| i < |groups| && a in groups[i];
        assert a in joined[i];
      } else {
        assert id in joined[k];
      }
    }
  }

  lemma JoinedIsConnected(c: Corpus, matches: seq<string>, groups: seq<seq<string>>, id: string)
    requires Connected(c, matches, groups) && Covers(matches, groups)
    ensures Connected(c, matches + [id], Joined(c, groups, id))
  {
    hide Home, Linked, Family;
    var k, longer := Home(c, groups, id), matches + [id];
    LinkedToItself(c, longer, id);
    forall g <- groups, a <- g, b <- g ensures Linked(c, longer, a, b) {
      LinkedWithin(c, matches, [id], a, b);
    }
    if k < |groups| {
      var other :| other in groups[k] && Family(c, id, other);
      FamilyIsSymmetric(c, id, other);
      forall a <- groups[k] ensures Linked(c, longer, a, id) && Linked(c, longer, id, a) {
        LinkedFurther(c, longer, a, other, id);
        LinkedBack(c, longer, a, id);
      }
    }
  }

  /** The members of every group are linked, whatever the order of the matches. */
  lemma {:induction false} GroupsAreConnected(c: Corpus, matches: seq<string>)
    ensures Covers(matches, Groups(c, matches)) && Connected(c, matches, Groups(c, matches))
  {
    hide Joined, Connected, Covers;
    if matches == [] {
      NoneCovered(c);
    } else {
      var n := |matches| - 1;
      GroupsAreConnected(c, matches[..n]);
      JoinedCovers(c, matches[..n], Groups(c, matches[..n]), matches[n]);
      JoinedIsConnected(c, matches[..n], Groups(c, matches[..n]), matches[n]);
      assert matches[..n] + [matches[n]] == matches;
    }
  }

  lemma NoneCovered(c: Corpus)
    ensures Covers([], []) && Connected(c, [], [])
  {
  }

  /** Relatives share a group, so a path stays in one. */
  lemma RelativesShare(c: Corpus, groups: seq<seq<string>>, a: string, b: string, i: nat, j: nat)
    requires Clustered(c, groups) && i < |groups| && j < |groups| && a in groups[i] && b in groups[j] && Family(c, a, b)
    ensures i == j
  {
    hide Family;
    FamilyIsSymmetric(c, a, b);
  }

  lemma {:induction false} PathStays(c: Corpus, matches: seq<string>, groups: seq<seq<string>>, path: seq<string>,
                                     a: string, b: string, i: nat, j: nat)
    requires Clustered(c, groups) && Covers(matches, groups) && Path(c, matches, path, a, b) && a in c.texts
    requires i < |groups| && j < |groups| && a in groups[i] && b in groups[j]
    ensures i == j
    decreases |path|
  {
    hide Family, Clustered;
    if |path| == 1 {
      FamilyIsReflexive(c, a);
      RelativesShare(c, groups, a, a, i, j);
    } else {
      var n := |path| - 1;
      var before, shorter := path[n - 1], path[..n];
      assert before in matches && Grouped(groups, before);
      var k: nat :| k < |groups| && before in groups[k];
      assert forall x <- shorter :: x in path;
      forall m | 0 < m < n ensures Family(c, shorter[m - 1], shorter[m]) {
        assert Family(c, path[m - 1], path[m]);
      }
      PathStays(c, matches, groups, shorter, a, before, i, k);
      RelativesShare(c, groups, before, b, k, j);
    }
  }

  /** Where relatives share groups, the groups are exactly the connected parts of the family relation. */
  lemma GroupsAreParts(c: Corpus, matches: seq<string>, i: nat, j: nat, a: string, b: string)
    requires var groups := Groups(c, matches);
             Clustered(c, groups) && i < |groups| && j < |groups| && a in groups[i] && b in groups[j]
    requires a in c.texts
    ensures i == j <==> Linked(c, matches, a, b)
  {
    hide Groups, Clustered, Family, Path;
    var groups := Groups(c, matches);
    GroupsAreConnected(c, matches);
    if Linked(c, matches, a, b) {
      var path :| Path(c, matches, path, a, b);
      PathStays(c, matches, groups, path, a, b, i, j);
    }
  }

  /** All relatives that `id` has among the matches before it are linked without it. */
  ghost predicate Settled(c: Corpus, before: seq<string>, id: string) {
    forall a <- before, b <- before | Family(c, id, a) && Family(c, id, b) :: Linked(c, before, a, b)
  }

  /** One more match leaves relatives together exactly if it does not bridge two groups. */
  lemma SettledIsClustered(c: Corpus, matches: seq<string>, id: string)
    requires Clustered(c, Groups(c, matches)) && Settled(c, matches, id)
    ensures Clustered(c, Groups(c, matches + [id]))
  {
    hide Groups, Family, Home, Linked, Clustered;
    var groups := Groups(c, matches);
    GroupsStep(c, matches, id);
    GroupsAreConnected(c, matches);
    var k := Home(c, groups, id);
    if k < |groups| {
      var other :| other in groups[k] && Family(c, id, other);
      forall j: nat | j < |groups| && j != k ensures !Touches(c, groups[j], id) {
        if b :| b in groups[j] && Family(c, id, b) {
          IsText(c, id, other);
          GroupsAreParts(c, matches, k, j, other, b);
        }
      }
    }
    JoinedStaysClustered(c, groups, id, k);
  }

  lemma IsText(c: Corpus, a: string, b: string)
    requires Family(c, a, b)
    ensures a in c.texts && b in c.texts
  {
  }

  lemma JoinedStaysClustered(c: Corpus, groups: seq<seq<string>>, id: string, k: nat)
    requires Clustered(c, groups) && k == Home(c, groups, id)
    requires forall j: nat | j < |groups| && j != k :: !Touches(c, groups[j], id)
    ensures Clustered(c, Joined(c, groups, id))
  {
    hide Family, Home;
    var joined := Joined(c, groups, id);
    forall i, j | 0 <= i < j < |joined| ensures Apart(c, joined[i], joined[j]) {
      assert j < |groups| ==> Apart(c, groups[i], groups[j]);
      forall a <- joined[i], b <- joined[j] ensures !Family(c, a, b) {
        FamilyIsSymmetric(c, a, b);
      }
    }
  }

  lemma ClusteredIsSettled(c: Corpus, matches: seq<string>, id: string)
    requires Clustered(c, Groups(c, matches + [id]))
    ensures Clustered(c, Groups(c, matches)) && Settled(c, matches, id)
  {
    hide Groups, Family, Home, Linked, Clustered;
    var groups, after := Groups(c, matches), Groups(c, matches + [id]);
    GroupsStep(c, matches, id);
    GroupsAreConnected(c, matches);
    var k := Home(c, groups, id);
    assert |groups| <= |after| && k < |after| && id in after[k];
    assert forall i: nat, x | i < |groups| && x in groups[i] :: x in after[i];
    PrefixIsClustered(c, groups, after);
    forall a <- matches, b <- matches | Family(c, id, a) && Family(c, id, b) ensures Linked(c, matches, a, b) {
      assert Grouped(groups, a) && Grouped(groups, b);
      var i: nat :| i < |groups| && a in groups[i];
      var j: nat :| j < |groups| && b in groups[j];
      RelativesShare(c, after, id, a, k, i);
      RelativesShare(c, after, id, b, k, j);
    }
  }

  lemma PrefixIsClustered(c: Corpus, groups: seq<seq<string>>, after: seq<seq<string>>)
    requires Clustered(c, after) && |groups| <= |after|
    requires forall i: nat, x | i < |groups| && x in groups[i] :: x in after[i]
    ensures Clustered(c, groups)
  {
    hide Family;
    forall i, j | 0 <= i < j < |groups| ensures Apart(c, groups[i], groups[j]) {
      assert Apart(c, after[i], after[j]);
    }
  }

  /** For the matches in the order they come in: relatives share a group exactly if no match bridges relatives of
      its own that the matches before it do not link. */
  lemma {:induction false} SharedIff(c: Corpus, matches: seq<string>)
    ensures Clustered(c, Groups(c, matches))
            <==> forall n | 0 <= n < |matches| :: Settled(c, matches[..n], matches[n])
  {
    hide Settled, Clustered, Groups;
    if matches == [] {
      NoGroups(c);
      NoneClustered(c);
    } else {
      var n := |matches| - 1;
      var front, id := matches[..n], matches[n];
      SharedIff(c, front);
      assert front + [id] == matches;
      assert forall m | 0 <= m < n :: matches[..m] == front[..m] && matches[m] == front[m];
      if Clustered(c, Groups(c, matches)) {
        ClusteredIsSettled(c, front, id);
      } else if Clustered(c, Groups(c, front)) && Settled(c, front, id) {
        SettledIsClustered(c, front, id);
      }
    }
  }

  lemma NoneClustered(c: Corpus)
    ensures Clustered(c, [])
  {
  }

  lemma TransitiveIsClustered(c: Corpus, ids: set<string>, matches: seq<string>)
    requires Transitive(c, ids) && forall id <- matches :: id in ids
    ensures Clustered(c, Groups(c, matches))
  {
    hide Family, Clustered, Groups, Linked;
    SharedIff(c, matches);
    forall n | 0 <= n < |matches| ensures Settled(c, matches[..n], matches[n]) {
      var before, id := matches[..n], matches[n];
      forall a <- before, b <- before | Family(c, id, a) && Family(c, id, b) ensures Linked(c, before, a, b) {
        FamilyIsSymmetric(c, id, a);
        LinkedToItself(c, before, a);
        LinkedFurther(c, before, a, a, b);
      }
    }
  }

  /** A match stays in the group it has joined. */
  lemma {:induction false} MembersStay(c: Corpus, matches: seq<string>, more: seq<string>, i: nat, id: string)
    requires i < |Groups(c, matches)| && id in Groups(c, matches)[i]
    ensures i < |Groups(c, matches + more)| && id in Groups(c, matches + more)[i]
  {
    hide Home;
    if more == [] {
      assert matches + more == matches;
    } else {
      var n := |more| - 1;
      MembersStay(c, matches, more[..n], i, id);
      assert (matches + more)[..|matches + more| - 1] == matches + more[..n];
    }
  }

  lemma GroupsStep(c: Corpus, matches: seq<string>, id: string)
    ensures Groups(c, matches + [id]) == Joined(c, Groups(c, matches), id)
  {
    assert (matches + [id])[..|matches|] == matches;
  }

  lemma FirstThree(c: Corpus, a: string, b: string, z: string)
    requires Family(c, z, a) && !Family(c, b, a)
    ensures Groups(c, [a, b, z]) == [[a, z], [b]]
  {
    hide Family, Groups, Home;
    assert Groups(c, []) == [] by {
      NoGroups(c);
    }
    GroupsStep(c, [], a);
    GroupsStep(c, [a], b);
    GroupsStep(c, [a, b], z);
    assert [] + [a] == [a] && [a] + [b] == [a, b] && [a, b] + [z] == [a, b, z];
    assert !Touches(c, [a], b);
    assert Groups(c, [a, b]) == [[a], [b]];
    assert [a][0] == a;
    assert Touches(c, [[a], [b]][0], z);
    assert Home(c, [[a], [b]], z) == 0;
    var two := [[a], [b]];
    assert two[0] + [z] == [a, z];
    assert two[0 := [a, z]] == [[a, z], [b]];
  }

  lemma NoGroups(c: Corpus)
    ensures Groups(c, []) == []
  {
  }

  lemma BridgeSplits(c: Corpus, a: string, b: string, z: string, more: seq<string>)
    requires Family(c, a, z) && Family(c, z, b) && !Family(c, a, b)
    ensures !Clustered(c, Groups(c, [a, b, z] + more))
  {
    hide Family, Groups;
    FamilyIsSymmetric(c, a, b);
    FamilyIsSymmetric(c, a, z);
    FirstThree(c, a, b, z);
    assert [a, z][1] == z && [b][0] == b;
    MembersStay(c, [a, b, z], more, 0, z);
    MembersStay(c, [a, b, z], more, 1, b);
    var groups := Groups(c, [a, b, z] + more);
    assert !Apart(c, groups[0], groups[1]);
  }

  lemma ThreeFirst(a: string, b: string, z: string, more: seq<string>, ids: set<string>)
    requires a in ids && b in ids && z in ids && a != b && b != z && z != a && Lists(more, ids - {a, b, z})
    ensures Lists([a, b, z] + more, ids)
  {
    var order := [a, b, z] + more;
    forall id ensures id in order <==> id in ids {
      assert id in [a, b, z] <==> id == a || id == b || id == z;
    }
  }

  /** So relatives share a group in whatever order the matches come in exactly if the family relation is transitive
      on them: otherwise some order has a match that bridges two others behind both. */
  lemma ClusteredIff(c: Corpus, ids: set<string>)
    requires ids <= c.texts.Keys
    ensures Transitive(c, ids) <==> forall matches | Lists(matches, ids) :: Clustered(c, Groups(c, matches))
  {
    hide Family, Clustered, Groups;
    if Transitive(c, ids) {
      forall matches | Lists(matches, ids) ensures Clustered(c, Groups(c, matches)) {
        TransitiveIsClustered(c, ids, matches);
      }
    } else {
      var a, z, b :| a in ids && z in ids && b in ids && Family(c, a, z) && Family(c, z, b) && !Family(c, a, b);
      FamilyIsReflexive(c, a);
      var more := RisingList(c, {}, ids - {a, b, z});
      ThreeFirst(a, b, z, more, ids);
      BridgeSplits(c, a, b, z, more);
    }
  }

  function BridgedLicenses(): Corpus {
    Corpus(map["A" := Span(0, 10), "B" := Span(2, 12), "C" := Span(1, 11)])
  }

  lemma BridgedFamilies()
    ensures var c := BridgedLicenses(); Family(c, "A", "C") && Family(c, "C", "B") && !Family(c, "A", "B")
  {
    hide Span;
    SpansMeet(0, 10, 1, 11);
    SpansMeet(1, 11, 2, 12);
    SpansMeet(0, 10, 2, 12);
  }

  lemma BridgedTie()
    ensures var c, input := BridgedLicenses(), Span(0, 12);
            && c.Valid() && Passes(c, input, "A") && Passes(c, input, "B") && Passes(c, input, "C")
            && Score(c, input, "A") == Score(c, input, "B") == Score(c, input, "C")
  {
    hide Span;
    var c, input := BridgedLicenses(), Span(0, 12);
    assert c.texts["A"] * input == c.texts["A"] && c.texts["A"] + input == input;
    assert c.texts["B"] * input == c.texts["B"] && c.texts["B"] + input == input;
    assert c.texts["C"] * input == c.texts["C"] && c.texts["C"] + input == input;
    assert 0 in c.texts["A"] && 2 in c.texts["B"] && 1 in c.texts["C"];
  }

  lemma {:induction false} TiedAreKept(c: Corpus, input: Text, order: seq<string>, n: nat)
    requires n <= |order| && forall a <- order, b <- order :: !Beats(c, input, a, b)
    ensures Dropped(c, input, order, n) == {}
  {
    hide Beats;
    if n > 0 {
      TiedAreKept(c, input, order, n - 1);
    }
  }

  /** A text that three licenses match with the same score, so that all are kept whatever the order of the corpus.
      Handed over in the order of their identifiers, the last is near both others: it is grouped with the first and
      split from the second. */
  lemma BridgeMatters()
    ensures var c, input := BridgedLicenses(), Span(0, 12);
            && c.Valid() && Passes(c, input, "A") && Passes(c, input, "B") && Passes(c, input, "C")
            && (forall order | Lists(order, {"A", "B", "C"}) :: Kept(c, input, order) == {"A", "B", "C"})
            && Groups(c, ["A", "B", "C"]) == [["A", "C"], ["B"]] && Family(c, "C", "B")
            && !Clustered(c, Groups(c, ["A", "B", "C"]))
  {
    hide Family, Groups, BridgedLicenses, Clustered, Score, Passes, Corpus.Valid, Span;
    var c, input := BridgedLicenses(), Span(0, 12);
    BridgedTie();
    forall order | Lists(order, {"A", "B", "C"}) ensures Kept(c, input, order) == {"A", "B", "C"} {
      TiedAreKept(c, input, order, |order|);
    }
    BridgedFamilies();
    FamilyIsSymmetric(c, "A", "C");
    FamilyIsSymmetric(c, "A", "B");
    FirstThree(c, "A", "B", "C");
    BridgeSplits(c, "A", "B", "C", []);
    assert ["A", "B", "C"] + [] == ["A", "B", "C"];
  }
}
