/** Ranges that cover an area exactly: the sort-and-scan test against its meaning. */
module RangeTiling {

  datatype Range = Range(begin: nat, end: nat) {
    predicate Covers(p: nat) { begin <= p < end }

    /** The order of Python tuples. */
    predicate AtMost(other: Range) { begin < other.begin || (begin == other.begin && end <= other.end) }
  }

  /** How many of the ranges cover position `p`. */
  function CoverCount(ranges: seq<Range>, p: nat): nat {
    if ranges == [] then 0 else (if ranges[0].Covers(p) then 1 else 0) + CoverCount(ranges[1..], p)
  }

  function TotalLength(ranges: seq<Range>): int {
    if ranges == [] then 0 else ranges[0].end - ranges[0].begin + TotalLength(ranges[1..])
  }

  predicate NonEmpty(ranges: seq<Range>) { forall r <- ranges :: r.begin < r.end }

  /** Every position of the area lies in exactly one range, and no range leaves the area. */
  ghost predicate Tiles(ranges: seq<Range>, size: nat) {
    && (forall r <- ranges :: r.end <= size)
    && (forall p: nat | p < size :: CoverCount(ranges, p) == 1)
  }

  lemma {:induction false} CountsAppend(a: seq<Range>, b: seq<Range>, p: nat)
    ensures CoverCount(a + b, p) == CoverCount(a, p) + CoverCount(b, p)
    ensures TotalLength(a + b) == TotalLength(a) + TotalLength(b)
  {
    if a == [] {
      assert a + b == b;
    } else {
      assert (a + b)[1..] == a[1..] + b;
      CountsAppend(a[1..], b, p);
    }
  }

  // ---------------------------------------------------------------- sorting

  predicate Sorted(ranges: seq<Range>) {
    forall i, j | 0 <= i < j < |ranges| :: ranges[i].AtMost(ranges[j])
  }

  function Insert(r: Range, sorted: seq<Range>): seq<Range> {
    if sorted == [] || r.AtMost(sorted[0]) then [r] + sorted else [sorted[0]] + Insert(r, sorted[1..])
  }

  function Sort(ranges: seq<Range>): seq<Range> {
    if ranges == [] then [] else Insert(ranges[0], Sort(ranges[1..]))
  }

  lemma {:induction false} InsertSorts(r: Range, sorted: seq<Range>)
    requires Sorted(sorted)
    ensures Sorted(Insert(r, sorted))
    ensures multiset(Insert(r, sorted)) == multiset{r} + multiset(sorted)
  {
    hide Sorted;
    if sorted == [] || r.AtMost(sorted[0]) {
      HeadIsLeast(sorted);
      assert forall x <- sorted :: x == sorted[0] || x in sorted[1..];
      Prepends(r, sorted);
    } else {
      var rest := Insert(r, sorted[1..]);
      HeadIsLeast(sorted);
      InsertSorts(r, sorted[1..]);
      assert sorted == [sorted[0]] + sorted[1..];
      forall x | x in rest ensures sorted[0].AtMost(x) {
        assert x in multiset(rest);
      }
      Prepends(sorted[0], rest);
    }
  }

  lemma HeadIsLeast(sorted: seq<Range>)
    requires Sorted(sorted)
    ensures sorted != [] ==> Sorted(sorted[1..]) && forall x <- sorted[1..] :: sorted[0].AtMost(x)
  {
  }

  lemma Prepends(r: Range, sorted: seq<Range>)
    requires Sorted(sorted) && forall x <- sorted :: r.AtMost(x)
    ensures Sorted([r] + sorted)
  {
  }

  lemma {:induction false} InsertCounts(r: Range, sorted: seq<Range>, p: nat)
    ensures CoverCount(Insert(r, sorted), p) == (if r.Covers(p) then 1 else 0) + CoverCount(sorted, p)
    ensures TotalLength(Insert(r, sorted)) == r.end - r.begin + TotalLength(sorted)
  {
    if sorted == [] || r.AtMost(sorted[0]) {
      assert ([r] + sorted)[1..] == sorted;
    } else {
      InsertCounts(r, sorted[1..], p);
      assert ([sorted[0]] + Insert(r, sorted[1..]))[1..] == Insert(r, sorted[1..]);
    }
  }

  lemma {:induction false} SortKeeps(ranges: seq<Range>)
    ensures Sorted(Sort(ranges))
    ensures multiset(Sort(ranges)) == multiset(ranges)
    ensures forall p: nat :: CoverCount(Sort(ranges), p) == CoverCount(ranges, p)
    ensures TotalLength(Sort(ranges)) == TotalLength(ranges)
  {
    if ranges != [] {
      SortKeeps(ranges[1..]);
      InsertSorts(ranges[0], Sort(ranges[1..]));
      forall p: nat ensures CoverCount(Sort(ranges), p) == CoverCount(ranges, p)
                            && TotalLength(Sort(ranges)) == TotalLength(ranges)
      {
        InsertCounts(ranges[0], Sort(ranges[1..]), p);
      }
      InsertCounts(ranges[0], Sort(ranges[1..]), 0);
      assert ranges == [ranges[0]] + ranges[1..];
    }
  }

  // ---------------------------------------------------------------- the scan

  /** Each range begins where the one before it ended, from `from` up to `size`. */
  predicate Contiguous(ranges: seq<Range>, from: nat, size: nat) {
    if ranges == [] then from == size
    else ranges[0].begin == from && Contiguous(ranges[1..], ranges[0].end, size)
  }

  lemma {:induction false} ContiguousCovers(ranges: seq<Range>, from: nat, size: nat)
    requires NonEmpty(ranges) && Contiguous(ranges, from, size)
    ensures from <= size && TotalLength(ranges) == size - from
    ensures forall r <- ranges :: r.end <= size
    ensures forall p: nat :: CoverCount(ranges, p) == if from <= p < size then 1 else 0
  {
    if ranges != [] {
      ContiguousCovers(ranges[1..], ranges[0].end, size);
    }
  }

  lemma {:induction false} CountedIsCovered(ranges: seq<Range>, p: nat)
    ensures 0 < CoverCount(ranges, p) <==> exists r <- ranges :: r.Covers(p)
  {
    if ranges != [] {
      CountedIsCovered(ranges[1..], p);
      assert ranges == [ranges[0]] + ranges[1..];
      if exists r <- ranges :: r.Covers(p) {
        var r :| r in ranges && r.Covers(p);
        assert r == ranges[0] || r in ranges[1..];
      }
    }
  }

  /** Sorted nonempty ranges that cover exactly `[from, size)` once are contiguous. */
  lemma {:induction false} CoveredIsContiguous(ranges: seq<Range>, from: nat, size: nat)
    requires NonEmpty(ranges) && Sorted(ranges) && from <= size
    requires forall r <- ranges :: from <= r.begin && r.end <= size
    requires forall p: nat | from <= p < size :: CoverCount(ranges, p) == 1
    ensures Contiguous(ranges, from, size)
  {
    assert from < size ==> CoverCount(ranges, from) == 1;
    if ranges != [] {
      var first, rest := ranges[0], ranges[1..];
      CountedIsCovered(ranges, from);
      var r :| r in ranges && r.Covers(from);
      var i :| 0 <= i < |ranges| && ranges[i] == r;
      assert i > 0 ==> first.AtMost(r);
      assert first.begin == from;
      forall x | x in rest ensures first.end <= x.begin && x.end <= size {
        if x.begin < first.end {
          assert CoverCount(ranges, x.begin) == 1;
          CountedIsCovered(rest, x.begin);
          assert x.Covers(x.begin);
          assert first.Covers(x.begin);
          assert false;
        }
      }
      forall p: nat | first.end <= p < size ensures CoverCount(rest, p) == 1 {
        assert CoverCount(ranges, p) == 1;
      }
      CoveredIsContiguous(rest, first.end, size);
    }
  }

  /** Sorting and scanning decides tiling, in both directions. */
  lemma ScanDecidesTiling(ranges: seq<Range>, size: nat)
    requires NonEmpty(ranges)
    ensures Contiguous(Sort(ranges), 0, size) <==> Tiles(ranges, size)
    ensures Tiles(ranges, size) ==> TotalLength(ranges) == size
  {
    var sorted := Sort(ranges);
    SortKeeps(ranges);
    SameMembers(ranges, sorted);
    if Contiguous(sorted, 0, size) {
      ContiguousCovers(sorted, 0, size);
    }
    if Tiles(ranges, size) {
      forall p: nat | p < size ensures CoverCount(sorted, p) == 1 {
        assert CoverCount(ranges, p) == 1;
      }
      CoveredIsContiguous(sorted, 0, size);
      ContiguousCovers(sorted, 0, size);
    }
  }

  lemma SameMembers(a: seq<Range>, b: seq<Range>)
    requires multiset(a) == multiset(b)
    ensures forall r :: r in a <==> r in b
  {
    forall r ensures r in a <==> r in b {
      assert r in a <==> r in multiset(a);
      assert r in b <==> r in multiset(b);
    }
  }

  /** In a tiling, two different ranges share no position. */
  lemma TilesAreDisjoint(ranges: seq<Range>, size: nat, i: nat, j: nat, p: nat)
    requires Tiles(ranges, size) && i < j < |ranges| && ranges[i].Covers(p)
    ensures !ranges[j].Covers(p)
  {
    assert ranges[i] in ranges;
    assert CoverCount(ranges, p) == 1;
    if ranges[j].Covers(p) {
      TwiceCovered(ranges, i, j, p);
      assert false;
    }
  }

  lemma {:induction false} TwiceCovered(ranges: seq<Range>, i: nat, j: nat, p: nat)
    requires i < j < |ranges| && ranges[i].Covers(p) && ranges[j].Covers(p)
    ensures 2 <= CoverCount(ranges, p)
  {
    if i > 0 {
      TwiceCovered(ranges[1..], i - 1, j - 1, p);
    } else {
      assert ranges[j] == ranges[1..][j - 1];
      CountedIsCovered(ranges[1..], p);
    }
  }
}
