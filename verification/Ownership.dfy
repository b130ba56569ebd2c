/** Who owns a path: registered files, then the longest registered root that encloses it; and who has
    something under an include directory. */
module Ownership {
  import opened Options

  // ---------------------------------------------------------------- paths and their text

  /** The segments of a resolved absolute path. */
  type Path = seq<string>

  predicate IsSegment(s: string) { s != "" && '/' !in s }

  predicate IsPath(p: Path) { forall i | 0 <= i < |p| :: IsSegment(p[i]) }

  function Joined(p: Path): string { if p == [] then "" else "/" + p[0] + Joined(p[1..]) }

  /** `str(path)`: the root is "/" and no other path ends in a slash. */
  function Text(p: Path): string { if p == [] then "/" else Joined(p) }

  predicate StartsWith(s: string, prefix: string) { |prefix| <= |s| && s[..|prefix|] == prefix }

  /** The test of the source: equal, or starting with the text and a slash. */
  predicate TextEncloses(root: Path, p: Path) {
    Text(p) == Text(root) || StartsWith(Text(p), Text(root) + "/")
  }

  /** `p` is `root` or beneath it. */
  predicate Encloses(root: Path, p: Path) { |root| <= |p| && p[..|root|] == root }

  lemma {:induction false} JoinedAppends(p: Path, q: Path)
    ensures Joined(p + q) == Joined(p) + Joined(q)
  {
    if p == [] {
      assert p + q == q;
    } else {
      JoinedAppends(p[1..], q);
      assert (p + q)[1..] == p[1..] + q;
    }
  }

  lemma JoinedOpens(p: Path)
    ensures p != [] ==> Joined(p) != "" && Joined(p)[0] == '/'
  {
  }

  /** Two segments that are both followed by a slash or the end are the same. */
  lemma SegmentIs(a: string, b: string, s: string, t: string)
    requires "/" + a + s == "/" + b + t && '/' !in a && '/' !in b
    requires s != "" ==> s[0] == '/'
    requires t != "" ==> t[0] == '/'
    ensures a == b && s == t
  {
    var x := "/" + a + s;
    assert a == x[1..1 + |a|] && b == x[1..1 + |b|];
    assert s == x[1 + |a|..] && t == x[1 + |b|..];
  }

  /** The text of one path begins the text of another, up to a slash or the end, exactly if its segments begin
      the other's. */
  lemma {:induction false} TextPrefix(r: Path, p: Path, rest: string)
    requires IsPath(r) && IsPath(p) && Joined(p) == Joined(r) + rest && (rest != "" ==> rest[0] == '/')
    ensures Encloses(r, p) && rest == Joined(p[|r|..])
  {
    if r == [] {
      assert p[0..] == p;
    } else {
      var s, t := Joined(p[1..]), Joined(r[1..]) + rest;
      JoinedOpens(p[1..]);
      JoinedOpens(r[1..]);
      assert Joined(r) + rest == "/" + r[0] + t;
      assert IsSegment(p[0]) && IsSegment(r[0]);
      SegmentIs(p[0], r[0], s, t);
      TextPrefix(r[1..], p[1..], rest);
      PrefixGrows(r, p);
    }
  }

  lemma PrefixGrows(r: Path, p: Path)
    requires r != [] && p != [] && r[0] == p[0] && Encloses(r[1..], p[1..])
    ensures Encloses(r, p) && p[|r|..] == p[1..][|r[1..]|..]
  {
    assert forall i | 0 < i < |r| :: p[i] == p[1..][..|r| - 1][i - 1] && r[i] == r[1..][i - 1];
  }

  lemma TextIsInjective(r: Path, p: Path)
    requires IsPath(r) && IsPath(p)
    ensures Text(r) == Text(p) <==> r == p
  {
    hide Joined;
    if Text(r) == Text(p) {
      if r != [] && p != [] {
        assert Joined(p) == Joined(r) + "";
        TextPrefix(r, p, "");
        JoinedOpens(p[|r|..]);
      } else if r != p {
        RootIsShort(if r == [] then p else r);
      }
    }
  }

  lemma RootIsShort(p: Path)
    requires IsPath(p) && p != []
    ensures Text(p) != "/" && !StartsWith(Text(p), "//")
  {
    assert IsSegment(p[0]);
    assert Joined(p)[1] == p[0][0];
    assert "//"[1] == '/';
  }

  lemma BeneathStartsWith(root: Path, p: Path)
    requires root != [] && Encloses(root, p) && root != p
    ensures StartsWith(Text(p), Text(root) + "/")
  {
    hide Joined;
    var tail := p[|root|..];
    assert p == root + tail;
    JoinedAppends(root, tail);
    JoinedOpens(tail);
    assert Joined(tail)[..1] == "/";
  }

  lemma StartsWithBeneath(root: Path, p: Path)
    requires IsPath(root) && IsPath(p) && root != [] && p != [] && StartsWith(Text(p), Text(root) + "/")
    ensures Encloses(root, p)
  {
    hide Joined;
    var rest := Text(p)[|Text(root)|..];
    assert Text(p)[..|Text(root)|] == (Text(root) + "/")[..|Text(root)|] == Text(root);
    assert Text(p) == Text(root) + rest;
    assert rest[0] == (Text(root) + "/")[|Text(root)|];
    TextPrefix(root, p, rest);
  }

  /** The textual test is enclosure, except that the root directory encloses nothing but itself. */
  lemma TextEnclosesIff(root: Path, p: Path)
    requires IsPath(root) && IsPath(p)
    ensures TextEncloses(root, p) <==> Encloses(root, p) && (root == [] ==> p == [])
  {
    hide Joined, StartsWith;
    TextIsInjective(root, p);
    if root == [] && p != [] {
      RootIsShort(p);
      assert Text(root) + "/" == "//";
    } else if root != [] && Encloses(root, p) && root != p {
      BeneathStartsWith(root, p);
    } else if root != [] && p != [] && StartsWith(Text(p), Text(root) + "/") {
      StartsWithBeneath(root, p);
    } else if root != [] && p == [] {
      RootIsShallow(root);
    } else if root == [] && p == [] {
      assert Encloses(root, p);
    }
  }

  lemma RootIsShallow(root: Path)
    requires root != []
    ensures !StartsWith(Text([]), Text(root) + "/")
  {
  }

  /** Of two paths that enclose a third, the deeper one has the longer text. */
  lemma DeeperIsLonger(a: Path, b: Path, p: Path)
    requires IsPath(a) && IsPath(b) && Encloses(a, p) && Encloses(b, p)
    ensures |a| < |b| <==> |Text(a)| < |Text(b)|
    ensures |a| == |b| ==> a == b
  {
    hide Joined;
    assert |a| == |b| ==> a == b;
    if |a| < |b| {
      assert b[..|a|] == p[..|b|][..|a|];
      LongerText(a, b);
    } else if |b| < |a| {
      assert a[..|b|] == p[..|a|][..|b|];
      LongerText(b, a);
    }
  }

  lemma LongerText(a: Path, b: Path)
    requires IsPath(b) && |a| < |b| && Encloses(a, b)
    ensures |Text(a)| < |Text(b)|
  {
    if a == [] {
      RootIsShort(b);
      assert IsSegment(b[0]);
    } else {
      assert b == a + b[|a|..];
      JoinedAppends(a, b[|a|..]);
      JoinedOpens(b[|a|..]);
    }
  }

  // ---------------------------------------------------------------- owners

  /** A registered file: its owner, and whether an include directory credits it outright. */
  datatype Credit = Credit(key: string, outright: bool)

  datatype Root = Root(path: Path, key: string)

  type Files = map<Path, Credit>

  predicate ArePaths(files: Files, roots: seq<Root>) {
    (forall p <- files :: IsPath(p)) && forall i | 0 <= i < |roots| :: IsPath(roots[i].path)
  }

  /** Root `i` passes the textual test for `p`, and none that does is longer, or as long and earlier. */
  predicate Wins(roots: seq<Root>, p: Path, i: nat) {
    && i < |roots| && TextEncloses(roots[i].path, p)
    && forall j | 0 <= j < |roots| && TextEncloses(roots[j].path, p) ::
         |Text(roots[j].path)| < |Text(roots[i].path)| || (|Text(roots[j].path)| == |Text(roots[i].path)| && i <= j)
  }

  /** Root `i` is the deepest one that encloses `p`, the earliest if it is registered more than once. */
  predicate IsDeepest(roots: seq<Root>, p: Path, i: nat) {
    && i < |roots| && Encloses(roots[i].path, p)
    && forall j | 0 <= j < |roots| && Encloses(roots[j].path, p) ::
         |roots[j].path| < |roots[i].path| || (|roots[j].path| == |roots[i].path| && i <= j)
  }

  ghost function RootOwner(roots: seq<Root>, p: Path): Option<string> {
    if exists i: nat :: Wins(roots, p, i) then var i: nat :| Wins(roots, p, i); Some(roots[i].key) else None
  }

  lemma WinnerIsUnique(roots: seq<Root>, p: Path, i: nat)
    requires Wins(roots, p, i)
    ensures RootOwner(roots, p) == Some(roots[i].key)
  {
    hide Text, TextEncloses;
  }

  ghost function OwnerOf(files: Files, roots: seq<Root>, p: Path): Option<string> {
    if p in files then Some(files[p].key) else RootOwner(roots, p)
  }

  method FindOwner(files: Files, roots: seq<Root>, p: Path) returns (owner: Option<string>)
    ensures owner == OwnerOf(files, roots, p)
  {
    hide Text, TextEncloses;
    if p in files {
      return Some(files[p].key);
    }
    var best: Option<nat> := None;
    for i := 0 to |roots|
      invariant best.None? ==> forall j | 0 <= j < i :: !TextEncloses(roots[j].path, p)
      invariant best.Some? ==> best.value < i && Wins(roots[..i], p, best.value)
    {
      var text := Text(roots[i].path);
      assert forall j | 0 <= j < i :: roots[..i + 1][j] == roots[..i][j] == roots[j];
      if TextEncloses(roots[i].path, p) {
        if best.None? || |text| > |Text(roots[best.value].path)| {
          best := Some(i);
        }
      }
    }
    assert roots[..|roots|] == roots;
    if best.None? {
      return None;
    }
    WinnerIsUnique(roots, p, best.value);
    return Some(roots[best.value].key);
  }

  lemma DeepestIsUnique(roots: seq<Root>, p: Path, i: nat, j: nat)
    requires IsDeepest(roots, p, i) && IsDeepest(roots, p, j)
    ensures i == j
  {
  }

  lemma WinsIff(roots: seq<Root>, p: Path, i: nat)
    requires ArePaths(map[], roots) && IsPath(p) && i < |roots|
    ensures Wins(roots, p, i) <==> IsDeepest(roots, p, i) && (roots[i].path == [] ==> p == [])
  {
    hide Text, TextEncloses, Encloses;
    forall j | 0 <= j < |roots|
      ensures TextEncloses(roots[j].path, p) <==> Encloses(roots[j].path, p) && (roots[j].path == [] ==> p == [])
      ensures Encloses(roots[i].path, p) && Encloses(roots[j].path, p) ==>
                (|roots[j].path| < |roots[i].path| <==> |Text(roots[j].path)| < |Text(roots[i].path)|)
                && (|roots[i].path| < |roots[j].path| <==> |Text(roots[i].path)| < |Text(roots[j].path)|)
    {
      TextEnclosesIff(roots[j].path, p);
      if Encloses(roots[i].path, p) && Encloses(roots[j].path, p) {
        DeeperIsLonger(roots[j].path, roots[i].path, p);
        DeeperIsLonger(roots[i].path, roots[j].path, p);
      }
    }
  }

  /** A path that is not a registered file belongs to the deepest root that encloses it, unless that is the
      root directory: then nobody owns it, the root directory itself aside. */
  lemma OwnerIsDeepest(roots: seq<Root>, p: Path, i: nat)
    requires ArePaths(map[], roots) && IsPath(p) && IsDeepest(roots, p, i)
    ensures RootOwner(roots, p) == if roots[i].path == [] && p != [] then None else Some(roots[i].key)
  {
    hide Wins, IsDeepest;
    DeepestIsInside(roots, p, i);
    WinsIff(roots, p, i);
    if Wins(roots, p, i) {
      WinnerIsUnique(roots, p, i);
    } else if j: nat :| Wins(roots, p, j) {
      WinnerIsInside(roots, p, j);
      WinsIff(roots, p, j);
      DeepestIsUnique(roots, p, i, j);
    }
  }

  lemma DeepestIsInside(roots: seq<Root>, p: Path, i: nat)
    requires IsDeepest(roots, p, i)
    ensures i < |roots| && Encloses(roots[i].path, p)
  {
  }

  lemma WinnerIsInside(roots: seq<Root>, p: Path, i: nat)
    requires Wins(roots, p, i)
    ensures i < |roots|
  {
  }

  /** Nobody owns a path outside every root. */
  lemma OutsideIsUnowned(roots: seq<Root>, p: Path)
    requires ArePaths(map[], roots) && IsPath(p) && forall i | 0 <= i < |roots| :: !Encloses(roots[i].path, p)
    ensures RootOwner(roots, p) == None
  {
    if i: nat :| Wins(roots, p, i) {
      TextEnclosesIff(roots[i].path, p);
    }
  }

  // ---------------------------------------------------------------- owners under a directory

  /** Owners of the registered files in a directory, by whether they are credited outright. */
  datatype Entry = Entry(outright: set<string>, alone: set<string>)

  function Outright(files: Files, d: Path): set<string> {
    set p <- files | Encloses(d, p) && files[p].outright :: files[p].key
  }

  function Alone(files: Files, d: Path): set<string> {
    set p <- files | Encloses(d, p) && !files[p].outright :: files[p].key
  }

  function EntryFor(files: Files, d: Path): Entry { Entry(Outright(files, d), Alone(files, d)) }

  type Index = map<Path, Entry>

  function At(index: Index, d: Path): Entry { if d in index then index[d] else Entry({}, {}) }

  /** The index has the owners of every directory. */
  ghost predicate Indexes(index: Index, files: Files) { forall d :: At(index, d) == EntryFor(files, d) }

  function WithFile(e: Entry, c: Credit): Entry {
    if c.outright then e.(outright := e.outright + {c.key}) else e.(alone := e.alone + {c.key})
  }

  lemma EntryGrows(files: Files, p: Path, c: Credit, d: Path)
    requires p !in files
    ensures EntryFor(files[p := c], d) == if Encloses(d, p) then WithFile(EntryFor(files, d), c) else EntryFor(files, d)
  {
    var more := files[p := c];
    assert more[p] == c;
    forall q <- files ensures q in more && more[q] == files[q] {
    }
  }

  /** Adds one file to the entries of itself and all its parents. */
  method AddFile(index: Index, p: Path, c: Credit, ghost done: Files) returns (out: Index)
    requires Indexes(index, done) && p !in done
    ensures Indexes(out, done[p := c])
  {
    hide EntryFor, Encloses;
    out := index;
    var n := |p| + 1;
    ParentsAre(p, |p|);
    while n > 0
      invariant n <= |p| + 1
      invariant forall d :: At(out, d) ==
                  if |d| >= n && Encloses(d, p) then WithFile(EntryFor(done, d), c) else EntryFor(done, d)
    {
      n := n - 1;
      var d := p[..n];
      ParentsAre(p, n);
      out := out[d := WithFile(At(out, d), c)];
    }
    forall d ensures At(out, d) == EntryFor(done[p := c], d) {
      EntryGrows(done, p, c, d);
    }
  }

  lemma ParentsAre(p: Path, n: nat)
    requires n <= |p|
    ensures forall d: Path | |d| == n :: Encloses(d, p) <==> d == p[..n]
    ensures forall d: Path | |d| > |p| :: !Encloses(d, p)
  {
  }

  method ByDirectory(files: Files) returns (index: Index)
    ensures Indexes(index, files)
  {
    hide Indexes;
    index := map[];
    ghost var done: Files := map[];
    NothingIndexed();
    var left := files.Keys;
    while left != {}
      invariant left <= files.Keys && done == (map p | p in files && p !in left :: files[p]) && Indexes(index, done)
      decreases |left|
    {
      var p :| p in left;
      index := AddFile(index, p, files[p], done);
      assert done[p := files[p]] == map q | q in files && q !in left - {p} :: files[q];
      done, left := done[p := files[p]], left - {p};
    }
    assert done == files;
  }

  lemma NothingIndexed()
    ensures Indexes(map[], map[])
  {
  }

  function RootsUnder(roots: seq<Root>, d: Path): set<string> {
    set i | 0 <= i < |roots| && TextEncloses(d, roots[i].path) :: roots[i].key
  }

  function Under(files: Files, roots: seq<Root>, d: Path): set<string> {
    Outright(files, d) + RootsUnder(roots, d) + if |Alone(files, d)| == 1 then Alone(files, d) else {}
  }

  /** The owners under a directory other than the root directory are those of the files and roots beneath it. */
  lemma RootsUnderIff(roots: seq<Root>, d: Path, key: string)
    requires ArePaths(map[], roots) && IsPath(d) && d != []
    ensures key in RootsUnder(roots, d)
            <==> exists i | 0 <= i < |roots| :: Encloses(d, roots[i].path) && roots[i].key == key
  {
    hide TextEncloses, Encloses;
    forall i | 0 <= i < |roots| ensures TextEncloses(d, roots[i].path) <==> Encloses(d, roots[i].path) {
      TextEnclosesIff(d, roots[i].path);
    }
  }

  /** Under the root directory only a root registered as the root directory counts. */
  lemma RootsUnderRoot(roots: seq<Root>, key: string)
    requires ArePaths(map[], roots)
    ensures key in RootsUnder(roots, []) <==> exists i | 0 <= i < |roots| :: roots[i].path == [] && roots[i].key == key
  {
    hide TextEncloses;
    forall i | 0 <= i < |roots| ensures TextEncloses([], roots[i].path) <==> roots[i].path == [] {
      TextEnclosesIff([], roots[i].path);
    }
  }

  /** The documented rule for files that are not credited outright: their owner owns every file beneath. */
  predicate OwnsAll(files: Files, d: Path, key: string) {
    && (exists p <- files :: Encloses(d, p) && files[p] == Credit(key, false))
    && forall p <- files | Encloses(d, p) :: files[p].key == key
  }

  /** The code credits the only owner of such files; that is the documented rule exactly if nobody else is
      credited outright there. */
  lemma AloneIff(files: Files, d: Path, key: string)
    ensures OwnsAll(files, d, key) <==> Alone(files, d) == {key} && Outright(files, d) <= {key}
  {
    if OwnsAll(files, d, key) {
      var p :| p in files && Encloses(d, p) && files[p] == Credit(key, false);
      assert key in Alone(files, d);
    } else if Alone(files, d) == {key} && Outright(files, d) <= {key} {
      assert key in Alone(files, d);
      forall p <- files | Encloses(d, p) ensures files[p].key == key {
        assert files[p].key in Outright(files, d) || files[p].key in Alone(files, d);
      }
    }
  }

  /** So an owner can be credited for a directory it does not own alone. */
  lemma AloneIsNotAll()
    ensures exists files: Files, d: Path, key ::
              key in Under(files, [], d) && key in Alone(files, d) && !OwnsAll(files, d, key)
  {
    hide RootsUnder;
    var a, b := ["d", "a.h"], ["d", "b.h"];
    var d := ["d"];
    var files: Files := map[a := Credit("A", false), b := Credit("B", true)];
    assert a[1] == "a.h" && b[1] == "b.h" && a != b by {
      assert "a.h"[0] == 'a' && "b.h"[0] == 'b';
    }
    assert Encloses(d, a) && Encloses(d, b);
    assert files[a].key == "A" && files[b].key == "B";
    assert Alone(files, d) == {"A"};
    assert "A" in Under(files, [], d) && !OwnsAll(files, d, "A");
  }

  // ---------------------------------------------------------------- the registry

  /** The registry caches the owner of each path it was asked for and the directory index. */
  class Ownership {
    const resolve: Path -> Path
    var files: Files
    var roots: seq<Root>
    var index: Option<Index>
    var owners: map<Path, Option<string>>

    /** The caches say what a fresh computation would. */
    ghost predicate Valid()
      reads this
    {
      && (forall p <- owners :: owners[p] == OwnerOf(files, roots, resolve(p)))
      && (index.Some? ==> Indexes(index.value, files))
    }

    constructor (resolve: Path -> Path)
      ensures Valid() && this.resolve == resolve && files == map[] && roots == []
    {
      this.resolve := resolve;
      files, roots, index, owners := map[], [], None, map[];
    }

    method RegisterRoot(root: Path, key: string)
      requires Valid()
      modifies this
      ensures Valid() && roots == old(roots) + [Root(resolve(root), key)] && files == old(files)
    {
      roots := roots + [Root(resolve(root), key)];
      owners := map[];
    }

    method RegisterFile(path: Path, key: string, byDirectory: bool)
      requires Valid()
      modifies this
      ensures Valid() && files == old(files)[resolve(path) := Credit(key, byDirectory)] && roots == old(roots)
    {
      files := files[resolve(path) := Credit(key, byDirectory)];
      index := None;
      owners := map[];
    }

    method Owner(path: Path) returns (owner: Option<string>)
      requires Valid()
      modifies this
      ensures Valid() && files == old(files) && roots == old(roots)
      ensures owner == OwnerOf(files, roots, resolve(path))
    {
      if path !in owners {
        var found := FindOwner(files, roots, resolve(path));
        owners := owners[path := found];
      }
      owner := owners[path];
    }

    method OwnersUnder(directory: Path) returns (found: set<string>)
      requires Valid()
      modifies this
      ensures Valid() && files == old(files) && roots == old(roots)
      ensures found == Under(files, roots, resolve(directory))
    {
      hide OwnerOf, RootsUnder, Outright, Alone;
      var d := resolve(directory);
      if index.None? {
        var built := ByDirectory(files);
        index := Some(built);
      }
      var entry := At(index.value, d);
      var beneath := KeysUnder(roots, d);
      found := entry.outright + beneath;
      if |entry.alone| == 1 {
        found := found + entry.alone;
      }
    }
  }

  method KeysUnder(roots: seq<Root>, d: Path) returns (found: set<string>)
    ensures found == RootsUnder(roots, d)
  {
    hide TextEncloses;
    found := {};
    for i := 0 to |roots|
      invariant found == RootsUnder(roots[..i], d)
    {
      RootsUnderSteps(roots, i, d);
      if TextEncloses(d, roots[i].path) {
        found := found + {roots[i].key};
      }
    }
    assert roots[..|roots|] == roots;
  }

  lemma RootsUnderSteps(roots: seq<Root>, i: nat, d: Path)
    requires i < |roots|
    ensures RootsUnder(roots[..i + 1], d)
            == RootsUnder(roots[..i], d) + if TextEncloses(d, roots[i].path) then {roots[i].key} else {}
  {
    hide TextEncloses;
    var front, all := roots[..i], roots[..i + 1];
    assert forall j | 0 <= j < i :: front[j] == all[j];
    assert all[i] == roots[i];
  }
}
