/** The target graph of a build: which targets can end up inside an artifact, and the strongest evidence that
    each path of a component did. */
module BuildGraph {

  type Path = string

  datatype Kind = Executable | ModuleLibrary | OtherKind

  /** A target. `linked` names the targets whose outputs its link line names; `read` and `covered` are what its
      compiler records say. */
  datatype Node = Node(
    name: string, kind: Kind, dependencies: seq<string>, linked: seq<string>,
    hasObjects: bool, compiled: seq<Path>, read: seq<Path>, covered: bool, sources: seq<Path>, includes: seq<Path>)
  {
    function Edges(): seq<string> { dependencies + linked }
  }

  type Graph = map<string, Node>

  // ---------------------------------------------------------------- reachability

  /** Whether a traversal from `root` goes through `x`: pruning never applies to the root. */
  predicate Enters(g: Graph, prune: Node -> bool, root: string, x: string) {
    x in g && (x == root || !prune(g[x]))
  }

  ghost predicate IsPath(g: Graph, prune: Node -> bool, root: string, path: seq<string>) {
    && path != [] && path[0] == root
    && (forall i | 0 <= i < |path| :: Enters(g, prune, root, path[i]))
    && forall i | 0 < i < |path| :: path[i] in g[path[i - 1]].Edges()
  }

  /** Reachable along targets that are not pruned. */
  ghost predicate Reachable(g: Graph, prune: Node -> bool, root: string, x: string) {
    exists path :: IsPath(g, prune, root, path) && path[|path| - 1] == x
  }

  /** `found` lists what is reachable, each once. */
  ghost predicate IsReach(g: Graph, prune: Node -> bool, root: string, found: seq<string>) {
    && (forall x :: x in found <==> Reachable(g, prune, root, x))
    && forall i, j | 0 <= i < j < |found| :: found[i] != found[j]
  }

  lemma PathGrows(g: Graph, prune: Node -> bool, root: string, x: string, y: string)
    requires Reachable(g, prune, root, x) && x in g && y in g[x].Edges() && Enters(g, prune, root, y)
    ensures Reachable(g, prune, root, y)
  {
    var path :| IsPath(g, prune, root, path) && path[|path| - 1] == x;
    assert IsPath(g, prune, root, path + [y]);
  }

  lemma RootIsReached(g: Graph, prune: Node -> bool, root: string)
    requires root in g
    ensures Reachable(g, prune, root, root)
  {
    assert IsPath(g, prune, root, [root]);
  }

  /** A set with the root that is closed under edges holds every path. */
  lemma {:induction false} ClosedHoldsPath(g: Graph, prune: Node -> bool, root: string, s: set<string>,
                                           path: seq<string>)
    requires root in s && s <= g.Keys
    requires forall x <- s, y <- g[x].Edges() :: Enters(g, prune, root, y) ==> y in s
    requires IsPath(g, prune, root, path)
    ensures path[|path| - 1] in s
  {
    var k := |path| - 1;
    if k > 0 {
      ClosedHoldsPath(g, prune, root, s, path[..k]);
      assert path[k - 1] in s && path[k] in path;
    }
  }

  /** Where a stack entry comes from. */
  predicate Owed(g: Graph, root: string, found: seq<string>, x: string) {
    x == root || exists y <- found :: y in g && x in g[y].Edges()
  }

  /** What the traversal keeps: `found` is reached and `seen`, and every edge out of it is seen or stacked. */
  ghost predicate Traversing(g: Graph, prune: Node -> bool, root: string, seen: set<string>, stack: seq<string>,
                             found: seq<string>) {
    && seen <= g.Keys
    && (forall x <- seen :: x in found <==> Enters(g, prune, root, x))
    && (forall x <- found :: x in seen && Reachable(g, prune, root, x))
    && (forall x <- stack :: Owed(g, root, found, x))
    && (root in g ==> root in seen || root in stack)
    && (forall x <- found, y <- g[x].Edges() :: y in stack || y in seen || y !in g)
  }

  lemma SkipKeeps(g: Graph, prune: Node -> bool, root: string, seen: set<string>, stack: seq<string>,
                  found: seq<string>)
    requires Traversing(g, prune, root, seen, stack, found) && stack != []
    requires var x := stack[|stack| - 1]; x in seen || x !in g
    ensures Traversing(g, prune, root, seen, stack[..|stack| - 1], found)
  {
    assert stack == stack[..|stack| - 1] + [stack[|stack| - 1]];
    hide Reachable, Owed, Enters;
  }

  lemma PruneKeeps(g: Graph, prune: Node -> bool, root: string, seen: set<string>, stack: seq<string>,
                   found: seq<string>)
    requires Traversing(g, prune, root, seen, stack, found) && stack != []
    requires var x := stack[|stack| - 1]; x in g && x !in seen && !Enters(g, prune, root, x)
    ensures Traversing(g, prune, root, seen + {stack[|stack| - 1]}, stack[..|stack| - 1], found)
  {
    assert stack == stack[..|stack| - 1] + [stack[|stack| - 1]];
    hide Reachable, Owed, Enters;
  }

  lemma VisitKeeps(g: Graph, prune: Node -> bool, root: string, seen: set<string>, stack: seq<string>,
                   found: seq<string>)
    requires Traversing(g, prune, root, seen, stack, found) && stack != []
    requires var x := stack[|stack| - 1]; x !in seen && Enters(g, prune, root, x)
    ensures var x := stack[|stack| - 1];
            Traversing(g, prune, root, seen + {x}, stack[..|stack| - 1] + g[x].Edges(), found + [x])
  {
    hide Reachable;
    var x := stack[|stack| - 1];
    assert stack == stack[..|stack| - 1] + [x];
    assert Owed(g, root, found, x);
    if x == root {
      RootIsReached(g, prune, root);
    } else {
      var y :| y in found && y in g && x in g[y].Edges();
      PathGrows(g, prune, root, y, x);
    }
    forall z | Owed(g, root, found, z) || z in g[x].Edges() ensures Owed(g, root, found + [x], z) {
    }
  }

  lemma TraversedAll(g: Graph, prune: Node -> bool, root: string, seen: set<string>, found: seq<string>)
    requires Traversing(g, prune, root, seen, [], found)
    requires forall i, j | 0 <= i < j < |found| :: found[i] != found[j]
    ensures IsReach(g, prune, root, found)
  {
    var s := set x <- found;
    forall x | Reachable(g, prune, root, x) ensures x in found {
      var path :| IsPath(g, prune, root, path) && path[|path| - 1] == x;
      assert root in g by {
        assert path[0] in path;
      }
      ClosedHoldsPath(g, prune, root, s, path);
    }
  }

  /** The depth-first traversal finds exactly what is reachable, each target once. */
  method Reach(g: Graph, root: string, prune: Node -> bool) returns (found: seq<string>)
    ensures IsReach(g, prune, root, found)
  {
    hide Traversing, IsReach;
    var seen: set<string>, stack: seq<string> := {}, [root];
    found := [];
    StartTraverses(g, prune, root);
    while stack != []
      invariant Traversing(g, prune, root, seen, stack, found) && seen <= g.Keys
      invariant forall x <- found :: x in seen
      invariant forall i, j | 0 <= i < j < |found| :: found[i] != found[j]
      decreases |g.Keys - seen|, |stack|
    {
      var current := stack[|stack| - 1];
      if current in seen || current !in g {
        SkipKeeps(g, prune, root, seen, stack, found);
        stack := stack[..|stack| - 1];
        continue;
      }
      SeenGrows(g, seen, current);
      if current != root && prune(g[current]) {
        PruneKeeps(g, prune, root, seen, stack, found);
        seen, stack := seen + {current}, stack[..|stack| - 1];
        continue;
      }
      VisitKeeps(g, prune, root, seen, stack, found);
      found := found + [current];
      seen, stack := seen + {current}, stack[..|stack| - 1] + g[current].Edges();
    }
    TraversedAll(g, prune, root, seen, found);
  }

  lemma StartTraverses(g: Graph, prune: Node -> bool, root: string)
    ensures Traversing(g, prune, root, {}, [root], [])
  {
    assert [root][0] == root;
  }

  lemma SeenGrows(g: Graph, seen: set<string>, x: string)
    requires x in g && x !in seen
    ensures |g.Keys - (seen + {x})| < |g.Keys - seen|
  {
    assert g.Keys - seen == g.Keys - (seen + {x}) + {x};
  }

  // ---------------------------------------------------------------- evidence

  /** Strongest first. */
  datatype How = CopiedFile | DerivedFile | CompiledSource | HeaderRead | ListedSource | IncludeDir {
    function Rank(): nat {
      match this
      case CopiedFile => 0
      case DerivedFile => 1
      case CompiledSource => 2
      case HeaderRead => 3
      case ListedSource => 4
      case IncludeDir => 5
    }
  }

  datatype Mark = Mark(owner: string, path: Path, how: How)

  type Evidence = map<string, map<Path, How>>

  /** Who owns a path, if anyone, and who owns something under a directory. */
  datatype Owners = Owners(of: Path -> set<string>, under: Path -> set<string>)

  function MarksFor(paths: seq<Path>, owners: Path -> set<string>, how: How): set<Mark> {
    set path <- paths, owner <- owners(path) :: Mark(owner, path, how)
  }

  /** Everything one target gives evidence of. */
  function MarksOf(node: Node, o: Owners): set<Mark> {
    if !node.hasObjects then {}
    else
      MarksFor(node.compiled, o.of, CompiledSource) + MarksFor(node.read, o.of, HeaderRead)
      + if node.covered then {}
        else MarksFor(node.sources, o.of, ListedSource) + MarksFor(node.includes, o.under, IncludeDir)
  }

  function Noted(found: Evidence, m: Mark): Evidence {
    var into := if m.owner in found then found[m.owner] else map[];
    if m.path !in into || m.how.Rank() < into[m.path].Rank() then found[m.owner := into[m.path := m.how]]
    else found
  }

  predicate Says(found: Evidence, m: Mark) {
    m.owner in found && m.path in found[m.owner] && found[m.owner][m.path] == m.how
  }

  predicate Beaten(found: Evidence, m: Mark) {
    m.owner in found && m.path in found[m.owner] && found[m.owner][m.path].Rank() <= m.how.Rank()
  }

  /** For each owner and path that `marks` has, `found` has the strongest mark, and nothing else. */
  ghost predicate Strongest(found: Evidence, marks: set<Mark>) {
    && (forall m <- marks :: Beaten(found, m))
    && (forall owner <- found :: found[owner] != map[])
    && forall m | Says(found, m) :: m in marks
  }

  lemma NotedIsStrongest(found: Evidence, marks: set<Mark>, m: Mark)
    requires Strongest(found, marks)
    ensures Strongest(Noted(found, m), marks + {m})
  {
    var out := Noted(found, m);
    forall x | Says(out, x) ensures x in marks + {m} {
      assert Says(found, x) || x == m;
    }
    forall x <- marks + {m} ensures Beaten(out, x) {
      assert x in marks ==> Beaten(found, x);
    }
  }

  lemma NothingIsStrongest()
    ensures Strongest(map[], {})
  {
  }

  /** Strongest evidence is determined by the marks, so no order of collecting them matters. */
  lemma StrongestIsUnique(a: Evidence, b: Evidence, marks: set<Mark>)
    requires Strongest(a, marks) && Strongest(b, marks)
    ensures a == b
  {
    StrongestIsIn(a, b, marks);
    StrongestIsIn(b, a, marks);
    forall owner <- a ensures owner in b && a[owner] == b[owner] {
      assert a[owner].Keys == b[owner].Keys;
    }
    assert a.Keys == b.Keys;
  }

  lemma StrongestIsIn(a: Evidence, b: Evidence, marks: set<Mark>)
    requires Strongest(a, marks) && Strongest(b, marks)
    ensures forall owner <- a ::
              owner in b && forall path <- a[owner] :: path in b[owner] && b[owner][path] == a[owner][path]
  {
    forall owner <- a, path <- a[owner]
      ensures owner in b && path in b[owner] && b[owner][path] == a[owner][path]
    {
      var m := Mark(owner, path, a[owner][path]);
      assert Says(a, m) && Beaten(b, m);
      var m' := Mark(owner, path, b[owner][path]);
      assert Says(b, m') && Beaten(a, m');
    }
    forall owner <- a ensures owner in b {
      var path :| path in a[owner];
    }
  }

  function Items(found: Evidence): set<Mark> {
    set owner <- found, path <- found[owner] :: Mark(owner, path, found[owner][path])
  }

  /** Merging only the strongest marks of a target is merging all of them. */
  lemma ItemsStand(out: Evidence, part: Evidence, before: set<Mark>, marks: set<Mark>)
    requires Strongest(part, marks) && Strongest(out, before + Items(part))
    ensures Strongest(out, before + marks)
  {
    forall m <- before + marks ensures Beaten(out, m) {
      if m in marks {
        assert Beaten(part, m);
        var item := Mark(m.owner, m.path, part[m.owner][m.path]);
        assert item in Items(part);
        assert Beaten(out, item);
      }
    }
    forall m | Says(out, m) ensures m in before + marks {
      if m in Items(part) {
        assert Says(part, m);
      }
    }
  }

  method NoteAll(found: Evidence, marks: set<Mark>, ghost before: set<Mark>) returns (out: Evidence)
    requires Strongest(found, before)
    ensures Strongest(out, before + marks)
  {
    hide Strongest, Noted;
    out := found;
    var left := marks;
    ghost var done: set<Mark> := {};
    assert before + done == before;
    while left != {}
      invariant done + left == marks && Strongest(out, before + done)
      decreases |left|
    {
      var m :| m in left;
      NotedIsStrongest(out, before + done, m);
      assert before + done + {m} == before + (done + {m});
      out, left, done := Noted(out, m), left - {m}, done + {m};
    }
    assert done == marks;
  }

  /** What can end up inside an artifact: no other executable or module, nor what only they reach. */
  predicate NotLinked(node: Node) { node.kind == Executable || node.kind == ModuleLibrary }

  function MarksAt(g: Graph, o: Owners, id: string): set<Mark> { if id in g then MarksOf(g[id], o) else {} }

  ghost function MarksOfAll(g: Graph, o: Owners, ids: seq<string>): set<Mark> {
    set id <- ids, m <- MarksAt(g, o, id) :: m
  }

  /** Two targets give the same evidence. */
  ghost predicate Alike(a: Node, b: Node, o: Owners) {
    exists e :: Strongest(e, MarksOf(a, o)) && Strongest(e, MarksOf(b, o))
  }

  /** Targets of one name give the same evidence; CMake sees to it, since there they are one target. */
  ghost predicate Unambiguous(g: Graph, o: Owners) {
    forall a <- g, b <- g | g[a].name == g[b].name :: Alike(g[a], g[b], o)
  }

  /** Some target of that name gives the evidence `found`. */
  ghost predicate From(g: Graph, o: Owners, name: string, found: Evidence) {
    exists id <- g :: g[id].name == name && Strongest(found, MarksOf(g[id], o))
  }

  /** Targets that stand in for others of the same names. */
  predicate StandIns(g: Graph, ids: seq<string>, others: seq<string>) {
    && |ids| == |others|
    && forall i | 0 <= i < |ids| :: ids[i] in g && others[i] in g && g[others[i]].name == g[ids[i]].name
  }

  lemma UnambiguousIsExact(g: Graph, o: Owners, id: string, found: Evidence)
    requires Unambiguous(g, o) && id in g && From(g, o, g[id].name, found)
    ensures Strongest(found, MarksOf(g[id], o))
  {
    hide Strongest, MarksOf;
    var other :| other in g && g[other].name == g[id].name && Strongest(found, MarksOf(g[other], o));
    assert Alike(g[other], g[id], o);
    var e :| Strongest(e, MarksOf(g[other], o)) && Strongest(e, MarksOf(g[id], o));
    StrongestIsUnique(found, e, MarksOf(g[other], o));
  }

  /** What is said for one of two targets that give the same evidence is as good for the other. */
  lemma AlikeStands(out: Evidence, before: set<Mark>, more: set<Mark>, more': set<Mark>, e: Evidence)
    requires Strongest(out, before + more) && Strongest(e, more) && Strongest(e, more')
    ensures Strongest(out, before + more')
  {
    forall m <- before + more' ensures Beaten(out, m) {
      if m in more' {
        assert Beaten(e, m);
        var item := Mark(m.owner, m.path, e[m.owner][m.path]);
        assert Says(e, item) && Beaten(out, item);
      }
    }
    forall m | Says(out, m) ensures m in before + more' {
      if m in more {
        assert Beaten(e, m);
        var item := Mark(m.owner, m.path, e[m.owner][m.path]);
        assert Says(e, item) && Beaten(out, item);
        RankIsInjective(item.how, m.how);
      }
    }
  }

  lemma RankIsInjective(a: How, b: How)
    ensures a.Rank() == b.Rank() ==> a == b
  {
  }

  class BuildGraph {
    const nodes: Graph
    const owners: Owners
    var linkedClosures: map<string, seq<string>>
    var nodeReach: map<string, Evidence>

    ghost predicate Valid()
      reads this
    {
      && (forall root <- linkedClosures :: IsReach(nodes, NotLinked, root, linkedClosures[root]))
      && forall name <- nodeReach :: From(nodes, owners, name, nodeReach[name])
    }

    constructor (nodes: Graph, owners: Owners)
      ensures Valid() && this.nodes == nodes && this.owners == owners && linkedClosures == map[] && nodeReach == map[]
    {
      this.nodes, this.owners := nodes, owners;
      linkedClosures, nodeReach := map[], map[];
    }

    method LinkedClosure(root: string) returns (found: seq<string>)
      requires Valid()
      modifies this
      ensures Valid() && IsReach(nodes, NotLinked, root, found)
    {
      hide From, IsReach;
      if root !in linkedClosures {
        found := Reach(nodes, root, NotLinked);
        linkedClosures := linkedClosures[root := found];
      }
      found := linkedClosures[root];
    }

    /** The cache is kept by name: what it has is handed out for every target of that name. */
    method ReachOf(id: string) returns (found: Evidence)
      requires Valid() && id in nodes
      modifies this
      ensures Valid() && From(nodes, owners, nodes[id].name, found)
      ensures var name := nodes[id].name;
              if name in old(nodeReach) then found == old(nodeReach)[name] && nodeReach == old(nodeReach)
              else
                && Strongest(found, MarksOf(nodes[id], owners))
                && nodeReach == if nodes[id].hasObjects then old(nodeReach)[name := found] else old(nodeReach)
      ensures Unambiguous(nodes, owners) ==> Strongest(found, MarksOf(nodes[id], owners))
    {
      hide Strongest, MarksOf, IsReach, Unambiguous;
      var node := nodes[id];
      if node.name in nodeReach {
        found := nodeReach[node.name];
        if Unambiguous(nodes, owners) {
          UnambiguousIsExact(nodes, owners, id, found);
        }
        return;
      }
      NothingIsStrongest();
      if !node.hasObjects {
        NoObjects(node, owners);
        return map[];
      }
      found := NoteAll(map[], MarksOf(node, owners), {});
      assert {} + MarksOf(node, owners) == MarksOf(node, owners);
      nodeReach := nodeReach[node.name := found];
    }

    /** The strongest evidence for each path of each component, over everything that can end up in the artifact, or
        over targets that share its names. */
    method Reached(root: string) returns (reached: Evidence)
      requires Valid()
      modifies this
      ensures Valid()
      ensures exists ids, others :: IsReach(nodes, NotLinked, root, ids) && StandIns(nodes, ids, others)
                                    && Strongest(reached, MarksOfAll(nodes, owners, others))
      ensures Unambiguous(nodes, owners) ==>
                exists ids :: IsReach(nodes, NotLinked, root, ids) && Strongest(reached, MarksOfAll(nodes, owners, ids))
    {
      hide Strongest, MarksOf, IsReach, Unambiguous, MarksOfAll;
      var ids := LinkedClosure(root);
      reached := map[];
      NothingIsStrongest();
      NoMarks(nodes, owners);
      ghost var others: seq<string> := [];
      for i := 0 to |ids|
        invariant Valid() && StandIns(nodes, ids[..i], others)
        invariant Strongest(reached, MarksOfAll(nodes, owners, others))
      {
        ReachedIsNode(nodes, NotLinked, root, ids, i);
        var part := ReachOf(ids[i]);
        ghost var other :| other in nodes && nodes[other].name == nodes[ids[i]].name
                           && Strongest(part, MarksOf(nodes[other], owners));
        ghost var before := MarksOfAll(nodes, owners, others);
        reached := NoteAll(reached, Items(part), before);
        ItemsStand(reached, part, before, MarksOf(nodes[other], owners));
        MarksStep(nodes, owners, others, other);
        others := others + [other];
        assert ids[..i + 1] == ids[..i] + [ids[i]];
      }
      assert ids[..|ids|] == ids;
      if Unambiguous(nodes, owners) {
        StandInsAgree(nodes, owners, ids, others, reached);
      }
    }
  }

  /** Where two targets of one name give different evidence, the cache hands out the wrong one: one of them is asked
      for first, and what the other then gets is not its own. */
  method NamesCollide(nodes: Graph, owners: Owners, a: string, b: string) returns (second: string, found: Evidence)
    requires a in nodes && b in nodes && nodes[a].name == nodes[b].name && !Alike(nodes[a], nodes[b], owners)
    ensures second in nodes && (second == a || second == b) && !Strongest(found, MarksOf(nodes[second], owners))
  {
    hide Strongest, MarksOf, From;
    var graph := new BuildGraph(nodes, owners);
    var first := if nodes[a].hasObjects then a else b;
    second := if nodes[a].hasObjects then b else a;
    BothBare(nodes[a], nodes[b], owners);
    found := graph.ReachOf(first);
    assert Strongest(found, MarksOf(nodes[first], owners));
    found := graph.ReachOf(second);
  }

  lemma BothBare(a: Node, b: Node, o: Owners)
    ensures !a.hasObjects && !b.hasObjects ==> Alike(a, b, o)
    ensures Alike(a, b, o) <==> Alike(b, a, o)
  {
    if !a.hasObjects && !b.hasObjects {
      assert Strongest(map[], MarksOf(a, o)) && Strongest(map[], MarksOf(b, o));
    }
  }

  lemma StandInsAgree(g: Graph, o: Owners, ids: seq<string>, others: seq<string>, out: Evidence)
    requires Unambiguous(g, o) && StandIns(g, ids, others) && Strongest(out, MarksOfAll(g, o, others))
    ensures Strongest(out, MarksOfAll(g, o, ids))
  {
    ReplacedAgree(g, o, ids, others, |ids|, out);
    assert ids[..|ids|] + others[|ids|..] == ids;
  }

  lemma {:induction false} ReplacedAgree(g: Graph, o: Owners, ids: seq<string>, others: seq<string>, n: nat,
                                         out: Evidence)
    requires Unambiguous(g, o) && StandIns(g, ids, others) && n <= |ids| && Strongest(out, MarksOfAll(g, o, others))
    ensures Strongest(out, MarksOfAll(g, o, ids[..n] + others[n..]))
  {
    hide Strongest, MarksOf, MarksOfAll;
    if n == 0 {
      assert ids[..0] + others[0..] == others;
    } else {
      var i := n - 1;
      ReplacedAgree(g, o, ids, others, i, out);
      var front, back := ids[..i], others[n..];
      var before := MarksOfAll(g, o, front + back);
      assert ids[..i] + others[i..] == front + [others[i]] + back;
      assert ids[..n] + others[n..] == front + [ids[i]] + back;
      MarksAround(g, o, front, others[i], back);
      MarksAround(g, o, front, ids[i], back);
      assert Alike(g[others[i]], g[ids[i]], o);
      var e :| Strongest(e, MarksOf(g[others[i]], o)) && Strongest(e, MarksOf(g[ids[i]], o));
      AlikeStands(out, before, MarksOf(g[others[i]], o), MarksOf(g[ids[i]], o), e);
    }
  }

  lemma MarksAround(g: Graph, o: Owners, front: seq<string>, id: string, back: seq<string>)
    requires id in g
    ensures MarksOfAll(g, o, front + [id] + back) == MarksOfAll(g, o, front + back) + MarksOf(g[id], o)
  {
    hide MarksOf;
    var all, rest := front + [id] + back, front + back;
    assert forall x :: x in all <==> x in rest || x == id;
    forall m ensures m in MarksOfAll(g, o, all) <==> m in MarksOfAll(g, o, rest) || m in MarksOf(g[id], o) {
      if m in MarksOfAll(g, o, rest) {
        var x :| x in rest && m in MarksAt(g, o, x);
        assert x in all;
      } else if m in MarksOf(g[id], o) {
        assert id in all && m in MarksAt(g, o, id);
      }
    }
  }

  lemma NoObjects(node: Node, o: Owners)
    requires !node.hasObjects
    ensures MarksOf(node, o) == {}
  {
  }

  lemma NoMarks(g: Graph, o: Owners)
    ensures MarksOfAll(g, o, []) == {}
  {
  }

  lemma MarksStep(g: Graph, o: Owners, ids: seq<string>, id: string)
    requires id in g
    ensures MarksOfAll(g, o, ids + [id]) == MarksOfAll(g, o, ids) + MarksOf(g[id], o)
  {
    hide MarksOf, MarksOfAll;
    MarksAround(g, o, ids, id, []);
    assert ids + [id] + [] == ids + [id] && ids + [] == ids;
  }

  lemma ReachedIsNode(g: Graph, prune: Node -> bool, root: string, ids: seq<string>, i: nat)
    requires IsReach(g, prune, root, ids) && i < |ids|
    ensures ids[i] in g
  {
    assert Reachable(g, prune, root, ids[i]);
    var path :| IsPath(g, prune, root, path) && path[|path| - 1] == ids[i];
    assert path[|path| - 1] in path;
  }

  /** Two listings of what is reachable give the same evidence, whatever the order of the traversal. */
  lemma ReachedIsDetermined(g: Graph, o: Owners, root: string, ids: seq<string>, ids': seq<string>, a: Evidence,
                            b: Evidence)
    requires IsReach(g, NotLinked, root, ids) && IsReach(g, NotLinked, root, ids')
    requires Strongest(a, MarksOfAll(g, o, ids)) && Strongest(b, MarksOfAll(g, o, ids'))
    ensures a == b
  {
    assert forall x :: x in ids <==> x in ids';
    assert MarksOfAll(g, o, ids) == MarksOfAll(g, o, ids');
    StrongestIsUnique(a, b, MarksOfAll(g, o, ids));
  }
}
