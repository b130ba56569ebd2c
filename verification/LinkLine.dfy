/** Reading a link line: which targets, archives and objects it names, following linker scripts, which may name
    each other, down to a fixed depth. */
module LinkLine {
  import opened Options

  type Path = string

  const SCRIPT_DEPTH: nat := 8

  /** What a file holds; the entries of a script are as the script spells them. */
  datatype Kind = Archive | Object | Shared | Script(entries: seq<string>) | Missing | Unknown

  /** The file system and the targets of the build: outputs of targets, resolved names, contents, where an entry
      of a script is found, and where a library is found. */
  datatype World = World(
    outputs: set<Path>, resolve: Path -> Path, kind: Path -> Kind,
    entry: (Path, string, bool) -> Option<Path>, library: (string, bool) -> Option<Path>)

  datatype Why = NotFound | UnknownKind | TooDeep

  /** What becomes of one name. Shared libraries are read from the artifact itself later on. */
  datatype Leaf =
    | Linked(path: Path)
    | Recorded(path: Path)
    | Unresolved(name: string, why: Why)
    | LeftToLoader(path: Path)

  /** The words of a link line. */
  datatype Word =
    | StaticMode | DynamicMode | PushState | PopState
    | Library(name: string) | TakesValue | OtherOption | File(path: Path)

  // ---------------------------------------------------------------- what a line means

  /** Everything that the file `p` stands for, at script nesting `depth`. */
  function Leaves(w: World, p: Path, isStatic: bool, depth: nat): seq<Leaf>
    requires depth <= SCRIPT_DEPTH + 1
    decreases SCRIPT_DEPTH + 1 - depth, 1, 0
  {
    var path := w.resolve(p);
    if path in w.outputs then [Linked(path)]
    else
      match w.kind(path)
      case Archive => [Recorded(path)]
      case Object => [Recorded(path)]
      case Shared => [LeftToLoader(path)]
      case Missing => [Unresolved(path, NotFound)]
      case Unknown => [Unresolved(path, UnknownKind)]
      case Script(entries) =>
        if depth > SCRIPT_DEPTH then [Unresolved(path, TooDeep)]
        else ScriptLeaves(w, p, entries, isStatic, depth, |entries|)
  }

  /** The first `n` entries of a script. */
  function ScriptLeaves(w: World, p: Path, entries: seq<string>, isStatic: bool, depth: nat, n: nat): seq<Leaf>
    requires depth <= SCRIPT_DEPTH && n <= |entries|
    decreases SCRIPT_DEPTH + 1 - depth, 0, n
  {
    if n == 0 then []
    else ScriptLeaves(w, p, entries, isStatic, depth, n - 1) + EntryLeaves(w, p, entries[n - 1], isStatic, depth)
  }

  function EntryLeaves(w: World, p: Path, entry: string, isStatic: bool, depth: nat): seq<Leaf>
    requires depth <= SCRIPT_DEPTH
    decreases SCRIPT_DEPTH - depth, 2, 0
  {
    match w.entry(p, entry, isStatic)
    case None => [Unresolved(entry, NotFound)]
    case Some(hit) => Leaves(w, hit, isStatic, depth + 1)
  }

  function WordLeaves(w: World, word: Word, isStatic: bool): seq<Leaf> {
    match word
    case Library(name) =>
      (match w.library(name, isStatic)
       case None => [Unresolved(name, NotFound)]
       case Some(hit) => Leaves(w, hit, isStatic, 0))
    case File(path) => Leaves(w, path, isStatic, 0)
    case _ => []
  }

  function ModeAfter(word: Word, isStatic: bool, saved: seq<bool>): bool {
    match word
    case StaticMode => true
    case DynamicMode => false
    case PopState => if saved == [] then false else saved[|saved| - 1]
    case _ => isStatic
  }

  function SavedAfter(word: Word, isStatic: bool, saved: seq<bool>): seq<bool> {
    match word
    case PushState => saved + [isStatic]
    case PopState => if saved == [] then [] else saved[..|saved| - 1]
    case _ => saved
  }

  /** Everything a line stands for, in order; an option that takes a value hides the next word. */
  function LineLeaves(w: World, words: seq<Word>, isStatic: bool, saved: seq<bool>): seq<Leaf> {
    if words == [] then []
    else
      var word := words[0];
      WordLeaves(w, word, isStatic)
      + if word.TakesValue? then (if |words| == 1 then [] else LineLeaves(w, words[2..], isStatic, saved))
        else LineLeaves(w, words[1..], ModeAfter(word, isStatic, saved), SavedAfter(word, isStatic, saved))
  }

  function LinkedOf(leaves: seq<Leaf>): seq<Path> {
    if leaves == [] then []
    else
      var last := leaves[|leaves| - 1];
      LinkedOf(leaves[..|leaves| - 1]) + if last.Linked? then [last.path] else []
  }

  function InputsOf(leaves: seq<Leaf>): seq<Leaf> {
    if leaves == [] then []
    else
      var last := leaves[|leaves| - 1];
      InputsOf(leaves[..|leaves| - 1]) + if last.Recorded? || last.Unresolved? then [last] else []
  }

  lemma {:induction false} PartsAppend(a: seq<Leaf>, b: seq<Leaf>)
    ensures LinkedOf(a + b) == LinkedOf(a) + LinkedOf(b) && InputsOf(a + b) == InputsOf(a) + InputsOf(b)
  {
    if b == [] {
      assert a + b == a;
    } else {
      var n := |b| - 1;
      PartsAppend(a, b[..n]);
      assert (a + b)[..|a + b| - 1] == a + b[..n];
    }
  }

  // ---------------------------------------------------------------- reading a line

  /** A line while it is read. */
  class Line {
    const world: World
    var linked: seq<Path>
    var inputs: seq<Leaf>

    constructor (world: World)
      ensures this.world == world && linked == [] && inputs == []
    {
      this.world, linked, inputs := world, [], [];
    }

    method Note(leaf: Leaf)
      modifies this
      ensures linked == old(linked) + LinkedOf([leaf]) && inputs == old(inputs) + InputsOf([leaf])
    {
      OneLeaf(leaf);
      match leaf {
        case Linked(path) => linked := linked + [path];
        case LeftToLoader(_) =>
        case _ => inputs := inputs + [leaf];
      }
    }

    method Classify(p: Path, isStatic: bool, depth: nat)
      requires depth <= SCRIPT_DEPTH + 1
      modifies this
      ensures linked == old(linked) + LinkedOf(Leaves(world, p, isStatic, depth))
      ensures inputs == old(inputs) + InputsOf(Leaves(world, p, isStatic, depth))
      ensures forall path :: path in linked <==> path in old(linked) || Reaches(world, p, isStatic, depth, Linked(path))
      ensures forall leaf :: leaf in inputs <==>
                leaf in old(inputs) || (IsInput(leaf) && Reaches(world, p, isStatic, depth, leaf))
      decreases SCRIPT_DEPTH + 1 - depth, 1
    {
      hide LinkedOf, InputsOf, ScriptLeaves, Reaches;
      PartsReach(world, p, isStatic, depth);
      var path := world.resolve(p);
      if path in world.outputs {
        Note(Linked(path));
        return;
      }
      match world.kind(path) {
        case Archive => Note(Recorded(path));
        case Object => Note(Recorded(path));
        case Shared => Note(LeftToLoader(path));
        case Missing => Note(Unresolved(path, NotFound));
        case Unknown => Note(Unresolved(path, UnknownKind));
        case Script(entries) =>
          if depth > SCRIPT_DEPTH {
            Note(Unresolved(path, TooDeep));
          } else {
            ClassifyEntries(p, entries, isStatic, depth);
          }
      }
    }

    method ClassifyEntries(p: Path, entries: seq<string>, isStatic: bool, depth: nat)
      requires depth <= SCRIPT_DEPTH
      modifies this
      ensures linked == old(linked) + LinkedOf(ScriptLeaves(world, p, entries, isStatic, depth, |entries|))
      ensures inputs == old(inputs) + InputsOf(ScriptLeaves(world, p, entries, isStatic, depth, |entries|))
      decreases SCRIPT_DEPTH + 1 - depth, 0
    {
      hide LinkedOf, InputsOf, Leaves;
      NoLeaf();
      for n := 0 to |entries|
        invariant linked == old(linked) + LinkedOf(ScriptLeaves(world, p, entries, isStatic, depth, n))
        invariant inputs == old(inputs) + InputsOf(ScriptLeaves(world, p, entries, isStatic, depth, n))
      {
        PartsAppend(ScriptLeaves(world, p, entries, isStatic, depth, n),
                    EntryLeaves(world, p, entries[n], isStatic, depth));
        match world.entry(p, entries[n], isStatic) {
          case None => Note(Unresolved(entries[n], NotFound));
          case Some(hit) => Classify(hit, isStatic, depth + 1);
        }
      }
    }

    method ReadWord(word: Word, isStatic: bool)
      modifies this
      ensures linked == old(linked) + LinkedOf(WordLeaves(world, word, isStatic))
      ensures inputs == old(inputs) + InputsOf(WordLeaves(world, word, isStatic))
    {
      hide LinkedOf, InputsOf, Leaves;
      NoLeaf();
      match word {
        case Library(name) =>
          match world.library(name, isStatic) {
            case None => Note(Unresolved(name, NotFound));
            case Some(hit) => Classify(hit, isStatic, 0);
          }
        case File(path) => Classify(path, isStatic, 0);
        case _ =>
      }
    }

    /** The line ends up with exactly the leaves of its words: nothing is dropped and nothing is added. */
    method Read(words: seq<Word>)
      modifies this
      ensures linked == old(linked) + LinkedOf(LineLeaves(world, words, false, []))
      ensures inputs == old(inputs) + InputsOf(LineLeaves(world, words, false, []))
      ensures forall path :: path in linked <==> path in old(linked) || LineReaches(world, words, Linked(path))
      ensures forall leaf :: leaf in inputs <==>
                leaf in old(inputs) || (IsInput(leaf) && LineReaches(world, words, leaf))
    {
      hide LinkedOf, InputsOf, Leaves, WordLeaves, LineLeaves, LineReaches;
      LinePartsReach(world, words);
      var isStatic, saved, i := false, [], 0;
      ghost var done: seq<Leaf> := [];
      NoLeaf();
      assert words[0..] == words;
      while i < |words|
        invariant 0 <= i <= |words|
        invariant LineLeaves(world, words, false, []) == done + LineLeaves(world, words[i..], isStatic, saved)
        invariant linked == old(linked) + LinkedOf(done) && inputs == old(inputs) + InputsOf(done)
      {
        var word := words[i];
        LineStep(world, words, i, isStatic, saved);
        PartsAppend(done, WordLeaves(world, word, isStatic));
        ReadWord(word, isStatic);
        done := done + WordLeaves(world, word, isStatic);
        if word.TakesValue? {
          i := if i + 1 < |words| then i + 2 else i + 1;
        } else {
          isStatic, saved := ModeAfter(word, isStatic, saved), SavedAfter(word, isStatic, saved);
          i := i + 1;
        }
      }
      NoWords(world, isStatic, saved);
      assert words[i..] == [] && done + [] == done;
    }
  }

  lemma LineStep(w: World, words: seq<Word>, i: nat, isStatic: bool, saved: seq<bool>)
    requires i < |words|
    ensures var word := words[i];
            var next := if word.TakesValue? && i + 1 < |words| then i + 2 else i + 1;
            LineLeaves(w, words[i..], isStatic, saved)
            == WordLeaves(w, word, isStatic)
               + if word.TakesValue? then LineLeaves(w, words[next..], isStatic, saved)
                 else LineLeaves(w, words[next..], ModeAfter(word, isStatic, saved), SavedAfter(word, isStatic, saved))
  {
    hide Leaves;
    var rest := words[i..];
    assert rest[1..] == words[i + 1..];
    if i + 2 <= |words| {
      assert rest[2..] == words[i + 2..];
    }
  }

  lemma NoWords(w: World, isStatic: bool, saved: seq<bool>)
    ensures LineLeaves(w, [], isStatic, saved) == []
  {
  }

  lemma NoLeaf()
    ensures LinkedOf([]) == [] && InputsOf([]) == []
  {
  }

  lemma OneLeaf(leaf: Leaf)
    ensures LinkedOf([leaf]) == if leaf.Linked? then [leaf.path] else []
    ensures InputsOf([leaf]) == if leaf.Recorded? || leaf.Unresolved? then [leaf] else []
  {
    assert [leaf][..0] == [];
  }

  // ---------------------------------------------------------------- what a file stands for

  predicate IsScript(w: World, p: Path) { w.resolve(p) !in w.outputs && w.kind(w.resolve(p)).Script? }

  /** `q` is where some entry of the script `p` is found. */
  ghost predicate Names(w: World, p: Path, q: Path, isStatic: bool) {
    && IsScript(w, p)
    && exists n: nat :: n < |w.kind(w.resolve(p)).entries|
                        && w.entry(p, w.kind(w.resolve(p)).entries[n], isStatic) == Some(q)
  }

  /** The script `p` has an entry that is found nowhere. */
  ghost predicate Misses(w: World, p: Path, entry: string, isStatic: bool) {
    IsScript(w, p) && entry in w.kind(w.resolve(p)).entries && w.entry(p, entry, isStatic) == None
  }

  /** What is recorded for a file that is not followed further. */
  function LeafOf(w: World, p: Path): Leaf {
    var path := w.resolve(p);
    if path in w.outputs then Linked(path)
    else
      match w.kind(path)
      case Archive => Recorded(path)
      case Object => Recorded(path)
      case Shared => LeftToLoader(path)
      case Missing => Unresolved(path, NotFound)
      case Unknown => Unresolved(path, UnknownKind)
      case Script(_) => Unresolved(path, TooDeep)
  }

  /** Each file of the walk but the first is where an entry of the one before is found. */
  ghost predicate Walk(w: World, path: seq<Path>, isStatic: bool) {
    path != [] && forall i | 0 < i < |path| :: Names(w, path[i - 1], path[i], isStatic)
  }

  /** A walk that starts at nesting `depth` and ends in `leaf`: at a file that is not a script, at a script past the
      depth limit, or at a script within it that has an entry found nowhere. */
  ghost predicate EndsIn(w: World, path: seq<Path>, isStatic: bool, depth: nat, leaf: Leaf) {
    && Walk(w, path, isStatic) && depth + |path| - 1 <= SCRIPT_DEPTH + 1
    && var q, past := path[|path| - 1], depth + |path| - 1 > SCRIPT_DEPTH;
       || ((!IsScript(w, q) || past) && leaf == LeafOf(w, q))
       || (!past && leaf.Unresolved? && leaf.why == NotFound && Misses(w, q, leaf.name, isStatic))
  }

  ghost predicate Reaches(w: World, p: Path, isStatic: bool, depth: nat, leaf: Leaf) {
    exists path :: EndsIn(w, path, isStatic, depth, leaf) && path[0] == p
  }

  lemma {:induction false} ScriptHas(w: World, p: Path, entries: seq<string>, isStatic: bool, depth: nat, n: nat,
                                     leaf: Leaf)
    requires depth <= SCRIPT_DEPTH && n <= |entries|
    ensures leaf in ScriptLeaves(w, p, entries, isStatic, depth, n) <==>
            exists k: nat :: k < n && leaf in EntryLeaves(w, p, entries[k], isStatic, depth)
  {
    hide EntryLeaves;
    if n > 0 {
      ScriptHas(w, p, entries, isStatic, depth, n - 1, leaf);
    }
  }

  lemma WalkGrows(w: World, p: Path, path: seq<Path>, isStatic: bool, depth: nat, leaf: Leaf)
    requires EndsIn(w, path, isStatic, depth + 1, leaf) && Names(w, p, path[0], isStatic)
    ensures EndsIn(w, [p] + path, isStatic, depth, leaf)
  {
    hide Names, Misses, LeafOf;
    var longer := [p] + path;
    forall i | 0 < i < |longer| ensures Names(w, longer[i - 1], longer[i], isStatic) {
      if i > 1 {
        assert Names(w, path[i - 2], path[i - 1], isStatic);
      }
    }
    assert longer[|longer| - 1] == path[|path| - 1];
  }

  lemma WalkShrinks(w: World, path: seq<Path>, isStatic: bool, depth: nat, leaf: Leaf)
    requires EndsIn(w, path, isStatic, depth, leaf) && 1 < |path|
    ensures Names(w, path[0], path[1], isStatic) && EndsIn(w, path[1..], isStatic, depth + 1, leaf)
  {
    hide Names, Misses, LeafOf;
    var rest := path[1..];
    assert Names(w, path[0], path[1], isStatic);
    forall i | 0 < i < |rest| ensures Names(w, rest[i - 1], rest[i], isStatic) {
      assert Names(w, path[i], path[i + 1], isStatic);
    }
    assert rest[|rest| - 1] == path[|path| - 1];
  }

  /** From a script within the limit one gets to its own missing entries and to whatever its entries get to. */
  lemma ReachesStep(w: World, p: Path, isStatic: bool, depth: nat, leaf: Leaf)
    requires IsScript(w, p) && depth <= SCRIPT_DEPTH
    ensures Reaches(w, p, isStatic, depth, leaf) <==>
            || (leaf.Unresolved? && leaf.why == NotFound && Misses(w, p, leaf.name, isStatic))
            || exists q :: Names(w, p, q, isStatic) && Reaches(w, q, isStatic, depth + 1, leaf)
  {
    hide Names, Misses, LeafOf;
    if Reaches(w, p, isStatic, depth, leaf) {
      var path :| EndsIn(w, path, isStatic, depth, leaf) && path[0] == p;
      if 1 < |path| {
        WalkShrinks(w, path, isStatic, depth, leaf);
        assert path[1..][0] == path[1];
        assert Names(w, p, path[1], isStatic) && Reaches(w, path[1], isStatic, depth + 1, leaf);
      }
    }
    if leaf.Unresolved? && leaf.why == NotFound && Misses(w, p, leaf.name, isStatic) {
      assert EndsIn(w, [p], isStatic, depth, leaf);
    }
    if q :| Names(w, p, q, isStatic) && Reaches(w, q, isStatic, depth + 1, leaf) {
      var path :| EndsIn(w, path, isStatic, depth + 1, leaf) && path[0] == q;
      WalkGrows(w, p, path, isStatic, depth, leaf);
      assert ([p] + path)[0] == p;
    }
  }

  lemma ReachesHere(w: World, p: Path, isStatic: bool, depth: nat, leaf: Leaf)
    requires depth <= SCRIPT_DEPTH + 1 && (!IsScript(w, p) || depth > SCRIPT_DEPTH)
    ensures Reaches(w, p, isStatic, depth, leaf) <==> leaf == LeafOf(w, p)
  {
    if leaf == LeafOf(w, p) {
      assert EndsIn(w, [p], isStatic, depth, leaf);
    }
    if path :| EndsIn(w, path, isStatic, depth, leaf) && path[0] == p {
      if 1 < |path| {
        WalkShrinks(w, path, isStatic, depth, leaf);
      }
    }
  }

  /** A file stands for exactly the ends of the walks through scripts that start at it: nothing on any of them is
      dropped, and nothing else is added. */
  lemma {:induction false} LeavesIff(w: World, p: Path, isStatic: bool, depth: nat, leaf: Leaf)
    requires depth <= SCRIPT_DEPTH + 1
    ensures leaf in Leaves(w, p, isStatic, depth) <==> Reaches(w, p, isStatic, depth, leaf)
    decreases SCRIPT_DEPTH + 1 - depth
  {
    hide Reaches, ScriptLeaves;
    if !IsScript(w, p) || depth > SCRIPT_DEPTH {
      ReachesHere(w, p, isStatic, depth, leaf);
      assert Leaves(w, p, isStatic, depth) == [LeafOf(w, p)];
    } else {
      var entries := w.kind(w.resolve(p)).entries;
      ReachesStep(w, p, isStatic, depth, leaf);
      ScriptHas(w, p, entries, isStatic, depth, |entries|, leaf);
      forall k: nat | k < |entries|
        ensures leaf in EntryLeaves(w, p, entries[k], isStatic, depth)
                <==> EntryReaches(w, p, entries[k], isStatic, depth, leaf)
      {
        var hit := w.entry(p, entries[k], isStatic);
        if hit.Some? {
          LeavesIff(w, hit.value, isStatic, depth + 1, leaf);
        }
      }
      EntriesReach(w, p, isStatic, depth, leaf);
      hide EntryReaches, EntryLeaves, Names, Misses;
    }
  }

  ghost predicate EntryReaches(w: World, p: Path, entry: string, isStatic: bool, depth: nat, leaf: Leaf) {
    match w.entry(p, entry, isStatic)
    case None => leaf == Unresolved(entry, NotFound)
    case Some(hit) => Reaches(w, hit, isStatic, depth + 1, leaf)
  }

  lemma EntriesReach(w: World, p: Path, isStatic: bool, depth: nat, leaf: Leaf)
    requires IsScript(w, p)
    ensures var entries := w.kind(w.resolve(p)).entries;
            (exists k: nat :: k < |entries| && EntryReaches(w, p, entries[k], isStatic, depth, leaf)) <==>
            || (leaf.Unresolved? && leaf.why == NotFound && Misses(w, p, leaf.name, isStatic))
            || exists q :: Names(w, p, q, isStatic) && Reaches(w, q, isStatic, depth + 1, leaf)
  {
    hide Reaches;
    var entries := w.kind(w.resolve(p)).entries;
    if k: nat :| k < |entries| && EntryReaches(w, p, entries[k], isStatic, depth, leaf) {
      var hit := w.entry(p, entries[k], isStatic);
      if hit.Some? {
        assert Names(w, p, hit.value, isStatic);
      } else {
        assert Misses(w, p, leaf.name, isStatic);
      }
    }
    if leaf.Unresolved? && leaf.why == NotFound && Misses(w, p, leaf.name, isStatic) {
      var k: nat :| k < |entries| && entries[k] == leaf.name;
      assert EntryReaches(w, p, entries[k], isStatic, depth, leaf);
    }
    if q :| Names(w, p, q, isStatic) && Reaches(w, q, isStatic, depth + 1, leaf) {
      var k: nat :| k < |entries| && w.entry(p, entries[k], isStatic) == Some(q);
      assert EntryReaches(w, p, entries[k], isStatic, depth, leaf);
    }
  }

  predicate IsInput(leaf: Leaf) { leaf.Recorded? || leaf.Unresolved? }

  lemma {:induction false} PartsHave(leaves: seq<Leaf>)
    ensures forall path :: path in LinkedOf(leaves) <==> Linked(path) in leaves
    ensures forall leaf :: leaf in InputsOf(leaves) <==> IsInput(leaf) && leaf in leaves
  {
    if leaves != [] {
      var n := |leaves| - 1;
      PartsHave(leaves[..n]);
      assert leaves == leaves[..n] + [leaves[n]];
    }
  }

  lemma PartsReach(w: World, p: Path, isStatic: bool, depth: nat)
    requires depth <= SCRIPT_DEPTH + 1
    ensures var leaves := Leaves(w, p, isStatic, depth);
            && (forall path :: path in LinkedOf(leaves) <==> Reaches(w, p, isStatic, depth, Linked(path)))
            && forall leaf :: leaf in InputsOf(leaves) <==> IsInput(leaf) && Reaches(w, p, isStatic, depth, leaf)
  {
    hide Leaves, Reaches, LinkedOf, InputsOf;
    PartsHave(Leaves(w, p, isStatic, depth));
    forall leaf ensures leaf in Leaves(w, p, isStatic, depth) <==> Reaches(w, p, isStatic, depth, leaf) {
      LeavesIff(w, p, isStatic, depth, leaf);
    }
  }

  // ---------------------------------------------------------------- what a line stands for

  /** The word at `n` is the value of the option before it. */
  predicate IsValue(words: seq<Word>, n: nat)
    requires n <= |words|
  {
    0 < n && words[n - 1].TakesValue? && !IsValue(words, n - 1)
  }

  /** The first `n` words without those that are values. */
  function Plain(words: seq<Word>, n: nat): seq<Word>
    requires n <= |words|
  {
    if n == 0 then [] else Plain(words, n - 1) + if IsValue(words, n - 1) then [] else [words[n - 1]]
  }

  /** The mode in force after some words, and the modes that are saved. */
  function ModeOf(words: seq<Word>): bool {
    if words == [] then false
    else
      var front := words[..|words| - 1];
      ModeAfter(words[|words| - 1], ModeOf(front), SavedOf(front))
  }

  function SavedOf(words: seq<Word>): seq<bool> {
    if words == [] then []
    else
      var front := words[..|words| - 1];
      SavedAfter(words[|words| - 1], ModeOf(front), SavedOf(front))
  }

  /** What one word stands for: a library where it is found in the mode in force, a file itself. */
  ghost predicate WordReaches(w: World, word: Word, isStatic: bool, leaf: Leaf) {
    match word
    case Library(name) =>
      (match w.library(name, isStatic)
       case None => leaf == Unresolved(name, NotFound)
       case Some(hit) => Reaches(w, hit, isStatic, 0, leaf))
    case File(path) => Reaches(w, path, isStatic, 0, leaf)
    case _ => false
  }

  ghost predicate WordAtReaches(w: World, words: seq<Word>, n: nat, leaf: Leaf)
    requires n < |words|
  {
    !IsValue(words, n) && WordReaches(w, words[n], ModeOf(Plain(words, n)), leaf)
  }

  /** Some word of the line that is not a value stands for `leaf`, in the mode that the words before it leave. */
  ghost predicate LineReaches(w: World, words: seq<Word>, leaf: Leaf) {
    exists n: nat :: n < |words| && WordAtReaches(w, words, n, leaf)
  }

  lemma WordIff(w: World, word: Word, isStatic: bool, leaf: Leaf)
    ensures leaf in WordLeaves(w, word, isStatic) <==> WordReaches(w, word, isStatic, leaf)
  {
    hide Leaves, Reaches;
    match word {
      case Library(name) =>
        var hit := w.library(name, isStatic);
        if hit.Some? {
          LeavesIff(w, hit.value, isStatic, 0, leaf);
        }
      case File(path) => LeavesIff(w, path, isStatic, 0, leaf);
      case _ =>
    }
  }

  lemma PlainSteps(words: seq<Word>, n: nat)
    requires n < |words| && !IsValue(words, n)
    ensures Plain(words, n + 1) == Plain(words, n) + [words[n]]
    ensures var before, word := Plain(words, n), words[n];
            && ModeOf(Plain(words, n + 1)) == ModeAfter(word, ModeOf(before), SavedOf(before))
            && SavedOf(Plain(words, n + 1)) == SavedAfter(word, ModeOf(before), SavedOf(before))
  {
    var before := Plain(words, n);
    assert (before + [words[n]])[..|before|] == before;
  }

  lemma {:induction false} LineFromIff(w: World, words: seq<Word>, i: nat, leaf: Leaf)
    requires i <= |words| && (i < |words| ==> !IsValue(words, i))
    ensures leaf in LineLeaves(w, words[i..], ModeOf(Plain(words, i)), SavedOf(Plain(words, i))) <==>
            exists n: nat :: i <= n < |words| && WordAtReaches(w, words, n, leaf)
    decreases |words| - i
  {
    hide ModeOf, SavedOf, WordLeaves, WordReaches, LineLeaves, Plain;
    if i == |words| {
      assert words[i..] == [];
      NoWords(w, ModeOf(Plain(words, i)), SavedOf(Plain(words, i)));
    } else {
      var before := Plain(words, i);
      LineStep(w, words, i, ModeOf(before), SavedOf(before));
      WordIff(w, words[i], ModeOf(before), leaf);
      PlainSteps(words, i);
      if words[i].TakesValue? && i + 1 < |words| {
        ValueIsSkipped(words, i + 1);
        LineFromIff(w, words, i + 2, leaf);
        assert !WordAtReaches(w, words, i + 1, leaf);
        assert (exists n: nat :: i <= n < |words| && WordAtReaches(w, words, n, leaf)) <==>
               || WordAtReaches(w, words, i, leaf)
               || exists n: nat :: i + 2 <= n < |words| && WordAtReaches(w, words, n, leaf);
      } else {
        LineFromIff(w, words, i + 1, leaf);
        assert (exists n: nat :: i <= n < |words| && WordAtReaches(w, words, n, leaf)) <==>
               || WordAtReaches(w, words, i, leaf)
               || exists n: nat :: i + 1 <= n < |words| && WordAtReaches(w, words, n, leaf);
      }
    }
  }

  lemma ValueIsSkipped(words: seq<Word>, n: nat)
    requires n < |words| && IsValue(words, n)
    ensures Plain(words, n + 1) == Plain(words, n) && !IsValue(words, n + 1)
  {
  }

  /** A line stands for exactly what its words stand for, each in the mode in force there. */
  lemma LineIff(w: World, words: seq<Word>, leaf: Leaf)
    ensures leaf in LineLeaves(w, words, false, []) <==> LineReaches(w, words, leaf)
  {
    hide LineLeaves, WordAtReaches;
    LineFromIff(w, words, 0, leaf);
    assert words[0..] == words && Plain(words, 0) == [];
  }

  lemma LinePartsReach(w: World, words: seq<Word>)
    ensures var leaves := LineLeaves(w, words, false, []);
            && (forall path :: path in LinkedOf(leaves) <==> LineReaches(w, words, Linked(path)))
            && forall leaf :: leaf in InputsOf(leaves) <==> IsInput(leaf) && LineReaches(w, words, leaf)
  {
    hide LineLeaves, LineReaches, LinkedOf, InputsOf;
    PartsHave(LineLeaves(w, words, false, []));
    forall leaf ensures leaf in LineLeaves(w, words, false, []) <==> LineReaches(w, words, leaf) {
      LineIff(w, words, leaf);
    }
  }

  /** How many more states are pushed than popped. */
  function Height(words: seq<Word>): int {
    if words == [] then 0 else Height(words[..|words| - 1]) + Change(words[|words| - 1])
  }

  function Change(word: Word): int { if word.PushState? then 1 else if word.PopState? then -1 else 0 }

  ghost predicate Balanced(words: seq<Word>) {
    Height(words) == 0 && forall n: nat | n <= |words| :: 0 <= Height(words[..n])
  }

  /** Words that never pop more than they push leave the saved modes beneath them alone. */
  lemma {:induction false} SavedStay(front: seq<Word>, words: seq<Word>)
    requires forall n: nat | n <= |words| :: 0 <= Height(words[..n])
    ensures words[..|words|] == words && 0 <= Height(words)
    ensures |SavedOf(front + words)| == |SavedOf(front)| + Height(words) && SavedOf(front) <= SavedOf(front + words)
  {
    assert words[..|words|] == words;
    if words == [] {
      assert front + words == front;
    } else {
      var k := |words| - 1;
      assert forall n: nat | n <= k :: words[..k][..n] == words[..n];
      SavedStay(front, words[..k]);
      assert (front + words)[..|front + words| - 1] == front + words[..k];
    }
  }

  /** A pop restores the mode that was in force at its push, whatever balanced words lie between. */
  lemma PopRestores(front: seq<Word>, between: seq<Word>)
    requires Balanced(between)
    ensures ModeOf(front + [PushState] + between + [PopState]) == ModeOf(front)
  {
    hide Height;
    var pushed := front + [PushState];
    assert pushed[..|front|] == front;
    SavedStay(pushed, between);
    var all := pushed + between;
    assert (all + [PopState])[..|all|] == all;
    assert SavedOf(pushed) == SavedOf(front) + [ModeOf(front)];
    assert SavedOf(all) == SavedOf(pushed);
  }

  /** As many modes are saved as some end of the words pushes more than it pops, at most. */
  lemma {:induction false} SavedAtMost(words: seq<Word>, most: nat)
    requires forall n: nat | n <= |words| :: Height(words[n..]) <= most
    ensures |SavedOf(words)| <= most
  {
    if words != [] {
      var k := |words| - 1;
      var front, step := words[..k], Change(words[k]);
      forall n: nat | n <= k ensures Height(front[n..]) <= most - step {
        var end := words[n..];
        assert end[..k - n] == front[n..] && end[k - n] == words[k];
        assert Height(end) <= most;
      }
      assert front[k..] == [];
      SavedAtMost(front, most - step);
    }
  }

  /** A pop without a push to match leaves the dynamic mode. */
  lemma PopAlone(front: seq<Word>)
    requires forall n: nat | n <= |front| :: Height(front[n..]) <= 0
    ensures !ModeOf(front + [PopState])
  {
    hide Height;
    SavedAtMost(front, 0);
    assert (front + [PopState])[..|front|] == front;
  }

  // ---------------------------------------------------------------- how deep scripts may nest

  predicate Overflows(leaves: seq<Leaf>) { exists leaf <- leaves :: leaf.Unresolved? && leaf.why == TooDeep }

  /** A walk of `length` files, all of them scripts, starts at `p`. */
  ghost predicate Nests(w: World, p: Path, isStatic: bool, length: nat) {
    exists path :: Walk(w, path, isStatic) && path[0] == p && |path| == length && IsScript(w, path[|path| - 1])
  }

  /** Reading a file runs into the depth limit exactly if a long enough walk of scripts starts there, be it a
      cycle or not. */
  lemma TooDeepIff(w: World, p: Path, isStatic: bool, depth: nat)
    requires depth <= SCRIPT_DEPTH + 1
    ensures Overflows(Leaves(w, p, isStatic, depth)) <==> Nests(w, p, isStatic, SCRIPT_DEPTH + 2 - depth)
  {
    hide Leaves, Names;
    var leaves := Leaves(w, p, isStatic, depth);
    if leaf :| leaf in leaves && leaf.Unresolved? && leaf.why == TooDeep {
      LeavesIff(w, p, isStatic, depth, leaf);
      var path :| EndsIn(w, path, isStatic, depth, leaf) && path[0] == p;
      assert IsScript(w, path[|path| - 1]);
    }
    if Nests(w, p, isStatic, SCRIPT_DEPTH + 2 - depth) {
      var path :| Walk(w, path, isStatic) && path[0] == p && |path| == SCRIPT_DEPTH + 2 - depth
                  && IsScript(w, path[|path| - 1]);
      var leaf := LeafOf(w, path[|path| - 1]);
      assert EndsIn(w, path, isStatic, depth, leaf);
      LeavesIff(w, p, isStatic, depth, leaf);
    }
  }
}
