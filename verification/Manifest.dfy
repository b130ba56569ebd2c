/** Placeholder resolution of a tracker entry: passes over the pending keys, in the order of the entry,
    until nothing is pending or a pass makes no progress.

    A string of the manifest is a sequence of tokens, left to right. A resolved string is never expanded
    again. */
module Manifest {
  import opened Sets

  datatype Transform = Plain | CamelCase | Upper

  datatype Token = Literal(text: string) | Placeholder(key: string, transform: Transform)

  datatype Shape = Array | Table(keys: seq<string>)

  /** A TOML value whose strings are of type `S`. Booleans and numbers are `Scalar`; dates and times are
      `Other`. */
  datatype Tree<S> = Str(text: S) | Many(shape: Shape, items: seq<Tree<S>>) | Scalar(repr: string) | Other(repr: string)

  type Raw = Tree<seq<Token>>
  type Value = Tree<string>
  type Values = map<string, Value>

  /** `Missing` is a KeyError, `Mistyped` a TypeError. */
  datatype Result<T> = Done(value: T) | Missing | Mistyped

  /** `seed` holds the name and the table; `pending` everything else after merging the defaults; `apply` the
      two transforms. */
  datatype Entry = Entry(seed: Values, pending: map<string, Raw>, apply: (Transform, string) -> string) {
    predicate Valid() { seed.Keys !! pending.Keys }

    function Keys(): set<string> { seed.Keys + pending.Keys }
  }

  datatype Outcome = Resolved(values: Values) | TypeError | Unresolvable(keys: set<string>)

  // ---------------------------------------------------------------- expansion

  function ExpandToken(e: Entry, t: Token, m: Values): Result<string> {
    match t
    case Literal(text) => Done(text)
    case Placeholder(key, transform) =>
      if key !in m then Missing
      else
        match m[key]
        case Str(text) => Done(e.apply(transform, text))
        case Other(repr) => Done(e.apply(transform, repr))
        case _ => Mistyped
  }

  function ExpandText(e: Entry, tokens: seq<Token>, m: Values): Result<string> {
    if tokens == [] then Done("")
    else
      match ExpandText(e, tokens[..|tokens| - 1], m)
      case Missing => Missing
      case Mistyped => Mistyped
      case Done(front) =>
        match ExpandToken(e, tokens[|tokens| - 1], m)
        case Missing => Missing
        case Mistyped => Mistyped
        case Done(last) => Done(front + last)
  }

  function Expand(e: Entry, v: Raw, m: Values): Result<Value> {
    match v
    case Str(tokens) =>
      (match ExpandText(e, tokens, m)
       case Missing => Missing
       case Mistyped => Mistyped
       case Done(text) => Done(Str(text)))
    case Many(shape, items) =>
      (match ExpandItems(e, items, m)
       case Missing => Missing
       case Mistyped => Mistyped
       case Done(values) => Done(Many(shape, values)))
    case Scalar(repr) => Done(Scalar(repr))
    case Other(repr) => Done(Other(repr))
  }

  function ExpandItems(e: Entry, items: seq<Raw>, m: Values): Result<seq<Value>> {
    if items == [] then Done([])
    else
      match ExpandItems(e, items[..|items| - 1], m)
      case Missing => Missing
      case Mistyped => Mistyped
      case Done(front) =>
        match Expand(e, items[|items| - 1], m)
        case Missing => Missing
        case Mistyped => Mistyped
        case Done(last) => Done(front + [last])
  }

  // ---------------------------------------------------------------- references decide the outcome

  function RefsOfText(tokens: seq<Token>): seq<string> {
    if tokens == [] then []
    else
      RefsOfText(tokens[..|tokens| - 1])
      + match tokens[|tokens| - 1] { case Literal(_) => [] case Placeholder(key, _) => [key] }
  }

  /** The keys a value refers to, in the order in which expansion looks them up. */
  function Refs(v: Raw): seq<string> {
    match v
    case Str(tokens) => RefsOfText(tokens)
    case Many(_, items) => RefsOfItems(items)
    case Scalar(_) => []
    case Other(_) => []
  }

  function RefsOfItems(items: seq<Raw>): seq<string> {
    if items == [] then [] else RefsOfItems(items[..|items| - 1]) + Refs(items[|items| - 1])
  }

  predicate Textual<S>(v: Tree<S>) { v.Str? || v.Other? }

  /** The first reference that cannot be used decides. */
  datatype Scan = Clear | BlockedBy(key: string) | WrongType(key: string)

  function ScanRefs(refs: seq<string>, m: Values): Scan {
    if refs == [] then Clear
    else
      var front := ScanRefs(refs[..|refs| - 1], m);
      var key := refs[|refs| - 1];
      if front != Clear then front
      else if key !in m then BlockedBy(key)
      else if Textual(m[key]) then Clear else WrongType(key)
  }

  predicate Agrees<T>(r: Result<T>, s: Scan) {
    match s case Clear => r.Done? case BlockedBy(_) => r.Missing? case WrongType(_) => r.Mistyped?
  }

  lemma {:induction false} ScanAppends(a: seq<string>, b: seq<string>, m: Values)
    ensures ScanRefs(a + b, m) == if ScanRefs(a, m) != Clear then ScanRefs(a, m) else ScanRefs(b, m)
  {
    if b == [] {
      assert a + b == a;
    } else {
      var n := |b| - 1;
      ScanAppends(a, b[..n], m);
      assert (a + b)[..|a + b| - 1] == a + b[..n];
    }
  }

  lemma {:induction false} TextScans(e: Entry, tokens: seq<Token>, m: Values)
    ensures Agrees(ExpandText(e, tokens, m), ScanRefs(RefsOfText(tokens), m))
  {
    if tokens != [] {
      var n := |tokens| - 1;
      TextScans(e, tokens[..n], m);
      var front := RefsOfText(tokens[..n]);
      match tokens[n] {
        case Literal(_) =>
          assert RefsOfText(tokens) == front;
        case Placeholder(key, _) =>
          assert RefsOfText(tokens)[..|front|] == front;
      }
    }
  }

  /** Expansion succeeds, waits or fails exactly as a scan of the references does. */
  lemma {:induction false} ValueScans(e: Entry, v: Raw, m: Values)
    ensures Agrees(Expand(e, v, m), ScanRefs(Refs(v), m))
  {
    match v {
      case Str(tokens) => TextScans(e, tokens, m);
      case Many(_, items) => ItemsScan(e, items, m);
      case Scalar(_) =>
      case Other(_) =>
    }
  }

  lemma {:induction false} ItemsScan(e: Entry, items: seq<Raw>, m: Values)
    ensures Agrees(ExpandItems(e, items, m), ScanRefs(RefsOfItems(items), m))
  {
    if items != [] {
      var n := |items| - 1;
      ItemsScan(e, items[..n], m);
      ValueScans(e, items[n], m);
      ScanAppends(RefsOfItems(items[..n]), Refs(items[n]), m);
    }
  }

  // ---------------------------------------------------------------- more values never change an outcome

  predicate Within(m: Values, m': Values) { forall k <- m :: k in m' && m'[k] == m[k] }

  lemma {:induction false} TextIsMonotone(e: Entry, tokens: seq<Token>, m: Values, m': Values)
    requires Within(m, m') && !ExpandText(e, tokens, m).Missing?
    ensures ExpandText(e, tokens, m') == ExpandText(e, tokens, m)
  {
    if tokens != [] {
      TextIsMonotone(e, tokens[..|tokens| - 1], m, m');
    }
  }

  /** Once expansion has given a value or a type error, further resolved keys leave it as it is. */
  lemma {:induction false} ExpandIsMonotone(e: Entry, v: Raw, m: Values, m': Values)
    requires Within(m, m') && !Expand(e, v, m).Missing?
    ensures Expand(e, v, m') == Expand(e, v, m)
  {
    match v {
      case Str(tokens) => TextIsMonotone(e, tokens, m, m');
      case Many(_, items) => ItemsAreMonotone(e, items, m, m');
      case Scalar(_) =>
      case Other(_) =>
    }
  }

  lemma {:induction false} ItemsAreMonotone(e: Entry, items: seq<Raw>, m: Values, m': Values)
    requires Within(m, m') && !ExpandItems(e, items, m).Missing?
    ensures ExpandItems(e, items, m') == ExpandItems(e, items, m)
  {
    if items != [] {
      var n := |items| - 1;
      ItemsAreMonotone(e, items[..n], m, m');
      if ExpandItems(e, items[..n], m).Done? {
        ExpandIsMonotone(e, items[n], m, m');
      }
    }
  }

  // ---------------------------------------------------------------- the limit

  predicate Settles(e: Entry, m: Values, k: string) { k in e.pending && Expand(e, e.pending[k], m).Done? }

  /** Every key that can be expanded at once, expanded. */
  function Next(e: Entry, m: Values): Values {
    map k | k in e.Keys() && (k in e.seed || Settles(e, m, k)) ::
      if k in e.seed then e.seed[k] else Expand(e, e.pending[k], m).value
  }

  function Stage(e: Entry, n: nat): Values { if n == 0 then e.seed else Next(e, Stage(e, n - 1)) }

  /** The least map that holds the seed and every value that expands in it: what the entry means. */
  function Limit(e: Entry): Values { Stage(e, |e.pending|) }

  lemma NextIsMonotone(e: Entry, m: Values, m': Values)
    requires Within(m, m')
    ensures Within(Next(e, m), Next(e, m'))
  {
    forall k <- Next(e, m) ensures k in Next(e, m') && Next(e, m')[k] == Next(e, m)[k] {
      if k !in e.seed {
        assert Settles(e, m, k);
        ExpandIsMonotone(e, e.pending[k], m, m');
      }
    }
  }

  lemma {:induction false} StagesGrow(e: Entry, n: nat)
    ensures Within(Stage(e, n), Stage(e, n + 1)) && e.seed.Keys <= Stage(e, n).Keys <= e.Keys()
  {
    if n > 0 {
      StagesGrow(e, n - 1);
      NextIsMonotone(e, Stage(e, n - 1), Stage(e, n));
    }
  }

  lemma WithinSizes(m: Values, m': Values)
    requires Within(m, m')
    ensures |m| <= |m'| && (|m| == |m'| ==> m == m')
  {
    SubsetSize(m.Keys, m'.Keys);
  }

  lemma StageSteps(e: Entry, n: nat)
    ensures Stage(e, n + 1) == Next(e, Stage(e, n))
  {
  }

  /** Stages either have stopped growing or grow by at least one key. */
  lemma {:induction false} StagesSettle(e: Entry, n: nat)
    ensures |Stage(e, n + 1)| == |Stage(e, n)| || |Stage(e, n)| >= |e.seed| + n
  {
    hide *;
    FirstStage(e);
    if n > 0 {
      StagesSettle(e, n - 1);
      StageStays(e, n - 1);
    }
  }

  lemma StageStays(e: Entry, n: nat)
    ensures |Stage(e, n)| <= |Stage(e, n + 1)|
    ensures |Stage(e, n)| == |Stage(e, n + 1)| ==> |Stage(e, n + 1)| == |Stage(e, n + 2)|
  {
    hide *;
    StagesGrow(e, n);
    StageSteps(e, n);
    StageSteps(e, n + 1);
    WithinSizes(Stage(e, n), Stage(e, n + 1));
  }

  lemma FirstStage(e: Entry)
    ensures Stage(e, 0) == e.seed
  {
  }

  lemma LimitIsFixed(e: Entry)
    requires e.Valid()
    ensures Next(e, Limit(e)) == Limit(e)
  {
    hide Next, Expand, Within, Stage;
    var n := |e.pending|;
    StagesSettle(e, n);
    StageSteps(e, n);
    StagesGrow(e, n);
    StagesGrow(e, n + 1);
    Counts(e);
    SubsetSize(Stage(e, n + 1).Keys, e.Keys());
    WithinSizes(Stage(e, n), Stage(e, n + 1));
  }

  lemma Counts(e: Entry)
    requires e.Valid()
    ensures |e.Keys()| == |e.seed| + |e.pending|
  {
    assert |e.seed.Keys + e.pending.Keys| == |e.seed.Keys| + |e.pending.Keys|;
  }

  /** Nothing that satisfies the entry's equations on the keys of the limit can differ from it. */
  lemma {:induction false} StageIsLeast(e: Entry, m: Values, n: nat)
    requires Within(e.seed, m)
    requires forall k | Settles(e, m, k) :: k in m && m[k] == Expand(e, e.pending[k], m).value
    ensures Within(Stage(e, n), m)
  {
    if n > 0 {
      StageIsLeast(e, m, n - 1);
      forall k <- Stage(e, n) ensures k in m && m[k] == Stage(e, n)[k] {
        if k !in e.seed {
          assert Settles(e, Stage(e, n - 1), k);
          ExpandIsMonotone(e, e.pending[k], Stage(e, n - 1), m);
          assert Settles(e, m, k);
        }
      }
    }
  }

  // ---------------------------------------------------------------- the outcome of an entry

  predicate Fails(e: Entry, k: string) { k in e.pending && Expand(e, e.pending[k], Limit(e)).Mistyped? }

  function Verdict(e: Entry): Outcome {
    if exists k <- e.pending.Keys :: Fails(e, k) then TypeError
    else if e.pending.Keys <= Limit(e).Keys then Resolved(Limit(e))
    else Unresolvable(e.pending.Keys - Limit(e).Keys)
  }

  /** Part of the limit that holds the seed, with `left` still to do. */
  predicate Reached(e: Entry, values: Values, left: map<string, Raw>) {
    && Within(values, Limit(e)) && e.seed.Keys <= values.Keys
    && left.Keys == e.pending.Keys - values.Keys
    && (forall k <- left :: left[k] == e.pending[k])
    && values.Keys <= e.Keys()
  }

  lemma StartIsReached(e: Entry)
    requires e.Valid()
    ensures Reached(e, e.seed, e.pending)
  {
    hide Expand;
    forall n: nat ensures Within(e.seed, Stage(e, n)) {
      SeedStays(e, n);
    }
    StagesGrow(e, |e.pending|);
  }

  lemma {:induction false} SeedStays(e: Entry, n: nat)
    ensures Within(e.seed, Stage(e, n))
  {
    if n > 0 {
      SeedStays(e, n - 1);
    }
  }

  lemma LimitAt(e: Entry, k: string)
    requires e.Valid() && k in e.pending
    ensures k in Limit(e) <==> Expand(e, e.pending[k], Limit(e)).Done?
    ensures k in Limit(e) ==> Limit(e)[k] == Expand(e, e.pending[k], Limit(e)).value
  {
    hide Limit, Expand;
    LimitIsFixed(e);
    assert k in Next(e, Limit(e)) <==> Settles(e, Limit(e), k);
  }

  lemma StepIsReached(e: Entry, values: Values, left: map<string, Raw>, k: string)
    requires e.Valid() && Reached(e, values, left) && k in left && Expand(e, left[k], values).Done?
    ensures Reached(e, values[k := Expand(e, left[k], values).value], left - {k})
  {
    hide Limit, Expand;
    LimitAt(e, k);
    ExpandIsMonotone(e, left[k], values, Limit(e));
  }

  lemma FailureIsReached(e: Entry, values: Values, left: map<string, Raw>, k: string)
    requires Reached(e, values, left) && k in left && Expand(e, left[k], values).Mistyped?
    ensures k in e.pending && Fails(e, k)
  {
    hide Limit, Expand;
    ExpandIsMonotone(e, left[k], values, Limit(e));
  }

  /** If every key that is left waits for another one, all of the limit has been reached. */
  lemma StuckIsLimit(e: Entry, values: Values, left: map<string, Raw>)
    requires e.Valid() && Reached(e, values, left)
    requires forall k <- left :: Expand(e, left[k], values).Missing?
    ensures values == Limit(e) && forall k <- e.pending.Keys :: !Fails(e, k)
  {
    hide Limit, Expand, Stage;
    LimitIsHere(e, values, left);
    WithinBoth(values, Limit(e));
    forall k <- e.pending.Keys ensures !Fails(e, k) {
      LimitAt(e, k);
    }
  }

  lemma LimitIsHere(e: Entry, values: Values, left: map<string, Raw>)
    requires e.Valid() && Reached(e, values, left)
    requires forall k <- left :: Expand(e, left[k], values).Missing?
    ensures Within(Limit(e), values)
  {
    hide Limit, Expand, Stage;
    StartIsReached(e);
    assert Within(e.seed, values);
    forall k | Settles(e, values, k) ensures k in values && values[k] == Expand(e, e.pending[k], values).value {
      assert k in values;
      LimitAt(e, k);
      ExpandIsMonotone(e, e.pending[k], values, Limit(e));
    }
    StageIsLeast(e, values, |e.pending|);
    LimitIsStage(e);
  }

  lemma WithinBoth(m: Values, m': Values)
    requires Within(m, m') && Within(m', m)
    ensures m == m'
  {
    assert m.Keys == m'.Keys;
  }

  lemma LimitIsStage(e: Entry)
    ensures Limit(e) == Stage(e, |e.pending|)
  {
  }

  lemma Removes(left: map<string, Raw>, k: string)
    requires k in left
    ensures |left - {k}| == |left| - 1
  {
    assert (left - {k}).Keys == left.Keys - {k};
  }

  /** Whether every key of `keys` that is left waits for another one. */
  predicate AllWait(e: Entry, values: Values, left: map<string, Raw>, keys: seq<string>) {
    forall k <- keys :: k in left ==> Expand(e, left[k], values).Missing?
  }

  lemma OneMoreWaits(e: Entry, values: Values, left: map<string, Raw>, order: seq<string>, i: nat)
    requires i < |order| && AllWait(e, values, left, order[..i])
    requires order[i] in left ==> Expand(e, left[order[i]], values).Missing?
    ensures AllWait(e, values, left, order[..i + 1])
  {
    hide Expand;
    assert order[..i + 1] == order[..i] + [order[i]];
  }

  lemma NoneWaits(e: Entry, values: Values, left: map<string, Raw>, order: seq<string>)
    ensures AllWait(e, values, left, order[..0])
  {
  }

  /** One pass over the keys. */
  method Pass(e: Entry, order: seq<string>, values: Values, left: map<string, Raw>)
    returns (failed: bool, progressed: bool, values': Values, left': map<string, Raw>)
    requires e.Valid() && Reached(e, values, left)
    ensures failed ==> exists k <- e.pending.Keys :: Fails(e, k)
    ensures !failed ==> Reached(e, values', left')
    ensures !failed && progressed ==> |left'| < |left|
    ensures !failed && !progressed ==> values' == values && left' == left && AllWait(e, values, left, order)
  {
    hide Limit, Expand, Reached, AllWait, Fails;
    failed, progressed, values', left' := false, false, values, left;
    NoneWaits(e, values, left, order);
    for i := 0 to |order|
      invariant Reached(e, values', left') && |left'| <= |left|
      invariant progressed ==> |left'| < |left|
      invariant !progressed ==> left' == left && values' == values && AllWait(e, values, left, order[..i])
    {
      var key := order[i];
      if !progressed && (key in left ==> Expand(e, left[key], values).Missing?) {
        OneMoreWaits(e, values, left, order, i);
      }
      if key in left' {
        match Expand(e, left'[key], values') {
          case Missing =>
          case Mistyped =>
            FailureIsReached(e, values', left', key);
            failed := true;
            return;
          case Done(value) =>
            StepIsReached(e, values', left', key);
            Removes(left', key);
            values', left' := values'[key := value], left' - {key};
            progressed := true;
        }
      }
    }
    assert order[..|order|] == order;
  }

  lemma LeftIsPending(e: Entry, values: Values, left: map<string, Raw>, order: seq<string>)
    requires e.Valid() && Reached(e, values, left) && AllWait(e, values, left, order)
    requires forall k :: k in order <==> k in e.pending
    ensures values == Limit(e) && left.Keys == e.pending.Keys - Limit(e).Keys
    ensures forall k <- e.pending.Keys :: !Fails(e, k)
  {
    hide Limit, Expand;
    StuckIsLimit(e, values, left);
  }

  lemma NothingLeft(e: Entry, values: Values, left: map<string, Raw>)
    requires e.Valid() && Reached(e, values, left) && left == map[]
    ensures values == Limit(e) && e.pending.Keys <= Limit(e).Keys
    ensures forall k <- e.pending.Keys :: !Fails(e, k)
  {
    hide Limit, Expand;
    StuckIsLimit(e, values, left);
  }

  /** The resolver, its passes bounded as in the source, gives the verdict for every order of the entry's
      keys, and the bound is never what ends it. */
  method Resolve(e: Entry, order: seq<string>) returns (out: Outcome, passes: nat)
    requires e.Valid() && (forall k :: k in order <==> k in e.pending)
    ensures out == Verdict(e)
    ensures passes <= |e.pending| + 1
  {
    hide Limit, Expand, Reached, AllWait, Fails;
    var values, left := e.seed, e.pending;
    StartIsReached(e);
    passes := 0;
    while passes < |e.pending| + 8
      invariant Reached(e, values, left)
      invariant |left| + passes <= |e.pending|
      invariant passes > 0 ==> left != map[]
    {
      passes := passes + 1;
      var failed, progressed, values', left' := Pass(e, order, values, left);
      if failed {
        return TypeError, passes;
      }
      if left' == map[] {
        NothingLeft(e, values', left');
        return Resolved(values'), passes;
      }
      if !progressed {
        LeftIsPending(e, values, left, order);
        return Unresolvable(left.Keys), passes;
      }
      values, left := values', left';
    }
    assert false;
    out := TypeError;
  }

  // ---------------------------------------------------------------- what the verdict means

  predicate Solves(e: Entry, m: Values) {
    && m.Keys == e.Keys() && Within(e.seed, m)
    && forall k <- e.pending.Keys :: k in m && Expand(e, e.pending[k], m) == Done(m[k])
  }

  /** A resolved entry satisfies all its own equations, and nothing else does. */
  lemma ResolvedIsTheSolution(e: Entry, m: Values)
    requires e.Valid() && Verdict(e).Resolved?
    ensures Solves(e, m) <==> m == Verdict(e).values
  {
    hide Limit, Expand, Stage, Fails;
    LimitSolves(e);
    if Solves(e, m) {
      StageIsLeast(e, m, |e.pending|);
      LimitIsStage(e);
      WithinBoth(m, Limit(e));
    }
  }

  lemma LimitSolves(e: Entry)
    requires e.Valid() && Verdict(e).Resolved?
    ensures Solves(e, Limit(e)) && Verdict(e).values == Limit(e)
  {
    hide Limit, Expand, Fails;
    StartIsReached(e);
    LimitHasKeys(e);
    forall k <- e.pending.Keys ensures k in Limit(e) && Expand(e, e.pending[k], Limit(e)) == Done(Limit(e)[k]) {
      LimitAt(e, k);
    }
  }

  lemma LimitHasKeys(e: Entry)
    ensures e.seed.Keys <= Limit(e).Keys <= e.Keys()
  {
    hide Expand, Next;
    StagesGrow(e, |e.pending|);
  }

  lemma {:induction false} ScanMeans(refs: seq<string>, m: Values)
    ensures var s := ScanRefs(refs, m);
            match s
            case Clear => forall r <- refs :: r in m && Textual(m[r])
            case BlockedBy(key) => key in refs && key !in m
            case WrongType(key) => key in refs && key in m && !Textual(m[key])
  {
    if refs != [] {
      ScanMeans(refs[..|refs| - 1], m);
      assert refs == refs[..|refs| - 1] + [refs[|refs| - 1]];
    }
  }

  /** Every reference to a key of the entry is to a string (or to a date, which reads as one). */
  predicate AllTextual(e: Entry) {
    forall k <- e.pending.Keys, r <- Refs(e.pending[k]) :: TextualKey(e, r)
  }

  predicate TextualKey(e: Entry, r: string) {
    && (r in e.seed ==> Textual(e.seed[r]))
    && (r in e.pending ==> Textual(e.pending[r]))
  }

  /** Each key of `stuck` waits for a key of `stuck` or for one that the entry does not have. */
  ghost predicate Blocked(e: Entry, stuck: set<string>) {
    stuck <= e.pending.Keys && forall k <- stuck :: Waits(e, stuck, k)
  }

  ghost predicate Waits(e: Entry, stuck: set<string>, k: string)
    requires k in e.pending
  {
    exists r <- Refs(e.pending[k]) :: r in stuck || r !in e.Keys()
  }

  lemma KindStays(e: Entry, r: string)
    requires e.Valid() && r in Limit(e)
    ensures r in e.Keys() && (TextualKey(e, r) <==> Textual(Limit(e)[r]))
  {
    hide Limit;
    LimitHasKeys(e);
    StartIsReached(e);
    if r in e.pending {
      LimitAt(e, r);
    }
  }

  /** A set of keys that wait for each other is never resolved. */
  lemma {:induction false} BlockedStays(e: Entry, stuck: set<string>, n: nat)
    requires e.Valid() && Blocked(e, stuck)
    ensures stuck !! Stage(e, n).Keys
  {
    hide Expand, Refs;
    if n > 0 {
      BlockedStays(e, stuck, n - 1);
      StagesGrow(e, n - 1);
      forall k <- stuck ensures k !in Stage(e, n) {
        assert Waits(e, stuck, k);
        var refs, m := Refs(e.pending[k]), Stage(e, n - 1);
        ScanMeans(refs, m);
        ValueScans(e, e.pending[k], m);
      }
    }
  }

  lemma StuckIsBlocked(e: Entry)
    requires e.Valid() && Verdict(e).Unresolvable?
    ensures Blocked(e, Verdict(e).keys) && Verdict(e).keys != {}
  {
    hide Limit, Expand, Refs;
    var stuck := Verdict(e).keys;
    LimitHasKeys(e);
    var one :| one in e.pending.Keys && one !in Limit(e);
    assert one in stuck;
    forall k <- stuck ensures Waits(e, stuck, k) {
      LimitAt(e, k);
      assert !Fails(e, k);
      ScanMeans(Refs(e.pending[k]), Limit(e));
      ValueScans(e, e.pending[k], Limit(e));
    }
  }

  lemma FailureIsMistyped(e: Entry, k: string)
    requires e.Valid() && k in e.pending && Fails(e, k)
    ensures !AllTextual(e)
  {
    hide Limit, Expand, Refs;
    ScanMeans(Refs(e.pending[k]), Limit(e));
    ValueScans(e, e.pending[k], Limit(e));
    KindStays(e, ScanRefs(Refs(e.pending[k]), Limit(e)).key);
  }

  lemma ResolvedIsTextual(e: Entry)
    requires e.Valid() && Verdict(e).Resolved?
    ensures AllTextual(e)
  {
    hide Limit, Expand, Refs, Fails;
    forall k <- e.pending.Keys, r <- Refs(e.pending[k]) ensures TextualKey(e, r) {
      LimitAt(e, k);
      ScanMeans(Refs(e.pending[k]), Limit(e));
      ValueScans(e, e.pending[k], Limit(e));
      KindStays(e, r);
    }
  }

  /** Exactly which entries resolve, from their references alone: those that refer to strings only and hold
      no set of keys that wait for each other or for a key that is not there. */
  lemma ResolvesIff(e: Entry)
    requires e.Valid()
    ensures Verdict(e).Resolved? <==> AllTextual(e) && forall stuck | Blocked(e, stuck) :: stuck == {}
  {
    hide Limit, Expand, Refs, AllTextual, Fails, Blocked;
    if Verdict(e).Resolved? {
      ResolvedIsTextual(e);
      forall stuck | Blocked(e, stuck) ensures stuck == {} {
        BlockedStays(e, stuck, |e.pending|);
        LimitIsStage(e);
        BlockedIsPending(e, stuck);
      }
    } else if Verdict(e).TypeError? {
      var k :| k in e.pending && Fails(e, k);
      FailureIsMistyped(e, k);
    } else {
      StuckIsBlocked(e);
    }
  }

  lemma BlockedIsPending(e: Entry, stuck: set<string>)
    requires Blocked(e, stuck)
    ensures stuck <= e.pending.Keys
  {
  }

  /** The keys reported as unresolvable are the largest such set. */
  lemma UnresolvableIsLargest(e: Entry, stuck: set<string>)
    requires e.Valid() && Verdict(e).Unresolvable? && Blocked(e, stuck)
    ensures stuck <= Verdict(e).keys
  {
    hide Limit, Expand, Refs, Fails;
    BlockedStays(e, stuck, |e.pending|);
    LimitIsStage(e);
  }

  /** A type error is raised exactly if some value refers to a resolved key that is not a string before it
      refers to any key that stays unresolved. */
  lemma TypeErrorIff(e: Entry)
    requires e.Valid()
    ensures Verdict(e).TypeError? <==>
            exists k <- e.pending.Keys :: ScanRefs(Refs(e.pending[k]), Limit(e)).WrongType?
  {
    hide Limit, Expand, Refs;
    forall k <- e.pending.Keys ensures Fails(e, k) <==> ScanRefs(Refs(e.pending[k]), Limit(e)).WrongType? {
      ValueScans(e, e.pending[k], Limit(e));
    }
  }
}
