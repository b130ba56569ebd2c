/** Tactile metadata in the editor: bindings are kept by joint name, and exported as row numbers again.

    Of a pose it only counts whether it can be read. */
module Tactile {
  import opened Options

  const JOINTS: seq<string> := [
    "PALM", "WRIST", "THUMB_METACARPAL", "THUMB_PROXIMAL", "THUMB_DISTAL", "THUMB_TIP",
    "INDEX_METACARPAL", "INDEX_PROXIMAL", "INDEX_INTERMEDIATE", "INDEX_DISTAL", "INDEX_TIP",
    "MIDDLE_METACARPAL", "MIDDLE_PROXIMAL", "MIDDLE_INTERMEDIATE", "MIDDLE_DISTAL", "MIDDLE_TIP",
    "RING_METACARPAL", "RING_PROXIMAL", "RING_INTERMEDIATE", "RING_DISTAL", "RING_TIP",
    "LITTLE_METACARPAL", "LITTLE_PROXIMAL", "LITTLE_INTERMEDIATE", "LITTLE_DISTAL", "LITTLE_TIP"]

  const SLOTS: nat := 4
  const NO_SEGMENT: int := 0xFFFF_FFFF

  /** A JSON value that ought to be an integer, a number or a joint. */
  datatype Index = Whole(i: int) | OddIndex(text: string)
  datatype Weight = Number(w: real) | OddWeight(text: string)
  datatype Joint = Named(name: string) | Numbered(i: int) | OddJoint(text: string)

  /** How a value reads in the name of an invalid joint or index. */
  datatype Show = Show(joint: Joint -> string, index: Index -> string)

  /** Metadata as it is read. A list that is missing or is no list is `None`, and so is a row of bindings whose
      values are no list; a pose row is given by whether it can be read. */
  datatype Raw = Raw(
    sections: bool,                              // both sections are objects
    joints: Option<seq<Joint>>, segmentPoses: Option<seq<bool>>, taxelPoses: Option<seq<bool>>,
    indices: Option<seq<Option<seq<Index>>>>, weights: Option<seq<Option<seq<Weight>>>>)
  {
    /** The slots of taxel `r`. */
    function IndicesOf(r: nat): seq<Index>
      requires indices.Some? && r < |indices.value| && indices.value[r].Some?
    {
      indices.value[r].value
    }

    function WeightsOf(r: nat): seq<Weight>
      requires weights.Some? && r < |weights.value| && weights.value[r].Some?
    {
      weights.value[r].value
    }
  }

  datatype Taxel = Taxel(segments: seq<Option<string>>, weights: seq<Weight>, stored: Option<seq<Option<string>>>) {
    /** Four slots, and what was loaded differs from what is shown only where nothing is shown. */
    predicate Valid() {
      && |segments| == SLOTS && |weights| == SLOTS
      && (stored.Some? ==> |stored.value| == SLOTS
                           && forall k | 0 <= k < SLOTS :: segments[k].Some? ==> stored.value[k] == segments[k])
    }

    /** What a slot is bound to, shown or not. */
    function Bound(slot: nat): Option<string>
      requires Valid() && slot < SLOTS
    {
      if stored.None? then segments[slot] else stored.value[slot]
    }

    function WithSegment(slot: nat, joint: Option<string>): (t: Taxel)
      requires Valid() && slot < SLOTS
      ensures t.Valid() && t.segments == segments[slot := joint] && t.weights == weights && t.Bound(slot) == joint
      ensures forall k | 0 <= k < SLOTS && k != slot :: t.Bound(k) == Bound(k)
    {
      Taxel(segments[slot := joint], weights, if stored.None? then None else Some(stored.value[slot := joint]))
    }
  }

  // ---------------------------------------------------------------- parsing

  function NameOf(show: Show, j: Joint): string {
    match j
    case Named(name) => name
    case Numbered(i) => if 0 <= i < |JOINTS| then JOINTS[i] else show.joint(j)
    case OddJoint(_) => show.joint(j)
  }

  function NamesOf(show: Show, joints: seq<Joint>): (names: seq<string>)
    ensures |names| == |joints|
  {
    seq(|joints|, i requires 0 <= i < |joints| => NameOf(show, joints[i]))
  }

  /** All lists are there, their lengths agree, and every taxel has four slots. */
  predicate Shaped(raw: Raw) {
    && raw.sections && raw.joints.Some? && raw.segmentPoses.Some? && raw.taxelPoses.Some?
    && raw.indices.Some? && raw.weights.Some?
    && |raw.segmentPoses.value| == |raw.joints.value|
    && |raw.taxelPoses.value| == |raw.indices.value| == |raw.weights.value|
    && (forall ok <- raw.segmentPoses.value :: ok)
    && forall r | 0 <= r < |raw.taxelPoses.value| ::
         RowShaped(raw.taxelPoses.value[r], raw.indices.value[r], raw.weights.value[r])
  }

  predicate RowShaped(pose: bool, indices: Option<seq<Index>>, weights: Option<seq<Weight>>) {
    pose && indices.Some? && weights.Some? && |indices.value| == SLOTS && |weights.value| == SLOTS
  }

  function BindingOf(show: Show, names: seq<string>, x: Index): string {
    if x.Whole? && 0 <= x.i < |names| then names[x.i] else show.index(x)
  }

  function ShownFor(binding: string, w: Weight): Option<string> {
    if w.Number? && w.w == 0.0 then None else Some(binding)
  }

  function TaxelOf(show: Show, names: seq<string>, indices: seq<Index>, weights: seq<Weight>): (t: Taxel)
    requires |indices| == |weights| == SLOTS
    ensures t.Valid() && t.weights == weights
    ensures forall k | 0 <= k < SLOTS :: t.Bound(k) == Some(BindingOf(show, names, indices[k]))
    ensures forall k | 0 <= k < SLOTS :: t.segments[k].None? <==> weights[k] == Number(0.0)
  {
    var bindings := seq(SLOTS, k requires 0 <= k < SLOTS => BindingOf(show, names, indices[k]));
    Taxel(seq(SLOTS, k requires 0 <= k < SLOTS => ShownFor(bindings[k], weights[k])), weights,
          Some(seq(SLOTS, k requires 0 <= k < SLOTS => Some(bindings[k]))))
  }

  // ---------------------------------------------------------------- exporting

  /** The last row with a joint's name. */
  function RowOf(joints: seq<string>, name: string): (row: Option<nat>)
    ensures row.None? <==> name !in joints
    ensures row.Some? ==> row.value < |joints| && joints[row.value] == name
                          && forall i | row.value < i < |joints| :: joints[i] != name
  {
    if joints == [] then None
    else
      var n := |joints| - 1;
      assert joints == joints[..n] + [joints[n]];
      if joints[n] == name then Some(n) else RowOf(joints[..n], name)
  }

  function Exported(joints: seq<string>, t: Taxel, slot: nat): int
    requires t.Valid() && slot < SLOTS
  {
    var row := if t.Bound(slot).None? then None else RowOf(joints, t.Bound(slot).value);
    if row.Some? then row.value else if t.segments[slot].None? then 0 else NO_SEGMENT
  }

  /** Whether an index survives: it is a row whose joint no later row repeats, or it is out of range, its made-up
      name is no joint, and it is the very number that is written for an unresolved slot. */
  predicate IndexKept(show: Show, names: seq<string>, x: Index, w: Weight) {
    match x
    case Whole(i) =>
      if 0 <= i < |names| then names[i] !in names[i + 1..]
      else show.index(x) !in names && i == if w == Number(0.0) then 0 else NO_SEGMENT
    case OddIndex(_) => false
  }

  /** A slot of a freshly parsed taxel is exported with the index it came with exactly if that index is kept. */
  lemma SlotRoundTrip(show: Show, names: seq<string>, indices: seq<Index>, weights: seq<Weight>, k: nat)
    requires |indices| == |weights| == SLOTS && k < SLOTS
    ensures Whole(Exported(names, TaxelOf(show, names, indices, weights), k)) == indices[k]
            <==> IndexKept(show, names, indices[k], weights[k])
  {
    var name := BindingOf(show, names, indices[k]);
    var row := RowOf(names, name);
    if indices[k].Whole? && 0 <= indices[k].i < |names| {
      var i := indices[k].i;
      if row.value == i {
        assert names[i] !in names[i + 1..];
      } else {
        assert i < row.value;
        assert names[i + 1..][row.value - i - 1] == name;
      }
    }
  }

  /** Two segments of one joint: an index to the first comes back as one to the second. */
  lemma RepeatedJointMoves(show: Show, weights: seq<Weight>, k: nat)
    requires |weights| == SLOTS && k < SLOTS
    ensures var names, zeros := ["PALM", "PALM"], [Whole(0), Whole(0), Whole(0), Whole(0)];
            Exported(names, TaxelOf(show, names, zeros, weights), k) == 1
  {
  }

  /** What an exported index means, whatever edits went before: the row of the joint that the slot is bound to, shown
      or not; else 0 for a slot that shows nothing and the number for no segment otherwise. */
  lemma ExportMeans(joints: seq<string>, t: Taxel, slot: nat)
    requires t.Valid() && slot < SLOTS
    ensures var e := Exported(joints, t, slot);
            && (t.segments[slot].Some? ==>
                  if t.segments[slot].value in joints then 0 <= e < |joints| && joints[e] == t.segments[slot].value
                  else e == NO_SEGMENT)
            && (t.segments[slot].None? ==>
                  if t.Bound(slot).Some? && t.Bound(slot).value in joints
                  then 0 <= e < |joints| && joints[e] == t.Bound(slot).value
                  else e == 0)
  {
  }

  // ---------------------------------------------------------------- documents and edits

  predicate AllValid(taxels: seq<Taxel>) { forall i | 0 <= i < |taxels| :: taxels[i].Valid() }

  /** What a document holds. */
  datatype Contents = Contents(segments: seq<string>, taxels: seq<Taxel>) {
    predicate Valid() { AllValid(taxels) }
  }

  datatype Edit =
    | AddSegment(joint: string)
    | AddTaxels(count: nat)
    | DeleteSegments(rows: set<int>)
    | DeleteTaxels(rows: set<int>)
    | Assign(taxels: seq<int>, segmentRows: seq<int>)
    | SetSegment(row: nat, slot: nat, name: Option<string>)
    | SetWeight(row: nat, slot: nat, value: real)
    | RenameSegment(row: nat, joint: string)
    | PickSegment(row: nat, slot: nat, choice: string)

  /** The elements whose places are not in `rows`, in order. */
  function Dropping<T>(values: seq<T>, rows: set<int>): (rest: seq<T>)
    ensures |rest| <= |values|
  {
    if values == [] then []
    else
      var n := |values| - 1;
      Dropping(values[..n], rows) + if n in rows then [] else [values[n]]
  }

  predicate Assignable(segments: seq<string>, rows: seq<int>) {
    1 <= |rows| <= SLOTS && forall i | 0 <= i < |rows| :: 0 <= rows[i] < |segments|
  }

  /** The joints of the chosen segments, and nothing in the slots left over. */
  function BoundTo(segments: seq<string>, rows: seq<int>): (bound: seq<Option<string>>)
    ensures |bound| == SLOTS
    ensures forall k | 0 <= k < SLOTS ::
              bound[k] == if k < |rows| && 0 <= rows[k] < |segments| then Some(segments[rows[k]]) else None
  {
    seq(SLOTS, k requires 0 <= k < SLOTS =>
      if k < |rows| && 0 <= rows[k] < |segments| then Some(segments[rows[k]]) else None)
  }

  const FIRST_ONLY: seq<Weight> := [Number(1.0), Number(0.0), Number(0.0), Number(0.0)]
  const EMPTY_TAXEL := Taxel([None, None, None, None], [Number(0.0), Number(0.0), Number(0.0), Number(0.0)], None)

  function Assigned(t: Taxel, bound: seq<Option<string>>): (t': Taxel)
    requires t.Valid() && |bound| == SLOTS
    ensures t'.Valid() && t'.segments == bound && t'.weights == FIRST_ONLY
    ensures forall k | 0 <= k < SLOTS :: t'.Bound(k) == bound[k]
  {
    Taxel(bound, FIRST_ONLY, if t.stored.None? then None else Some(bound))
  }

  /** What an edit does to a document; one that the editor refuses does nothing. */
  function Apply(c: Contents, e: Edit): (c': Contents)
    requires c.Valid()
    ensures c'.Valid()
  {
    match e
    case AddSegment(joint) => if joint in JOINTS then c.(segments := c.segments + [joint]) else c
    case AddTaxels(count) => c.(taxels := c.taxels + seq(count, _ => EMPTY_TAXEL))
    case DeleteSegments(rows) => c.(segments := Dropping(c.segments, rows))
    case DeleteTaxels(rows) => DroppingKeepsValid(c.taxels, rows); c.(taxels := Dropping(c.taxels, rows))
    case Assign(rows, segmentRows) =>
      if !Assignable(c.segments, segmentRows) then c
      else
        c.(taxels := seq(|c.taxels|, i requires 0 <= i < |c.taxels| && c.Valid() =>
             if i in rows then Assigned(c.taxels[i], BoundTo(c.segments, segmentRows)) else c.taxels[i]))
    case SetSegment(row, slot, name) =>
      if row < |c.taxels| && slot < SLOTS
      then c.(taxels := c.taxels[row := c.taxels[row].WithSegment(slot, name)]) else c
    case SetWeight(row, slot, value) =>
      if row < |c.taxels| && slot < SLOTS && c.taxels[row].segments[slot].Some? && 0.0 <= value <= 1.0
      then c.(taxels := c.taxels[row := c.taxels[row].(weights := c.taxels[row].weights[slot := Number(value)])]) else c
    case RenameSegment(row, joint) => if row < |c.segments| then c.(segments := c.segments[row := joint]) else c
    case PickSegment(row, slot, value) =>
      if row < |c.taxels| && slot < SLOTS
      then c.(taxels := c.taxels[row := Picked(c.taxels[row], slot, value)]) else c
  }

  /** A choice in the list of a slot: the first joint of a taxel takes full weight, and none takes the weight away. */
  function Picked(t: Taxel, slot: nat, value: string): (t': Taxel)
    requires t.Valid() && slot < SLOTS
    ensures t'.Valid()
    ensures forall k | 0 <= k < SLOTS && k != slot ::
              t'.segments[k] == t.segments[k] && t'.Bound(k) == t.Bound(k) && t'.weights[k] == t.weights[k]
  {
    var first := forall name <- t.segments :: name == None || name == Some("");
    var t' := t.WithSegment(slot, if value == "None" then None else Some(value));
    if value == "None" then t'.(weights := t'.weights[slot := Number(0.0)])
    else if first then t'.(weights := t'.weights[slot := Number(1.0)])
    else t'
  }

  lemma {:induction false} DroppingKeepsValid(taxels: seq<Taxel>, rows: set<int>)
    requires AllValid(taxels)
    ensures AllValid(Dropping(taxels, rows))
  {
    if taxels != [] {
      DroppingKeepsValid(taxels[..|taxels| - 1], rows);
    }
  }

  function ApplyAll(c: Contents, edits: seq<Edit>): (c': Contents)
    requires c.Valid()
    ensures c'.Valid()
    decreases |edits|
  {
    if edits == [] then c else ApplyAll(Apply(c, edits[0]), edits[1..])
  }

  // ---------------------------------------------------------------- hidden references survive edits

  /** How many places below `n` are in `rows`. */
  function CountBelow(rows: set<int>, n: nat): (count: nat)
    ensures count <= n
  {
    if n == 0 then 0 else CountBelow(rows, n - 1) + if n - 1 in rows then 1 else 0
  }

  /** Where a taxel is after an edit, if it is still there. */
  function RowAfter(e: Edit, row: nat): Option<nat> {
    if !e.DeleteTaxels? then Some(row)
    else if row in e.rows then None
    else Some(row - CountBelow(e.rows, row))
  }

  lemma {:induction false} DroppingKeeps<T>(values: seq<T>, rows: set<int>, i: nat)
    requires i < |values| && i !in rows
    ensures |Dropping(values, rows)| == |values| - CountBelow(rows, |values|)
    ensures i - CountBelow(rows, i) < |Dropping(values, rows)|
            && Dropping(values, rows)[i - CountBelow(rows, i)] == values[i]
  {
    var n := |values| - 1;
    if i < n {
      DroppingKeeps(values[..n], rows, i);
    } else {
      DroppingSize(values[..n], rows);
    }
  }

  lemma {:induction false} DroppingSize<T>(values: seq<T>, rows: set<int>)
    ensures |Dropping(values, rows)| == |values| - CountBelow(rows, |values|)
  {
    if values != [] {
      DroppingSize(values[..|values| - 1], rows);
    }
  }

  /** The edit rebinds slot `slot` of the taxel at `row`. */
  predicate Touches(c: Contents, e: Edit, row: nat, slot: nat) {
    || (e.Assign? && Assignable(c.segments, e.segmentRows) && row in e.taxels)
    || ((e.SetSegment? || e.PickSegment?) && e.row == row && e.slot == slot)
  }

  /** None of the edits rebinds the slot of the taxel that starts at `row`, and none deletes that taxel. */
  predicate Untouched(c: Contents, edits: seq<Edit>, row: nat, slot: nat)
    requires c.Valid()
    decreases |edits|
  {
    edits != [] ==>
      && !Touches(c, edits[0], row, slot) && RowAfter(edits[0], row).Some?
      && Untouched(Apply(c, edits[0]), edits[1..], RowAfter(edits[0], row).value, slot)
  }

  function RowAfterAll(edits: seq<Edit>, row: nat): Option<nat> {
    if edits == [] then Some(row)
    else if RowAfter(edits[0], row).None? then None
    else RowAfterAll(edits[1..], RowAfter(edits[0], row).value)
  }

  lemma EditKeepsSlot(c: Contents, e: Edit, row: nat, slot: nat)
    requires c.Valid() && row < |c.taxels| && slot < SLOTS && !Touches(c, e, row, slot) && RowAfter(e, row).Some?
    ensures var c', row' := Apply(c, e), RowAfter(e, row).value;
            && row' < |c'.taxels|
            && c'.taxels[row'].segments[slot] == c.taxels[row].segments[slot]
            && c'.taxels[row'].Bound(slot) == c.taxels[row].Bound(slot)
            && (c.taxels[row].segments[slot].None? ==> c'.taxels[row'].weights[slot] == c.taxels[row].weights[slot])
  {
    if e.DeleteTaxels? {
      DroppingKeeps(c.taxels, e.rows, row);
    }
  }

  /** A reference that was loaded for a slot that shows nothing survives every sequence of edits that neither
      rebinds the slot nor deletes its taxel, and so does the slot's weight; the index exported in the end is a row
      of the joint it names, or 0 if no segment has it any more. */
  lemma {:induction false} HiddenReferenceSurvives(c: Contents, edits: seq<Edit>, row: nat, slot: nat)
    requires c.Valid() && row < |c.taxels| && slot < SLOTS && Untouched(c, edits, row, slot)
    requires c.taxels[row].segments[slot].None? && c.taxels[row].Bound(slot).Some?
    ensures var end, name := ApplyAll(c, edits), c.taxels[row].Bound(slot).value;
            && RowAfterAll(edits, row).Some? && RowAfterAll(edits, row).value < |end.taxels|
            && var t := end.taxels[RowAfterAll(edits, row).value];
               var e := Exported(end.segments, t, slot);
               && t.segments[slot].None? && t.Bound(slot) == Some(name)
               && t.weights[slot] == c.taxels[row].weights[slot]
               && if name in end.segments then 0 <= e < |end.segments| && end.segments[e] == name else e == 0
    decreases |edits|
  {
    hide Apply;
    if edits != [] {
      EditKeepsSlot(c, edits[0], row, slot);
      HiddenReferenceSurvives(Apply(c, edits[0]), edits[1..], RowAfter(edits[0], row).value, slot);
    }
  }

  // ---------------------------------------------------------------- loading and saving a document

  function Parsed(show: Show, raw: Raw): (c: Contents)
    requires Shaped(raw)
    ensures c.Valid() && |c.taxels| == |raw.taxelPoses.value|
  {
    var names := NamesOf(show, raw.joints.value);
    Contents(names, seq(|raw.taxelPoses.value|, r requires 0 <= r < |raw.taxelPoses.value| =>
      assert RowShaped(raw.taxelPoses.value[r], raw.indices.value[r], raw.weights.value[r]);
      TaxelOf(show, names, raw.IndicesOf(r), raw.WeightsOf(r))))
  }

  function ExportedRow(joints: seq<string>, t: Taxel): (row: seq<int>)
    requires t.Valid()
    ensures |row| == SLOTS
  {
    seq(SLOTS, k requires 0 <= k < SLOTS => Exported(joints, t, k))
  }

  function IndexTable(c: Contents): (rows: seq<seq<int>>)
    requires c.Valid()
    ensures |rows| == |c.taxels|
  {
    seq(|c.taxels|, r requires 0 <= r < |c.taxels| => ExportedRow(c.segments, c.taxels[r]))
  }

  function WeightTable(c: Contents): (rows: seq<seq<Weight>>)
    ensures |rows| == |c.taxels|
  {
    seq(|c.taxels|, r requires 0 <= r < |c.taxels| => c.taxels[r].weights)
  }

  /** The table of indices is the one that was loaded. */
  predicate SameIndices(raw: Raw, table: seq<seq<int>>)
    requires Shaped(raw)
  {
    && |table| == |raw.taxelPoses.value|
    && forall r | 0 <= r < |table| :: SameRow(table[r], raw.indices.value[r])
  }

  predicate SameRow(row: seq<int>, indices: Option<seq<Index>>) {
    indices.Some? && |row| == |indices.value| && forall k | 0 <= k < |row| :: Whole(row[k]) == indices.value[k]
  }

  predicate RowKept(show: Show, names: seq<string>, indices: Option<seq<Index>>, weights: Option<seq<Weight>>) {
    && indices.Some? && weights.Some? && |indices.value| == |weights.value|
    && forall k | 0 <= k < |indices.value| :: IndexKept(show, names, indices.value[k], weights.value[k])
  }

  /** The joints are the ones that were loaded. */
  predicate SameJoints(raw: Raw, names: seq<string>)
    requires Shaped(raw)
  {
    |names| == |raw.joints.value| && forall i | 0 <= i < |names| :: Named(names[i]) == raw.joints.value[i]
  }

  /** Saving what was loaded gives every weight back, every index exactly if each is kept, and every joint exactly if
      each was named: numbered joints come back as names. */
  lemma DocumentRoundTrip(show: Show, raw: Raw)
    requires Shaped(raw)
    ensures var c, names := Parsed(show, raw), NamesOf(show, raw.joints.value);
            && (forall r | 0 <= r < |c.taxels| :: Some(WeightTable(c)[r]) == raw.weights.value[r])
            && (SameIndices(raw, IndexTable(c)) <==>
                forall r | 0 <= r < |c.taxels| :: RowKept(show, names, raw.indices.value[r], raw.weights.value[r]))
            && (SameJoints(raw, c.segments) <==> forall j <- raw.joints.value :: j.Named?)
  {
    hide IndexKept, Exported, TaxelOf;
    var c, names := Parsed(show, raw), NamesOf(show, raw.joints.value);
    forall r | 0 <= r < |c.taxels|
      ensures SameRow(IndexTable(c)[r], raw.indices.value[r])
              <==> RowKept(show, names, raw.indices.value[r], raw.weights.value[r])
    {
      assert RowShaped(raw.taxelPoses.value[r], raw.indices.value[r], raw.weights.value[r]);
      RowRoundTrip(show, names, raw.IndicesOf(r), raw.WeightsOf(r));
    }
    forall r | 0 <= r < |c.taxels| ensures Some(WeightTable(c)[r]) == raw.weights.value[r] {
      assert RowShaped(raw.taxelPoses.value[r], raw.indices.value[r], raw.weights.value[r]);
    }
    hide SameRow, RowKept;
  }

  lemma RowRoundTrip(show: Show, names: seq<string>, indices: seq<Index>, weights: seq<Weight>)
    requires |indices| == |weights| == SLOTS
    ensures SameRow(ExportedRow(names, TaxelOf(show, names, indices, weights)), Some(indices))
            <==> RowKept(show, names, Some(indices), Some(weights))
  {
    hide IndexKept, Exported, TaxelOf;
    var row := ExportedRow(names, TaxelOf(show, names, indices, weights));
    forall k | 0 <= k < SLOTS ensures Whole(row[k]) == indices[k] <==> IndexKept(show, names, indices[k], weights[k]) {
      SlotRoundTrip(show, names, indices, weights, k);
    }
  }

  /** A document with distinct joints and indices in range is saved as it was loaded. */
  lemma CleanDocumentRoundTrip(show: Show, raw: Raw)
    requires Shaped(raw)
    requires var names := NamesOf(show, raw.joints.value); forall i, j | 0 <= i < j < |names| :: names[i] != names[j]
    requires forall r, k | 0 <= r < |raw.taxelPoses.value| && 0 <= k < SLOTS && raw.indices.value[r].Some?
                           && k < |raw.indices.value[r].value| ::
               raw.indices.value[r].value[k].Whole? && 0 <= raw.indices.value[r].value[k].i < |raw.joints.value|
    ensures SameIndices(raw, IndexTable(Parsed(show, raw)))
    ensures forall r | 0 <= r < |raw.taxelPoses.value| ::
              Some(WeightTable(Parsed(show, raw))[r]) == raw.weights.value[r]
  {
    hide SameIndices, IndexTable, WeightTable;
    var names := NamesOf(show, raw.joints.value);
    DocumentRoundTrip(show, raw);
    forall r | 0 <= r < |raw.taxelPoses.value|
      ensures RowKept(show, names, raw.indices.value[r], raw.weights.value[r])
    {
      assert RowShaped(raw.taxelPoses.value[r], raw.indices.value[r], raw.weights.value[r]);
      forall k | 0 <= k < SLOTS ensures IndexKept(show, names, raw.IndicesOf(r)[k], raw.WeightsOf(r)[k]) {
        var i := raw.indices.value[r].value[k].i;
        assert forall j | i < j < |names| :: names[j] == names[i + 1..][j - i - 1];
      }
    }
  }

  /** What is written for a document. */
  function Written(c: Contents): (raw: Raw)
    requires c.Valid()
    ensures Shaped(raw)
  {
    var indices, weights, n := IndexTable(c), WeightTable(c), |c.taxels|;
    Raw(true,
        Some(seq(|c.segments|, i requires 0 <= i < |c.segments| => Named(c.segments[i]))),
        Some(seq(|c.segments|, _ => true)), Some(seq(n, _ => true)),
        Some(seq(n, r requires 0 <= r < n => Some(AsIndices(indices[r])))),
        Some(seq(n, r requires 0 <= r < n => Some(weights[r]))))
  }

  function AsIndices(row: seq<int>): (indices: seq<Index>)
    ensures |indices| == |row| && forall k | 0 <= k < |row| :: indices[k] == Whole(row[k])
  {
    seq(|row|, k requires 0 <= k < |row| => Whole(row[k]))
  }

  /** Loading what was saved gives the segments and the weights back, and every slot that is bound to a joint of some
      segment is bound to it again; shown is exactly what has weight. */
  lemma SaveThenLoad(show: Show, c: Contents, r: nat, k: nat)
    requires c.Valid() && r < |c.taxels| && k < SLOTS
    ensures var d := Parsed(show, Written(c));
            && d.segments == c.segments && |d.taxels| == |c.taxels|
            && d.taxels[r].weights == c.taxels[r].weights
            && (d.taxels[r].segments[k].None? <==> c.taxels[r].weights[k] == Number(0.0))
            && (c.taxels[r].Bound(k).Some? && c.taxels[r].Bound(k).value in c.segments ==>
                  && d.taxels[r].Bound(k) == c.taxels[r].Bound(k)
                  && IndexTable(d)[r][k] == IndexTable(c)[r][k])
  {
    var raw := Written(c);
    assert NamesOf(show, raw.joints.value) == c.segments;
    assert RowShaped(raw.taxelPoses.value[r], raw.indices.value[r], raw.weights.value[r]);
    assert raw.IndicesOf(r)[k] == Whole(Exported(c.segments, c.taxels[r], k));
  }

  // ---------------------------------------------------------------- deleting rows in place

  lemma {:induction false} DroppingNothing<T>(values: seq<T>, rows: set<int>)
    requires forall i <- rows :: !(0 <= i < |values|)
    ensures Dropping(values, rows) == values
  {
    if values != [] {
      DroppingNothing(values[..|values| - 1], rows);
    }
  }

  /** Taking out a place above all others to go leaves the rest of the job unchanged. */
  lemma {:induction false} DroppingHighest<T>(values: seq<T>, rows: set<int>, row: int)
    requires 0 <= row < |values| && row in rows && forall i <- rows :: i <= row
    ensures Dropping(values[..row] + values[row + 1..], rows - {row}) == Dropping(values, rows)
  {
    var n := |values| - 1;
    if row == n {
      assert values[..row] + values[row + 1..] == values[..n];
      DroppingSame(values[..n], rows, row);
    } else {
      var less := values[..row] + values[row + 1..];
      DroppingHighest(values[..n], rows, row);
      assert less[..n - 1] == values[..n][..row] + values[..n][row + 1..];
      assert less[n - 1] == values[n];
    }
  }

  lemma {:induction false} DroppingSame<T>(values: seq<T>, rows: set<int>, row: int)
    requires |values| <= row || row < 0
    ensures Dropping(values, rows - {row}) == Dropping(values, rows)
  {
    if values != [] {
      DroppingSame(values[..|values| - 1], rows, row);
    }
  }

  /** Pops the rows from the highest down. */
  method DeleteRows<T>(values: seq<T>, rows: set<int>, descending: seq<int>) returns (out: seq<T>)
    requires (forall i :: i in rows <==> i in descending)
    requires forall i, j | 0 <= i < j < |descending| :: descending[j] < descending[i]
    ensures out == Dropping(values, rows)
  {
    out := values;
    ghost var left := rows;
    for k := 0 to |descending|
      invariant Dropping(out, left) == Dropping(values, rows)
      invariant forall i :: i in left <==> i in descending[k..]
      invariant |out| <= |values|
    {
      var row := descending[k];
      assert descending[k..] == [row] + descending[k + 1..];
      assert forall j | k < j < |descending| :: descending[j] < row;
      if 0 <= row < |out| {
        DroppingHighest(out, left, row);
        out := out[..row] + out[row + 1..];
      } else {
        DroppingSame(out, left, row);
      }
      left := left - {row};
    }
    DroppingNothing(out, left);
  }

  method AssignTaxel(taxel: Taxel, bound: seq<Option<string>>) returns (t: Taxel)
    requires taxel.Valid() && |bound| == SLOTS
    ensures t == Assigned(taxel, bound)
  {
    t := taxel;
    for k := 0 to SLOTS
      invariant t.Valid() && (t.stored.None? <==> taxel.stored.None?) && t.weights == taxel.weights
      invariant forall j | 0 <= j < k :: t.segments[j] == bound[j] && t.Bound(j) == bound[j]
    {
      t := t.WithSegment(k, bound[k]);
    }
    assert t.segments == bound && (t.stored.Some? ==> t.stored.value == bound);
    t := t.(weights := FIRST_ONLY);
  }

  // ---------------------------------------------------------------- the document

  /** Every method is one edit, or a load or save, of the contents. */
  class Document {
    var segments: seq<string>
    var taxels: seq<Taxel>

    function Holds(): Contents
      reads this
    {
      Contents(segments, taxels)
    }

    predicate Valid()
      reads this
    {
      Holds().Valid()
    }

    constructor ()
      ensures Valid() && Holds() == Contents([], [])
    {
      segments, taxels := [], [];
    }

    /** Loads metadata, or leaves the document as it is if the lists are not all there or do not fit together. */
    method Parse(show: Show, raw: Raw) returns (ok: bool)
      requires Valid()
      modifies this
      ensures Valid() && (ok <==> Shaped(raw))
      ensures Holds() == if ok then Parsed(show, raw) else old(Holds())
    {
      if !raw.sections || raw.joints.None? || raw.segmentPoses.None? || raw.taxelPoses.None? || raw.indices.None?
         || raw.weights.None?
      {
        return false;
      }
      var poses, indices, weights := raw.taxelPoses.value, raw.indices.value, raw.weights.value;
      if |raw.segmentPoses.value| != |raw.joints.value| || !(|poses| == |indices| == |weights|) {
        return false;
      }
      if !(forall pose <- raw.segmentPoses.value :: pose) {
        return false;
      }
      var names := NamesOf(show, raw.joints.value);
      var loaded: seq<Taxel> := [];
      for r := 0 to |poses|
        invariant Holds() == old(Holds())
        invariant |loaded| == r
        invariant forall i | 0 <= i < r :: RowShaped(poses[i], indices[i], weights[i])
        invariant forall i | 0 <= i < r :: loaded[i] == TaxelOf(show, names, indices[i].value, weights[i].value)
      {
        if !RowShaped(poses[r], indices[r], weights[r]) {
          return false;
        }
        loaded := loaded + [TaxelOf(show, names, indices[r].value, weights[r].value)];
      }
      segments, taxels := names, loaded;
      assert loaded == Parsed(show, raw).taxels;
      ok := true;
    }

    method AddSegment(joint: string) returns (ok: bool)
      requires Valid()
      modifies this
      ensures Valid() && (ok <==> joint in JOINTS) && Holds() == Apply(old(Holds()), Edit.AddSegment(joint))
    {
      ok := joint in JOINTS;
      if ok {
        segments := segments + [joint];
      }
    }

    method AddTaxels(count: nat)
      requires Valid()
      modifies this
      ensures Valid() && Holds() == Apply(old(Holds()), Edit.AddTaxels(count))
    {
      for k := 0 to count
        invariant segments == old(segments) && taxels == old(taxels) + seq(k, _ => EMPTY_TAXEL)
      {
        taxels := taxels + [EMPTY_TAXEL];
      }
    }

    method DeleteSegments(rows: set<int>, descending: seq<int>)
      requires Valid() && (forall i :: i in rows <==> i in descending)
      requires forall i, j | 0 <= i < j < |descending| :: descending[j] < descending[i]
      modifies this
      ensures Valid() && Holds() == Apply(old(Holds()), Edit.DeleteSegments(rows))
    {
      segments := DeleteRows(segments, rows, descending);
    }

    method DeleteTaxels(rows: set<int>, descending: seq<int>)
      requires Valid() && (forall i :: i in rows <==> i in descending)
      requires forall i, j | 0 <= i < j < |descending| :: descending[j] < descending[i]
      modifies this
      ensures Valid() && Holds() == Apply(old(Holds()), Edit.DeleteTaxels(rows))
    {
      DroppingKeepsValid(taxels, rows);
      taxels := DeleteRows(taxels, rows, descending);
    }

    /** Binds taxels to one to four segments, the first with full weight. */
    method Assign(rows: seq<int>, segmentRows: seq<int>) returns (ok: bool)
      requires Valid()
      modifies this
      ensures Valid() && (ok <==> Assignable(segments, segmentRows))
              && Holds() == Apply(old(Holds()), Edit.Assign(rows, segmentRows))
    {
      if !(1 <= |segmentRows| <= SLOTS) {
        return false;
      }
      for i := 0 to |segmentRows|
        invariant Holds() == old(Holds())
        invariant forall j | 0 <= j < i :: 0 <= segmentRows[j] < |segments|
      {
        if !(0 <= segmentRows[i] < |segments|) {
          return false;
        }
      }
      var bound := BoundTo(segments, segmentRows);
      for n := 0 to |rows|
        invariant Valid() && segments == old(segments) && |taxels| == |old(taxels)|
        invariant forall i | 0 <= i < |taxels| ::
                    taxels[i] == if i in rows[..n] then Assigned(old(taxels)[i], bound) else old(taxels)[i]
      {
        assert rows[..n + 1] == rows[..n] + [rows[n]];
        if 0 <= rows[n] < |taxels| {
          var t := AssignTaxel(taxels[rows[n]], bound);
          taxels := taxels[rows[n] := t];
        }
      }
      assert rows[..|rows|] == rows;
      assert taxels == Apply(old(Holds()), Edit.Assign(rows, segmentRows)).taxels;
      ok := true;
    }

    /** Binds one slot, or clears it; what was loaded for the slot goes too. */
    method SetSegment(row: nat, slot: nat, joint: Option<string>)
      requires Valid() && row < |taxels| && slot < SLOTS
      modifies this
      ensures Valid() && Holds() == Apply(old(Holds()), Edit.SetSegment(row, slot, joint))
    {
      taxels := taxels[row := taxels[row].WithSegment(slot, joint)];
    }

    /** Changes the weight of a slot that shows a joint. */
    method SetWeight(row: nat, slot: nat, value: real) returns (ok: bool)
      requires Valid() && row < |taxels| && slot < SLOTS
      modifies this
      ensures Valid() && (ok <==> old(taxels)[row].segments[slot].Some? && 0.0 <= value <= 1.0)
      ensures Holds() == Apply(old(Holds()), Edit.SetWeight(row, slot, value))
    {
      var t := taxels[row];
      if t.segments[slot].None? || !(0.0 <= value <= 1.0) {
        return false;
      }
      taxels := taxels[row := t.(weights := t.weights[slot := Number(value)])];
      ok := true;
    }

    /** Gives a segment another joint; the bindings by name stay. */
    method RenameSegment(row: nat, joint: string)
      requires Valid() && row < |segments|
      modifies this
      ensures Valid() && Holds() == Apply(old(Holds()), Edit.RenameSegment(row, joint))
    {
      segments := segments[row := joint];
    }

    /** Takes over what was picked in the list of a slot. */
    method PickSegment(row: nat, slot: nat, value: string)
      requires Valid() && row < |taxels| && slot < SLOTS
      modifies this
      ensures Valid() && Holds() == Apply(old(Holds()), Edit.PickSegment(row, slot, value))
    {
      var t := taxels[row];
      var first := value != "None" && !(exists name <- t.segments :: name != None && name != Some(""));
      t := t.WithSegment(slot, if value == "None" then None else Some(value));
      if t.segments[slot].None? {
        t := t.(weights := t.weights[slot := Number(0.0)]);
      } else if first {
        t := t.(weights := t.weights[slot := Number(1.0)]);
      }
      taxels := taxels[row := t];
    }

    /** The joints and the binding tables that are written out. */
    method Export() returns (joints: seq<string>, indices: seq<seq<int>>, weights: seq<seq<Weight>>)
      requires Valid()
      ensures joints == segments && indices == IndexTable(Holds()) && weights == WeightTable(Holds())
    {
      joints, indices, weights := segments, [], [];
      for i := 0 to |taxels|
        invariant |indices| == |weights| == i
        invariant forall j | 0 <= j < i ::
                    indices[j] == ExportedRow(segments, taxels[j]) && weights[j] == taxels[j].weights
      {
        assert taxels[i].Valid();
        indices, weights := indices + [ExportedRow(segments, taxels[i])], weights + [taxels[i].weights];
      }
    }
  }
}
