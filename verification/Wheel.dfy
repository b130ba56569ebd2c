/** Embedding an SBOM into a wheel, and verifying a wheel against the SBOM it carries.

    A wheel is a ZIP archive. Its RECORD member lists a digest and a size for every other member; the SBOM
    lists two digests for every member except RECORD and itself, and a verification code over them (section
    7.9 of SPDX 2.3). */
module Wheel {
  import opened Options

  /** A row of RECORD as it stands there; the row of RECORD itself is blank. */
  datatype Row = Row(sha256: string, size: string)

  const BLANK := Row("", "")

  function Decimal(n: nat): (s: string)
    ensures s != ""
  {
    (if n < 10 then "" else Decimal(n / 10)) + ["0123456789"[n % 10]]
  }

  lemma {:induction false} DecimalIsInjective(m: nat, n: nat)
    requires Decimal(m) == Decimal(n)
    ensures m == n
  {
    var s := Decimal(m);
    var front := s[..|s| - 1];
    assert s[|s| - 1] == "0123456789"[m % 10] == "0123456789"[n % 10];
    assert front == if m < 10 then "" else Decimal(m / 10);
    assert front == if n < 10 then "" else Decimal(n / 10);
    if m >= 10 {
      DecimalIsInjective(m / 10, n / 10);
    }
  }

  datatype FileRecord = FileRecord(id: string, name: string, sha1: string, sha256: string)

  datatype Document = Document(
    file: string, package: string, excluded: set<string>, files: seq<FileRecord>, code: string)

  /** What a member holds; RECORD and the SBOM by what their bytes say. */
  datatype Content = Bytes(bytes: seq<int>) | Record(rows: map<string, Row>) | Sbom(doc: Document)

  datatype Member = Member(name: string, content: Content) {
    predicate IsDirectory() { name != "" && name[|name| - 1] == '/' }
  }

  type Archive = seq<Member>

  /** Digests and sizes of contents, the verification code of a collection of digests, and file identifiers. */
  datatype Tools = Tools(
    sha1: Content -> string, sha256: Content -> string, size: Content -> nat,
    code: multiset<string> -> string, id: string -> string)
  {
    function RowOf(c: Content): Row { Row(sha256(c), Decimal(size(c))) }

    function RecordFor(m: Member): FileRecord { FileRecord(id(m.name), m.name, sha1(m.content), sha256(m.content)) }
  }

  /** The wheel's file name, its `name-version`, and the names of its two special members. */
  datatype Names = Names(file: string, package: string, record: string, sbom: string) {
    function Excluded(): set<string> { {record, sbom} }
  }

  // ---------------------------------------------------------------- the dist-info directory

  predicate EndsWith(s: string, end: string) { |end| <= |s| && s[|s| - |end|..] == end }

  /** What comes before the first slash. */
  function Top(name: string): string {
    if name == "" || name[0] == '/' then "" else [name[0]] + Top(name[1..])
  }

  const METADATA_END := ".dist-info/METADATA"

  /** The directories that look like the wheel's dist-info. */
  function Dists(names: set<string>): set<string> { set name <- names | EndsWith(name, METADATA_END) :: Top(name) }

  function Stem(dist: string): string {
    if EndsWith(dist, ".dist-info") then dist[..|dist| - |".dist-info"|] else dist
  }

  /** What follows the first dash. */
  function Version(stem: string): string {
    if stem == "" then "" else if stem[0] == '-' then stem[1..] else Version(stem[1..])
  }

  /** There is exactly one dist-info directory, and it names a version. */
  predicate OneDist(names: set<string>) { exists d <- Dists(names) :: Dists(names) == {d} && Version(Stem(d)) != "" }

  ghost function DistOf(names: set<string>): string {
    if Dists(names) == {} then "" else var d :| d in Dists(names); d
  }

  /** The names that follow from the wheel's file name and its dist-info directory. */
  function NamesFor(file: string, dist: string): Names {
    Names(file, Stem(dist), dist + "/RECORD", dist + "/sboms/" + file + ".spdx.json")
  }

  function MetadataOf(dist: string): string { dist + "/METADATA" }

  /** Sizes are compared as they are written, which is as good as comparing the numbers. */
  lemma RowPinsContent(t: Tools, c: Content, c': Content)
    ensures t.RowOf(c) == t.RowOf(c') <==> t.sha256(c) == t.sha256(c') && t.size(c) == t.size(c')
  {
    if t.RowOf(c) == t.RowOf(c') {
      DecimalIsInjective(t.size(c), t.size(c'));
    }
  }

  // ---------------------------------------------------------------- archives

  function Files(a: Archive): (files: Archive)
    ensures forall m :: m in files <==> m in a && !m.IsDirectory()
    ensures |files| <= |a|
  {
    if a == [] then []
    else Files(a[..|a| - 1]) + if a[|a| - 1].IsDirectory() then [] else [a[|a| - 1]]
  }

  predicate Distinct(a: Archive) { forall i, j | 0 <= i < j < |a| :: a[i].name != a[j].name }

  /** No name occurs twice, what is named as a directory is empty, and there is one dist-info directory. */
  predicate Scannable(t: Tools, a: Archive) {
    Distinct(a) && OneDist(NamesOf(a)) && forall m <- a :: m.IsDirectory() ==> t.size(m.content) == 0
  }

  function NamesOf(a: Archive): set<string> { set m <- a :: m.name }

  function Lookup(a: Archive, name: string): Option<Content> {
    if a == [] then None
    else if a[|a| - 1].name == name then Some(a[|a| - 1].content)
    else Lookup(a[..|a| - 1], name)
  }

  lemma {:induction false} LookupFinds(a: Archive, m: Member)
    requires Distinct(a)
    ensures m in a <==> Lookup(a, m.name) == Some(m.content)
  {
    if a != [] {
      var n := |a| - 1;
      LookupFinds(a[..n], m);
      LookupIsThere(a[..n], m.name);
      assert a == a[..n] + [a[n]];
    }
  }

  lemma {:induction false} LookupIsThere(a: Archive, name: string)
    ensures Lookup(a, name).Some? <==> name in NamesOf(a)
    ensures Lookup(a, name).Some? ==> Member(name, Lookup(a, name).value) in a
  {
    if a != [] {
      var n := |a| - 1;
      LookupIsThere(a[..n], name);
      assert a == a[..n] + [a[n]];
    }
  }

  lemma {:induction false} FilesAreDistinct(a: Archive)
    requires Distinct(a)
    ensures Distinct(Files(a))
  {
    if a != [] {
      var n := |a| - 1;
      FilesAreDistinct(a[..n]);
      forall m <- Files(a[..n]) ensures m.name != a[n].name {
        var k :| 0 <= k < n && a[..n][k] == m;
        assert a[k] == m;
      }
    }
  }

  // ---------------------------------------------------------------- what verification demands

  /** The record that counts for a name is the last one. */
  predicate Counts(files: seq<FileRecord>, i: nat)
    requires i < |files|
  {
    forall j | i < j < |files| :: files[j].name != files[i].name
  }

  function Listed(doc: Document): set<string> { set f <- doc.files :: f.name }

  /** The digests, in the archive, of the listed files it contains. */
  function Digests(t: Tools, files: seq<FileRecord>, a: Archive, n: nat): multiset<string>
    requires n <= |files|
  {
    if n == 0 then multiset{}
    else
      Digests(t, files, a, n - 1)
      + match Lookup(a, files[n - 1].name) {
          case None => multiset{}
          case Some(c) => if Counts(files, n - 1) then multiset{t.sha1(c)} else multiset{}
        }
  }

  predicate IdsAreUnique(files: seq<FileRecord>) { forall i, j | 0 <= i < j < |files| :: files[i].id != files[j].id }

  datatype Failure =
    | Unscannable | NoSbom | NoRecord | RepeatedIds | WrongFile | WrongPackage | WrongExclusions | WrongCode
    | NotCovered(name: string) | NotContained(name: string) | Sha256Differs(name: string) | Sha1Differs(name: string)
    | NoRow(name: string) | RowDigestDiffers(name: string) | RowSizeDiffers(name: string) | RowWithoutFile(name: string)

  /** The failures that the document `doc` gives for the files `a`. */
  predicate DocumentFails(t: Tools, n: Names, a: Archive, doc: Document, f: Failure) {
    match f
    case RepeatedIds => !IdsAreUnique(doc.files)
    case WrongFile => doc.file != n.file
    case WrongPackage => doc.package != n.package
    case WrongExclusions => doc.excluded != n.Excluded()
    case WrongCode => doc.code != t.code(Digests(t, doc.files, a, |doc.files|))
    case NotCovered(name) => name in NamesOf(a) && name !in Listed(doc) && name !in n.Excluded()
    case NotContained(name) => name in Listed(doc) && name !in NamesOf(a)
    case Sha256Differs(name) => exists i | 0 <= i < |doc.files| :: Differs256(t, a, doc.files, i, name)
    case Sha1Differs(name) => exists i | 0 <= i < |doc.files| :: Differs1(t, a, doc.files, i, name)
    case _ => false
  }

  predicate Differs256(t: Tools, a: Archive, files: seq<FileRecord>, i: nat, name: string)
    requires i < |files|
  {
    && files[i].name == name && Counts(files, i)
    && Lookup(a, name).Some? && t.sha256(Lookup(a, name).value) != files[i].sha256
  }

  predicate Differs1(t: Tools, a: Archive, files: seq<FileRecord>, i: nat, name: string)
    requires i < |files|
  {
    && files[i].name == name && Counts(files, i)
    && Lookup(a, name).Some? && t.sha1(Lookup(a, name).value) != files[i].sha1
  }

  /** The failures that the table of RECORD gives for the files `a`. */
  predicate RecordFails(t: Tools, n: Names, a: Archive, rows: map<string, Row>, f: Failure) {
    match f
    case NoRow(name) => name in NamesOf(a) && name != n.record && name !in rows
    case RowDigestDiffers(name) =>
      name != n.record && name in rows && Lookup(a, name).Some? && rows[name].sha256 != t.sha256(Lookup(a, name).value)
    case RowSizeDiffers(name) =>
      && name != n.record && name in rows && Lookup(a, name).Some?
      && rows[name].size != Decimal(t.size(Lookup(a, name).value))
    case RowWithoutFile(name) => name in rows && name !in NamesOf(a)
    case _ => false
  }

  function SbomOf(n: Names, a: Archive): Option<Document> {
    match Lookup(Files(a), n.sbom) case Some(Sbom(doc)) => Some(doc) case _ => None
  }

  function RowsOf(n: Names, a: Archive): Option<map<string, Row>> {
    match Lookup(Files(a), n.record) case Some(Record(rows)) => Some(rows) case _ => None
  }

  /** Exactly what is reported for an archive. */
  predicate Reported(t: Tools, n: Names, a: Archive, f: Failure) {
    if !Scannable(t, a) then f == Unscannable
    else if SbomOf(n, a).None? then f == NoSbom
    else if RowsOf(n, a).None? then f == NoRecord
    else
      || DocumentFails(t, n, Files(a), SbomOf(n, a).value, f)
      || RecordFails(t, n, Files(a), RowsOf(n, a).value, f)
  }

  // ---------------------------------------------------------------- verification

  lemma DistinctStep(a: Archive, i: nat)
    requires i < |a| && Distinct(a[..i])
    ensures Distinct(a[..i + 1]) <==> a[i].name !in NamesOf(a[..i])
    ensures NamesOf(a[..i + 1]) == NamesOf(a[..i]) + {a[i].name}
  {
    var front, all := a[..i], a[..i + 1];
    assert all == front + [a[i]];
    if a[i].name in NamesOf(front) {
      var m :| m in front && m.name == a[i].name;
      var k :| 0 <= k < i && front[k] == m;
      assert all[k].name == all[i].name;
    } else {
      forall k | 0 <= k < i ensures front[k].name != a[i].name {
        assert front[k] in front;
      }
    }
  }

  lemma DistinctPrefix(a: Archive, i: nat)
    requires i <= |a| && !Distinct(a[..i])
    ensures !Distinct(a)
  {
    var j, k :| 0 <= j < k < i && a[..i][j].name == a[..i][k].name;
    assert a[j].name == a[k].name;
  }

  method CheckDistinct(a: Archive) returns (distinct: bool)
    ensures distinct == Distinct(a)
  {
    hide Distinct, NamesOf;
    var seen: set<string> := {};
    NothingScanned(a);
    for i := 0 to |a|
      invariant seen == NamesOf(a[..i]) && Distinct(a[..i])
    {
      DistinctStep(a, i);
      if a[i].name in seen {
        DistinctPrefix(a, i + 1);
        return false;
      }
      seen := seen + {a[i].name};
    }
    assert a[..|a|] == a;
    return true;
  }

  lemma NothingScanned(a: Archive)
    ensures Distinct(a[..0]) && NamesOf(a[..0]) == {}
  {
  }

  /** What a scan finds: the dist-info directory and the files. */
  datatype Info = Info(dist: string, files: Archive)

  /** The candidates for the dist-info directory, collected name by name. */
  method FindDist(a: Archive) returns (dist: Option<string>)
    ensures dist == if OneDist(NamesOf(a)) then Some(DistOf(NamesOf(a))) else None
  {
    var candidates: set<string> := {};
    for i := 0 to |a|
      invariant candidates == Dists(NamesOf(a[..i]))
    {
      DistsStep(a, i);
      if EndsWith(a[i].name, METADATA_END) {
        candidates := candidates + {Top(a[i].name)};
      }
    }
    assert a[..|a|] == a;
    if |candidates| != 1 {
      return None;
    }
    var d :| d in candidates;
    SingleIs(candidates, d);
    if Version(Stem(d)) == "" {
      return None;
    }
    return Some(d);
  }

  lemma SingleIs(s: set<string>, d: string)
    requires |s| == 1 && d in s
    ensures s == {d}
  {
    assert |s - {d}| == 0;
  }

  lemma DistsStep(a: Archive, i: nat)
    requires i < |a|
    ensures Dists(NamesOf(a[..i + 1]))
            == Dists(NamesOf(a[..i])) + if EndsWith(a[i].name, METADATA_END) then {Top(a[i].name)} else {}
  {
    hide EndsWith, Top;
    assert a[..i + 1] == a[..i] + [a[i]];
    var front, all := NamesOf(a[..i]), NamesOf(a[..i + 1]);
    assert a[i] in a[..i + 1];
    assert all == front + {a[i].name};
  }

  method Scan(t: Tools, a: Archive) returns (info: Option<Info>)
    ensures info == if Scannable(t, a) then Some(Info(DistOf(NamesOf(a)), Files(a))) else None
  {
    hide Distinct, Member.IsDirectory, OneDist, DistOf;
    var distinct := CheckDistinct(a);
    if !distinct {
      return None;
    }
    var dist := FindDist(a);
    if dist.None? {
      return None;
    }
    var found: Archive := [];
    for i := 0 to |a|
      invariant found == Files(a[..i])
      invariant forall m <- a[..i] :: m.IsDirectory() ==> t.size(m.content) == 0
    {
      assert a[..i + 1] == a[..i] + [a[i]];
      if a[i].IsDirectory() {
        if t.size(a[i].content) != 0 {
          assert a[i] in a;
          return None;
        }
      } else {
        found := found + [a[i]];
      }
    }
    assert a[..|a|] == a;
    return Some(Info(dist.value, found));
  }

  /** `last` maps each name to the last of the first `n` records that has it. */
  predicate LastOf(files: seq<FileRecord>, n: nat, last: map<string, nat>)
    requires n <= |files|
  {
    forall i | 0 <= i < n ::
      files[i].name in last && (last[files[i].name] == i <==> forall j | i < j < n :: files[j].name != files[i].name)
  }

  lemma LastSteps(files: seq<FileRecord>, n: nat, last: map<string, nat>)
    requires n < |files| && LastOf(files, n, last) && forall name <- last :: last[name] < n
    ensures LastOf(files, n + 1, last[files[n].name := n])
  {
    var next := last[files[n].name := n];
    forall i | 0 <= i < n + 1
      ensures files[i].name in next
      ensures next[files[i].name] == i <==> forall j | i < j < n + 1 :: files[j].name != files[i].name
    {
      if i < n {
        assert last[files[i].name] == i <==> forall j | i < j < n :: files[j].name != files[i].name;
      }
    }
  }

  /** The last record of each name. */
  method LastRecords(files: seq<FileRecord>) returns (last: map<string, nat>)
    ensures LastOf(files, |files|, last)
  {
    hide LastOf;
    last := map[];
    assert LastOf(files, 0, last) by {
      NoLast(files);
    }
    for i := 0 to |files|
      invariant LastOf(files, i, last) && forall name <- last :: last[name] < i
    {
      LastSteps(files, i, last);
      last := last[files[i].name := i];
    }
  }

  lemma NoLast(files: seq<FileRecord>)
    ensures LastOf(files, 0, map[])
  {
  }

  function Uncovered(n: Names, a: Archive, doc: Document): set<Failure> {
    set m <- a | m.name !in Listed(doc) && m.name !in n.Excluded() :: NotCovered(m.name)
  }

  function Uncontained(a: Archive, files: seq<FileRecord>): set<Failure> {
    set f <- files | f.name !in NamesOf(a) :: NotContained(f.name)
  }

  function DigestFailure(t: Tools, f: FileRecord, c: Content): set<Failure> {
    (if f.sha256 != t.sha256(c) then {Sha256Differs(f.name)} else {})
    + (if f.sha1 != t.sha1(c) then {Sha1Differs(f.name)} else {})
  }

  function Differing(t: Tools, a: Archive, files: seq<FileRecord>, n: nat): set<Failure>
    requires n <= |files|
  {
    if n == 0 then {}
    else
      Differing(t, a, files, n - 1)
      + match Lookup(a, files[n - 1].name) {
          case None => {}
          case Some(c) => if Counts(files, n - 1) then DigestFailure(t, files[n - 1], c) else {}
        }
  }

  lemma LastCounts(files: seq<FileRecord>, last: map<string, nat>, i: nat)
    requires LastOf(files, |files|, last) && i < |files|
    ensures files[i].name in last && (last[files[i].name] == i <==> Counts(files, i))
  {
  }

  method CheckCoverage(n: Names, a: Archive, doc: Document) returns (failures: set<Failure>)
    ensures failures == Uncovered(n, a, doc) + Uncontained(a, doc.files)
  {
    var uncovered: set<Failure> := {};
    for i := 0 to |a|
      invariant uncovered == Uncovered(n, a[..i], doc)
    {
      assert a[..i + 1] == a[..i] + [a[i]];
      if a[i].name !in Listed(doc) && a[i].name !in n.Excluded() {
        uncovered := uncovered + {NotCovered(a[i].name)};
      }
    }
    assert a[..|a|] == a;
    var uncontained: set<Failure> := {};
    for i := 0 to |doc.files|
      invariant uncontained == Uncontained(a, doc.files[..i])
    {
      assert doc.files[..i + 1] == doc.files[..i] + [doc.files[i]];
      if doc.files[i].name !in NamesOf(a) {
        uncontained := uncontained + {NotContained(doc.files[i].name)};
      }
    }
    assert doc.files[..|doc.files|] == doc.files;
    return uncovered + uncontained;
  }

  method CheckDigests(t: Tools, a: Archive, files: seq<FileRecord>, last: map<string, nat>)
    returns (failures: set<Failure>, digests: multiset<string>)
    requires LastOf(files, |files|, last)
    ensures failures == Differing(t, a, files, |files|) && digests == Digests(t, files, a, |files|)
  {
    hide LastOf, Counts, Lookup;
    failures, digests := {}, multiset{};
    for i := 0 to |files|
      invariant failures == Differing(t, a, files, i) && digests == Digests(t, files, a, i)
    {
      var f := files[i];
      LastCounts(files, last, i);
      if last[f.name] == i {
        match Lookup(a, f.name) {
          case None =>
          case Some(c) =>
            if f.sha256 != t.sha256(c) {
              failures := failures + {Sha256Differs(f.name)};
            }
            if f.sha1 != t.sha1(c) {
              failures := failures + {Sha1Differs(f.name)};
            }
            digests := digests + multiset{t.sha1(c)};
        }
      }
    }
  }

  method CheckIds(files: seq<FileRecord>) returns (unique: bool)
    ensures unique == IdsAreUnique(files)
  {
    var seen: set<string> := {};
    for i := 0 to |files|
      invariant seen == set f <- files[..i] :: f.id
      invariant IdsAreUnique(files[..i])
    {
      assert files[..i + 1] == files[..i] + [files[i]];
      if files[i].id in seen {
        var f :| f in files[..i] && f.id == files[i].id;
        return false;
      }
      seen := seen + {files[i].id};
    }
    assert files[..|files|] == files;
    return true;
  }

  function DocumentFailures(t: Tools, n: Names, a: Archive, doc: Document): set<Failure> {
    Uncovered(n, a, doc) + Uncontained(a, doc.files) + Differing(t, a, doc.files, |doc.files|)
    + (if IdsAreUnique(doc.files) then {} else {RepeatedIds})
    + (if doc.file == n.file then {} else {WrongFile})
    + (if doc.package == n.package then {} else {WrongPackage})
    + (if doc.excluded == n.Excluded() then {} else {WrongExclusions})
    + (if doc.code == t.code(Digests(t, doc.files, a, |doc.files|)) then {} else {WrongCode})
  }

  method CheckDocument(t: Tools, n: Names, a: Archive, doc: Document) returns (failures: set<Failure>)
    ensures failures == DocumentFailures(t, n, a, doc)
  {
    hide Uncovered, Uncontained, Differing, Digests, LastOf, IdsAreUnique;
    var unique := CheckIds(doc.files);
    var last := LastRecords(doc.files);
    var coverage := CheckCoverage(n, a, doc);
    var differing, digests := CheckDigests(t, a, doc.files, last);
    failures := coverage + differing;
    if !unique {
      failures := failures + {RepeatedIds};
    }
    if doc.file != n.file {
      failures := failures + {WrongFile};
    }
    if doc.package != n.package {
      failures := failures + {WrongPackage};
    }
    if doc.excluded != n.Excluded() {
      failures := failures + {WrongExclusions};
    }
    if doc.code != t.code(digests) {
      failures := failures + {WrongCode};
    }
  }

  lemma DocumentFailsIff(t: Tools, n: Names, a: Archive, doc: Document, f: Failure)
    ensures f in DocumentFailures(t, n, a, doc) <==> DocumentFails(t, n, a, doc, f)
  {
    hide Differs256, Differs1, Digests, IdsAreUnique, Differing;
    DifferingIff(t, a, doc.files, f);
    if f.NotCovered? && f.name in NamesOf(a) {
      var m :| m in a && m.name == f.name;
    } else if f.NotContained? && f.name in Listed(doc) {
      var r :| r in doc.files && r.name == f.name;
    }
  }

  predicate DigestFails(t: Tools, a: Archive, files: seq<FileRecord>, i: nat, f: Failure)
    requires i < |files|
  {
    && Counts(files, i) && Lookup(a, files[i].name).Some?
    && f in DigestFailure(t, files[i], Lookup(a, files[i].name).value)
  }

  lemma {:induction false} DifferingHas(t: Tools, a: Archive, files: seq<FileRecord>, n: nat, f: Failure)
    requires n <= |files|
    ensures f in Differing(t, a, files, n) <==>
            exists i | 0 <= i < n :: DigestFails(t, a, files, i, f)
  {
    hide DigestFailure, Counts, Lookup;
    assert n > 0 && DigestFails(t, a, files, n - 1, f) ==> f in Differing(t, a, files, n);
    if n > 0 {
      DifferingHas(t, a, files, n - 1, f);
    }
  }

  lemma DifferingIff(t: Tools, a: Archive, files: seq<FileRecord>, f: Failure)
    ensures f.Sha256Differs?
            ==> (f in Differing(t, a, files, |files|)
                 <==> exists i | 0 <= i < |files| :: Differs256(t, a, files, i, f.name))
    ensures f.Sha1Differs?
            ==> (f in Differing(t, a, files, |files|)
                 <==> exists i | 0 <= i < |files| :: Differs1(t, a, files, i, f.name))
    ensures !f.Sha256Differs? && !f.Sha1Differs? ==> f !in Differing(t, a, files, |files|)
  {
    hide Differing, Counts, Lookup;
    DifferingHas(t, a, files, |files|, f);
    forall i | 0 <= i < |files|
      ensures f.Sha256Differs? ==> (DigestFails(t, a, files, i, f) <==> Differs256(t, a, files, i, f.name))
      ensures f.Sha1Differs? ==> (DigestFails(t, a, files, i, f) <==> Differs1(t, a, files, i, f.name))
    {
    }
  }

  function RowFailure(t: Tools, m: Member, rows: map<string, Row>): set<Failure> {
    if m.name !in rows then {NoRow(m.name)}
    else
      (if rows[m.name].sha256 != t.sha256(m.content) then {RowDigestDiffers(m.name)} else {})
      + (if rows[m.name].size != Decimal(t.size(m.content)) then {RowSizeDiffers(m.name)} else {})
  }

  function RowFailures(t: Tools, n: Names, a: Archive, rows: map<string, Row>): set<Failure> {
    if a == [] then {}
    else
      var m := a[|a| - 1];
      RowFailures(t, n, a[..|a| - 1], rows) + if m.name == n.record then {} else RowFailure(t, m, rows)
  }

  function RecordFailures(t: Tools, n: Names, a: Archive, rows: map<string, Row>): set<Failure> {
    RowFailures(t, n, a, rows) + set name <- rows.Keys - NamesOf(a) :: RowWithoutFile(name)
  }

  method CheckRecord(t: Tools, n: Names, a: Archive, rows: map<string, Row>) returns (failures: set<Failure>)
    ensures failures == RecordFailures(t, n, a, rows)
  {
    failures := {};
    for i := 0 to |a|
      invariant failures == RowFailures(t, n, a[..i], rows)
    {
      assert a[..i + 1][..i] == a[..i];
      if a[i].name == n.record {
        continue;
      }
      if a[i].name !in rows {
        failures := failures + {NoRow(a[i].name)};
        continue;
      }
      var row := rows[a[i].name];
      if row.sha256 != t.sha256(a[i].content) {
        failures := failures + {RowDigestDiffers(a[i].name)};
      }
      if row.size != Decimal(t.size(a[i].content)) {
        failures := failures + {RowSizeDiffers(a[i].name)};
      }
    }
    assert a[..|a|] == a;
    failures := failures + set name <- rows.Keys - NamesOf(a) :: RowWithoutFile(name);
  }

  lemma {:induction false} RowFailuresHas(t: Tools, n: Names, a: Archive, rows: map<string, Row>, f: Failure)
    ensures f in RowFailures(t, n, a, rows) <==> exists m <- a :: m.name != n.record && f in RowFailure(t, m, rows)
  {
    hide RowFailure;
    if a != [] {
      RowFailuresHas(t, n, a[..|a| - 1], rows, f);
      assert a == a[..|a| - 1] + [a[|a| - 1]];
    }
  }

  lemma RecordFailsIff(t: Tools, n: Names, a: Archive, rows: map<string, Row>, f: Failure)
    requires Distinct(a)
    ensures f in RecordFailures(t, n, a, rows) <==> RecordFails(t, n, a, rows, f)
  {
    hide Lookup, RowFailures;
    RowFailuresHas(t, n, a, rows, f);
    if f.NoRow? || f.RowDigestDiffers? || f.RowSizeDiffers? {
      LookupIsThere(a, f.name);
      forall m <- a | m.name == f.name ensures Lookup(a, f.name) == Some(m.content) {
        LookupFinds(a, m);
      }
    }
  }

  /** Verification of the wheel `file` reports exactly the failures of the archive, under the names that its own
      dist-info directory gives. */
  method Verify(t: Tools, file: string, a: Archive) returns (failures: set<Failure>)
    ensures forall f :: f in failures <==> Reported(t, NamesFor(file, DistOf(NamesOf(a))), a, f)
  {
    hide DocumentFails, RecordFails, Lookup, DocumentFailures, RecordFailures, SbomOf, RowsOf, NamesFor, DistOf,
         OneDist;
    var info := Scan(t, a);
    if info.None? {
      return {Unscannable};
    }
    var n, files := NamesFor(file, info.value.dist), info.value.files;
    if SbomOf(n, a).None? {
      return {NoSbom};
    }
    if RowsOf(n, a).None? {
      return {NoRecord};
    }
    FilesAreDistinct(a);
    var one := CheckDocument(t, n, files, SbomOf(n, a).value);
    var two := CheckRecord(t, n, files, RowsOf(n, a).value);
    failures := one + two;
    forall f ensures f in failures <==> Reported(t, n, a, f) {
      DocumentFailsIff(t, n, files, SbomOf(n, a).value, f);
      RecordFailsIff(t, n, files, RowsOf(n, a).value, f);
    }
  }
}
