/** Rewriting a wheel so that it carries its own SBOM, and what a clean verification then means. */
module WheelEmbed {
  import opened Options
  import opened Wheel

  predicate Verified(t: Tools, n: Names, a: Archive) {
    && Scannable(t, a) && SbomOf(n, a).Some? && RowsOf(n, a).Some?
    && DocumentFailures(t, n, Files(a), SbomOf(n, a).value) == {}
    && RecordFailures(t, n, Files(a), RowsOf(n, a).value) == {}
  }

  /** Verification has nothing to report. */
  ghost predicate ReportsNothing(t: Tools, n: Names, a: Archive) { forall f :: !Reported(t, n, a, f) }

  /** Verified is the absence of reports. */
  lemma VerifiedIff(t: Tools, n: Names, a: Archive)
    ensures Verified(t, n, a) <==> ReportsNothing(t, n, a)
  {
    hide DocumentFails, RecordFails, DocumentFailures, RecordFailures, SbomOf, RowsOf, Scannable, Distinct;
    if !Scannable(t, a) {
      assert Reported(t, n, a, Unscannable);
    } else if SbomOf(n, a).None? {
      assert Reported(t, n, a, NoSbom);
    } else if RowsOf(n, a).None? {
      assert Reported(t, n, a, NoRecord);
    } else {
      ScannableIsDistinct(t, a);
      FilesAreDistinct(a);
      forall f ensures Reported(t, n, a, f) <==> f in DocumentFailures(t, n, Files(a), SbomOf(n, a).value)
                                                      + RecordFailures(t, n, Files(a), RowsOf(n, a).value) {
        DocumentFailsIff(t, n, Files(a), SbomOf(n, a).value, f);
        RecordFailsIff(t, n, Files(a), RowsOf(n, a).value, f);
      }
      if !Verified(t, n, a) {
        var f :| f in DocumentFailures(t, n, Files(a), SbomOf(n, a).value)
                      + RecordFailures(t, n, Files(a), RowsOf(n, a).value);
        assert Reported(t, n, a, f);
      }
    }
  }

  lemma ScannableIsDistinct(t: Tools, a: Archive)
    requires Scannable(t, a)
    ensures Distinct(a)
  {
  }

  // ---------------------------------------------------------------- what a clean verification means

  /** What the document states for a name, the last record counting. */
  function Stated(files: seq<FileRecord>, name: string): Option<FileRecord> {
    if files == [] then None
    else if files[|files| - 1].name == name then Some(files[|files| - 1])
    else Stated(files[..|files| - 1], name)
  }

  lemma {:induction false} StatedCounts(files: seq<FileRecord>, name: string) returns (i: nat)
    requires name in set f <- files :: f.name
    ensures i < |files| && files[i].name == name && Counts(files, i) && Stated(files, name) == Some(files[i])
  {
    var n := |files| - 1;
    if files[n].name == name {
      i := n;
    } else {
      assert files == files[..n] + [files[n]];
      i := StatedCounts(files[..n], name);
      assert forall j | i < j < n :: files[..n][j] == files[j];
    }
  }

  lemma CleanDocument(t: Tools, n: Names, files: Archive, doc: Document, name: string)
    requires DocumentFailures(t, n, files, doc) == {} && name !in n.Excluded()
    ensures match Lookup(files, name)
            case None => name !in Listed(doc)
            case Some(c) =>
              && name in Listed(doc) && Stated(doc.files, name).Some?
              && (var f := Stated(doc.files, name).value; f.sha1 == t.sha1(c) && f.sha256 == t.sha256(c))
  {
    hide DocumentFailures, Digests, Counts, Lookup, Stated;
    LookupIsThere(files, name);
    DocumentFailsIff(t, n, files, doc, NotCovered(name));
    DocumentFailsIff(t, n, files, doc, NotContained(name));
    if name in Listed(doc) {
      DocumentFailsIff(t, n, files, doc, Sha256Differs(name));
      DocumentFailsIff(t, n, files, doc, Sha1Differs(name));
      var i := StatedCounts(doc.files, name);
      assert !Differs256(t, files, doc.files, i, name) && !Differs1(t, files, doc.files, i, name);
    }
  }

  lemma CleanRecord(t: Tools, n: Names, files: Archive, rows: map<string, Row>, name: string)
    requires Distinct(files) && RecordFailures(t, n, files, rows) == {} && name != n.record
    ensures match Lookup(files, name)
            case None => name !in rows
            case Some(c) => name in rows && rows[name] == t.RowOf(c)
  {
    hide RecordFailures, Lookup, Distinct;
    LookupIsThere(files, name);
    RecordFailsIff(t, n, files, rows, NoRow(name));
    RecordFailsIff(t, n, files, rows, RowWithoutFile(name));
    RecordFailsIff(t, n, files, rows, RowDigestDiffers(name));
    RecordFailsIff(t, n, files, rows, RowSizeDiffers(name));
  }

  /** The document and the table of a verified wheel list exactly its members, RECORD and the SBOM aside,
      with their digests and sizes. */
  lemma VerifiedMember(t: Tools, n: Names, a: Archive, name: string)
    requires Verified(t, n, a) && name !in n.Excluded()
    ensures var doc, rows := SbomOf(n, a).value, RowsOf(n, a).value;
            match Lookup(Files(a), name)
            case None => name !in Listed(doc) && name !in rows
            case Some(c) =>
              && name in rows && rows[name] == t.RowOf(c)
              && name in Listed(doc) && Stated(doc.files, name).Some?
              && (var f := Stated(doc.files, name).value; f.sha1 == t.sha1(c) && f.sha256 == t.sha256(c))
  {
    hide DocumentFailures, RecordFailures, SbomOf, RowsOf, Files, Lookup, Stated, Listed;
    FilesAreDistinct(a);
    CleanDocument(t, n, Files(a), SbomOf(n, a).value, name);
    CleanRecord(t, n, Files(a), RowsOf(n, a).value, name);
  }

  /** The document of a verified wheel lists the wheel's files minus RECORD and the SBOM exactly if it lists
      neither of those two. */
  lemma ListedIsExact(t: Tools, n: Names, a: Archive)
    requires Verified(t, n, a)
    ensures var listed := Listed(SbomOf(n, a).value);
            listed == NamesOf(Files(a)) - n.Excluded() <==> listed !! n.Excluded()
  {
    hide Verified, SbomOf, RowsOf, Files, Lookup, Stated, Listed, NamesOf;
    VerifiedParts(t, n, a);
    forall name | name !in n.Excluded() ensures name in Listed(SbomOf(n, a).value) <==> name in NamesOf(Files(a)) {
      VerifiedMember(t, n, a, name);
      LookupIsThere(Files(a), name);
    }
  }

  /** Two verified wheels with the same document have the same members with the same contents, RECORD and
      the SBOM aside, unless two of their contents collide under SHA256. So no member of a verified wheel can
      be added, removed or changed without changing the document. */
  lemma DocumentPinsContents(t: Tools, n: Names, a: Archive, b: Archive, name: string)
    requires Verified(t, n, a) && Verified(t, n, b) && SbomOf(n, a) == SbomOf(n, b)
    requires name !in n.Excluded()
    ensures match (Lookup(Files(a), name), Lookup(Files(b), name))
            case (None, None) => true
            case (Some(c), Some(d)) => t.sha256(c) == t.sha256(d) && t.sha1(c) == t.sha1(d)
            case _ => false
    ensures name in RowsOf(n, a).value <==> name in RowsOf(n, b).value
  {
    hide Verified, SbomOf, RowsOf, Files, Lookup;
    VerifiedParts(t, n, a);
    VerifiedParts(t, n, b);
    VerifiedMember(t, n, a, name);
    VerifiedMember(t, n, b, name);
  }

  lemma VerifiedParts(t: Tools, n: Names, a: Archive)
    requires Verified(t, n, a)
    ensures SbomOf(n, a).Some? && RowsOf(n, a).Some?
  {
  }

  // ---------------------------------------------------------------- embedding

  datatype Result = Embedded(archive: Archive) | Rejected

  /** The wheel's own files with the replaced ones replaced, RECORD left out. */
  function Carried(n: Names, files: Archive, replacements: Archive): (out: Archive)
    ensures |out| <= |files|
  {
    if files == [] then []
    else
      var m := files[|files| - 1];
      Carried(n, files[..|files| - 1], replacements)
      + if m.name == n.record then [] else [Member(m.name, Replaced(m, replacements))]
  }

  function Replaced(m: Member, replacements: Archive): Content {
    match Lookup(replacements, m.name) case None => m.content case Some(c) => c
  }

  /** The members the SBOM is rendered for: the files that stay, the replacements and the additions. */
  function Projected(files: Archive, additions: Archive, replacements: Archive): Archive {
    Without(files, NamesOf(replacements)) + replacements + additions
  }

  function Without(files: Archive, names: set<string>): Archive {
    if files == [] then []
    else
      Without(files[..|files| - 1], names) + if files[|files| - 1].name in names then [] else [files[|files| - 1]]
  }

  /** The records of the members that are not excluded. */
  function Records(t: Tools, n: Names, members: Archive): seq<FileRecord> {
    if members == [] then []
    else
      var m := members[|members| - 1];
      Records(t, n, members[..|members| - 1]) + if m.name in n.Excluded() then [] else [t.RecordFor(m)]
  }

  function Sha1s(files: seq<FileRecord>): multiset<string> {
    if files == [] then multiset{} else Sha1s(files[..|files| - 1]) + multiset{files[|files| - 1].sha1}
  }

  function DocumentFor(t: Tools, n: Names, members: Archive): Document {
    var files := Records(t, n, members);
    Document(n.file, n.package, n.Excluded(), files, t.code(Sha1s(files)))
  }

  /** One row for each member. */
  function Rows(t: Tools, members: Archive): map<string, Row> {
    if members == [] then map[]
    else Rows(t, members[..|members| - 1])[members[|members| - 1].name := t.RowOf(members[|members| - 1].content)]
  }

  function Rewritten(t: Tools, n: Names, files: Archive, additions: Archive, replacements: Archive): Archive {
    var members := Carried(n, files, replacements) + additions;
    members + [Member(n.record, Record(Rows(t, members)[n.record := BLANK]))]
  }

  method BuildDocument(t: Tools, n: Names, members: Archive) returns (doc: Option<Document>)
    ensures doc == if IdsAreUnique(Records(t, n, members)) then Some(DocumentFor(t, n, members)) else None
  {
    hide IdsAreUnique, IdsOf;
    var files: seq<FileRecord>, digests: multiset<string>, ids: set<string> := [], multiset{}, {};
    NoIds();
    for i := 0 to |members|
      invariant files == Records(t, n, members[..i]) && digests == Sha1s(files)
      invariant ids == IdsOf(files) && IdsAreUnique(files)
    {
      assert members[..i + 1][..i] == members[..i];
      var m := members[i];
      if m.name in n.Excluded() {
        continue;
      }
      if t.id(m.name) in ids {
        RepeatedStays(t, n, members, i);
        return None;
      }
      assert (files + [t.RecordFor(m)])[..|files|] == files;
      IdsGrow(files, t.RecordFor(m));
      files, digests, ids := files + [t.RecordFor(m)], digests + multiset{t.sha1(m.content)}, ids + {t.id(m.name)};
    }
    assert members[..|members|] == members;
    doc := Some(Document(n.file, n.package, n.Excluded(), files, t.code(digests)));
  }

  function IdsOf(files: seq<FileRecord>): set<string> { set f <- files :: f.id }

  lemma NoIds()
    ensures IdsAreUnique([]) && IdsOf([]) == {}
  {
  }

  lemma IdsGrow(files: seq<FileRecord>, f: FileRecord)
    requires IdsAreUnique(files) && f.id !in IdsOf(files)
    ensures IdsAreUnique(files + [f]) && IdsOf(files + [f]) == IdsOf(files) + {f.id}
  {
    forall i | 0 <= i < |files| ensures files[i].id != f.id {
      assert files[i] in files;
    }
  }

  lemma RepeatedStays(t: Tools, n: Names, members: Archive, i: nat)
    requires i < |members| && members[i].name !in n.Excluded()
    requires t.id(members[i].name) in IdsOf(Records(t, n, members[..i]))
    ensures !IdsAreUnique(Records(t, n, members))
  {
    var before := Records(t, n, members[..i]);
    assert members[..i + 1][..i] == members[..i];
    var k :| 0 <= k < |before| && before[k].id == t.id(members[i].name);
    RecordsExtend(t, n, members, i + 1, |members|);
    assert members[..|members|] == members;
    var files := Records(t, n, members);
    assert files[k] == before[k] && files[|before|] == t.RecordFor(members[i]);
  }

  lemma {:induction false} RecordsExtend(t: Tools, n: Names, members: Archive, i: nat, j: nat)
    requires i <= j <= |members|
    ensures Records(t, n, members[..i]) <= Records(t, n, members[..j])
  {
    if i < j {
      RecordsExtend(t, n, members, i, j - 1);
      assert members[..j][..j - 1] == members[..j - 1];
    }
  }

  /** The first check of a rewrite: nothing is added twice and RECORD is not passed in. */
  predicate Admissible(n: Names, files: Archive, additions: Archive, replacements: Archive) {
    NamesOf(additions) !! NamesOf(files) && n.record !in NamesOf(additions) && n.record !in NamesOf(replacements)
  }

  method Rewrite(t: Tools, n: Names, a: Archive, additions: Archive, replacements: Archive) returns (out: Result)
    ensures out == if Admissible(n, Files(a), additions, replacements)
                   then Embedded(Rewritten(t, n, Files(a), additions, replacements)) else Rejected
  {
    hide Files, Carried, Rows, NamesOf, Replaced;
    if !(NamesOf(additions) !! NamesOf(Files(a))) {
      return Rejected;
    }
    if n.record in NamesOf(additions) || n.record in NamesOf(replacements) {
      return Rejected;
    }
    var target: Archive, rows: map<string, Row> := [], map[];
    NothingCarried(t, n, a, replacements);
    for i := 0 to |a|
      invariant target == Carried(n, Files(a[..i]), replacements) && rows == Rows(t, target)
    {
      CarriedSteps(n, a, i, replacements);
      if a[i].IsDirectory() || a[i].name == n.record {
        continue;
      }
      var data := Replaced(a[i], replacements);
      RowsStep(t, target, Member(a[i].name, data));
      target, rows := target + [Member(a[i].name, data)], rows[a[i].name := t.RowOf(data)];
    }
    assert a[..|a|] == a;
    var carried := target;
    for i := 0 to |additions|
      invariant target == carried + additions[..i] && rows == Rows(t, target)
    {
      assert carried + additions[..i + 1] == target + [additions[i]];
      RowsStep(t, target, additions[i]);
      target, rows := target + [additions[i]], rows[additions[i].name := t.RowOf(additions[i].content)];
    }
    assert additions[..|additions|] == additions;
    return Embedded(target + [Member(n.record, Record(rows[n.record := BLANK]))]);
  }

  lemma NothingCarried(t: Tools, n: Names, a: Archive, replacements: Archive)
    ensures Carried(n, Files(a[..0]), replacements) == [] && Rows(t, []) == map[]
  {
  }

  lemma CarriedSteps(n: Names, a: Archive, i: nat, replacements: Archive)
    requires i < |a|
    ensures Carried(n, Files(a[..i + 1]), replacements)
            == Carried(n, Files(a[..i]), replacements)
               + if a[i].IsDirectory() || a[i].name == n.record then []
                 else [Member(a[i].name, Replaced(a[i], replacements))]
  {
    hide Files, Carried, Replaced;
    FilesStep(a, i);
    assert Files(a[..i]) + [] == Files(a[..i]);
    CarriedStep(n, Files(a[..i]), a[i], replacements);
  }

  lemma FilesStep(a: Archive, i: nat)
    requires i < |a|
    ensures Files(a[..i + 1]) == Files(a[..i]) + if a[i].IsDirectory() then [] else [a[i]]
  {
    assert a[..i + 1][..i] == a[..i];
  }

  lemma CarriedStep(n: Names, files: Archive, m: Member, replacements: Archive)
    ensures Carried(n, files + [m], replacements)
            == Carried(n, files, replacements)
               + if m.name == n.record then [] else [Member(m.name, Replaced(m, replacements))]
  {
    assert (files + [m])[..|files|] == files;
  }

  lemma RowsStep(t: Tools, members: Archive, m: Member)
    ensures Rows(t, members + [m]) == Rows(t, members)[m.name := t.RowOf(m.content)]
  {
    assert (members + [m])[..|members|] == members;
  }

  /** What the collector hands over: two special names that are not those of directories, additions and
      replacements by name, and replacements of files that are there. */
  predicate Ready(n: Names, files: Archive, additions: Archive, replacements: Archive) {
    && n.record != n.sbom && !Member(n.record, Bytes([])).IsDirectory() && !Member(n.sbom, Bytes([])).IsDirectory()
    && Distinct(additions) && n.sbom !in NamesOf(additions)
    && Distinct(replacements) && NamesOf(replacements) <= NamesOf(files)
  }

  function SbomMember(t: Tools, n: Names, files: Archive, additions: Archive, replacements: Archive): Member {
    Member(n.sbom, Sbom(DocumentFor(t, n, Projected(files, additions, replacements))))
  }

  function EmbeddedArchive(t: Tools, n: Names, files: Archive, additions: Archive, replacements: Archive): Archive {
    Rewritten(t, n, files, additions + [SbomMember(t, n, files, additions, replacements)], replacements)
  }

  /** What lets an SBOM be embedded at all. */
  predicate Embeddable(t: Tools, n: Names, files: Archive, additions: Archive, replacements: Archive) {
    && IdsAreUnique(Records(t, n, Projected(files, additions, replacements)))
    && Admissible(n, files, additions, replacements) && n.sbom !in NamesOf(files)
  }

  /** The names of a wheel's special members are three different names of files. */
  lemma SpecialNames(file: string, dist: string)
    ensures var n := NamesFor(file, dist);
            && n.record != n.sbom && MetadataOf(dist) !in n.Excluded()
            && !Member(n.record, Bytes([])).IsDirectory() && !Member(n.sbom, Bytes([])).IsDirectory()
            && !EndsWith(n.record, METADATA_END) && !EndsWith(n.sbom, METADATA_END)
  {
    var n, metadata, k := NamesFor(file, dist), MetadataOf(dist), |dist| + 1;
    assert n.record[k] == 'R' && n.sbom[k] == 's' && metadata[k] == 'M';
    assert n.record[|n.record| - 1] == 'D' && n.sbom[|n.sbom| - 1] == 'n';
    LastOfEnd(n.record, METADATA_END);
    LastOfEnd(n.sbom, METADATA_END);
  }

  lemma LastOfEnd(s: string, end: string)
    requires s != "" && end != ""
    ensures EndsWith(s, end) ==> s[|s| - 1] == end[|end| - 1]
  {
    if EndsWith(s, end) {
      assert s[|s| - |end|..][|end| - 1] == s[|s| - 1];
    }
  }

  /** Members that are excluded leave no record. */
  lemma {:induction false} RecordsSkip(t: Tools, n: Names, members: Archive)
    ensures Records(t, n, Without(members, {n.sbom})) == Records(t, n, members)
  {
    if members != [] {
      var k := |members| - 1;
      RecordsSkip(t, n, members[..k]);
      var front := Without(members[..k], {n.sbom});
      assert front + [] == front && (front + [members[k]])[..|front|] == front;
    }
  }

  lemma {:induction false} RecordsAppend(t: Tools, n: Names, a: Archive, b: Archive)
    ensures Records(t, n, a + b) == Records(t, n, a) + Records(t, n, b)
  {
    hide Records;
    if b == [] {
      assert a + b == a && Records(t, n, []) == [] by {
        NoRecords(t, n);
      }
    } else {
      var front, m := b[..|b| - 1], b[|b| - 1];
      RecordsAppend(t, n, a, front);
      RecordsStep(t, n, a + front, m);
      RecordsStep(t, n, front, m);
      assert front + [m] == b && a + front + [m] == a + b;
    }
  }

  lemma RecordsStep(t: Tools, n: Names, members: Archive, m: Member)
    ensures Records(t, n, members + [m])
            == Records(t, n, members) + if m.name in n.Excluded() then [] else [t.RecordFor(m)]
  {
    assert (members + [m])[..|members|] == members;
  }

  lemma NoRecords(t: Tools, n: Names)
    ensures Records(t, n, []) == []
  {
  }

  lemma DocumentSkips(t: Tools, n: Names, files: Archive, additions: Archive, replacements: Archive)
    ensures Records(t, n, Projected(files, additions, replacements))
            == Records(t, n, Projected(files, Without(additions, {n.sbom}), replacements))
  {
    var kept := Without(files, NamesOf(replacements)) + replacements;
    RecordsAppend(t, n, kept, additions);
    RecordsAppend(t, n, kept, Without(additions, {n.sbom}));
    RecordsSkip(t, n, additions);
  }

  /** What the collector works with: the names that follow from the wheel, the additions but for an SBOM among them,
      and the one replacement, of the metadata. */
  datatype Job = Job(names: Names, files: Archive, additions: Archive, replacements: Archive)

  function JobFor(file: string, dist: string, files: Archive, additions: Archive, metadata: Content): Job {
    var n := NamesFor(file, dist);
    Job(n, files, Without(additions, {n.sbom}), [Member(MetadataOf(dist), metadata)])
  }

  ghost function JobOf(file: string, a: Archive, additions: Archive, metadata: Content): Job {
    JobFor(file, DistOf(NamesOf(a)), Files(a), additions, metadata)
  }

  /** The wheel can be read, its metadata is where it should be, no identifiers collide and nothing is added twice. */
  ghost predicate CanEmbed(t: Tools, file: string, a: Archive, additions: Archive, metadata: Content) {
    var j := JobOf(file, a, additions, metadata);
    && Scannable(t, a) && MetadataOf(DistOf(NamesOf(a))) in NamesOf(Files(a))
    && Embeddable(t, j.names, j.files, j.additions, j.replacements)
  }

  ghost function EmbeddedWheel(t: Tools, file: string, a: Archive, additions: Archive, metadata: Content): Archive {
    var j := JobOf(file, a, additions, metadata);
    EmbeddedArchive(t, j.names, j.files, j.additions, j.replacements)
  }

  /** Embeds an SBOM into the wheel `file`: `additions` are the license texts and notices by name, `metadata` the
      patched metadata. */
  method Embed(t: Tools, file: string, a: Archive, additions: Archive, metadata: Content) returns (out: Result)
    requires Distinct(additions)
    ensures out == if CanEmbed(t, file, a, additions, metadata)
                   then Embedded(EmbeddedWheel(t, file, a, additions, metadata)) else Rejected
  {
    hide Scannable, Files, Records, Rewritten, Projected, IdsAreUnique, NamesOf, NamesFor, DistOf, Without, MetadataOf;
    var info := Scan(t, a);
    if info.None? {
      return Rejected;
    }
    var n, files := NamesFor(file, info.value.dist), info.value.files;
    var name := MetadataOf(info.value.dist);
    if name !in NamesOf(files) {
      return Rejected;
    }
    var replacements := [Member(name, metadata)];
    DocumentSkips(t, n, files, additions, replacements);
    var doc := BuildDocument(t, n, Projected(files, additions, replacements));
    if doc.None? {
      return Rejected;
    }
    var added, sbom := Without(additions, {n.sbom}), Member(n.sbom, Sbom(doc.value));
    NamesAppend(added, [sbom]);
    ghost var added', there := NamesOf(added), NamesOf(files);
    assert added' + {n.sbom} !! there <==> added' !! there && n.sbom !in there;
    SpecialNames(file, info.value.dist);
    out := Rewrite(t, n, a, added + [sbom], replacements);
  }

  lemma NamesAppend(a: Archive, b: Archive)
    ensures NamesOf(a + b) == NamesOf(a) + NamesOf(b)
    ensures |b| == 1 ==> NamesOf(b) == {b[0].name}
  {
    forall x <- NamesOf(a) + NamesOf(b) ensures x in NamesOf(a + b) {
      if x in NamesOf(a) {
        var m :| m in a && m.name == x;
        assert m in a + b;
      } else {
        var m :| m in b && m.name == x;
        assert m in a + b;
      }
    }
  }
}
