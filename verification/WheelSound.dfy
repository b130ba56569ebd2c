/** What the collector embeds is what verification accepts. */
module WheelSound {
  import opened Options
  import opened Wheel
  import opened WheelEmbed

  // ---------------------------------------------------------------- members of the rewritten archive

  predicate IsReplaced(replacements: Archive, files: Archive, m: Member) {
    if m.name in NamesOf(replacements) then m in replacements else m in files
  }

  lemma ReplacedIs(replacements: Archive, files: Archive, f: Member)
    requires Distinct(replacements) && f in files
    ensures IsReplaced(replacements, files, Member(f.name, Replaced(f, replacements)))
  {
    LookupIsThere(replacements, f.name);
  }

  lemma DistinctFront(a: Archive, k: nat)
    requires Distinct(a) && k == |a| - 1
    ensures Distinct(a[..k]) && a[k].name !in NamesOf(a[..k]) && NamesOf(a) == NamesOf(a[..k]) + {a[k].name}
    ensures a == a[..k] + [a[k]]
  {
    var front := a[..k];
    assert a == front + [a[k]];
    NamesAppend(front, [a[k]]);
  }

  lemma {:induction false} CarriedNames(n: Names, files: Archive, replacements: Archive)
    requires Distinct(files)
    ensures var out := Carried(n, files, replacements); NamesOf(out) == NamesOf(files) - {n.record} && Distinct(out)
  {
    hide Replaced, NamesOf, Distinct;
    if files == [] {
      NoNames();
    } else {
      var k := |files| - 1;
      DistinctFront(files, k);
      CarriedNames(n, files[..k], replacements);
      var front := Carried(n, files[..k], replacements);
      assert front + [] == front;
      if files[k].name != n.record {
        var m := Member(files[k].name, Replaced(files[k], replacements));
        NamesAppend(front, [m]);
        DistinctGrows(front, m);
      }
    }
  }

  lemma NoNames()
    ensures NamesOf([]) == {} && Distinct([])
  {
  }

  lemma {:induction false} CarriedMembers(n: Names, files: Archive, all: Archive, replacements: Archive)
    requires Distinct(replacements) && forall f <- files :: f in all
    ensures forall m <- Carried(n, files, replacements) :: IsReplaced(replacements, all, m)
  {
    hide IsReplaced, Replaced, Distinct;
    if files != [] {
      var k := |files| - 1;
      CarriedMembers(n, files[..k], all, replacements);
      ReplacedIs(replacements, all, files[k]);
    }
  }

  lemma DistinctGrows(a: Archive, m: Member)
    requires Distinct(a) && m.name !in NamesOf(a)
    ensures Distinct(a + [m])
  {
    forall i | 0 <= i < |a| ensures a[i].name != m.name {
      assert a[i] in a;
    }
  }

  lemma DistinctJoins(a: Archive, b: Archive)
    requires Distinct(a) && Distinct(b) && NamesOf(a) !! NamesOf(b)
    ensures Distinct(a + b)
  {
    forall i, j | 0 <= i < |a| && 0 <= j < |b| ensures a[i].name != b[j].name {
      assert a[i] in a && b[j] in b;
      assert a[i].name in NamesOf(a) && b[j].name in NamesOf(b);
    }
  }

  lemma {:induction false} WithoutHas(files: Archive, names: set<string>)
    requires Distinct(files)
    ensures var out := Without(files, names);
            && (forall m :: m in out <==> m in files && m.name !in names)
            && Distinct(out)
  {
    if files != [] {
      var k := |files| - 1;
      WithoutHas(files[..k], names);
      assert files == files[..k] + [files[k]];
      var front := Without(files[..k], names);
      if files[k].name !in names {
        forall m <- front ensures m.name != files[k].name {
          var i :| 0 <= i < k && files[..k][i] == m;
          assert files[i] == m;
        }
        DistinctGrows(front, files[k]);
      }
    }
  }

  /** The two views of the wheel agree: what the document is rendered for, and what is written. */
  lemma ViewsAgree(n: Names, files: Archive, additions: Archive, replacements: Archive, m: Member)
    requires Distinct(files) && Distinct(replacements) && NamesOf(replacements) <= NamesOf(files)
    requires m.name != n.record
    ensures m in Projected(files, additions, replacements) <==> m in Carried(n, files, replacements) + additions
  {
    hide Carried, Without;
    CarriedNames(n, files, replacements);
    CarriedMembers(n, files, files, replacements);
    WithoutHas(files, NamesOf(replacements));
    var out := Carried(n, files, replacements);
    if m in Projected(files, additions, replacements) && m !in additions {
      assert IsReplaced(replacements, files, m);
      MemberIsNamed(files, m);
      MemberIsNamed(replacements, m);
      assert m.name in NamesOf(out);
      var x :| x in out && x.name == m.name;
      SameName(replacements, files, m, x);
    }
  }

  lemma MemberIsNamed(a: Archive, m: Member)
    ensures m in a ==> m.name in NamesOf(a)
  {
  }

  lemma SameName(replacements: Archive, files: Archive, a: Member, b: Member)
    requires Distinct(files) && Distinct(replacements) && a.name == b.name
    requires IsReplaced(replacements, files, a) && IsReplaced(replacements, files, b)
    ensures a == b
  {
    hide NamesOf;
    OneOfName(replacements, a, b);
    OneOfName(files, a, b);
  }

  lemma OneOfName(a: Archive, x: Member, y: Member)
    requires Distinct(a) && x.name == y.name
    ensures x in a && y in a ==> x == y
  {
  }

  lemma {:induction false} ProjectedIsDistinct(files: Archive, additions: Archive, replacements: Archive)
    requires Distinct(files) && Distinct(replacements) && Distinct(additions)
    requires NamesOf(replacements) <= NamesOf(files) && NamesOf(additions) !! NamesOf(files)
    ensures Distinct(Projected(files, additions, replacements))
  {
    var stay := Without(files, NamesOf(replacements));
    WithoutHas(files, NamesOf(replacements));
    DistinctJoins(stay, replacements);
    NamesAppend(stay, replacements);
    assert NamesOf(stay) <= NamesOf(files);
    DistinctJoins(stay + replacements, additions);
  }

  // ---------------------------------------------------------------- the document of an archive

  predicate NamesDiffer(files: seq<FileRecord>) { forall i, j | 0 <= i < j < |files| :: files[i].name != files[j].name }

  predicate IsRecorded(t: Tools, n: Names, members: Archive, f: FileRecord) {
    exists m <- members :: m.name !in n.Excluded() && f == t.RecordFor(m)
  }

  lemma {:induction false} RecordsFrom(t: Tools, n: Names, members: Archive, f: FileRecord)
    ensures f in Records(t, n, members) <==> IsRecorded(t, n, members, f)
  {
    if members != [] {
      var k := |members| - 1;
      RecordsFrom(t, n, members[..k], f);
      assert members == members[..k] + [members[k]];
      hide Records;
    }
  }

  lemma {:induction false} RecordsDiffer(t: Tools, n: Names, members: Archive)
    requires Distinct(members)
    ensures NamesDiffer(Records(t, n, members))
  {
    hide Distinct;
    if members != [] {
      var k := |members| - 1;
      DistinctFront(members, k);
      RecordsDiffer(t, n, members[..k]);
      var front := Records(t, n, members[..k]);
      forall i | 0 <= i < |front| ensures front[i].name != members[k].name {
        RecordsFrom(t, n, members[..k], front[i]);
      }
    }
  }

  /** Where each record states the digests of the archive, the digests are the stated ones. */
  lemma {:induction false} DigestsAreStated(t: Tools, files: seq<FileRecord>, a: Archive, n: nat)
    requires n <= |files| && NamesDiffer(files)
    requires forall f <- files :: Lookup(a, f.name).Some? && f.sha1 == t.sha1(Lookup(a, f.name).value)
    ensures Digests(t, files, a, n) == Sha1s(files[..n])
  {
    hide Lookup;
    if n > 0 {
      DigestsAreStated(t, files, a, n - 1);
      assert files[..n][..n - 1] == files[..n - 1];
      assert files[n - 1] in files;
      assert Counts(files, n - 1);
    }
  }

  lemma {:induction false} RowsHas(t: Tools, members: Archive)
    requires Distinct(members)
    ensures Rows(t, members).Keys == NamesOf(members)
    ensures forall m <- members :: m.name in Rows(t, members) && Rows(t, members)[m.name] == t.RowOf(m.content)
  {
    hide Distinct, NamesOf;
    if members == [] {
      NoNames();
    } else {
      var k := |members| - 1;
      DistinctFront(members, k);
      RowsHas(t, members[..k]);
      forall m <- members[..k] ensures m.name != members[k].name {
        MemberIsNamed(members[..k], m);
      }
    }
  }

  lemma {:induction false} FilesOnly(a: Archive)
    requires forall i | 0 <= i < |a| :: !a[i].IsDirectory()
    ensures Files(a) == a
  {
    hide Files, Member.IsDirectory;
    if a == [] {
      assert Files(a) == [];
    } else {
      var n := |a| - 1;
      FilesOnly(a[..n]);
      FilesStep(a, n);
      assert a[..n + 1] == a && a == a[..n] + [a[n]];
    }
  }

  // ---------------------------------------------------------------- the embedded archive

  /** What the collector works on once the wheel has been scanned and nothing stands in the way. */
  predicate Given(t: Tools, n: Names, files: Archive, additions: Archive, replacements: Archive) {
    && Distinct(files) && (forall m <- files :: !m.IsDirectory())
    && Ready(n, files, additions, replacements) && Embeddable(t, n, files, additions, replacements)
  }

  /** Everything but RECORD. */
  function Body(t: Tools, n: Names, files: Archive, additions: Archive, replacements: Archive): Archive {
    Carried(n, files, replacements) + additions + [SbomMember(t, n, files, additions, replacements)]
  }

  function RecordMember(t: Tools, n: Names, body: Archive): Member {
    Member(n.record, Record(Rows(t, body)[n.record := BLANK]))
  }

  lemma OutIs(t: Tools, n: Names, files: Archive, additions: Archive, replacements: Archive)
    ensures var body := Body(t, n, files, additions, replacements);
            EmbeddedArchive(t, n, files, additions, replacements) == body + [RecordMember(t, n, body)]
  {
    hide Carried, Rows, SbomMember;
    var sbom := SbomMember(t, n, files, additions, replacements);
    var carried := Carried(n, files, replacements);
    assert carried + additions + [sbom] == carried + (additions + [sbom]);
  }

  lemma BodyNames(t: Tools, n: Names, files: Archive, additions: Archive, replacements: Archive)
    requires Given(t, n, files, additions, replacements)
    ensures var body := Body(t, n, files, additions, replacements);
            && Distinct(body) && NamesOf(body) == NamesOf(files) - {n.record} + NamesOf(additions) + {n.sbom}
            && n.record !in NamesOf(body)
  {
    hide Carried, Distinct, NamesOf, SbomMember, IdsAreUnique, Records, Projected;
    var sbom := SbomMember(t, n, files, additions, replacements);
    var carried := Carried(n, files, replacements);
    CarriedNames(n, files, replacements);
    DistinctJoins(carried, additions);
    NamesAppend(carried, additions);
    assert sbom.name == n.sbom by {
      SbomName(t, n, files, additions, replacements);
    }
    NamesAppend(carried + additions, [sbom]);
    DistinctGrows(carried + additions, sbom);
  }

  lemma SbomName(t: Tools, n: Names, files: Archive, additions: Archive, replacements: Archive)
    ensures SbomMember(t, n, files, additions, replacements).name == n.sbom
  {
  }

  lemma OutNames(t: Tools, n: Names, files: Archive, additions: Archive, replacements: Archive)
    requires Given(t, n, files, additions, replacements)
    ensures var out := EmbeddedArchive(t, n, files, additions, replacements);
            Distinct(out) && NamesOf(out) == NamesOf(Body(t, n, files, additions, replacements)) + {n.record}
  {
    hide Body, Distinct, NamesOf, EmbeddedArchive, Given, Rows;
    var body := Body(t, n, files, additions, replacements);
    BodyNames(t, n, files, additions, replacements);
    OutIs(t, n, files, additions, replacements);
    NamesAppend(body, [RecordMember(t, n, body)]);
    DistinctGrows(body, RecordMember(t, n, body));
  }

  /** A member of the rendered view that is not excluded is one of the written archive, and the other way. */
  lemma OutView(t: Tools, n: Names, files: Archive, additions: Archive, replacements: Archive, m: Member)
    requires Given(t, n, files, additions, replacements) && m.name !in n.Excluded()
    ensures m in EmbeddedArchive(t, n, files, additions, replacements)
            <==> m in Projected(files, additions, replacements)
  {
    hide Carried, Projected, SbomMember, EmbeddedArchive, Rows, Records, IdsAreUnique;
    OutIs(t, n, files, additions, replacements);
    SbomName(t, n, files, additions, replacements);
    ViewsAgree(n, files, additions, replacements, m);
  }

  // ---------------------------------------------------------------- no failure is reported for it

  predicate Documents(t: Tools, n: Names, a: Archive, files: seq<FileRecord>) {
    && (forall m <- a | m.name !in n.Excluded() :: t.RecordFor(m) in files)
    && (forall f <- files :: f.name !in n.Excluded() && exists m <- a :: f == t.RecordFor(m))
  }

  /** A document with one record for each member that is not excluded is clean. */
  lemma DocumentIsClean(t: Tools, n: Names, a: Archive, doc: Document, f: Failure)
    requires Distinct(a) && Documents(t, n, a, doc.files) && NamesDiffer(doc.files) && IdsAreUnique(doc.files)
    requires doc.file == n.file && doc.package == n.package && doc.excluded == n.Excluded()
    requires doc.code == t.code(Sha1s(doc.files))
    ensures !DocumentFails(t, n, a, doc, f)
  {
    hide Distinct, Lookup, Digests, Sha1s, NamesDiffer, IdsAreUnique, Counts;
    forall r <- doc.files
      ensures Lookup(a, r.name).Some? && r.sha1 == t.sha1(Lookup(a, r.name).value)
              && r.sha256 == t.sha256(Lookup(a, r.name).value)
    {
      var m :| m in a && r == t.RecordFor(m);
      LookupFinds(a, m);
    }
    assert doc.files[..|doc.files|] == doc.files;
    DigestsAreStated(t, doc.files, a, |doc.files|);
    if f.NotCovered? && f.name in NamesOf(a) && f.name !in n.Excluded() {
      var m :| m in a && m.name == f.name;
      assert t.RecordFor(m) in doc.files;
    }
  }

  /** A table with the row of each member is clean. */
  lemma RecordIsClean(t: Tools, n: Names, body: Archive, f: Failure)
    requires Distinct(body + [RecordMember(t, n, body)])
    ensures !RecordFails(t, n, body + [RecordMember(t, n, body)], RecordMember(t, n, body).content.rows, f)
  {
    hide Distinct, Lookup, Rows;
    var a := body + [RecordMember(t, n, body)];
    DistinctFront(a, |body|);
    assert a[..|body|] == body;
    RowsHas(t, body);
    NamesAppend(body, [RecordMember(t, n, body)]);
    if f.NoRow? || f.RowDigestDiffers? || f.RowSizeDiffers? {
      LookupIsThere(a, f.name);
    }
  }

  function DocumentOf(t: Tools, n: Names, files: Archive, additions: Archive, replacements: Archive): Document {
    DocumentFor(t, n, Projected(files, additions, replacements))
  }

  lemma SpecialsAreFound(t: Tools, n: Names, files: Archive, additions: Archive, replacements: Archive)
    requires Given(t, n, files, additions, replacements)
    ensures var out := EmbeddedArchive(t, n, files, additions, replacements);
            && SbomOf(n, out) == Some(DocumentOf(t, n, files, additions, replacements))
            && RowsOf(n, out) == Some(RecordMember(t, n, Body(t, n, files, additions, replacements)).content.rows)
  {
    hide Carried, Rows, EmbeddedArchive, DocumentFor, Projected, Distinct, Files, Lookup, Embeddable;
    var out := EmbeddedArchive(t, n, files, additions, replacements);
    var sbom := SbomMember(t, n, files, additions, replacements);
    var record := RecordMember(t, n, Body(t, n, files, additions, replacements));
    OutIs(t, n, files, additions, replacements);
    OutNames(t, n, files, additions, replacements);
    FilesAreDistinct(out);
    assert sbom in out && record in out;
    LookupFinds(Files(out), sbom);
    LookupFinds(Files(out), record);
  }

  lemma ViewIsDocumented(t: Tools, n: Names, files: Archive, additions: Archive, replacements: Archive)
    requires Given(t, n, files, additions, replacements)
    ensures var out, doc := EmbeddedArchive(t, n, files, additions, replacements),
                            DocumentOf(t, n, files, additions, replacements);
            Documents(t, n, out, doc.files) && NamesDiffer(doc.files)
  {
    hide EmbeddedArchive, Projected, Records, IdsAreUnique, NamesDiffer, Distinct, NamesOf;
    var out, view := EmbeddedArchive(t, n, files, additions, replacements), Projected(files, additions, replacements);
    ProjectedIsDistinct(files, additions, replacements);
    RecordsDiffer(t, n, view);
    forall m <- out | m.name !in n.Excluded() ensures t.RecordFor(m) in Records(t, n, view) {
      OutView(t, n, files, additions, replacements, m);
      RecordsFrom(t, n, view, t.RecordFor(m));
    }
    forall f <- Records(t, n, view) ensures f.name !in n.Excluded() && exists m <- out :: f == t.RecordFor(m) {
      RecordsFrom(t, n, view, f);
      var m :| m in view && m.name !in n.Excluded() && f == t.RecordFor(m);
      OutView(t, n, files, additions, replacements, m);
    }
  }

  lemma OutIsFiles(t: Tools, n: Names, files: Archive, additions: Archive, replacements: Archive)
    requires Given(t, n, files, additions, replacements) && forall m <- additions :: !m.IsDirectory()
    ensures forall m <- EmbeddedArchive(t, n, files, additions, replacements) :: !m.IsDirectory()
  {
    hide Carried, Rows, EmbeddedArchive, Embeddable, SbomMember;
    OutIs(t, n, files, additions, replacements);
    SbomName(t, n, files, additions, replacements);
    CarriedNames(n, files, replacements);
    var carried := Carried(n, files, replacements);
    forall m <- carried ensures !m.IsDirectory() {
      MemberIsNamed(carried, m);
      assert m.name in NamesOf(files);
      var f :| f in files && f.name == m.name;
    }
  }

  lemma CleanIsVerified(t: Tools, n: Names, files: Archive, additions: Archive, replacements: Archive)
    requires Given(t, n, files, additions, replacements) && forall m <- additions :: !m.IsDirectory()
    requires OneDist(NamesOf(EmbeddedArchive(t, n, files, additions, replacements)))
    ensures Verified(t, n, EmbeddedArchive(t, n, files, additions, replacements))
  {
    hide OneDist, Carried, Rows, EmbeddedArchive, Projected, Records, IdsAreUnique, Distinct, Files, SbomOf, RowsOf,
         Body, NamesOf, NamesDiffer, Sha1s, DocumentFailures, RecordFailures, DocumentFails, RecordFails, Documents,
         Ready;
    var out := EmbeddedArchive(t, n, files, additions, replacements);
    var doc, body := DocumentOf(t, n, files, additions, replacements), Body(t, n, files, additions, replacements);
    OutIs(t, n, files, additions, replacements);
    OutNames(t, n, files, additions, replacements);
    OutIsFiles(t, n, files, additions, replacements);
    FilesOnly(out);
    SpecialsAreFound(t, n, files, additions, replacements);
    ViewIsDocumented(t, n, files, additions, replacements);
    forall f ensures f !in DocumentFailures(t, n, out, doc) {
      DocumentIsClean(t, n, out, doc, f);
      DocumentFailsIff(t, n, out, doc, f);
    }
    forall f ensures f !in RecordFailures(t, n, out, RecordMember(t, n, body).content.rows) {
      RecordIsClean(t, n, body, f);
      RecordFailsIff(t, n, out, RecordMember(t, n, body).content.rows, f);
    }
  }

  lemma DirectoryIsRefused(t: Tools, n: Names, files: Archive, additions: Archive, replacements: Archive, m: Member)
    requires Given(t, n, files, additions, replacements) && m in additions && m.IsDirectory()
    ensures !Verified(t, n, EmbeddedArchive(t, n, files, additions, replacements))
  {
    hide Carried, Rows, EmbeddedArchive, Records, IdsAreUnique, Distinct, SbomOf, RowsOf, Files, Lookup, Stated,
         Without, DocumentFailures, RecordFailures;
    var out := EmbeddedArchive(t, n, files, additions, replacements);
    var doc := DocumentOf(t, n, files, additions, replacements);
    MemberIsNamed(additions, m);
    assert m.name !in n.Excluded();
    SpecialsAreFound(t, n, files, additions, replacements);
    var view := Projected(files, additions, replacements);
    assert m in view;
    RecordsFrom(t, n, view, t.RecordFor(m));
    assert m.name in Listed(doc);
    LookupIsThere(Files(out), m.name);
    if Verified(t, n, out) {
      CleanDocument(t, n, Files(out), doc, m.name);
      assert false;
    }
  }

  // ---------------------------------------------------------------- the dist-info directory

  lemma DistsJoin(a: set<string>, b: set<string>)
    ensures Dists(a + b) == Dists(a) + Dists(b)
  {
    hide EndsWith, Top;
  }

  lemma NoDist(names: set<string>, name: string)
    requires !EndsWith(name, METADATA_END)
    ensures Dists(names + {name}) == Dists(names) == Dists(names - {name})
  {
    hide EndsWith, Top;
  }

  /** Directories are no candidates. */
  lemma DistsOfFiles(a: Archive)
    ensures Dists(NamesOf(Files(a))) == Dists(NamesOf(a))
  {
    hide Top, Files;
    forall m <- a | EndsWith(m.name, METADATA_END) ensures m in Files(a) {
      assert m.name != "";
      LastOfEnd(m.name, METADATA_END);
    }
    forall d <- Dists(NamesOf(a)) ensures d in Dists(NamesOf(Files(a))) {
      var name :| name in NamesOf(a) && EndsWith(name, METADATA_END) && Top(name) == d;
      var m :| m in a && m.name == name;
      assert m.name in NamesOf(Files(a));
    }
    forall d <- Dists(NamesOf(Files(a))) ensures d in Dists(NamesOf(a)) {
      var name :| name in NamesOf(Files(a)) && EndsWith(name, METADATA_END) && Top(name) == d;
      var m :| m in Files(a) && m.name == name;
      assert m in a;
    }
  }

  /** The candidates after embedding are those before and those among the additions. */
  lemma OutDists(t: Tools, n: Names, files: Archive, additions: Archive, replacements: Archive)
    requires Given(t, n, files, additions, replacements)
    requires !EndsWith(n.record, METADATA_END) && !EndsWith(n.sbom, METADATA_END)
    ensures Dists(NamesOf(EmbeddedArchive(t, n, files, additions, replacements)))
            == Dists(NamesOf(files)) + Dists(NamesOf(additions))
  {
    hide Given, EmbeddedArchive, NamesOf, EndsWith, Dists, Body, Distinct;
    OutNames(t, n, files, additions, replacements);
    BodyNames(t, n, files, additions, replacements);
    var before, more := NamesOf(files), NamesOf(additions);
    NoDist(before, n.record);
    DistsJoin(before - {n.record}, more);
    NoDist(before - {n.record} + more, n.sbom);
    NoDist(before - {n.record} + more + {n.sbom}, n.record);
  }

  lemma JobIsGiven(t: Tools, file: string, a: Archive, additions: Archive, metadata: Content)
    requires Distinct(additions) && CanEmbed(t, file, a, additions, metadata)
    ensures var j := JobOf(file, a, additions, metadata); Given(t, j.names, j.files, j.additions, j.replacements)
  {
    hide Files, Embeddable, OneDist, DistOf, NamesFor, Without, EndsWith;
    var dist := DistOf(NamesOf(a));
    var n := NamesFor(file, dist);
    FilesAreDistinct(a);
    SpecialNames(file, dist);
    WithoutHas(additions, {n.sbom});
    var replacement := Member(MetadataOf(dist), metadata);
    assert forall m <- [replacement] :: m == replacement;
  }

  lemma DistIs(names: set<string>, d: string)
    requires Dists(names) == {d}
    ensures DistOf(names) == d
  {
    hide Dists;
  }

  lemma TwoDists(names: set<string>, d: string, d': string)
    requires d in Dists(names) && d' in Dists(names) && d != d'
    ensures !OneDist(names)
  {
    hide Dists, Version, Stem;
  }

  /** What `verify` reports of the wheel that the collector writes: nothing, exactly if nothing added is named as a
      directory and nothing added looks like the metadata of another dist-info directory. */
  lemma EmbeddedVerifies(t: Tools, file: string, a: Archive, additions: Archive, metadata: Content)
    requires Distinct(additions) && CanEmbed(t, file, a, additions, metadata)
    ensures var out := EmbeddedWheel(t, file, a, additions, metadata);
            var added := JobOf(file, a, additions, metadata).additions;
            ReportsNothing(t, NamesFor(file, DistOf(NamesOf(out))), out) <==>
            (forall m <- added :: !m.IsDirectory()) && Dists(NamesOf(added)) <= {DistOf(NamesOf(a))}
  {
    hide EmbeddedArchive, Verified, ReportsNothing, Given, Embeddable, Distinct, NamesFor, Files, Dists, NamesOf,
         Without, EndsWith, DistOf, Version, Stem;
    JobIsGiven(t, file, a, additions, metadata);
    var j, dist := JobOf(file, a, additions, metadata), DistOf(NamesOf(a));
    var out, n := EmbeddedArchive(t, j.names, j.files, j.additions, j.replacements), j.names;
    SpecialNames(file, dist);
    OutDists(t, n, j.files, j.additions, j.replacements);
    DistsOfFiles(a);
    var d :| d in Dists(NamesOf(a)) && Dists(NamesOf(a)) == {d} && Version(Stem(d)) != "";
    DistIs(NamesOf(a), d);
    VerifiedIff(t, NamesFor(file, DistOf(NamesOf(out))), out);
    if Dists(NamesOf(j.additions)) <= {dist} {
      assert Dists(NamesOf(out)) == {dist};
      DistIs(NamesOf(out), dist);
      assert n == NamesFor(file, DistOf(NamesOf(out)));
      if m :| m in j.additions && m.IsDirectory() {
        DirectoryIsRefused(t, n, j.files, j.additions, j.replacements, m);
      } else {
        CleanIsVerified(t, n, j.files, j.additions, j.replacements);
      }
    } else {
      var d' :| d' in Dists(NamesOf(j.additions)) && d' != dist;
      TwoDists(NamesOf(out), dist, d');
      NotScannable(t, NamesFor(file, DistOf(NamesOf(out))), out);
    }
  }

  lemma NotScannable(t: Tools, n: Names, a: Archive)
    requires !OneDist(NamesOf(a))
    ensures !Verified(t, n, a)
  {
  }

  /** A name the collector gives to a text it packages: a file below the dist-info directory. */
  predicate Packaged(name: string, dist: string) {
    && |dist| + 1 < |name| && name[..|dist|] == dist && name[|dist|] == '/'
    && name[|name| - 1] != '/'
  }

  lemma {:induction false} TopHasNoSlash(name: string)
    ensures '/' !in Top(name)
  {
    if name != "" && name[0] != '/' {
      TopHasNoSlash(name[1..]);
    }
  }

  lemma PackagedIsBelow(name: string, dist: string)
    requires Packaged(name, dist) && '/' !in dist
    ensures Top(name) == dist
  {
    var rest := name[|dist| + 1..];
    assert name == dist + "/" + rest;
    TopIs(dist, rest);
  }

  lemma DistHasNoSlash(names: set<string>)
    requires OneDist(names)
    ensures '/' !in DistOf(names)
  {
    hide Top, Stem, Version;
    var dist := DistOf(names);
    assert dist in Dists(names);
    var name :| name in names && Top(name) == dist;
    TopHasNoSlash(name);
  }

  /** So whatever texts the collector packages, the wheel it writes verifies. */
  lemma CollectedVerifies(t: Tools, file: string, a: Archive, additions: Archive, metadata: Content)
    requires Distinct(additions) && CanEmbed(t, file, a, additions, metadata)
    requires forall m <- additions :: Packaged(m.name, DistOf(NamesOf(a)))
    ensures var out := EmbeddedWheel(t, file, a, additions, metadata);
            ReportsNothing(t, NamesFor(file, DistOf(NamesOf(out))), out)
  {
    hide EmbeddedWheel, ReportsNothing, Distinct, NamesFor, Files, DistOf, OneDist, Embeddable, Without, Packaged,
         MetadataOf, Top, EndsWith;
    var dist, added := DistOf(NamesOf(a)), JobOf(file, a, additions, metadata).additions;
    EmbeddedVerifies(t, file, a, additions, metadata);
    DistHasNoSlash(NamesOf(a));
    WithoutHas(additions, {NamesFor(file, dist).sbom});
    forall m <- added ensures !m.IsDirectory() && Top(m.name) == dist {
      assert m in additions;
      PackagedIsFile(m, dist);
      PackagedIsBelow(m.name, dist);
    }
  }

  lemma PackagedIsFile(m: Member, dist: string)
    requires Packaged(m.name, dist)
    ensures !m.IsDirectory()
  {
  }

  /** Members that are not replaced are carried over as they are, and an embedded wheel cannot be embedded
      again. */
  lemma EmbeddingKeepsMembers(t: Tools, n: Names, files: Archive, additions: Archive, replacements: Archive)
    requires Given(t, n, files, additions, replacements)
    ensures var out := EmbeddedArchive(t, n, files, additions, replacements);
            && (forall m <- files | m.name !in NamesOf(replacements) && m.name !in n.Excluded() :: m in out)
            && (forall m <- out | m.name !in n.Excluded() && m.name !in NamesOf(additions) ::
                  IsReplaced(replacements, files, m))
            && forall more, others :: !Embeddable(t, n, out, more, others)
  {
    hide EmbeddedArchive, Records, IdsAreUnique, Without, Body;
    var out := EmbeddedArchive(t, n, files, additions, replacements);
    WithoutHas(files, NamesOf(replacements));
    OutNames(t, n, files, additions, replacements);
    BodyNames(t, n, files, additions, replacements);
    forall m <- files | m.name !in NamesOf(replacements) && m.name !in n.Excluded() ensures m in out {
      OutView(t, n, files, additions, replacements, m);
    }
    forall m <- out | m.name !in n.Excluded() && m.name !in NamesOf(additions)
      ensures IsReplaced(replacements, files, m)
    {
      OutView(t, n, files, additions, replacements, m);
      MemberIsNamed(additions, m);
      MemberIsNamed(replacements, m);
    }
    assert n.sbom in NamesOf(out);
  }

  // ---------------------------------------------------------------- a wheel that does not verify

  lemma {:induction false} TopIs(top: string, rest: string)
    requires '/' !in top
    ensures Top(top + "/" + rest) == top
  {
    if top != "" {
      TopIs(top[1..], rest);
      assert (top + "/" + rest)[1..] == top[1..] + "/" + rest;
    }
  }

  lemma {:induction false} VersionIs(name: string, version: string)
    requires '-' !in name
    ensures Version(name + "-" + version) == version
  {
    if name == "" {
      assert (name + "-" + version)[1..] == version;
    } else {
      VersionIs(name[1..], version);
      assert (name + "-" + version)[1..] == name[1..] + "-" + version;
    }
  }

  /** Identifiers that are the names themselves do not collide. */
  lemma NamesAreIds(t: Tools, n: Names, members: Archive)
    requires Distinct(members) && forall name :: t.id(name) == name
    ensures IdsAreUnique(Records(t, n, members))
  {
    hide Records, Distinct;
    RecordsDiffer(t, n, members);
    var files := Records(t, n, members);
    forall i | 0 <= i < |files| ensures files[i].id == files[i].name {
      RecordsFrom(t, n, members, files[i]);
    }
  }

  const NAMES_AS_IDS := Tools(_ => "", _ => "", _ => 0, _ => "", name => name)
  const DIST := "p-1.dist-info"

  function SmallWheel(): Archive { [Member(MetadataOf(DIST), Bytes([]))] }

  function AddedDirectory(): Archive { [Member("x/", Bytes([]))] }

  lemma SmallFiles()
    ensures Files(SmallWheel()) == SmallWheel() && Distinct(SmallWheel()) && Distinct(AddedDirectory())
    ensures Scannable(NAMES_AS_IDS, SmallWheel())
  {
    hide Files, OneDist, NamesOf, MetadataOf;
    var a := SmallWheel();
    SmallIsFile();
    OneDistHere(a);
    FilesOnly(a);
  }

  lemma SmallIsFile()
    ensures !SmallWheel()[0].IsDirectory()
  {
    var name := SmallWheel()[0].name;
    assert name[|name| - 1] == 'A';
  }

  lemma SmallNames(metadata: Content)
    ensures var n := NamesFor("w", DIST);
            && "x/" !in n.Excluded() && "x/" != MetadataOf(DIST)
            && Without(AddedDirectory(), {n.sbom}) == AddedDirectory()
            && NamesOf(SmallWheel()) == NamesOf([Member(MetadataOf(DIST), metadata)]) == {MetadataOf(DIST)}
            && NamesOf(AddedDirectory()) == {"x/"}
  {
    var n := NamesFor("w", DIST);
    assert n.record[0] == 'p' && n.sbom[0] == 'p' && MetadataOf(DIST)[0] == 'p' && "x/"[0] == 'x';
    assert AddedDirectory()[..0] == [];
    NamesAppend([], SmallWheel());
    NamesAppend([], AddedDirectory());
    NamesAppend([], [Member(MetadataOf(DIST), metadata)]);
  }

  lemma SmallEmbeds(metadata: Content)
    ensures CanEmbed(NAMES_AS_IDS, "w", SmallWheel(), AddedDirectory(), metadata)
    ensures JobOf("w", SmallWheel(), AddedDirectory(), metadata).additions == AddedDirectory()
  {
    hide Files, NamesOf, Records, IdsAreUnique, Distinct, Scannable, DistOf, MetadataOf, NamesFor, Without,
         SmallWheel, AddedDirectory, Projected;
    var n, replacements := NamesFor("w", DIST), [Member(MetadataOf(DIST), metadata)];
    SmallFiles();
    SmallNames(metadata);
    SmallDist();
    SpecialNames("w", DIST);
    OneIsDistinct(replacements[0]);
    ProjectedIsDistinct(SmallWheel(), AddedDirectory(), replacements);
    NamesAreIds(NAMES_AS_IDS, n, Projected(SmallWheel(), AddedDirectory(), replacements));
  }

  lemma OneIsDistinct(m: Member)
    ensures Distinct([m])
  {
  }

  lemma SmallDist()
    ensures DistOf(NamesOf(SmallWheel())) == DIST
  {
    OneDistHere(SmallWheel());
  }

  /** A wheel that holds nothing but its metadata, and an added member that is named as a directory: the wheel is
      written, and verification then reports it. */
  lemma AddedDirectoryIsReported(metadata: Content)
    ensures Distinct(AddedDirectory()) && CanEmbed(NAMES_AS_IDS, "w", SmallWheel(), AddedDirectory(), metadata)
    ensures var out := EmbeddedWheel(NAMES_AS_IDS, "w", SmallWheel(), AddedDirectory(), metadata);
            !ReportsNothing(NAMES_AS_IDS, NamesFor("w", DistOf(NamesOf(out))), out)
  {
    hide EmbeddedWheel, ReportsNothing, CanEmbed, JobOf, Distinct, SmallWheel, DistOf, NamesOf, NamesFor, Dists;
    SmallFiles();
    SmallEmbeds(metadata);
    EmbeddedVerifies(NAMES_AS_IDS, "w", SmallWheel(), AddedDirectory(), metadata);
    assert AddedDirectory()[0].IsDirectory() && AddedDirectory()[0] in AddedDirectory();
  }

  lemma OneDistHere(a: Archive)
    requires a == [Member(MetadataOf(DIST), Bytes([]))]
    ensures OneDist(NamesOf(a)) && DistOf(NamesOf(a)) == DIST
  {
    hide Dists, DistOf, NamesOf, Version, Stem, MetadataOf;
    assert NamesOf(a) == {MetadataOf(DIST)} by {
      NamesAppend([], a);
    }
    DistsOfMetadata();
    HasVersion();
    DistIs(NamesOf(a), DIST);
  }

  lemma DistsOfMetadata()
    ensures Dists({MetadataOf(DIST)}) == {DIST}
  {
    hide Top;
    var name := MetadataOf(DIST);
    assert name == "p-1" + METADATA_END;
    assert name == DIST + "/" + "METADATA";
    TopIs(DIST, "METADATA");
  }

  lemma HasVersion()
    ensures Version(Stem(DIST)) != ""
  {
    hide Version;
    assert DIST == "p-1" + ".dist-info" && Stem(DIST) == "p-1";
    assert "p-1" == "p" + "-" + "1";
    VersionIs("p", "1");
  }
}
