/** Writing a record from its rows, and reading the rows back: the byte layer of the encoder. */
module Avs1Layout {
  import opened WireBytes
  import opened Avs1Wire
  import opened Arithmetic

  // ---------------------------------------------------------------- tables of rows

  function PackRows(layout: Layout, rows: seq<seq<nat>>): (bytes: seq<Byte>)
    requires forall i | 0 <= i < |rows| :: |rows[i]| == |layout|
    ensures |bytes| == Size(layout) * |rows|
  {
    if rows == [] then []
    else
      var n := |rows| - 1;
      assert Size(layout) * (n + 1) == Size(layout) * n + Size(layout);
      PackRows(layout, rows[..n]) + Pack(layout, rows[n])
  }

  lemma {:induction false} RowInTable(layout: Layout, rows: seq<seq<nat>>, i: nat, at: nat)
    requires forall i | 0 <= i < |rows| :: |rows[i]| == |layout|
    requires i < |rows| && at == Size(layout) * i
    ensures at + Size(layout) <= Size(layout) * |rows|
    ensures PackRows(layout, rows)[at..at + Size(layout)] == Pack(layout, rows[i])
  {
    hide Size, Pack;
    var n, k := |rows| - 1, Size(layout);
    MultiplesAreApart(k, n, n + 1);
    assert k * (n + 1) == k * n + k;
    var front := PackRows(layout, rows[..n]);
    assert PackRows(layout, rows) == front + Pack(layout, rows[n]);
    if i < n {
      RowInTable(layout, rows[..n], i, at);
    }
    SliceOfJoined(front, Pack(layout, rows[n]), at, at + k);
  }

  /** A table is determined by its rows. */
  lemma {:induction false} TableIsItsRows(layout: Layout, rows: seq<seq<nat>>, bytes: seq<Byte>)
    requires |bytes| == Size(layout) * |rows|
    requires forall i | 0 <= i < |rows| :: RowIs(layout, rows, bytes, i)
    ensures forall i | 0 <= i < |rows| :: |rows[i]| == |layout|
    ensures PackRows(layout, rows) == bytes
  {
    hide Size, Pack;
    assert forall i | 0 <= i < |rows| :: RowIs(layout, rows, bytes, i) ==> |rows[i]| == |layout|;
    if rows != [] {
      var n, k := |rows| - 1, Size(layout);
      assert k * (n + 1) == k * n + k;
      var shorter := bytes[..k * n];
      forall i | 0 <= i < n ensures RowIs(layout, rows[..n], shorter, i) {
        RowIsInFront(layout, rows, bytes, i);
      }
      TableIsItsRows(layout, rows[..n], shorter);
      assert RowIs(layout, rows, bytes, n);
      assert bytes == shorter + bytes[k * n..k * n + k];
    }
  }

  lemma RowIsInFront(layout: Layout, rows: seq<seq<nat>>, bytes: seq<Byte>, i: nat)
    requires i + 1 < |rows| && |bytes| == Size(layout) * |rows| && RowIs(layout, rows, bytes, i)
    ensures Size(layout) * (|rows| - 1) <= |bytes|
    ensures RowIs(layout, rows[..|rows| - 1], bytes[..Size(layout) * (|rows| - 1)], i)
  {
    hide Size, Pack;
    var n, k := |rows| - 1, Size(layout);
    MultiplesAreApart(k, n, n + 1);
    MultiplesAreApart(k, i, n);
    SliceOfFront(bytes, k * i, k * i + k, k * n);
  }

  lemma SliceOfFront(bytes: seq<Byte>, begin: nat, end: nat, cut: nat)
    requires begin <= end <= cut <= |bytes|
    ensures bytes[..cut][begin..end] == bytes[begin..end]
  {
  }

  lemma SliceOfJoined(front: seq<Byte>, last: seq<Byte>, begin: nat, end: nat)
    requires begin <= end
    ensures end <= |front| ==> (front + last)[begin..end] == front[begin..end]
    ensures begin == |front| && end == |front| + |last| ==> (front + last)[begin..end] == last
  {
  }

  predicate RowIs(layout: Layout, rows: seq<seq<nat>>, bytes: seq<Byte>, i: nat)
    requires i < |rows|
  {
    var at := Size(layout) * i;
    |rows[i]| == |layout| && at + Size(layout) <= |bytes| && bytes[at..at + Size(layout)] == Pack(layout, rows[i])
  }

  // ---------------------------------------------------------------- records

  function StreamFields(rows: seq<StreamRow>): (f: seq<seq<nat>>)
    ensures |f| == |rows| && forall i | 0 <= i < |f| :: |f[i]| == |STREAM| && f[i] == rows[i].Fields()
  {
    seq(|rows|, i requires 0 <= i < |rows| => rows[i].Fields())
  }

  function SampleFields(rows: seq<SampleRow>): (f: seq<seq<nat>>)
    ensures |f| == |rows| && forall j | 0 <= j < |f| :: |f[j]| == |SAMPLE| && f[j] == rows[j].Fields()
  {
    seq(|rows|, j requires 0 <= j < |rows| => rows[j].Fields())
  }

  function Serialize(raw: Raw): seq<Byte> {
    Pack(HEADER, raw.header.Fields()) + PackRows(STREAM, StreamFields(raw.streams))
    + PackRows(SAMPLE, SampleFields(raw.samples)) + raw.payload
  }

  predicate RawFits(raw: Raw) {
    && Fits(HEADER, raw.header.Fields())
    && (forall i | 0 <= i < |raw.streams| :: Fits(STREAM, raw.streams[i].Fields()))
    && (forall j | 0 <= j < |raw.samples| :: Fits(SAMPLE, raw.samples[j].Fields()))
    && raw.header.streamCount == |raw.streams| && raw.header.sampleCount == |raw.samples|
  }

  lemma HeaderRoundTrip(h: Header, bytes: seq<Byte>)
    requires Fits(HEADER, h.Fields()) && HEADER_SIZE <= |bytes|
    requires bytes[..HEADER_SIZE] == Pack(HEADER, h.Fields())
    ensures HeaderAt(bytes) == h
  {
    hide Unpack, Pack, Size, Fits;
    UnpackOfPack(HEADER, h.Fields());
  }

  lemma StreamRoundTrip(row: StreamRow, bytes: seq<Byte>, offset: nat)
    requires Fits(STREAM, row.Fields()) && offset + STREAM_SIZE <= |bytes|
    requires bytes[offset..offset + STREAM_SIZE] == Pack(STREAM, row.Fields())
    ensures UnpackStream(bytes, offset) == row
  {
    hide Unpack, Pack, Size, Fits;
    UnpackOfPack(STREAM, row.Fields());
  }

  lemma SampleRoundTrip(row: SampleRow, bytes: seq<Byte>, offset: nat)
    requires Fits(SAMPLE, row.Fields()) && offset + SAMPLE_SIZE <= |bytes|
    requires bytes[offset..offset + SAMPLE_SIZE] == Pack(SAMPLE, row.Fields())
    ensures UnpackSample(bytes, offset) == row
  {
    hide Unpack, Pack, Size, Fits;
    UnpackOfPack(SAMPLE, row.Fields());
  }

  /** The sections of a serialized record. */
  lemma Sections(raw: Raw)
    ensures var bytes, n, m := Serialize(raw), |raw.streams|, |raw.samples|;
            && |bytes| == HEADER_SIZE + STREAM_SIZE * n + SAMPLE_SIZE * m + |raw.payload|
            && bytes[..HEADER_SIZE] == Pack(HEADER, raw.header.Fields())
            && bytes[HEADER_SIZE..HEADER_SIZE + STREAM_SIZE * n] == PackRows(STREAM, StreamFields(raw.streams))
            && bytes[HEADER_SIZE + STREAM_SIZE * n..HEADER_SIZE + STREAM_SIZE * n + SAMPLE_SIZE * m]
               == PackRows(SAMPLE, SampleFields(raw.samples))
            && bytes[HEADER_SIZE + STREAM_SIZE * n + SAMPLE_SIZE * m..] == raw.payload
  {
    hide Pack, PackRows, Size;
    HeaderSize();
    StreamSize();
    SampleSize();
  }

  lemma SubSlice(s: seq<Byte>, a: nat, b: nat, i: nat, j: nat)
    requires a <= b <= |s| && i <= j <= b - a
    ensures s[a..b][i..j] == s[a + i..a + j]
  {
    var t := s[a..b];
    assert forall k | 0 <= k < j - i :: t[i..j][k] == t[i + k] == s[a + i + k] == s[a + i..a + j][k];
  }

  lemma StreamReads(raw: Raw, i: nat)
    requires RawFits(raw) && i < |raw.streams|
    ensures var bytes, offset := Serialize(raw), HEADER_SIZE + STREAM_SIZE * i;
            offset + STREAM_SIZE <= |bytes| && UnpackStream(bytes, offset) == raw.streams[i]
  {
    hide Pack, PackRows, Size, Fits, Serialize, UnpackStream;
    var bytes, n, at := Serialize(raw), |raw.streams|, STREAM_SIZE * i;
    Sections(raw);
    StreamSize();
    RowInTable(STREAM, StreamFields(raw.streams), i, at);
    SubSlice(bytes, HEADER_SIZE, HEADER_SIZE + STREAM_SIZE * n, at, at + STREAM_SIZE);
    StreamRoundTrip(raw.streams[i], bytes, HEADER_SIZE + at);
  }

  lemma SampleReads(raw: Raw, j: nat)
    requires RawFits(raw) && j < |raw.samples|
    ensures var bytes, offset := Serialize(raw), HEADER_SIZE + STREAM_SIZE * |raw.streams| + SAMPLE_SIZE * j;
            offset + SAMPLE_SIZE <= |bytes| && UnpackSample(bytes, offset) == raw.samples[j]
  {
    hide Pack, PackRows, Size, Fits, Serialize, UnpackSample;
    var bytes, m, at := Serialize(raw), |raw.samples|, SAMPLE_SIZE * j;
    var start := HEADER_SIZE + STREAM_SIZE * |raw.streams|;
    Sections(raw);
    SampleSize();
    RowInTable(SAMPLE, SampleFields(raw.samples), j, at);
    SubSlice(bytes, start, start + SAMPLE_SIZE * m, at, at + SAMPLE_SIZE);
    SampleRoundTrip(raw.samples[j], bytes, start + at);
  }

  /** Reading back a serialized record gives its rows. */
  lemma RawOfSerialize(raw: Raw)
    requires RawFits(raw)
    ensures var bytes := Serialize(raw);
            && HEADER_SIZE <= |bytes| && HeaderAt(bytes) == raw.header
            && HEADER_SIZE + DescriptorBytes(raw.header.streamCount, raw.header.sampleCount) <= |bytes|
            && RawOf(bytes) == raw
  {
    hide Pack, PackRows, Size, Fits, Serialize, HeaderAt, UnpackStream, UnpackSample;
    var bytes := Serialize(raw);
    Sections(raw);
    HeaderRoundTrip(raw.header, bytes);
    var read := RawOf(bytes);
    forall i | 0 <= i < |raw.streams| ensures read.streams[i] == raw.streams[i] {
      StreamReads(raw, i);
    }
    forall j | 0 <= j < |raw.samples| ensures read.samples[j] == raw.samples[j] {
      SampleReads(raw, j);
    }
  }

  // ---------------------------------------------------------------- the other direction

  lemma StreamPacksBack(record: seq<Byte>, offset: nat)
    requires offset + STREAM_SIZE <= |record|
    ensures Pack(STREAM, UnpackStream(record, offset).Fields()) == record[offset..offset + STREAM_SIZE]
    ensures Fits(STREAM, UnpackStream(record, offset).Fields())
  {
    hide Unpack, Pack, Size, Fits;
    StreamSize();
    var f := Unpack(STREAM, record[offset..offset + STREAM_SIZE]);
    assert UnpackStream(record, offset).Fields() == f;
    PackOfUnpack(STREAM, record[offset..offset + STREAM_SIZE]);
    UnpackFits(STREAM, record[offset..offset + STREAM_SIZE]);
  }

  lemma SamplePacksBack(record: seq<Byte>, offset: nat)
    requires offset + SAMPLE_SIZE <= |record|
    ensures Pack(SAMPLE, UnpackSample(record, offset).Fields()) == record[offset..offset + SAMPLE_SIZE]
    ensures Fits(SAMPLE, UnpackSample(record, offset).Fields())
  {
    hide Unpack, Pack, Size, Fits;
    SampleSize();
    var f := Unpack(SAMPLE, record[offset..offset + SAMPLE_SIZE]);
    assert UnpackSample(record, offset).Fields() == f;
    PackOfUnpack(SAMPLE, record[offset..offset + SAMPLE_SIZE]);
    UnpackFits(SAMPLE, record[offset..offset + SAMPLE_SIZE]);
  }

  lemma HeaderPacksBack(record: seq<Byte>)
    requires HEADER_SIZE <= |record|
    ensures Pack(HEADER, HeaderAt(record).Fields()) == record[..HEADER_SIZE]
    ensures Fits(HEADER, HeaderAt(record).Fields())
  {
    hide Unpack, Pack, Size, Fits;
    HeaderSize();
    var f := Unpack(HEADER, record[..HEADER_SIZE]);
    assert HeaderAt(record).Fields() == f;
    PackOfUnpack(HEADER, record[..HEADER_SIZE]);
    UnpackFits(HEADER, record[..HEADER_SIZE]);
  }

  /** The two tables of a record. */
  function StreamTable(record: seq<Byte>, n: nat): seq<Byte>
    requires HEADER_SIZE + STREAM_SIZE * n <= |record|
  {
    record[HEADER_SIZE..HEADER_SIZE + STREAM_SIZE * n]
  }

  function SampleTable(record: seq<Byte>, n: nat, m: nat): seq<Byte>
    requires HEADER_SIZE + STREAM_SIZE * n + SAMPLE_SIZE * m <= |record|
  {
    record[HEADER_SIZE + STREAM_SIZE * n..HEADER_SIZE + STREAM_SIZE * n + SAMPLE_SIZE * m]
  }

  lemma StreamRowPacksBack(record: seq<Byte>, rows: seq<StreamRow>, i: nat)
    requires HEADER_SIZE + STREAM_SIZE * |rows| <= |record| && i < |rows|
    requires rows[i] == UnpackStream(record, HEADER_SIZE + STREAM_SIZE * i)
    ensures RowIs(STREAM, StreamFields(rows), StreamTable(record, |rows|), i) && Fits(STREAM, rows[i].Fields())
  {
    hide Pack, Size, Fits, UnpackStream;
    var at := STREAM_SIZE * i;
    StreamSize();
    StreamPacksBack(record, HEADER_SIZE + at);
    SubSlice(record, HEADER_SIZE, HEADER_SIZE + STREAM_SIZE * |rows|, at, at + STREAM_SIZE);
  }

  lemma SampleRowPacksBack(record: seq<Byte>, n: nat, rows: seq<SampleRow>, j: nat)
    requires HEADER_SIZE + STREAM_SIZE * n + SAMPLE_SIZE * |rows| <= |record| && j < |rows|
    requires rows[j] == UnpackSample(record, HEADER_SIZE + STREAM_SIZE * n + SAMPLE_SIZE * j)
    ensures RowIs(SAMPLE, SampleFields(rows), SampleTable(record, n, |rows|), j) && Fits(SAMPLE, rows[j].Fields())
  {
    hide Pack, Size, Fits, UnpackSample;
    var start, at := HEADER_SIZE + STREAM_SIZE * n, SAMPLE_SIZE * j;
    SampleSize();
    SamplePacksBack(record, start + at);
    SubSlice(record, start, start + SAMPLE_SIZE * |rows|, at, at + SAMPLE_SIZE);
  }

  /** Serializing the rows of a record gives the record. */
  lemma SerializeOfRaw(record: seq<Byte>)
    requires HEADER_SIZE <= |record|
    requires var h := HeaderAt(record); HEADER_SIZE + DescriptorBytes(h.streamCount, h.sampleCount) <= |record|
    ensures Serialize(RawOf(record)) == record && RawFits(RawOf(record))
  {
    hide Pack, Size, Fits, PackRows, HeaderAt, UnpackStream, UnpackSample, RowIs;
    var raw := RawOf(record);
    var n, m := |raw.streams|, |raw.samples|;
    HeaderPacksBack(record);
    StreamSize();
    SampleSize();
    forall i | 0 <= i < n ensures RowIs(STREAM, StreamFields(raw.streams), StreamTable(record, n), i)
                                  && Fits(STREAM, raw.streams[i].Fields()) {
      StreamRowPacksBack(record, raw.streams, i);
    }
    forall j | 0 <= j < m ensures RowIs(SAMPLE, SampleFields(raw.samples), SampleTable(record, n, m), j)
                                  && Fits(SAMPLE, raw.samples[j].Fields()) {
      SampleRowPacksBack(record, n, raw.samples, j);
    }
    TableIsItsRows(STREAM, StreamFields(raw.streams), StreamTable(record, n));
    TableIsItsRows(SAMPLE, SampleFields(raw.samples), SampleTable(record, n, m));
    SectionsJoin(record, n, m);
  }

  lemma SectionsJoin(record: seq<Byte>, n: nat, m: nat)
    requires HEADER_SIZE + STREAM_SIZE * n + SAMPLE_SIZE * m <= |record|
    ensures record[..HEADER_SIZE] + StreamTable(record, n) + SampleTable(record, n, m)
            + record[HEADER_SIZE + DescriptorBytes(n, m)..] == record
  {
    var a, b := HEADER_SIZE + STREAM_SIZE * n, HEADER_SIZE + STREAM_SIZE * n + SAMPLE_SIZE * m;
    assert record[..HEADER_SIZE] + StreamTable(record, n) == record[..a];
    assert record[..a] + SampleTable(record, n, m) == record[..b];
  }
}
