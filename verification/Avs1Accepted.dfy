/** What an accepted AVS1 record guarantees, and when encoding gives the very same bytes back. */
module Avs1Accepted {
  import opened Options
  import opened WireBytes
  import opened RangeTiling
  import opened Avs1Wire
  import opened Avs1RoundTrip
  import Avs1Parser
  import Avs1Layout

  // ---------------------------------------------------------------- tables

  lemma RowsPartition(rows: seq<StreamRow>, j: nat)
    requires j < FirstSample(rows, |rows|)
    ensures exists i, camera :: IsSampleOf(rows, i, camera, j)
    ensures forall i, camera, i', camera' :: IsSampleOf(rows, i, camera, j) && IsSampleOf(rows, i', camera', j)
                                             ==> i == i' && camera == camera'
  {
    hide FirstSample;
    var i, camera := Avs1Parser.SampleHasStream(rows, |rows|, j);
    assert IsSampleOf(rows, i, camera, j);
    forall a: nat, x: nat, b: nat, y: nat | IsSampleOf(rows, a, x, j) && IsSampleOf(rows, b, y, j)
      ensures a == b && x == y
    {
      Avs1Parser.FirstSampleSteps(rows, a);
      Avs1Parser.FirstSampleSteps(rows, b);
      if a < b {
        Avs1Parser.FirstSampleGrows(rows, a + 1, b);
      } else if b < a {
        Avs1Parser.FirstSampleGrows(rows, b + 1, a);
      }
    }
  }

  /** The streams' sample ranges partition the sample table: every row belongs to exactly one camera of
      exactly one stream. */
  lemma SamplesArePartitioned(record: seq<Byte>, j: nat)
    requires Acceptable(record) && j < |RawOf(record).samples|
    ensures var rows := RawOf(record).streams;
            && (exists i, camera :: IsSampleOf(rows, i, camera, j))
            && forall i, camera, i', camera' :: IsSampleOf(rows, i, camera, j) && IsSampleOf(rows, i', camera', j)
                                                ==> i == i' && camera == camera'
  {
    hide HeaderAt, UnpackStream, UnpackSample, FirstSample, IsSampleOf, SamplesOk, Tiles, RangesOf, StreamRowOk;
    RowsPartition(RawOf(record).streams, j);
  }

  predicate IsSampleOf(rows: seq<StreamRow>, i: nat, camera: nat, j: nat) {
    i < |rows| && camera < rows[i].sampleCount && FirstSample(rows, i) + camera == j
  }

  /** Every byte of the payload area belongs to exactly one sample's payload range, and the ranges do not
      overlap. */
  lemma PayloadIsTiled(record: seq<Byte>)
    requires Acceptable(record)
    ensures var ranges, size := RangesOf(RawOf(record).samples), HeaderAt(record).payloadBytes;
            && |RawOf(record).payload| == size
            && (forall p: nat | p < size :: CoverCount(ranges, p) == 1)
            && TotalLength(ranges) == size
            && forall i, j, p: nat | 0 <= i < j < |ranges| && ranges[i].Covers(p) :: !ranges[j].Covers(p)
  {
    hide HeaderAt, UnpackStream, UnpackSample, CoverCount;
    var raw := RawOf(record);
    var ranges, size := RangesOf(raw.samples), HeaderAt(record).payloadBytes;
    Avs1Parser.RangesAreNonEmpty(raw.samples);
    ScanDecidesTiling(ranges, size);
    forall i, j, p: nat | 0 <= i < j < |ranges| && ranges[i].Covers(p) ensures !ranges[j].Covers(p) {
      TilesAreDisjoint(ranges, size, i, j, p);
    }
  }

  // ---------------------------------------------------------------- accepted records are well formed

  lemma SamplesOfStream(raw: Raw, i: nat)
    requires i < |raw.streams| && FirstSample(raw.streams, i) + raw.streams[i].sampleCount <= |raw.samples|
    ensures var samples := BundleOf(raw).streams[i].samples;
            && |samples| == raw.streams[i].sampleCount
            && forall camera | 0 <= camera < |samples| ::
                 samples[camera] == SampleOf(raw.samples[FirstSample(raw.streams, i) + camera], raw.payload)
  {
    hide FirstSample, SampleOf, ClockOf;
  }

  /** The samples of the parsed bundle are the rows of the table, in order. */
  lemma {:induction false} FlatOfBundle(raw: Raw, n: nat)
    requires n <= |raw.streams| && FirstSample(raw.streams, n) <= |raw.samples|
    ensures |BundleOf(raw).streams| == |raw.streams|
    ensures |Flat(BundleOf(raw).streams[..n])| == FirstSample(raw.streams, n)
    ensures forall j | 0 <= j < FirstSample(raw.streams, n) ::
              Flat(BundleOf(raw).streams[..n])[j] == SampleOf(raw.samples[j], raw.payload)
  {
    hide FirstSample, SampleOf, StreamOf, ClockOf, Flat;
    Avs1Parser.FirstSampleStarts(raw.streams);
    var streams := BundleOf(raw).streams;
    if n == 0 {
      NoneFlat(streams);
    } else {
      Avs1Parser.FirstSampleSteps(raw.streams, n - 1);
      FlatOfBundle(raw, n - 1);
      SamplesOfStream(raw, n - 1);
      hide BundleOf;
      FlatSteps(streams, n - 1);
    }
  }

  lemma NoneFlat(streams: seq<Stream>)
    ensures Flat(streams[..0]) == []
  {
  }

  lemma FlatSteps(streams: seq<Stream>, n: nat)
    requires n < |streams|
    ensures Flat(streams[..n + 1]) == Flat(streams[..n]) + streams[n].samples
  {
    assert streams[..n + 1][..n] == streams[..n] && streams[..n + 1][n] == streams[n];
  }

  /** Ranges only depend on offsets and lengths. */
  lemma {:induction false} RangesAgree(a: seq<SampleRow>, b: seq<SampleRow>)
    requires |a| == |b|
    requires forall j | 0 <= j < |a| ::
               a[j].payloadOffset == b[j].payloadOffset && a[j].payloadLength == b[j].payloadLength
    ensures RangesOf(a) == RangesOf(b)
  {
    if a != [] {
      RangesAgree(a[..|a| - 1], b[..|b| - 1]);
    }
  }

  /** The rows of an accepted record of `size` bytes. */
  ghost predicate Accepted(raw: Raw, size: nat) {
    && HeaderOk(raw.header, size) && RawOk(raw) && Avs1Layout.RawFits(raw)
    && |raw.payload| == raw.header.payloadBytes
  }

  lemma RowsOfAccepted(record: seq<Byte>)
    requires Acceptable(record)
    ensures Accepted(RawOf(record), |record|) && Avs1Layout.Serialize(RawOf(record)) == record
  {
    hide HeaderAt, HeaderOk, RawOf, RawOk, Avs1Layout.RawFits, Avs1Layout.Serialize;
    Avs1Parser.HeaderFixesSizes(record);
    Avs1Layout.SerializeOfRaw(record);
    HeaderOfRaw(record);
  }

  lemma HeaderOfRaw(record: seq<Byte>)
    requires HEADER_SIZE <= |record|
    requires var h := HeaderAt(record); HEADER_SIZE + DescriptorBytes(h.streamCount, h.sampleCount) <= |record|
    ensures RawOf(record).header == HeaderAt(record)
  {
    hide HeaderAt, UnpackStream, UnpackSample;
  }

  lemma FlatOfAccepted(raw: Raw)
    requires RawOk(raw)
    ensures var flat := Flat(BundleOf(raw).streams);
            && |flat| == |raw.samples|
            && (forall j | 0 <= j < |flat| :: flat[j] == SampleOf(raw.samples[j], raw.payload))
            && RangesOf(SampleRowsFrom(flat)) == RangesOf(raw.samples)
            && PayloadSize(flat) == raw.header.payloadBytes
  {
    hide FirstSample, RangesOf, Flat, PayloadSize, SamplesOk, Tiles, StreamOf, ClockOf, StreamRowOk;
    var b, n := BundleOf(raw), |raw.streams|;
    FlatOfBundle(raw, n);
    assert b.streams[..n] == b.streams;
    var flat := Flat(b.streams);
    RangesAgree(SampleRowsFrom(flat), raw.samples);
    Avs1Parser.RangesAreNonEmpty(raw.samples);
    ScanDecidesTiling(RangesOf(raw.samples), raw.header.payloadBytes);
    SizesAgree(flat);
  }

  lemma SampleFieldsFit(row: SampleRow)
    requires Fits(SAMPLE, row.Fields())
    ensures row.device < U32 && row.mode < U32 && row.frameNumber < U64 && row.sofTsc < U64 && row.frameTimestamp < U64
    ensures row.captureReady < U64 && row.processSubmit < U64 && row.processDone < U64
  {
    Limits();
    var f := row.Fields();
    assert f[5] < Limit(SAMPLE[5]) && f[6] < Limit(SAMPLE[6]) && f[7] < Limit(SAMPLE[7]) && f[8] < Limit(SAMPLE[8]);
    assert f[9] < Limit(SAMPLE[9]) && f[10] < Limit(SAMPLE[10]) && f[11] < Limit(SAMPLE[11])
           && f[12] < Limit(SAMPLE[12]);
  }

  lemma StreamFieldsFit(row: StreamRow)
    requires Fits(STREAM, row.Fields())
    ensures row.width < U32 && row.height < U32 && row.fpsNumerator < U32 && row.fpsDenominator < U32
    ensures row.sequence < U64
  {
    Limits();
    var f := row.Fields();
    assert f[5] < Limit(STREAM[5]) && f[6] < Limit(STREAM[6]) && f[7] < Limit(STREAM[7]) && f[8] < Limit(STREAM[8]);
    assert f[9] < Limit(STREAM[9]);
  }

  lemma HeaderFieldsFit(h: Header)
    requires Fits(HEADER, h.Fields())
    ensures h.streamCount < U16 && h.sampleCount < U16 && h.sequence < U64 && h.session < U64
    ensures h.captureReady < U64 && h.tcpEnqueue < U64 && h.payloadBytes < U32 && h.captureReadyTsc < U64
  {
    Limits();
    var f := h.Fields();
    assert f[4] < Limit(HEADER[4]) && f[5] < Limit(HEADER[5]) && f[6] < Limit(HEADER[6]) && f[7] < Limit(HEADER[7]);
    assert f[8] < Limit(HEADER[8]) && f[9] < Limit(HEADER[9]) && f[11] < Limit(HEADER[11]) && f[12] < Limit(HEADER[12]);
  }

  lemma SampleOfIsWellFormed(row: SampleRow, stream: Stream, streamRow: StreamRow, i: nat, camera: nat, area: seq<Byte>)
    requires SampleRowOk(row, streamRow, i, camera, |area|) && Fits(SAMPLE, row.Fields())
    requires stream.flags == streamRow.flags && stream.codec == streamRow.codec
    requires stream.width == streamRow.width && stream.height == streamRow.height
    ensures SampleWellFormed(SampleOf(row, area), stream, i, camera, |area|)
  {
    hide Fits;
    SampleFieldsFit(row);
  }

  lemma StreamOfIsWellFormed(raw: Raw, i: nat)
    requires StreamsOk(raw) && SamplesOk(raw) && Avs1Layout.RawFits(raw) && i < |raw.streams|
    requires |raw.payload| == raw.header.payloadBytes
    ensures StreamWellFormed(StreamOf(raw, i), i, raw.header.payloadBytes)
  {
    hide Fits, SampleRowOk, SampleOf, SampleWellFormed, FirstSample;
    var x := StreamOf(raw, i);
    StreamFieldsFit(raw.streams[i]);
    assert StreamRowOk(raw.streams[i], i, FirstSample(raw.streams, i));
    forall camera | 0 <= camera < |x.samples|
      ensures SampleWellFormed(x.samples[camera], x, i, camera, raw.header.payloadBytes)
    {
      assert SampleOkAt(raw, i, camera);
      SampleOfIsWellFormed(raw.samples[FirstSample(raw.streams, i) + camera], x, raw.streams[i], i, camera,
                           raw.payload);
    }
  }

  lemma HeaderOfAccepted(raw: Raw, size: nat)
    requires HeaderOk(raw.header, size) && Fits(HEADER, raw.header.Fields()) && raw.header.streamCount == |raw.streams|
    ensures var b := BundleOf(raw);
            && b.flags < 8 && 0 < b.sequence < U64 && 0 < b.session < U64
            && (Has(b.flags, SENDER_CLOCK_TAI) ==> Has(b.flags, SENDER_CLOCK_VALID))
            && (Has(b.flags, SENDER_TSC_VALID) ==> Has(b.flags, SENDER_CLOCK_VALID))
            && Stamp(b.captureReady, Has(b.flags, SENDER_CLOCK_VALID))
            && Stamp(b.tcpEnqueue, Has(b.flags, SENDER_CLOCK_VALID))
            && Stamp(b.captureReadyTsc, Has(b.flags, SENDER_TSC_VALID)) && b.captureReadyTsc != Some(0)
            && b.clock == ClockOf(b.flags)
            && 0 < |b.streams| < U16 && raw.header.sampleCount < U16 && raw.header.payloadBytes < U32
  {
    hide Fits, Has, StreamOf;
    HeaderFieldsFit(raw.header);
  }

  lemma StreamsOfBundle(raw: Raw)
    ensures |BundleOf(raw).streams| == |raw.streams|
    ensures forall i | 0 <= i < |raw.streams| :: BundleOf(raw).streams[i] == StreamOf(raw, i)
  {
    hide StreamOf, ClockOf, Has;
  }

  lemma RowsMeanWellFormed(raw: Raw, size: nat)
    requires Accepted(raw, size)
    ensures WellFormed(BundleOf(raw))
  {
    hide HeaderOk, FirstSample, RangesOf, Flat, PayloadSize, StreamsOk, SamplesOk, Tiles, StreamOf, BundleOf, Has,
         Stamp, ClockOf, Fits, StreamWellFormed, SampleOf;
    FlatOfAccepted(raw);
    HeaderOfAccepted(raw, size);
    StreamsOfBundle(raw);
    forall i | 0 <= i < |raw.streams| ensures StreamWellFormed(StreamOf(raw, i), i, raw.header.payloadBytes) {
      StreamOfIsWellFormed(raw, i);
    }
  }

  /** Every accepted record means a well-formed bundle, and parsing, encoding and parsing again gives that
      bundle. */
  lemma ParseEncodeParse(record: seq<Byte>)
    requires Acceptable(record)
    ensures var b := BundleOf(RawOf(record)); WellFormed(b) && Acceptable(Encode(b)) && BundleOf(RawOf(Encode(b))) == b
  {
    hide BundleOf, RawOf, HeaderOk, HeaderAt, RawOk, Encode, WellFormed, Accepted;
    Avs1Parser.HeaderFixesSizes(record);
    RowsOfAccepted(record);
    RowsMeanWellFormed(RawOf(record), |record|);
    EncodeThenParse(BundleOf(RawOf(record)));
  }

  // ---------------------------------------------------------------- canonical records

  /** Fields that the flags declare absent are zero. */
  predicate SampleIsCanonical(row: SampleRow) {
    && (!Has(row.flags, SOF_TSC_VALID) ==> row.sofTsc == 0)
    && (!Has(row.flags, FRAME_TIMESTAMP_VALID) ==> row.frameTimestamp == 0)
    && (!Has(row.flags, SENDER_TIMING_VALID)
        ==> row.captureReady == 0 && row.processSubmit == 0 && row.processDone == 0)
  }

  predicate HeaderIsCanonical(h: Header) {
    !Has(h.flags, SENDER_CLOCK_VALID) ==> h.captureReady == 0 && h.tcpEnqueue == 0
  }

  predicate Canonical(raw: Raw) {
    HeaderIsCanonical(raw.header) && forall j | 0 <= j < |raw.samples| :: SampleIsCanonical(raw.samples[j])
  }

  lemma SampleRowReads(row: SampleRow, area: seq<Byte>)
    requires row.reserved == 0
    ensures SampleRowFrom(SampleOf(row, area)) == row <==> SampleIsCanonical(row)
  {
  }

  lemma HeaderReads(raw: Raw, size: nat)
    requires HeaderOk(raw.header, size) && Avs1Layout.RawFits(raw)
    requires |Flat(BundleOf(raw).streams)| == |raw.samples|
    requires PayloadSize(Flat(BundleOf(raw).streams)) == raw.header.payloadBytes
    ensures RawFrom(BundleOf(raw)).header == raw.header <==> HeaderIsCanonical(raw.header)
  {
    hide Fits, StreamOf, Flat, PayloadSize, FirstOf, Area, SampleRowsFrom;
  }

  lemma {:induction false} ByteReads(samples: seq<Sample>, area: seq<Byte>, p: nat)
    requires forall k | 0 <= k < |samples| ::
               && samples[k].payloadOffset + samples[k].payloadLength <= |area|
               && samples[k].payload == Slice(area, samples[k].payloadOffset, samples[k].payloadLength)
    requires 0 < CoverCount(RangesOf(SampleRowsFrom(samples)), p)
    ensures p < |area| && ByteAt(samples, p) == area[p]
  {
    hide RangesOf, CoverCount, SampleRowsFrom;
    NothingIsCovered(p);
    if samples != [] {
      RangesStep(samples, p);
      if !SampleCovers(samples[|samples| - 1], p) {
        ByteReads(samples[..|samples| - 1], area, p);
      }
    }
  }

  lemma NothingIsCovered(p: nat)
    ensures CoverCount(RangesOf(SampleRowsFrom([])), p) == 0
  {
    assert SampleRowsFrom([]) == [];
  }

  lemma RowInPayload(raw: Raw, j: nat)
    requires RawOk(raw) && j < |raw.samples|
    ensures raw.samples[j].reserved == 0
    ensures raw.samples[j].payloadOffset + raw.samples[j].payloadLength <= raw.header.payloadBytes
  {
    hide FirstSample, Tiles, RangesOf, StreamRowOk;
    var i, camera := Avs1Parser.SampleHasStream(raw.streams, |raw.streams|, j);
    assert SampleOkAt(raw, i, camera);
  }

  lemma PayloadReads(raw: Raw)
    requires RawOk(raw) && |raw.payload| == raw.header.payloadBytes
    ensures RawFrom(BundleOf(raw)).payload == raw.payload
  {
    hide RangesOf, Flat, PayloadSize, StreamsOk, SamplesOk, BundleOf, FirstOf, ByteAt, SampleRowsFrom, CoverCount;
    FlatOfAccepted(raw);
    var flat := Flat(BundleOf(raw).streams);
    forall k | 0 <= k < |flat|
      ensures && flat[k].payloadOffset + flat[k].payloadLength <= |raw.payload|
              && flat[k].payload == Slice(raw.payload, flat[k].payloadOffset, flat[k].payloadLength)
    {
      RowInPayload(raw, k);
    }
    forall p: nat | p < |raw.payload| ensures ByteAt(flat, p) == raw.payload[p] {
      assert CoverCount(RangesOf(raw.samples), p) == 1;
      ByteReads(flat, raw.payload, p);
    }
  }

  lemma StreamRowsRead(raw: Raw)
    requires RawOk(raw)
    ensures RawFrom(BundleOf(raw)).streams == raw.streams
  {
    hide RangesOf, Flat, PayloadSize, SamplesOk, Tiles, FirstSample, BundleOf, Area, SampleRowsFrom, Has;
    StreamsOfBundle(raw);
    var out := RawFrom(BundleOf(raw));
    forall i | 0 <= i < |raw.streams| ensures out.streams[i] == raw.streams[i] {
      assert StreamRowOk(raw.streams[i], i, FirstSample(raw.streams, i));
      Avs1Parser.FirstSampleGrows(raw.streams, i, |raw.streams|);
      FlatOfBundle(raw, i);
    }
  }

  lemma SampleRowsRead(raw: Raw)
    requires RawOk(raw)
    ensures RawFrom(BundleOf(raw)).samples == raw.samples
            <==> forall j | 0 <= j < |raw.samples| :: SampleIsCanonical(raw.samples[j])
  {
    hide RangesOf, Flat, PayloadSize, SamplesOk, StreamsOk, Tiles, BundleOf, Area, FirstOf, SampleOf, SampleRowFrom,
         SampleIsCanonical;
    FlatOfAccepted(raw);
    var out := RawFrom(BundleOf(raw)).samples;
    forall j | 0 <= j < |raw.samples| ensures out[j] == raw.samples[j] <==> SampleIsCanonical(raw.samples[j]) {
      RowInPayload(raw, j);
      SampleRowReads(raw.samples[j], raw.payload);
    }
  }

  lemma RowsReadBack(raw: Raw, size: nat)
    requires Accepted(raw, size)
    ensures RawFrom(BundleOf(raw)) == raw <==> Canonical(raw)
  {
    hide HeaderOk, RawOk, Avs1Layout.RawFits, RawFrom, BundleOf, Flat, PayloadSize, HeaderIsCanonical,
         SampleIsCanonical;
    FlatOfAccepted(raw);
    HeaderReads(raw, size);
    StreamRowsRead(raw);
    SampleRowsRead(raw);
    PayloadReads(raw);
  }

  /** Encoding what an accepted record means gives the same bytes back exactly if every field that the
      record's own flags declare absent is zero: the parser reads no other byte loosely. */
  lemma EncodingIsCanonical(record: seq<Byte>)
    requires Acceptable(record)
    ensures Encode(BundleOf(RawOf(record))) == record <==> Canonical(RawOf(record))
  {
    hide BundleOf, RawOf, HeaderOk, HeaderAt, RawOk, RawFrom, WellFormed, Accepted, Canonical, Avs1Layout.Serialize,
         Avs1Layout.RawFits;
    Avs1Parser.HeaderFixesSizes(record);
    RowsOfAccepted(record);
    var raw := RawOf(record);
    RowsMeanWellFormed(raw, |record|);
    RowsReadBack(raw, |record|);
    RawFromFits(BundleOf(raw));
    Avs1Layout.RawOfSerialize(RawFrom(BundleOf(raw)));
  }

  // ---------------------------------------------------------------- a record that is not canonical

  /** One absent stream and nothing else, but a capture time although the flags declare that there is none. */
  function StrayRows(): Raw {
    Raw(Header(MAGIC, VERSION, 0, HEADER_SIZE, 1, 1, 1, 1, 7, 0, DescriptorBytes(1, 1), 0, 0),
        [ABSENT_STREAM], [ABSENT_SAMPLE], [])
  }

  const ABSENT_STREAM := StreamRow(0, 0, CODEC_HEVC, PIXEL_FORMAT_NV12, 0, 2, 2, 0, 1, 0, 0, 1, 0)
  const ABSENT_SAMPLE := SampleRow(0, 0, ROLE_MONO, 0, 0, 0, 0, 0, 0, 0, 0, 0, 0, 0, 0)

  lemma StrayRowsFit()
    ensures Avs1Layout.RawFits(StrayRows())
  {
    Limits();
    hide Limit;
    var raw := StrayRows();
    assert Fits(HEADER, raw.header.Fields());
    assert Fits(STREAM, raw.streams[0].Fields());
    assert Fits(SAMPLE, raw.samples[0].Fields());
  }

  lemma AbsentRowsAreOk()
    ensures StreamRowOk(ABSENT_STREAM, 0, 0) && ABSENT_STREAM.sampleCount == 1
    ensures SampleRowOk(ABSENT_SAMPLE, ABSENT_STREAM, 0, 0, 0)
  {
  }

  lemma OneStream(row: StreamRow)
    ensures FirstSample([row], 0) == 0 && FirstSample([row], 1) == row.sampleCount
  {
  }

  lemma StrayRangesTile()
    ensures Tiles(RangesOf(StrayRows().samples), 0)
  {
    var samples := StrayRows().samples;
    assert samples[..0] == [] && RangesOf(samples) == [];
  }

  lemma StrayRowsAreOk()
    ensures RawOk(StrayRows())
  {
    hide FirstSample, StreamRowOk, SampleRowOk, Tiles, RangesOf;
    AbsentRowsAreOk();
    OneStream(ABSENT_STREAM);
    StrayRangesTile();
    var raw := StrayRows();
    assert raw.streams[0] == ABSENT_STREAM && raw.samples[0] == ABSENT_SAMPLE;
    assert |raw.streams| == 1 && |raw.samples| == 1 && raw.header.payloadBytes == 0;
    assert SampleOkAt(raw, 0, 0);
  }

  lemma StrayHeader()
    ensures var raw := StrayRows();
            && HeaderOk(raw.header,
                        HEADER_SIZE + STREAM_SIZE * |raw.streams| + SAMPLE_SIZE * |raw.samples| + |raw.payload|)
            && !Canonical(raw)
  {
    assert !Has(0, SENDER_CLOCK_VALID) && !Has(0, SENDER_CLOCK_TAI) && !Has(0, SENDER_TSC_VALID);
  }

  lemma StrayRecord()
    ensures var record := Avs1Layout.Serialize(StrayRows()); Acceptable(record) && RawOf(record) == StrayRows()
  {
    hide Avs1Layout.Serialize, HeaderAt, HeaderOk, RawOf, RawOk, StrayRows, Avs1Layout.RawFits;
    StrayRowsFit();
    StrayRowsAreOk();
    StrayHeader();
    Avs1Layout.RawOfSerialize(StrayRows());
    SerializedSize(StrayRows());
  }

  lemma SerializedSize(raw: Raw)
    ensures |Avs1Layout.Serialize(raw)|
            == HEADER_SIZE + STREAM_SIZE * |raw.streams| + SAMPLE_SIZE * |raw.samples| + |raw.payload|
  {
    hide Avs1Layout.Serialize, Pack;
    Avs1Layout.Sections(raw);
  }

  /** A record that carries a value in a field its flags declare absent is accepted, and encoding what it means does
      not give it back. */
  lemma StrayValueIsAccepted()
    ensures var record := Avs1Layout.Serialize(StrayRows());
            Acceptable(record) && Encode(BundleOf(RawOf(record))) != record
  {
    hide Avs1Layout.Serialize, Acceptable, HeaderAt, RawOf, Encode, BundleOf, Canonical, StrayRows, HeaderOk;
    StrayRecord();
    StrayHeader();
    EncodingIsCanonical(Avs1Layout.Serialize(StrayRows()));
  }
}
