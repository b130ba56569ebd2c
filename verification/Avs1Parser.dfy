/** `parse_avs1_record`: reads the tables row by row and checks them as it goes. */
module Avs1Parser {
  import opened WireBytes
  import opened RangeTiling
  import opened Avs1Wire

  datatype Outcome = Accepted(bundle: Bundle) | Rejected(reason: string)

  lemma {:induction false} FirstSampleGrows(rows: seq<StreamRow>, i: nat, j: nat)
    requires i <= j <= |rows|
    ensures FirstSample(rows, i) <= FirstSample(rows, j)
  {
    if i < j {
      FirstSampleGrows(rows, i, j - 1);
    }
  }

  lemma {:induction false} FirstSampleOfPrefix(rows: seq<StreamRow>, longer: seq<StreamRow>, i: nat)
    requires i <= |rows| <= |longer| && rows == longer[..|rows|]
    ensures FirstSample(rows, i) == FirstSample(longer, i)
  {
    if i > 0 {
      FirstSampleOfPrefix(rows, longer, i - 1);
    }
  }

  lemma FirstSampleStarts(rows: seq<StreamRow>)
    ensures FirstSample(rows, 0) == 0
  {
  }

  lemma FirstSampleSteps(rows: seq<StreamRow>, i: nat)
    requires i < |rows|
    ensures FirstSample(rows, i + 1) == FirstSample(rows, i) + rows[i].sampleCount
  {
  }

  /** Every row is in order, and the rows' samples fill the sample table. */
  predicate TableShaped(rows: seq<StreamRow>, sampleCount: nat) {
    && (forall i | 0 <= i < |rows| :: StreamRowShaped(rows[i], i, FirstSample(rows, i)))
    && FirstSample(rows, |rows|) == sampleCount
  }

  /** One stream row, `flatCursor` being where its samples have to start. */
  method CheckStream(row: StreamRow, i: nat, flatCursor: nat) returns (ok: bool)
    ensures ok <==> StreamRowShaped(row, i, flatCursor)
  {
    if row.index != i || row.reserved != 0 {
      return false;
    }
    if row.flags >= 4 {
      return false;
    }
    if row.codec != CODEC_RAW_NV12 && row.codec != CODEC_HEVC {
      return false;
    }
    if row.pixelFormat != PIXEL_FORMAT_NV12 {
      return false;
    }
    if row.rotation != 0 && row.rotation != 180 {
      return false;
    }
    if row.width <= 0 || row.height <= 0 || row.width % 2 != 0 || row.height % 2 != 0 {
      return false;
    }
    var expected := if Has(row.flags, STREAM_STEREO) then 2 else 1;
    if row.sampleCount != expected {
      return false;
    }
    if row.firstSample != flatCursor {
      return false;
    }
    if Has(row.flags, STREAM_PRESENT) {
      if row.sequence == 0 {
        return false;
      }
    } else if row.sequence != 0 {
      return false;
    }
    ok := true;
  }

  /** The stream table: rows in order, their sample ranges contiguous and filling the sample table. */
  method ReadStreams(record: seq<Byte>, h: Header) returns (ok: bool, rows: seq<StreamRow>, offset: nat)
    requires HEADER_SIZE <= |record| && h == HeaderAt(record) && HeaderOk(h, |record|)
    ensures ok <==> TableShaped(RawOf(record).streams, h.sampleCount)
    ensures ok ==> rows == RawOf(record).streams && offset == HEADER_SIZE + STREAM_SIZE * h.streamCount
  {
    hide UnpackStream, UnpackSample, HeaderAt, HeaderOf, StreamRowShaped, FirstSample;
    ghost var all := RawOf(record).streams;
    FirstSampleStarts(all);
    offset, rows := h.headerBytes, [];
    var flatCursor := 0;
    for i := 0 to h.streamCount
      invariant offset == HEADER_SIZE + STREAM_SIZE * i
      invariant rows == all[..i] && flatCursor == FirstSample(all, i)
      invariant forall k | 0 <= k < i :: StreamRowShaped(all[k], k, FirstSample(all, k))
    {
      var row := UnpackStream(record, offset);
      assert row == all[i];
      offset := offset + STREAM_SIZE;
      var good := CheckStream(row, i, flatCursor);
      if !good {
        return false, [], 0;
      }
      FirstSampleSteps(all, i);
      flatCursor := flatCursor + row.sampleCount;
      if flatCursor > h.sampleCount {
        FirstSampleGrows(all, i + 1, |all|);
        return false, [], 0;
      }
      rows := rows + [row];
      assert all[..i + 1] == all[..i] + [all[i]];
    }
    assert all[..h.streamCount] == all;
    ok := flatCursor == h.sampleCount;
  }

  /** The sample table. */
  method ReadSamples(record: seq<Byte>, h: Header, start: nat) returns (ok: bool, rows: seq<SampleRow>)
    requires HEADER_SIZE <= |record| && h == HeaderAt(record) && HeaderOk(h, |record|)
    requires start == HEADER_SIZE + STREAM_SIZE * h.streamCount
    ensures ok <==> forall j | 0 <= j < h.sampleCount :: RawOf(record).samples[j].reserved == 0
    ensures ok ==> rows == RawOf(record).samples
  {
    hide UnpackStream, UnpackSample, HeaderAt;
    ghost var all := RawOf(record).samples;
    var offset := start;
    rows := [];
    for j := 0 to h.sampleCount
      invariant offset == start + SAMPLE_SIZE * j
      invariant rows == all[..j] && forall k | 0 <= k < j :: all[k].reserved == 0
    {
      var row := UnpackSample(record, offset);
      assert row == all[j];
      offset := offset + SAMPLE_SIZE;
      if row.reserved != 0 {
        return false, [];
      }
      rows := rows + [row];
      assert all[..j + 1] == all[..j] + [all[j]];
    }
    assert all[..h.sampleCount] == all;
    ok := true;
  }

  /** One sample row against its stream row. */
  method CheckSample(row: SampleRow, stream: StreamRow, i: nat, camera: nat, payloadBytes: nat) returns (ok: bool)
    requires row.reserved == 0
    ensures ok <==> SampleRowOk(row, stream, i, camera, payloadBytes)
  {
    if row.stream != i || row.camera != camera {
      return false;
    }
    var expected := if !Has(stream.flags, STREAM_STEREO) then ROLE_MONO
                    else if camera == 0 then ROLE_LEFT else ROLE_RIGHT;
    if row.role != expected {
      return false;
    }
    if row.flags >= 16 {
      return false;
    }
    var present := Has(row.flags, SAMPLE_PRESENT);
    if present != Has(stream.flags, STREAM_PRESENT) {
      return false;
    }
    if row.payloadOffset + row.payloadLength > payloadBytes {
      return false;
    }
    if present && row.payloadLength == 0 {
      return false;
    }
    if !present && row.payloadLength != 0 {
      return false;
    }
    if stream.codec == CODEC_RAW_NV12 && present {
      if row.payloadLength != stream.width * stream.height * 3 / 2 {
        return false;
      }
    }
    ok := true;
  }

  /** The samples of one stream; `ranges` collects the nonempty payload ranges. */
  method BuildSamples(raw: Raw, i: nat, before: seq<Range>) returns (ok: bool, samples: seq<Sample>, ranges: seq<Range>)
    requires i < |raw.streams| && TableShaped(raw.streams, |raw.samples|) && |raw.payload| == raw.header.payloadBytes
    requires forall j | 0 <= j < |raw.samples| :: raw.samples[j].reserved == 0
    requires FirstSample(raw.streams, i + 1) <= |raw.samples|
    requires before == RangesOf(raw.samples[..FirstSample(raw.streams, i)])
    ensures ok <==> forall camera | 0 <= camera < raw.streams[i].sampleCount :: SampleOkAt(raw, i, camera)
    ensures ok ==> samples == StreamOf(raw, i).samples
    ensures ok ==> ranges == RangesOf(raw.samples[..FirstSample(raw.streams, i + 1)])
  {
    hide StreamRowShaped, SampleRowOk, FirstSample, RangesOf, SampleOf, StreamOf;
    var row, first := raw.streams[i], FirstSample(raw.streams, i);
    FirstSampleSteps(raw.streams, i);
    SamplesOfRow(raw, i);
    samples, ranges := [], before;
    for camera := 0 to row.sampleCount
      invariant |samples| == camera && samples == StreamOf(raw, i).samples[..camera]
      invariant ranges == RangesOf(raw.samples[..first + camera])
      invariant forall k | 0 <= k < camera :: SampleOkAt(raw, i, k)
    {
      var fields := raw.samples[first + camera];
      ok := CheckSample(fields, row, i, camera, raw.header.payloadBytes);
      if !ok {
        assert !SampleOkAt(raw, i, camera);
        return false, [], [];
      }
      assert SampleOkAt(raw, i, camera);
      RangesGrow(raw.samples, first + camera);
      if fields.payloadLength != 0 {
        ranges := ranges + [Range(fields.payloadOffset, fields.payloadOffset + fields.payloadLength)];
      }
      samples := samples + [SampleOf(fields, raw.payload)];
    }
    ok := true;
  }

  lemma SamplesOfRow(raw: Raw, i: nat)
    requires i < |raw.streams| && FirstSample(raw.streams, i) + raw.streams[i].sampleCount <= |raw.samples|
    ensures var samples := StreamOf(raw, i).samples;
            && |samples| == raw.streams[i].sampleCount
            && forall camera | 0 <= camera < |samples| ::
                 samples[camera] == SampleOf(raw.samples[FirstSample(raw.streams, i) + camera], raw.payload)
  {
    hide FirstSample, SampleOf;
  }

  lemma RangesGrow(rows: seq<SampleRow>, n: nat)
    requires n < |rows|
    ensures RangesOf(rows[..n + 1])
            == RangesOf(rows[..n])
               + if rows[n].payloadLength == 0 then []
                 else [Range(rows[n].payloadOffset, rows[n].payloadOffset + rows[n].payloadLength)]
  {
    assert rows[..n + 1][..n] == rows[..n];
  }

  /** The streams of the bundle. */
  method BuildStreams(raw: Raw) returns (ok: bool, streams: seq<Stream>, ranges: seq<Range>)
    requires TableShaped(raw.streams, |raw.samples|) && |raw.payload| == raw.header.payloadBytes
    requires forall j | 0 <= j < |raw.samples| :: raw.samples[j].reserved == 0
    ensures ok <==> StreamsOk(raw) && SamplesOk(raw)
    ensures ok ==> streams == BundleOf(raw).streams && ranges == RangesOf(raw.samples)
  {
    hide StreamRowShaped, SampleOkAt, FirstSample, StreamOf, RangesOf;
    streams, ranges := [], [];
    FirstSampleStarts(raw.streams);
    NoRanges(raw.samples);
    for i := 0 to |raw.streams|
      invariant |streams| == i && forall k | 0 <= k < i :: streams[k] == StreamOf(raw, k)
      invariant ranges == RangesOf(raw.samples[..FirstInTable(raw, i)])
      invariant forall k | 0 <= k < i :: StreamRowOk(raw.streams[k], k, FirstSample(raw.streams, k))
      invariant forall k, camera | 0 <= k < i && 0 <= camera < raw.streams[k].sampleCount :: SampleOkAt(raw, k, camera)
    {
      var row := raw.streams[i];
      if row.fpsDenominator == 0 {
        return false, [], [];
      }
      FirstSampleGrows(raw.streams, i, |raw.streams|);
      FirstSampleGrows(raw.streams, i + 1, |raw.streams|);
      var good, samples, more := BuildSamples(raw, i, ranges);
      if !good {
        return false, [], [];
      }
      ranges := more;
      StreamIs(raw, i);
      streams := streams + [Stream(row.index, row.flags, row.codec, row.pixelFormat, row.rotation, row.width,
                                   row.height, row.fpsNumerator, row.fpsDenominator, row.sequence, samples)];
    }
    assert raw.samples[..|raw.samples|] == raw.samples;
    ok := true;
  }

  /** `FirstSample`, bounded by the size of the table. */
  function FirstInTable(raw: Raw, i: nat): (at: nat)
    requires i <= |raw.streams|
    ensures at <= |raw.samples|
  {
    if FirstSample(raw.streams, i) <= |raw.samples| then FirstSample(raw.streams, i) else |raw.samples|
  }

  lemma NoRanges(rows: seq<SampleRow>)
    ensures RangesOf(rows[..0]) == []
  {
  }

  lemma StreamIs(raw: Raw, i: nat)
    requires i < |raw.streams|
    ensures var row := raw.streams[i];
            StreamOf(raw, i) == Stream(row.index, row.flags, row.codec, row.pixelFormat, row.rotation,
                                       row.width, row.height, row.fpsNumerator, row.fpsDenominator, row.sequence,
                                       StreamOf(raw, i).samples)
  {
  }

  lemma {:induction false} RangesAreNonEmpty(rows: seq<SampleRow>)
    ensures NonEmpty(RangesOf(rows))
  {
    if rows != [] {
      RangesAreNonEmpty(rows[..|rows| - 1]);
    }
  }

  /** The payload check: sort the ranges, then walk them. */
  method CheckTiling(ranges: seq<Range>, payloadBytes: nat) returns (ok: bool)
    requires NonEmpty(ranges)
    ensures ok <==> Tiles(ranges, payloadBytes)
  {
    var sorted := Sort(ranges);
    ScanDecidesTiling(ranges, payloadBytes);
    var expectedOffset := 0;
    for n := 0 to |sorted|
      invariant Contiguous(sorted[n..], expectedOffset, payloadBytes) <==> Contiguous(sorted, 0, payloadBytes)
    {
      assert sorted[n..][1..] == sorted[n + 1..];
      if sorted[n].begin != expectedOffset {
        return false;
      }
      expectedOffset := sorted[n].end;
    }
    ok := expectedOffset == payloadBytes;
  }

  /** The header checks, in the order of the source. */
  method CheckHeader(h: Header, size: nat) returns (ok: bool)
    ensures ok <==> HeaderOk(h, size)
  {
    if h.magic != MAGIC || h.version != VERSION || h.headerBytes != HEADER_SIZE {
      return false;
    }
    if h.flags >= 8 {
      return false;
    }
    if Has(h.flags, SENDER_CLOCK_TAI) && !Has(h.flags, SENDER_CLOCK_VALID) {
      return false;
    }
    if Has(h.flags, SENDER_TSC_VALID) {
      if !Has(h.flags, SENDER_CLOCK_VALID) {
        return false;
      }
      if h.captureReadyTsc == 0 {
        return false;
      }
    } else if h.captureReadyTsc != 0 {
      return false;
    }
    if h.streamCount == 0 || h.sequence == 0 || h.session == 0 {
      return false;
    }
    if h.descriptorBytes != h.streamCount * STREAM_SIZE + h.sampleCount * SAMPLE_SIZE {
      return false;
    }
    ok := h.headerBytes + h.descriptorBytes + h.payloadBytes == size;
  }

  /** The parser accepts exactly the acceptable records, and returns the bundle they mean. */
  method Parse(record: seq<Byte>) returns (outcome: Outcome)
    ensures outcome.Accepted? <==> Acceptable(record)
    ensures outcome.Accepted? ==> outcome.bundle == BundleOf(RawOf(record))
  {
    hide HeaderAt, HeaderOk, UnpackStream, UnpackSample, TableShaped, StreamsOk, SamplesOk, Tiles, RangesOf;
    if |record| < HEADER_SIZE {
      return Rejected("short AVS1 record");
    }
    var h := HeaderAt(record);
    var ok := CheckHeader(h, |record|);
    if !ok {
      return Rejected("unsupported AVS1 header");
    }
    HeaderFixesSizes(record);
    var streamRows, offset, sampleRows;
    ok, streamRows, offset := ReadStreams(record, h);
    if !ok {
      StreamsMustBeShaped(RawOf(record));
      return Rejected("bad AVS1 stream table");
    }
    ok, sampleRows := ReadSamples(record, h, offset);
    if !ok {
      if StreamsOk(RawOf(record)) && SamplesOk(RawOf(record)) {
        SamplesMustBeReserved(RawOf(record));
      }
      return Rejected("AVS1 sample reserved field is nonzero");
    }
    var raw := Raw(h, streamRows, sampleRows, record[h.headerBytes + h.descriptorBytes..]);
    assert raw == RawOf(record);
    var streams, ranges;
    ok, streams, ranges := BuildStreams(raw);
    if !ok {
      return Rejected("bad AVS1 sample table");
    }
    RangesAreNonEmpty(raw.samples);
    ok := CheckTiling(ranges, h.payloadBytes);
    if !ok {
      return Rejected("AVS1 payload ranges do not tile the payload area");
    }
    var valid := Has(h.flags, SENDER_CLOCK_VALID);
    outcome := Accepted(Bundle(h.flags, h.sequence, h.session, When(valid, h.captureReady),
                               When(Has(h.flags, SENDER_TSC_VALID), h.captureReadyTsc), When(valid, h.tcpEnqueue),
                               ClockOf(h.flags), streams));
  }

  lemma HeaderFixesSizes(record: seq<Byte>)
    requires HEADER_SIZE <= |record| && HeaderOk(HeaderAt(record), |record|)
    ensures var h := HeaderAt(record);
            && h.headerBytes == HEADER_SIZE && h.descriptorBytes == DescriptorBytes(h.streamCount, h.sampleCount)
            && HEADER_SIZE + h.descriptorBytes + h.payloadBytes == |record|
            && |RawOf(record).payload| == h.payloadBytes
  {
  }

  lemma StreamsMustBeShaped(raw: Raw)
    ensures StreamsOk(raw) ==> TableShaped(raw.streams, |raw.samples|)
  {
  }

  lemma {:induction false} SampleHasStream(rows: seq<StreamRow>, n: nat, j: nat) returns (i: nat, camera: nat)
    requires n <= |rows| && j < FirstSample(rows, n)
    ensures i < n && camera < rows[i].sampleCount && FirstSample(rows, i) + camera == j
  {
    if j < FirstSample(rows, n - 1) {
      i, camera := SampleHasStream(rows, n - 1, j);
    } else {
      i, camera := n - 1, j - FirstSample(rows, n - 1);
    }
  }

  lemma SamplesMustBeReserved(raw: Raw)
    requires StreamsOk(raw) && SamplesOk(raw)
    ensures forall j | 0 <= j < |raw.samples| :: raw.samples[j].reserved == 0
  {
    hide FirstSample, SampleOkAt, StreamRowOk;
    forall j | 0 <= j < |raw.samples| ensures raw.samples[j].reserved == 0 {
      var i, camera := SampleHasStream(raw.streams, |raw.streams|, j);
      OkIsReserved(raw, i, camera);
    }
  }

  lemma OkIsReserved(raw: Raw, i: nat, camera: nat)
    requires i < |raw.streams| && SampleOkAt(raw, i, camera)
    ensures raw.samples[FirstSample(raw.streams, i) + camera].reserved == 0
  {
    hide FirstSample;
  }
}
