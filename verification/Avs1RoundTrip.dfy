/** Well-formed bundles, their encoding, and the round trips between bundles and records. */
module Avs1RoundTrip {
  import opened Options
  import opened WireBytes
  import opened RangeTiling
  import opened Avs1Wire
  import Avs1Layout

  const U16: nat := 0x1_0000
  const U32: nat := 0x1_0000_0000
  const U64: nat := 0x1_0000_0000_0000_0000

  // ---------------------------------------------------------------- well-formed bundles

  /** All samples of a bundle, stream by stream. */
  function Flat(streams: seq<Stream>): seq<Sample> {
    if streams == [] then [] else Flat(streams[..|streams| - 1]) + streams[|streams| - 1].samples
  }

  function SampleRowFrom(x: Sample): SampleRow {
    SampleRow(x.stream, x.camera, x.role, x.flags, 0, x.device, x.mode, x.frameNumber, OrZero(x.sofTsc),
              OrZero(x.frameTimestamp), OrZero(x.captureReady), OrZero(x.processSubmit), OrZero(x.processDone),
              x.payloadOffset, x.payloadLength)
  }

  function SampleRowsFrom(samples: seq<Sample>): (rows: seq<SampleRow>)
    ensures |rows| == |samples|
  {
    seq(|samples|, j requires 0 <= j < |samples| => SampleRowFrom(samples[j]))
  }

  function PayloadSize(samples: seq<Sample>): nat {
    if samples == [] then 0 else PayloadSize(samples[..|samples| - 1]) + samples[|samples| - 1].payloadLength
  }

  /** A value that is there exactly if its flag is set, and fits its 64-bit field. */
  predicate Stamp(value: Option<nat>, valid: bool) {
    (value.Some? <==> valid) && (value.Some? ==> value.value < U64)
  }

  predicate SampleWellFormed(x: Sample, stream: Stream, i: nat, camera: nat, size: nat) {
    && x.stream == i && x.camera == camera && x.role == RoleFor(stream.flags, camera)
    && x.flags < 16 && x.device < U32 && x.mode < U32 && x.frameNumber < U64
    && (Has(x.flags, SAMPLE_PRESENT) <==> Has(stream.flags, STREAM_PRESENT))
    && Stamp(x.sofTsc, Has(x.flags, SOF_TSC_VALID))
    && Stamp(x.frameTimestamp, Has(x.flags, FRAME_TIMESTAMP_VALID))
    && Stamp(x.captureReady, Has(x.flags, SENDER_TIMING_VALID))
    && Stamp(x.processSubmit, Has(x.flags, SENDER_TIMING_VALID))
    && Stamp(x.processDone, Has(x.flags, SENDER_TIMING_VALID))
    && x.payloadLength == |x.payload| && x.payloadOffset + x.payloadLength <= size
    && (Has(x.flags, SAMPLE_PRESENT) <==> x.payload != [])
    && (stream.codec == CODEC_RAW_NV12 && Has(x.flags, SAMPLE_PRESENT)
        ==> |x.payload| == stream.width * stream.height * 3 / 2)
  }

  predicate StreamWellFormed(x: Stream, i: nat, size: nat) {
    && x.index == i && x.flags < 4
    && (x.codec == CODEC_RAW_NV12 || x.codec == CODEC_HEVC) && x.pixelFormat == PIXEL_FORMAT_NV12
    && (x.rotation == 0 || x.rotation == 180)
    && 0 < x.width < U32 && 0 < x.height < U32 && x.width % 2 == 0 && x.height % 2 == 0
    && x.fpsNumerator < U32 && 0 < x.fpsDenominator < U32
    && x.sequence < U64 && (Has(x.flags, STREAM_PRESENT) <==> x.sequence != 0)
    && |x.samples| == SamplesFor(x.flags)
    && forall camera | 0 <= camera < |x.samples| :: SampleWellFormed(x.samples[camera], x, i, camera, size)
  }

  ghost predicate WellFormed(b: Bundle) {
    var flat := Flat(b.streams);
    var size := PayloadSize(flat);
    && b.flags < 8 && 0 < b.sequence < U64 && 0 < b.session < U64
    && (Has(b.flags, SENDER_CLOCK_TAI) ==> Has(b.flags, SENDER_CLOCK_VALID))
    && (Has(b.flags, SENDER_TSC_VALID) ==> Has(b.flags, SENDER_CLOCK_VALID))
    && Stamp(b.captureReady, Has(b.flags, SENDER_CLOCK_VALID))
    && Stamp(b.tcpEnqueue, Has(b.flags, SENDER_CLOCK_VALID))
    && Stamp(b.captureReadyTsc, Has(b.flags, SENDER_TSC_VALID)) && b.captureReadyTsc != Some(0)
    && b.clock == ClockOf(b.flags)
    && 0 < |b.streams| < U16 && |flat| < U16 && size < U32
    && (forall i | 0 <= i < |b.streams| :: StreamWellFormed(b.streams[i], i, size))
    && Tiles(RangesOf(SampleRowsFrom(flat)), size)
  }

  // ---------------------------------------------------------------- the encoder

  function StreamRowFrom(x: Stream, first: nat): StreamRow {
    StreamRow(x.index, x.flags, x.codec, x.pixelFormat, x.rotation, x.width, x.height,
              x.fpsNumerator, x.fpsDenominator, x.sequence, first, |x.samples|, 0)
  }

  function FirstOf(streams: seq<Stream>, i: nat): nat
    requires i <= |streams|
  {
    |Flat(streams[..i])|
  }

  predicate SampleCovers(x: Sample, p: nat) {
    x.payloadOffset <= p < x.payloadOffset + x.payloadLength && x.payloadLength == |x.payload|
  }

  /** The byte some sample puts at position `p` of the payload area. */
  function ByteAt(samples: seq<Sample>, p: nat): Byte {
    if samples == [] then 0
    else
      var x := samples[|samples| - 1];
      if SampleCovers(x, p) then x.payload[p - x.payloadOffset] else ByteAt(samples[..|samples| - 1], p)
  }

  function Area(samples: seq<Sample>, size: nat): seq<Byte> {
    seq(size, p requires 0 <= p => ByteAt(samples, p))
  }

  function RawFrom(b: Bundle): Raw {
    var flat := Flat(b.streams);
    var n, m, size := |b.streams|, |flat|, PayloadSize(flat);
    Raw(Header(MAGIC, VERSION, b.flags, HEADER_SIZE, n, m, b.sequence, b.session, OrZero(b.captureReady),
               OrZero(b.tcpEnqueue), DescriptorBytes(n, m), size, OrZero(b.captureReadyTsc)),
        seq(n, i requires 0 <= i < n => StreamRowFrom(b.streams[i], FirstOf(b.streams, i))),
        SampleRowsFrom(flat),
        Area(flat, size))
  }

  function Encode(b: Bundle): seq<Byte> { Avs1Layout.Serialize(RawFrom(b)) }

  // ---------------------------------------------------------------- positions in the sample table

  lemma {:induction false} FlatAt(streams: seq<Stream>, n: nat, i: nat, camera: nat)
    requires i < n <= |streams| && camera < |streams[i].samples|
    ensures FirstOf(streams, i) + camera < |Flat(streams[..n])|
    ensures Flat(streams[..n])[FirstOf(streams, i) + camera] == streams[i].samples[camera]
  {
    var shorter := streams[..n - 1];
    assert streams[..n][..n - 1] == shorter && streams[..n][n - 1] == streams[n - 1];
    if i < n - 1 {
      FlatAt(streams, n - 1, i, camera);
    }
  }

  lemma FirstOfSteps(streams: seq<Stream>, i: nat)
    requires i < |streams|
    ensures FirstOf(streams, i + 1) == FirstOf(streams, i) + |streams[i].samples|
  {
    assert streams[..i + 1][..i] == streams[..i];
  }

  lemma {:induction false} FirstsAgree(b: Bundle, i: nat)
    requires i <= |b.streams|
    ensures FirstSample(RawFrom(b).streams, i) == FirstOf(b.streams, i)
  {
    if i > 0 {
      FirstsAgree(b, i - 1);
      FirstOfSteps(b.streams, i - 1);
    }
  }

  // ---------------------------------------------------------------- the payload area

  /** One more sample adds its own range. */
  lemma RangesStep(samples: seq<Sample>, p: nat)
    requires samples != []
    ensures var shorter, x := samples[..|samples| - 1], samples[|samples| - 1];
            && CoverCount(RangesOf(SampleRowsFrom(samples)), p)
               == CoverCount(RangesOf(SampleRowsFrom(shorter)), p)
                  + (if x.payloadOffset <= p < x.payloadOffset + x.payloadLength then 1 else 0)
            && TotalLength(RangesOf(SampleRowsFrom(samples)))
               == TotalLength(RangesOf(SampleRowsFrom(shorter))) + x.payloadLength
  {
    var n := |samples| - 1;
    var shorter, x := samples[..n], samples[n];
    assert SampleRowsFrom(samples)[..n] == SampleRowsFrom(shorter);
    var last := Range(x.payloadOffset, x.payloadOffset + x.payloadLength);
    if x.payloadLength == 0 {
      assert RangesOf(SampleRowsFrom(samples)) == RangesOf(SampleRowsFrom(shorter));
    } else {
      CountsAppend(RangesOf(SampleRowsFrom(shorter)), [last], p);
      assert [last][1..] == [];
    }
  }

  lemma {:induction false} SizesAgree(samples: seq<Sample>)
    ensures TotalLength(RangesOf(SampleRowsFrom(samples))) == PayloadSize(samples)
  {
    if samples != [] {
      SizesAgree(samples[..|samples| - 1]);
      RangesStep(samples, 0);
    }
  }

  lemma {:induction false} CoveredCounts(samples: seq<Sample>, j: nat, p: nat)
    requires j < |samples| && SampleCovers(samples[j], p)
    ensures 0 < CoverCount(RangesOf(SampleRowsFrom(samples)), p)
  {
    hide CoverCount, RangesOf, SampleRowsFrom, TotalLength;
    RangesStep(samples, p);
    if j < |samples| - 1 {
      CoveredCounts(samples[..|samples| - 1], j, p);
    }
  }

  /** Where samples do not overlap, the area holds each sample's own bytes. */
  lemma {:induction false} ByteIsFrom(samples: seq<Sample>, j: nat, p: nat)
    requires j < |samples| && SampleCovers(samples[j], p)
    requires CoverCount(RangesOf(SampleRowsFrom(samples)), p) == 1
    requires forall k | 0 <= k < |samples| :: samples[k].payloadLength == |samples[k].payload|
    ensures ByteAt(samples, p) == samples[j].payload[p - samples[j].payloadOffset]
  {
    hide CoverCount, RangesOf, SampleRowsFrom, TotalLength;
    RangesStep(samples, p);
    var n := |samples| - 1;
    if j < n {
      CoveredCounts(samples[..n], j, p);
      ByteIsFrom(samples[..n], j, p);
    }
  }

  lemma SliceIsPayload(samples: seq<Sample>, size: nat, j: nat)
    requires j < |samples| && Tiles(RangesOf(SampleRowsFrom(samples)), size)
    requires forall k | 0 <= k < |samples| :: samples[k].payloadLength == |samples[k].payload|
    requires samples[j].payloadOffset + samples[j].payloadLength <= size
    ensures Slice(Area(samples, size), samples[j].payloadOffset, samples[j].payloadLength) == samples[j].payload
  {
    hide CoverCount, RangesOf;
    var x := samples[j];
    var slice := Slice(Area(samples, size), x.payloadOffset, x.payloadLength);
    forall q | 0 <= q < x.payloadLength ensures slice[q] == x.payload[q] {
      var p := x.payloadOffset + q;
      assert CoverCount(RangesOf(SampleRowsFrom(samples)), p) == 1;
      ByteIsFrom(samples, j, p);
    }
  }

  // ---------------------------------------------------------------- encode, then parse

  lemma SampleRoundTrip(x: Sample, stream: Stream, i: nat, camera: nat, area: seq<Byte>)
    requires SampleWellFormed(x, stream, i, camera, |area|)
    requires Slice(area, x.payloadOffset, x.payloadLength) == x.payload
    ensures SampleOf(SampleRowFrom(x), area) == x
  {
  }

  lemma SampleRowFits(x: Sample, stream: Stream, i: nat, camera: nat, size: nat)
    requires SampleWellFormed(x, stream, i, camera, size) && i < U16 && camera < 2 && size < U32
    ensures Fits(SAMPLE, SampleRowFrom(x).Fields())
  {
    Limits();
    hide Has, Limit;
    var f := SampleRowFrom(x).Fields();
    assert SAMPLE[0] == 2 && SAMPLE[1] == 1 && SAMPLE[2] == 1 && SAMPLE[3] == 2 && SAMPLE[4] == 2;
    assert forall k | 5 <= k < 7 :: SAMPLE[k] == 4;
    assert forall k | 7 <= k < 13 :: SAMPLE[k] == 8;
    assert forall k | 13 <= k < 15 :: SAMPLE[k] == 4;
  }

  lemma StreamRowFits(x: Stream, first: nat, i: nat, size: nat)
    requires StreamWellFormed(x, i, size) && i < U16 && first < U16
    ensures Fits(STREAM, StreamRowFrom(x, first).Fields())
  {
    Limits();
    hide Has, Limit, SampleWellFormed;
    assert SamplesFor(x.flags) <= 2;
  }

  lemma HeaderFits(b: Bundle)
    requires WellFormed(b)
    ensures Fits(HEADER, RawFrom(b).header.Fields())
  {
    Limits();
    hide Has, Limit, StreamWellFormed, Tiles, Flat, PayloadSize;
  }

  lemma {:induction false} FlatHas(streams: seq<Stream>, n: nat, j: nat) returns (i: nat, camera: nat)
    requires n <= |streams| && j < |Flat(streams[..n])|
    ensures i < n && camera < |streams[i].samples| && FirstOf(streams, i) + camera == j
    ensures Flat(streams[..n])[j] == streams[i].samples[camera]
  {
    assert streams[..n][..n - 1] == streams[..n - 1] && streams[..n][n - 1] == streams[n - 1];
    if j < |Flat(streams[..n - 1])| {
      i, camera := FlatHas(streams, n - 1, j);
    } else {
      i, camera := n - 1, j - |Flat(streams[..n - 1])|;
    }
  }

  lemma FlatIsWellFormed(b: Bundle, j: nat)
    requires WellFormed(b) && j < |Flat(b.streams)|
    ensures var x := Flat(b.streams)[j];
            && x.payloadLength == |x.payload| && x.payloadOffset + x.payloadLength <= PayloadSize(Flat(b.streams))
            && Fits(SAMPLE, SampleRowFrom(x).Fields())
  {
    hide Fits, Flat, PayloadSize, Tiles, SampleWellFormed;
    var n := |b.streams|;
    assert b.streams[..n] == b.streams;
    var i, camera := FlatHas(b.streams, n, j);
    assert StreamWellFormed(b.streams[i], i, PayloadSize(Flat(b.streams)));
    SampleRowFits(b.streams[i].samples[camera], b.streams[i], i, camera, PayloadSize(Flat(b.streams)));
    SampleIsSound(b.streams[i].samples[camera], b.streams[i], i, camera, PayloadSize(Flat(b.streams)));
  }

  lemma SampleIsSound(x: Sample, stream: Stream, i: nat, camera: nat, size: nat)
    requires SampleWellFormed(x, stream, i, camera, size)
    ensures x.payloadLength == |x.payload| && x.payloadOffset + x.payloadLength <= size
  {
  }

  lemma RawFromFits(b: Bundle)
    requires WellFormed(b)
    ensures Avs1Layout.RawFits(RawFrom(b))
  {
    hide Fits, StreamWellFormed, Tiles, PayloadSize;
    var raw, n, size := RawFrom(b), |b.streams|, PayloadSize(Flat(b.streams));
    assert b.streams[..n] == b.streams;
    HeaderFits(b);
    forall i | 0 <= i < n ensures Fits(STREAM, raw.streams[i].Fields()) {
      FirstOfGrows(b.streams, i, n);
      StreamRowFits(b.streams[i], FirstOf(b.streams, i), i, size);
    }
    forall j | 0 <= j < |raw.samples| ensures Fits(SAMPLE, raw.samples[j].Fields()) {
      FlatIsWellFormed(b, j);
    }
  }

  lemma {:induction false} FirstOfGrows(streams: seq<Stream>, i: nat, j: nat)
    requires i <= j <= |streams|
    ensures FirstOf(streams, i) <= FirstOf(streams, j)
  {
    if i < j {
      FirstOfGrows(streams, i, j - 1);
      FirstOfSteps(streams, j - 1);
    }
  }

  lemma StreamRowIsOk(x: Stream, i: nat, size: nat, first: nat)
    requires StreamWellFormed(x, i, size)
    ensures StreamRowOk(StreamRowFrom(x, first), i, first)
  {
    hide SampleWellFormed;
  }

  lemma SampleRowIsOk(x: Sample, stream: Stream, i: nat, camera: nat, size: nat, first: nat)
    requires SampleWellFormed(x, stream, i, camera, size)
    ensures SampleRowOk(SampleRowFrom(x), StreamRowFrom(stream, first), i, camera, size)
  {
  }

  lemma RawFromStreamsOk(b: Bundle)
    requires WellFormed(b)
    ensures StreamsOk(RawFrom(b))
  {
    hide StreamWellFormed, Tiles, PayloadSize, StreamRowOk, FirstSample;
    var raw, n := RawFrom(b), |b.streams|;
    assert b.streams[..n] == b.streams;
    FirstsAgree(b, n);
    forall i | 0 <= i < n ensures StreamRowOk(raw.streams[i], i, FirstSample(raw.streams, i)) {
      FirstsAgree(b, i);
      StreamRowIsOk(b.streams[i], i, PayloadSize(Flat(b.streams)), FirstOf(b.streams, i));
    }
  }

  /** Where the samples of a stream stand in the encoded table. */
  lemma SamplePosition(b: Bundle, i: nat, camera: nat)
    requires i < |b.streams| && camera < |b.streams[i].samples|
    ensures RawFrom(b).streams[i].sampleCount == |b.streams[i].samples|
    ensures FirstSample(RawFrom(b).streams, i) + camera < |RawFrom(b).samples| == |Flat(b.streams)|
    ensures RawFrom(b).samples[FirstSample(RawFrom(b).streams, i) + camera]
            == SampleRowFrom(b.streams[i].samples[camera])
    ensures Flat(b.streams)[FirstSample(RawFrom(b).streams, i) + camera] == b.streams[i].samples[camera]
  {
    hide FirstSample, Flat, Area, PayloadSize, SampleRowFrom;
    assert b.streams[..|b.streams|] == b.streams;
    FirstsAgree(b, i);
    FlatAt(b.streams, |b.streams|, i, camera);
  }

  lemma SampleOfWellFormed(b: Bundle, i: nat, camera: nat)
    requires WellFormed(b) && i < |b.streams| && camera < |b.streams[i].samples|
    ensures SampleWellFormed(b.streams[i].samples[camera], b.streams[i], i, camera, PayloadSize(Flat(b.streams)))
  {
    hide SampleWellFormed, Tiles, PayloadSize, Flat, Has;
    assert StreamWellFormed(b.streams[i], i, PayloadSize(Flat(b.streams)));
  }

  lemma RawFromSamplesOk(b: Bundle)
    requires WellFormed(b) && StreamsOk(RawFrom(b))
    ensures SamplesOk(RawFrom(b))
  {
    hide WellFormed, SampleWellFormed, Tiles, PayloadSize, StreamsOk, FirstSample, SampleRowOk;
    var raw := RawFrom(b);
    forall i, camera | 0 <= i < |raw.streams| && 0 <= camera < raw.streams[i].sampleCount
      ensures SampleOkAt(raw, i, camera)
    {
      SamplePosition(b, i, camera);
      SampleOfWellFormed(b, i, camera);
      SampleRowIsOk(b.streams[i].samples[camera], b.streams[i], i, camera, PayloadSize(Flat(b.streams)),
                    FirstOf(b.streams, i));
    }
  }

  lemma StreamOfRawFrom(b: Bundle, i: nat)
    requires WellFormed(b) && i < |b.streams|
    ensures StreamOf(RawFrom(b), i) == b.streams[i]
  {
    hide WellFormed, SampleWellFormed, PayloadSize, FirstSample, SampleOf, SampleRowFrom, Slice;
    var raw, x := RawFrom(b), StreamOf(RawFrom(b), i);
    assert |x.samples| == |b.streams[i].samples|;
    forall camera | 0 <= camera < |x.samples| ensures x.samples[camera] == b.streams[i].samples[camera] {
      SamplePosition(b, i, camera);
      SampleReadsBack(b, i, camera);
    }
  }

  lemma SampleReadsBack(b: Bundle, i: nat, camera: nat)
    requires WellFormed(b) && i < |b.streams| && camera < |b.streams[i].samples|
    ensures SampleOf(SampleRowFrom(b.streams[i].samples[camera]), RawFrom(b).payload) == b.streams[i].samples[camera]
  {
    hide SampleWellFormed, PayloadSize, FirstSample, SampleOf, SampleRowFrom, StreamWellFormed;
    SamplePosition(b, i, camera);
    SampleOfWellFormed(b, i, camera);
    var flat := Flat(b.streams);
    var j, size := FirstSample(RawFrom(b).streams, i) + camera, PayloadSize(flat);
    forall k | 0 <= k < |flat| ensures flat[k].payloadLength == |flat[k].payload| {
      FlatIsWellFormed(b, k);
    }
    FlatIsWellFormed(b, j);
    SliceIsPayload(flat, size, j);
    SampleRoundTrip(b.streams[i].samples[camera], b.streams[i], i, camera, RawFrom(b).payload);
  }

  lemma HeaderOfRawFrom(b: Bundle)
    requires WellFormed(b)
    ensures var raw := RawFrom(b);
            && HeaderOk(raw.header, HEADER_SIZE + raw.header.descriptorBytes + raw.header.payloadBytes)
            && (var out := BundleOf(raw); out == b.(streams := out.streams))
  {
    hide Has, StreamWellFormed, Tiles, PayloadSize, Flat, StreamOf;
  }

  lemma BundleOfRawFrom(b: Bundle)
    requires WellFormed(b)
    ensures BundleOf(RawFrom(b)) == b
  {
    hide WellFormed, HeaderOk, StreamOf, Has, ClockOf, Flat, PayloadSize, Area, FirstOf, SampleRowsFrom;
    HeaderOfRawFrom(b);
    var out := BundleOf(RawFrom(b));
    forall i | 0 <= i < |b.streams| ensures out.streams[i] == b.streams[i] {
      StreamOfRawFrom(b, i);
    }
    assert out.streams == b.streams;
  }

  lemma RawFromIsOk(b: Bundle)
    requires WellFormed(b)
    ensures RawOk(RawFrom(b))
  {
    RawFromStreamsOk(b);
    RawFromSamplesOk(b);
    hide StreamsOk, SamplesOk, StreamWellFormed, Has, FirstOf;
  }

  lemma EncodedSize(b: Bundle)
    ensures var h := RawFrom(b).header; |Encode(b)| == HEADER_SIZE + h.descriptorBytes + h.payloadBytes
  {
    hide Avs1Layout.Serialize, Flat, PayloadSize, SampleRowFrom, FirstOf, ByteAt;
    Avs1Layout.Sections(RawFrom(b));
  }

  /** Every well-formed bundle is encoded as a record that the parser accepts and reads back as that
      bundle. */
  lemma EncodeThenParse(b: Bundle)
    requires WellFormed(b)
    ensures Acceptable(Encode(b)) && BundleOf(RawOf(Encode(b))) == b
  {
    hide WellFormed, Avs1Layout.Serialize, HeaderAt, HeaderOk, RawOk, BundleOf, RawFrom, RawOf, Avs1Layout.RawFits;
    RawFromFits(b);
    Avs1Layout.RawOfSerialize(RawFrom(b));
    EncodedSize(b);
    HeaderOfRawFrom(b);
    RawFromIsOk(b);
    BundleOfRawFrom(b);
  }
}
