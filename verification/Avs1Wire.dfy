/** The AVS1 record: its three packed layouts, what makes a record acceptable, and the bundle it means.

    A record is a header, `streamCount` stream rows, `sampleCount` sample rows and the payload area. */
module Avs1Wire {
  import opened Options
  import opened WireBytes
  import opened RangeTiling

  const MAGIC: nat := 0x41565331            // "AVS1"
  const VERSION: nat := 1
  const HEADER: Layout := [4, 2, 2, 4, 2, 2, 8, 8, 8, 8, 4, 4, 8]
  const STREAM: Layout := [2, 2, 1, 1, 2, 4, 4, 4, 4, 8, 2, 2, 4]
  const SAMPLE: Layout := [2, 1, 1, 2, 2, 4, 4, 8, 8, 8, 8, 8, 8, 4, 4]
  const HEADER_SIZE: nat := 64
  const STREAM_SIZE: nat := 40
  const SAMPLE_SIZE: nat := 72

  lemma HeaderSize()
    ensures Size(HEADER) == HEADER_SIZE
  {
  }

  lemma StreamSize()
    ensures Size(STREAM) == STREAM_SIZE
  {
  }

  lemma SampleSize()
    ensures Size(SAMPLE) == SAMPLE_SIZE
  {
    var front, back := [2, 1, 1, 2, 2, 4, 4], [8, 8, 8, 8, 8, 8, 4, 4];
    assert SAMPLE == front + back;
    assert Size(front) == 16;
    assert Size(back) == 56;
    hide Size;
    SizeAppends(front, back);
  }

  lemma Limits()
    ensures Limit(1) == 0x100 && Limit(2) == 0x1_0000 && Limit(4) == 0x1_0000_0000
    ensures Limit(8) == 0x1_0000_0000_0000_0000
  {
  }

  const SENDER_CLOCK_VALID: nat := 1
  const SENDER_CLOCK_TAI: nat := 2
  const SENDER_TSC_VALID: nat := 4
  const STREAM_PRESENT: nat := 1
  const STREAM_STEREO: nat := 2
  const SAMPLE_PRESENT: nat := 1
  const SOF_TSC_VALID: nat := 2
  const FRAME_TIMESTAMP_VALID: nat := 4
  const SENDER_TIMING_VALID: nat := 8

  const CODEC_RAW_NV12: nat := 0
  const CODEC_HEVC: nat := 1
  const PIXEL_FORMAT_NV12: nat := 1
  const ROLE_MONO: nat := 0
  const ROLE_LEFT: nat := 1
  const ROLE_RIGHT: nat := 2

  /** Whether the flag bit with value `bit` is set. */
  predicate Has(flags: nat, bit: nat)
    requires 0 < bit
  {
    flags / bit % 2 == 1
  }

  // ---------------------------------------------------------------- rows

  datatype Header = Header(
    magic: nat, version: nat, flags: nat, headerBytes: nat, streamCount: nat, sampleCount: nat, sequence: nat,
    session: nat, captureReady: nat, tcpEnqueue: nat, descriptorBytes: nat, payloadBytes: nat, captureReadyTsc: nat)
  {
    function Fields(): seq<nat> {
      [magic, version, flags, headerBytes, streamCount, sampleCount, sequence,
       session, captureReady, tcpEnqueue, descriptorBytes, payloadBytes, captureReadyTsc]
    }
  }

  function HeaderOf(f: seq<nat>): Header
    requires |f| == 13
  {
    Header(f[0], f[1], f[2], f[3], f[4], f[5], f[6], f[7], f[8], f[9], f[10], f[11], f[12])
  }

  datatype StreamRow = StreamRow(
    index: nat, flags: nat, codec: nat, pixelFormat: nat, rotation: nat, width: nat, height: nat,
    fpsNumerator: nat, fpsDenominator: nat, sequence: nat, firstSample: nat, sampleCount: nat, reserved: nat)
  {
    function Fields(): seq<nat> {
      [index, flags, codec, pixelFormat, rotation, width, height,
       fpsNumerator, fpsDenominator, sequence, firstSample, sampleCount, reserved]
    }
  }

  function StreamRowOf(f: seq<nat>): StreamRow
    requires |f| == 13
  {
    StreamRow(f[0], f[1], f[2], f[3], f[4], f[5], f[6], f[7], f[8], f[9], f[10], f[11], f[12])
  }

  datatype SampleRow = SampleRow(
    stream: nat, camera: nat, role: nat, flags: nat, reserved: nat, device: nat, mode: nat, frameNumber: nat,
    sofTsc: nat, frameTimestamp: nat, captureReady: nat, processSubmit: nat, processDone: nat,
    payloadOffset: nat, payloadLength: nat)
  {
    function Fields(): seq<nat> {
      [stream, camera, role, flags, reserved, device, mode, frameNumber,
       sofTsc, frameTimestamp, captureReady, processSubmit, processDone, payloadOffset, payloadLength]
    }
  }

  function SampleRowOf(f: seq<nat>): SampleRow
    requires |f| == 15
  {
    SampleRow(f[0], f[1], f[2], f[3], f[4], f[5], f[6], f[7], f[8], f[9], f[10], f[11], f[12], f[13], f[14])
  }

  datatype Raw = Raw(header: Header, streams: seq<StreamRow>, samples: seq<SampleRow>, payload: seq<Byte>)

  // ---------------------------------------------------------------- bundles

  datatype ClockDomain = Tai | Realtime

  datatype Sample = Sample(
    stream: nat, camera: nat, role: nat, flags: nat, device: nat, mode: nat, frameNumber: nat,
    sofTsc: Option<nat>, frameTimestamp: Option<nat>, captureReady: Option<nat>,
    processSubmit: Option<nat>, processDone: Option<nat>,
    payloadOffset: nat, payloadLength: nat, payload: seq<Byte>)

  datatype Stream = Stream(
    index: nat, flags: nat, codec: nat, pixelFormat: nat, rotation: nat, width: nat, height: nat,
    fpsNumerator: nat, fpsDenominator: nat, sequence: nat, samples: seq<Sample>)

  datatype Bundle = Bundle(
    flags: nat, sequence: nat, session: nat, captureReady: Option<nat>, captureReadyTsc: Option<nat>,
    tcpEnqueue: Option<nat>, clock: Option<ClockDomain>, streams: seq<Stream>)

  function When(valid: bool, value: nat): Option<nat> { if valid then Some(value) else None }

  function OrZero(value: Option<nat>): nat { if value.Some? then value.value else 0 }

  function ClockOf(flags: nat): Option<ClockDomain> {
    if !Has(flags, SENDER_CLOCK_VALID) then None
    else if Has(flags, SENDER_CLOCK_TAI) then Some(Tai) else Some(Realtime)
  }

  // ---------------------------------------------------------------- reading rows out of a record

  function HeaderAt(record: seq<Byte>): Header
    requires HEADER_SIZE <= |record|
  {
    HeaderSize();
    HeaderOf(Unpack(HEADER, record[..HEADER_SIZE]))
  }

  /** `STREAM.unpack_from(record, offset)` and `SAMPLE.unpack_from(record, offset)`. */
  function UnpackStream(record: seq<Byte>, offset: nat): StreamRow
    requires offset + STREAM_SIZE <= |record|
  {
    StreamSize();
    StreamRowOf(Unpack(STREAM, record[offset..offset + STREAM_SIZE]))
  }

  function UnpackSample(record: seq<Byte>, offset: nat): SampleRow
    requires offset + SAMPLE_SIZE <= |record|
  {
    SampleSize();
    SampleRowOf(Unpack(SAMPLE, record[offset..offset + SAMPLE_SIZE]))
  }

  function DescriptorBytes(streamCount: nat, sampleCount: nat): nat {
    STREAM_SIZE * streamCount + SAMPLE_SIZE * sampleCount
  }

  /** The record as rows, if its counts fit into it. */
  function RawOf(record: seq<Byte>): Raw
    requires HEADER_SIZE <= |record|
    requires var h := HeaderAt(record); HEADER_SIZE + DescriptorBytes(h.streamCount, h.sampleCount) <= |record|
  {
    var h := HeaderAt(record);
    Raw(h,
        seq(h.streamCount, i requires 0 <= i < h.streamCount => UnpackStream(record, HEADER_SIZE + STREAM_SIZE * i)),
        seq(h.sampleCount, j requires 0 <= j < h.sampleCount =>
          UnpackSample(record, HEADER_SIZE + STREAM_SIZE * h.streamCount + SAMPLE_SIZE * j)),
        record[HEADER_SIZE + DescriptorBytes(h.streamCount, h.sampleCount)..])
  }

  // ---------------------------------------------------------------- what the parser insists on

  /** The header checks, `size` being the length of the record. */
  predicate HeaderOk(h: Header, size: nat) {
    && h.magic == MAGIC && h.version == VERSION && h.headerBytes == HEADER_SIZE
    && h.flags < 8
    && (Has(h.flags, SENDER_CLOCK_TAI) ==> Has(h.flags, SENDER_CLOCK_VALID))
    && (Has(h.flags, SENDER_TSC_VALID) ==> Has(h.flags, SENDER_CLOCK_VALID))
    && (Has(h.flags, SENDER_TSC_VALID) <==> h.captureReadyTsc != 0)
    && h.streamCount != 0 && h.sequence != 0 && h.session != 0
    && h.descriptorBytes == DescriptorBytes(h.streamCount, h.sampleCount)
    && h.headerBytes + h.descriptorBytes + h.payloadBytes == size
  }

  function SamplesFor(flags: nat): nat { if Has(flags, STREAM_STEREO) then 2 else 1 }

  /** Where the samples of stream `i` start in the sample table. */
  function FirstSample(rows: seq<StreamRow>, i: nat): nat
    requires i <= |rows|
  {
    if i == 0 then 0 else FirstSample(rows, i - 1) + rows[i - 1].sampleCount
  }

  predicate StreamRowOk(row: StreamRow, i: nat, first: nat) {
    StreamRowShaped(row, i, first) && row.fpsDenominator != 0
  }

  predicate StreamRowShaped(row: StreamRow, i: nat, first: nat) {
    && row.index == i && row.reserved == 0
    && row.flags < 4
    && (row.codec == CODEC_RAW_NV12 || row.codec == CODEC_HEVC)
    && row.pixelFormat == PIXEL_FORMAT_NV12
    && (row.rotation == 0 || row.rotation == 180)
    && 0 < row.width && 0 < row.height && row.width % 2 == 0 && row.height % 2 == 0
    && row.sampleCount == SamplesFor(row.flags)
    && row.firstSample == first
    && (Has(row.flags, STREAM_PRESENT) <==> row.sequence != 0)
  }

  function RoleFor(flags: nat, camera: nat): nat {
    if !Has(flags, STREAM_STEREO) then ROLE_MONO else if camera == 0 then ROLE_LEFT else ROLE_RIGHT
  }

  predicate SampleRowOk(row: SampleRow, stream: StreamRow, i: nat, camera: nat, payloadBytes: nat) {
    && row.reserved == 0
    && row.stream == i && row.camera == camera
    && row.role == RoleFor(stream.flags, camera)
    && row.flags < 16
    && (Has(row.flags, SAMPLE_PRESENT) <==> Has(stream.flags, STREAM_PRESENT))
    && row.payloadOffset + row.payloadLength <= payloadBytes
    && (Has(row.flags, SAMPLE_PRESENT) <==> row.payloadLength != 0)
    && (stream.codec == CODEC_RAW_NV12 && Has(row.flags, SAMPLE_PRESENT)
        ==> row.payloadLength == stream.width * stream.height * 3 / 2)
  }

  /** The nonempty payload ranges, in the order of the sample table. */
  function RangesOf(rows: seq<SampleRow>): seq<Range> {
    if rows == [] then []
    else
      var last := rows[|rows| - 1];
      RangesOf(rows[..|rows| - 1])
      + (if last.payloadLength == 0 then [] else [Range(last.payloadOffset, last.payloadOffset + last.payloadLength)])
  }

  predicate StreamsOk(raw: Raw) {
    && (forall i | 0 <= i < |raw.streams| :: StreamRowOk(raw.streams[i], i, FirstSample(raw.streams, i)))
    && FirstSample(raw.streams, |raw.streams|) == |raw.samples|
  }

  predicate SamplesOk(raw: Raw)
    requires StreamsOk(raw)
  {
    forall i, camera | 0 <= i < |raw.streams| && 0 <= camera < raw.streams[i].sampleCount ::
      SampleOkAt(raw, i, camera)
  }

  predicate SampleOkAt(raw: Raw, i: nat, camera: nat)
    requires i < |raw.streams|
  {
    var at := FirstSample(raw.streams, i) + camera;
    at < |raw.samples| && SampleRowOk(raw.samples[at], raw.streams[i], i, camera, raw.header.payloadBytes)
  }

  ghost predicate RawOk(raw: Raw) {
    && StreamsOk(raw) && SamplesOk(raw)
    && Tiles(RangesOf(raw.samples), raw.header.payloadBytes)
  }

  /** The records the parser accepts. */
  ghost predicate Acceptable(record: seq<Byte>) {
    && HEADER_SIZE <= |record|
    && HeaderOk(HeaderAt(record), |record|)
    && RawOk(RawOf(record))
  }

  // ---------------------------------------------------------------- what an accepted record means

  function Slice(area: seq<Byte>, offset: nat, length: nat): seq<Byte> {
    if offset + length <= |area| then area[offset..offset + length] else []
  }

  function SampleOf(row: SampleRow, area: seq<Byte>): Sample {
    var timing := Has(row.flags, SENDER_TIMING_VALID);
    Sample(row.stream, row.camera, row.role, row.flags, row.device, row.mode, row.frameNumber,
           When(Has(row.flags, SOF_TSC_VALID), row.sofTsc),
           When(Has(row.flags, FRAME_TIMESTAMP_VALID), row.frameTimestamp),
           When(timing, row.captureReady), When(timing, row.processSubmit), When(timing, row.processDone),
           row.payloadOffset, row.payloadLength, Slice(area, row.payloadOffset, row.payloadLength))
  }

  function StreamOf(raw: Raw, i: nat): Stream
    requires i < |raw.streams|
  {
    var row := raw.streams[i];
    var first := FirstSample(raw.streams, i);
    Stream(row.index, row.flags, row.codec, row.pixelFormat, row.rotation, row.width, row.height,
           row.fpsNumerator, row.fpsDenominator, row.sequence,
           seq(row.sampleCount, camera requires 0 <= camera =>
             if first + camera < |raw.samples| then SampleOf(raw.samples[first + camera], raw.payload) else NO_SAMPLE))
  }

  const NO_SAMPLE := Sample(0, 0, 0, 0, 0, 0, 0, None, None, None, None, None, 0, 0, [])

  function BundleOf(raw: Raw): Bundle {
    var h := raw.header;
    var valid := Has(h.flags, SENDER_CLOCK_VALID);
    Bundle(h.flags, h.sequence, h.session, When(valid, h.captureReady),
           When(Has(h.flags, SENDER_TSC_VALID), h.captureReadyTsc), When(valid, h.tcpEnqueue), ClockOf(h.flags),
           seq(|raw.streams|, i requires 0 <= i < |raw.streams| => StreamOf(raw, i)))
  }
}
