/** From the sender's bundles to the receiver's: encoded, framed, delivered in any pieces, read and parsed. */
module ReceiverSession {
  import opened WireBytes
  import opened Framing
  import Avs1Wire
  import Avs1Parser
  import Avs1RoundTrip

  type Bundle = Avs1Wire.Bundle

  function EncodeAll(bundles: seq<Bundle>): (records: seq<seq<Byte>>)
    ensures |records| == |bundles|
    ensures forall i | 0 <= i < |bundles| :: records[i] == Avs1RoundTrip.Encode(bundles[i])
  {
    seq(|bundles|, i requires 0 <= i < |bundles| => Avs1RoundTrip.Encode(bundles[i]))
  }

  /** Well-formed bundles whose records the receiver is set up for. */
  ghost predicate Sendable(bundles: seq<Bundle>, limit: nat) {
    forall i | 0 <= i < |bundles| ::
      && Avs1RoundTrip.WellFormed(bundles[i])
      && 0 < |Avs1RoundTrip.Encode(bundles[i])| <= limit && |Avs1RoundTrip.Encode(bundles[i])| < 0x1_0000_0000
  }

  /** The bundles that the records mean, up to the first record that is not acceptable. */
  ghost function Meanings(records: seq<seq<Byte>>): seq<Bundle> {
    if records == [] || !Avs1Wire.Acceptable(records[0]) then []
    else [Avs1Wire.BundleOf(Avs1Wire.RawOf(records[0]))] + Meanings(records[1..])
  }

  lemma {:induction false} MeaningsOfEncoded(bundles: seq<Bundle>)
    requires forall i | 0 <= i < |bundles| :: Avs1RoundTrip.WellFormed(bundles[i])
    ensures Meanings(EncodeAll(bundles)) == bundles
  {
    hide Avs1RoundTrip.Encode, Avs1RoundTrip.WellFormed, Avs1Wire.Acceptable, Avs1Wire.BundleOf, Avs1Wire.RawOf;
    if bundles != [] {
      Avs1RoundTrip.EncodeThenParse(bundles[0]);
      MeaningsOfEncoded(bundles[1..]);
      assert EncodeAll(bundles)[1..] == EncodeAll(bundles[1..]);
    }
  }

  /** What the records at the front of a stream of bytes mean. */
  ghost function Meant(input: seq<Byte>, limit: nat): seq<Bundle> { Meanings(Frames(input, limit)) }

  lemma MeantSteps(done: seq<Bundle>, input: seq<Byte>, limit: nat)
    ensures match FirstFrame(input, limit)
            case Whole(record, rest) =>
              if Avs1Wire.Acceptable(record)
              then done + Meant(input, limit)
                   == done + [Avs1Wire.BundleOf(Avs1Wire.RawOf(record))] + Meant(rest, limit)
              else Meant(input, limit) == []
            case _ => Meant(input, limit) == []
  {
    hide FirstFrame, Avs1Wire.Acceptable, Avs1Wire.BundleOf, Avs1Wire.RawOf;
    if FirstFrame(input, limit).Whole? {
      var frames := Frames(input, limit);
      assert frames[1..] == Frames(FirstFrame(input, limit).rest, limit);
    }
  }

  /** One connection: records are read and parsed until one is missing, refused or rejected. */
  method Session(receiver: Receiver, conn: Connection) returns (bundles: seq<Bundle>)
    requires receiver.Valid()
    modifies receiver, receiver.prefixBuffer, receiver.recordBuffer, conn
    ensures bundles <= Meanings(Frames(old(conn.input), receiver.limit))
    ensures old(conn.Healthy()) ==> bundles == Meanings(Frames(old(conn.input), receiver.limit))
  {
    hide FirstFrame, Frames, Meanings, Avs1Wire.Acceptable, Avs1Wire.BundleOf, Avs1Wire.RawOf, Receiver.Valid;
    bundles := [];
    ghost var all := Meant(conn.input, receiver.limit);
    while true
      invariant receiver.Valid() && receiver.prefixBuffer == old(receiver.prefixBuffer)
      invariant receiver.recordBuffer == old(receiver.recordBuffer) || fresh(receiver.recordBuffer)
      invariant all == bundles + Meant(conn.input, receiver.limit)
      invariant old(conn.Healthy()) ==> conn.Healthy()
      decreases |conn.input|
    {
      MeantSteps(bundles, conn.input, receiver.limit);
      var out := receiver.ReadRecord(conn);
      if !out.Received? {
        return;
      }
      var parsed := Avs1Parser.Parse(out.payload);
      if !parsed.Accepted? {
        return;
      }
      bundles := bundles + [parsed.bundle];
    }
  }

  /** What a receiver reads off a healthy connection is what the sender meant, whatever the pieces. */
  lemma SessionIsFaithful(bundles: seq<Bundle>, limit: nat)
    requires Sendable(bundles, limit)
    ensures Meanings(Frames(Framed(EncodeAll(bundles)), limit)) == bundles
  {
    hide Avs1RoundTrip.Encode, Avs1RoundTrip.WellFormed, Framed, Frames, Meanings;
    FramesOfFramed(EncodeAll(bundles), limit);
    MeaningsOfEncoded(bundles);
  }
}
