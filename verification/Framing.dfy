/** Length-prefixed records off a socket that may deliver the bytes in any pieces, time out or fail.

    The connection holds the bytes still to arrive and a script of what each receive call meets; once the
    script is used up, receive calls are given all they ask for. */
module Framing {
  import opened WireBytes

  /** What a receive call meets: up to `most` bytes, a timeout (the last of a stall or not), an error, or a
      request to stop. */
  datatype Event = Deliver(most: nat) | TimedOut(stalled: bool) | Broken | Stopped {
    /** Nothing that makes the receiver give up. */
    predicate Harmless() { (Deliver? && 0 < most) || (TimedOut? && !stalled) }
  }

  const PREFIX: nat := 4

  // ---------------------------------------------------------------- frames

  datatype Frame = Partial | Malformed | Whole(payload: seq<Byte>, rest: seq<Byte>)

  /** The frame at the start of a stream. */
  function FirstFrame(bytes: seq<Byte>, limit: nat): (frame: Frame)
    ensures frame.Whole? ==> |frame.rest| < |bytes|
  {
    if |bytes| < PREFIX then Partial
    else
      var length := Number(bytes[..PREFIX]);
      if length == 0 || limit < length then Malformed
      else if |bytes| < PREFIX + length then Partial
      else Whole(bytes[PREFIX..PREFIX + length], bytes[PREFIX + length..])
  }

  /** The records of a stream, up to the first that is incomplete or malformed. */
  function Frames(bytes: seq<Byte>, limit: nat): seq<seq<Byte>>
    decreases |bytes|
  {
    match FirstFrame(bytes, limit)
    case Whole(payload, rest) => [payload] + Frames(rest, limit)
    case _ => []
  }

  /** What a sender writes for its records. */
  function Framed(records: seq<seq<Byte>>): seq<Byte> {
    if records == [] then [] else BigEndian(|records[0]|, PREFIX) + records[0] + Framed(records[1..])
  }

  lemma FirstOfFramed(record: seq<Byte>, rest: seq<Byte>, limit: nat)
    requires 0 < |record| <= limit && |record| < 0x1_0000_0000
    ensures FirstFrame(BigEndian(|record|, PREFIX) + record + rest, limit) == Whole(record, rest)
  {
    var prefix := BigEndian(|record|, PREFIX);
    var bytes := prefix + record + rest;
    assert Limit(4) == 0x1_0000_0000;
    NumberOfBigEndian(|record|, PREFIX);
    hide Number, BigEndian, Limit;
    assert bytes[..PREFIX] == prefix;
    assert bytes[PREFIX..PREFIX + |record|] == record;
    assert bytes[PREFIX + |record|..] == rest;
  }

  /** A stream of records reads back as those records. */
  lemma {:induction false} FramesOfFramed(records: seq<seq<Byte>>, limit: nat)
    requires forall i | 0 <= i < |records| :: 0 < |records[i]| <= limit && |records[i]| < 0x1_0000_0000
    ensures Frames(Framed(records), limit) == records
  {
    if records != [] {
      FramesOfFramed(records[1..], limit);
      FirstOfFramed(records[0], Framed(records[1..]), limit);
    }
  }

  // ---------------------------------------------------------------- the connection

  class Connection {
    var input: seq<Byte>
    var script: seq<Event>

    constructor (input: seq<Byte>, script: seq<Event>)
      ensures this.input == input && this.script == script
    {
      this.input, this.script := input, script;
    }

    predicate Healthy()
      reads this
    {
      forall e <- script :: e.Harmless()
    }

    /** One receive call. `data` is empty at the end of the stream. */
    method Receive(want: nat) returns (event: Event, data: seq<Byte>)
      requires 0 < want
      modifies this
      ensures old(Healthy()) ==> Healthy() && event.Harmless()
      ensures old(input) == data + input && |data| <= want
      ensures event.Deliver? && 0 < event.most && old(input) != [] ==> data != []
      ensures !event.Deliver? ==> data == []
      ensures |script| <= |old(script)| && (data == [] && event.TimedOut? ==> |script| < |old(script)|)
    {
      event := Deliver(want);
      if script != [] {
        event := script[0];
        script := script[1..];
      }
      var n := 0;
      if event.Deliver? {
        n := event.most;
        n := if want < n then want else n;
        n := if |input| < n then |input| else n;
      }
      data := input[..n];
      input := input[n..];
    }
  }

  // ---------------------------------------------------------------- the receiver

  datatype Outcome = Received(payload: seq<Byte>) | Gone | Refused

  class Receiver {
    const limit: nat
    var prefixBuffer: array<Byte>
    var recordBuffer: array<Byte>

    ghost predicate Valid()
      reads this
    {
      prefixBuffer.Length == PREFIX && prefixBuffer != recordBuffer
    }

    constructor (limit: nat)
      ensures Valid() && this.limit == limit && fresh(prefixBuffer) && fresh(recordBuffer)
    {
      this.limit := limit;
      prefixBuffer := new Byte[PREFIX];
      recordBuffer := new Byte[0];
    }

    /** Fills the first `total` places of `buffer`, however the bytes arrive. */
    method ReceiveExact(conn: Connection, buffer: array<Byte>, total: nat) returns (ok: bool)
      requires total <= buffer.Length
      modifies conn, buffer
      ensures ok ==> total <= |old(conn.input)| && buffer[..total] == old(conn.input[..total])
                     && conn.input == old(conn.input)[total..]
      ensures old(conn.Healthy()) ==> conn.Healthy() && (ok <==> total <= |old(conn.input)|)
      ensures |conn.input| <= |old(conn.input)|
    {
      var got := 0;
      while got < total
        invariant got <= total && got <= |old(conn.input)|
        invariant conn.input == old(conn.input)[got..] && buffer[..got] == old(conn.input)[..got]
        invariant old(conn.Healthy()) ==> conn.Healthy()
        decreases total - got, |conn.script|
      {
        var event, data := conn.Receive(total - got);
        match event {
          case Stopped => return false;
          case Broken => return false;
          case TimedOut(stalled) =>
            if stalled {
              return false;
            }
            continue;
          case Deliver(_) =>
        }
        if data == [] {
          return false;
        }
        forall i | 0 <= i < |data| {
          buffer[got + i] := data[i];
        }
        assert buffer[..got + |data|] == old(conn.input)[..got] + data;
        got := got + |data|;
      }
      ok := true;
    }

    /** Reads the next record. The buffer is reused, yet the payload is the frame's own bytes and nothing of an
        earlier record. */
    method ReadRecord(conn: Connection) returns (out: Outcome)
      requires Valid()
      modifies this, prefixBuffer, recordBuffer, conn
      ensures Valid() && prefixBuffer == old(prefixBuffer)
      ensures recordBuffer == old(recordBuffer) || fresh(recordBuffer)
      ensures out.Received? ==> FirstFrame(old(conn.input), limit) == Whole(out.payload, conn.input)
      ensures out.Refused? ==> FirstFrame(old(conn.input), limit).Malformed?
      ensures old(conn.Healthy()) ==>
                && conn.Healthy()
                && (FirstFrame(old(conn.input), limit).Whole? ==> out.Received?)
                && (FirstFrame(old(conn.input), limit).Malformed? ==> out.Refused?)
    {
      hide Number;
      var ok := ReceiveExact(conn, prefixBuffer, PREFIX);
      if !ok {
        return Gone;
      }
      var length := Number(prefixBuffer[..]);
      assert prefixBuffer[..] == prefixBuffer[..PREFIX];
      if length == 0 || limit < length {
        return Refused;
      }
      if recordBuffer.Length < length {
        recordBuffer := new Byte[length];
      }
      ok := ReceiveExact(conn, recordBuffer, length);
      if !ok {
        return Gone;
      }
      out := Received(recordBuffer[..length]);
    }

    /** The records of one connection: always the first ones of the stream, and all of them if the connection
        stays healthy, in whatever pieces the stream arrives. */
    method ReadAll(conn: Connection) returns (records: seq<seq<Byte>>)
      requires Valid()
      modifies this, prefixBuffer, recordBuffer, conn
      ensures Valid() && records <= Frames(old(conn.input), limit)
      ensures old(conn.Healthy()) ==> records == Frames(old(conn.input), limit)
    {
      hide FirstFrame;
      records := [];
      while true
        invariant Valid() && prefixBuffer == old(prefixBuffer)
        invariant recordBuffer == old(recordBuffer) || fresh(recordBuffer)
        invariant Frames(old(conn.input), limit) == records + Frames(conn.input, limit)
        invariant old(conn.Healthy()) ==> conn.Healthy()
        decreases |conn.input|
      {
        ghost var before := conn.input;
        var out := ReadRecord(conn);
        if !out.Received? {
          assert records == Frames(old(conn.input), limit)[..|records|];
          return;
        }
        assert Frames(before, limit) == [out.payload] + Frames(conn.input, limit);
        records := records + [out.payload];
      }
    }
  }
}
