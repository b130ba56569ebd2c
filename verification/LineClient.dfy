/** The consumer's line buffer: newline-terminated messages cut out of a socket's pieces. */
module LineClient {
  import opened Options
  import opened WireBytes

  const NEWLINE: Byte := 10

  type Line = seq<Byte>

  /** Lines as they are sent. */
  function Unlines(lines: seq<Line>): seq<Byte> {
    if lines == [] then [] else Unlines(lines[..|lines| - 1]) + lines[|lines| - 1] + [NEWLINE]
  }

  predicate NoNewline(bytes: seq<Byte>) { NEWLINE !in bytes }

  /** `bytes` are these lines followed by an unfinished one. */
  predicate Splits(bytes: seq<Byte>, lines: seq<Line>, rest: seq<Byte>) {
    && bytes == Unlines(lines) + rest && NoNewline(rest)
    && forall i | 0 <= i < |lines| :: NoNewline(lines[i])
  }

  lemma {:induction false} UnlinesConcat(a: seq<Line>, b: seq<Line>)
    ensures Unlines(a + b) == Unlines(a) + Unlines(b)
  {
    hide Unlines;
    if b == [] {
      NoLines();
      assert a + b == a;
    } else {
      var init, last := b[..|b| - 1], b[|b| - 1];
      UnlinesConcat(a, init);
      UnlinesAppends(a + init, last);
      UnlinesAppends(init, last);
      assert init + [last] == b && a + init + [last] == a + b;
    }
  }

  lemma UnlinesOpens(lines: seq<Line>)
    requires lines != []
    ensures Unlines(lines) == lines[0] + [NEWLINE] + Unlines(lines[1..])
  {
    hide Unlines;
    NoLines();
    UnlinesAppends([], lines[0]);
    assert [] + [lines[0]] == [lines[0]] && Unlines([]) + lines[0] == lines[0];
    UnlinesConcat([lines[0]], lines[1..]);
    assert [lines[0]] + lines[1..] == lines;
  }

  lemma FirstLineIs(a: Line, x: seq<Byte>, b: Line, y: seq<Byte>)
    requires a + [NEWLINE] + x == b + [NEWLINE] + y && NoNewline(a) && NoNewline(b)
    ensures a == b && x == y
  {
    var bytes := a + [NEWLINE] + x;
    assert bytes[|a|] == NEWLINE && bytes[|b|] == NEWLINE;
    assert |a| == |b|;
    assert a == bytes[..|a|] && b == bytes[..|b|];
    assert x == bytes[|a| + 1..] && y == bytes[|b| + 1..];
  }

  /** Bytes split into lines in one way only: how they arrived cannot matter. */
  lemma {:induction false} SplitIsUnique(bytes: seq<Byte>, lines: seq<Line>, rest: seq<Byte>,
                                         lines': seq<Line>, rest': seq<Byte>)
    requires Splits(bytes, lines, rest) && Splits(bytes, lines', rest')
    ensures lines == lines' && rest == rest'
    decreases |lines|
  {
    hide Unlines;
    NoLines();
    assert Unlines([]) + rest == rest && Unlines([]) + rest' == rest';
    if lines != [] {
      FirstHasNewline(bytes, lines, rest);
    }
    if lines' != [] {
      FirstHasNewline(bytes, lines', rest');
    }
    if lines == [] {
      assert bytes == rest;
    } else {
      UnlinesOpens(lines);
      UnlinesOpens(lines');
      var x, y := Unlines(lines[1..]) + rest, Unlines(lines'[1..]) + rest';
      assert bytes == lines[0] + [NEWLINE] + x && bytes == lines'[0] + [NEWLINE] + y;
      FirstLineIs(lines[0], x, lines'[0], y);
      SplitIsUnique(x, lines[1..], rest, lines'[1..], rest');
      assert lines == [lines[0]] + lines[1..] && lines' == [lines'[0]] + lines'[1..];
    }
  }

  lemma NoLines()
    ensures Unlines([]) == []
  {
  }

  lemma UnlinesAppends(lines: seq<Line>, line: Line)
    ensures Unlines(lines + [line]) == Unlines(lines) + line + [NEWLINE]
  {
    assert (lines + [line])[..|lines|] == lines;
  }

  /** A line that moves from the buffer to the lines handed out leaves the bytes as they are. */
  lemma HistoryMoves(popped: seq<Line>, line: Line, rest: seq<Byte>)
    ensures Unlines(popped + [line]) + rest == Unlines(popped) + (line + [NEWLINE] + rest)
  {
    hide Unlines;
    UnlinesAppends(popped, line);
  }

  /** Receiving one more chunk leaves what will have been received in the end as it is. */
  lemma DeliveredSteps(received: seq<Byte>, chunks: seq<seq<Byte>>, i: nat)
    requires i < |chunks|
    ensures if chunks[i] == [] then Delivered(chunks[i..]) == []
            else received + Delivered(chunks[i..]) == received + chunks[i] + Delivered(chunks[i + 1..])
  {
    assert chunks[i..][1..] == chunks[i + 1..];
  }

  lemma NothingDelivered(chunks: seq<seq<Byte>>)
    ensures Delivered(chunks[|chunks|..]) == [] && chunks[0..] == chunks
  {
  }

  /** What a read of messages returns: the messages, or nothing at the end of the stream. */
  datatype Messages = Lines(lines: seq<Line>) | AtEnd

  /** The client keeps the history of its connection: all bytes received and all lines handed out. */
  class Client {
    var receiveBuffer: seq<Byte>
    ghost var received: seq<Byte>
    ghost var popped: seq<Line>

    /** The lines handed out with their newlines, followed by the buffer, are all bytes received. */
    ghost predicate Valid()
      reads this
    {
      received == Unlines(popped) + receiveBuffer && forall i | 0 <= i < |popped| :: NoNewline(popped[i])
    }

    constructor ()
      ensures Valid() && receiveBuffer == [] && received == [] && popped == []
    {
      receiveBuffer, received, popped := [], [], [];
    }

    method PopLine() returns (line: Line)
      requires Valid() && NEWLINE in receiveBuffer
      modifies this
      ensures Valid() && received == old(received) && popped == old(popped) + [line]
      ensures NoNewline(line) && old(receiveBuffer) == line + [NEWLINE] + receiveBuffer
    {
      hide Unlines;
      var i := 0;
      while receiveBuffer[i] != NEWLINE
        invariant i < |receiveBuffer| && NoNewline(receiveBuffer[..i])
        invariant NEWLINE in receiveBuffer[i..]
        invariant receiveBuffer == old(receiveBuffer) && received == old(received) && popped == old(popped)
        decreases |receiveBuffer| - i
      {
        assert receiveBuffer[..i + 1] == receiveBuffer[..i] + [receiveBuffer[i]];
        assert receiveBuffer[i..] == [receiveBuffer[i]] + receiveBuffer[i + 1..];
        i := i + 1;
      }
      line := receiveBuffer[..i];
      receiveBuffer := receiveBuffer[i + 1..];
      HistoryMoves(popped, line, receiveBuffer);
      assert old(receiveBuffer) == line + [NEWLINE] + receiveBuffer;
      popped := popped + [line];
    }

    /** All complete lines; what is left is the unfinished one. */
    method PopComplete() returns (lines: seq<Line>)
      requires Valid()
      modifies this
      ensures Valid() && received == old(received) && popped == old(popped) + lines && NoNewline(receiveBuffer)
      ensures lines == [] <==> NEWLINE !in old(receiveBuffer)
      ensures lines == [] ==> receiveBuffer == old(receiveBuffer)
    {
      lines := [];
      while NEWLINE in receiveBuffer
        invariant Valid() && received == old(received) && popped == old(popped) + lines
        invariant lines == [] ==> receiveBuffer == old(receiveBuffer)
        invariant lines != [] ==> NEWLINE in old(receiveBuffer)
        decreases |receiveBuffer|
      {
        var line := PopLine();
        lines := lines + [line];
      }
    }

    method Extend(chunk: seq<Byte>)
      requires Valid()
      modifies this
      ensures Valid() && popped == old(popped)
      ensures receiveBuffer == old(receiveBuffer) + chunk && received == old(received) + chunk
    {
      receiveBuffer, received := receiveBuffer + chunk, received + chunk;
    }

    /** Receives until the socket would block, `chunks` being what it delivers before that; an empty chunk is the
        end of the stream. */
    method ReceiveAll(chunks: seq<seq<Byte>>) returns (ended: bool)
      requires Valid()
      modifies this
      ensures Valid() && received == old(received) + Delivered(chunks) && popped == old(popped)
      ensures ended <==> [] in chunks
    {
      hide Delivered, Client.Valid;
      NothingDelivered(chunks);
      ghost var all := received + Delivered(chunks);
      for i := 0 to |chunks|
        invariant Valid() && popped == old(popped)
        invariant received + Delivered(chunks[i..]) == all
        invariant [] !in chunks[..i]
      {
        DeliveredSteps(received, chunks, i);
        if chunks[i] == [] {
          return true;
        }
        Extend(chunks[i]);
        assert chunks[..i + 1] == chunks[..i] + [chunks[i]];
      }
      assert chunks[..|chunks|] == chunks;
      return false;
    }

    /** One read: complete lines already in the buffer, or else those after receiving; at the end of the stream
        complete lines stay in the buffer. */
    method ReadMessages(chunks: seq<seq<Byte>>) returns (out: Messages)
      requires Valid()
      modifies this
      ensures Valid()
      ensures received == old(received) + if NEWLINE in old(receiveBuffer) then [] else Delivered(chunks)
      ensures popped == old(popped) + if out.Lines? then out.lines else []
      ensures out.Lines? ==> NoNewline(receiveBuffer)
      ensures out.AtEnd? <==> NEWLINE !in old(receiveBuffer) && [] in chunks
    {
      hide Delivered, Client.Valid;
      var lines := PopComplete();
      if lines == [] {
        var ended := ReceiveAll(chunks);
        if ended {
          return AtEnd;
        }
        lines := PopComplete();
      }
      return Lines(lines);
    }

    /** Reads on until a line is complete, and hands out that one. */
    method ReadLine(chunks: seq<seq<Byte>>) returns (line: Option<Line>)
      requires Valid()
      modifies this
      ensures Valid() && popped == old(popped) + if line.Some? then [line.value] else []
      ensures old(received) <= received <= old(received) + Delivered(chunks)
      ensures NEWLINE in old(receiveBuffer) ==> received == old(received) && line.Some?
      ensures line.None? ==> NEWLINE !in receiveBuffer && received == old(received) + Delivered(chunks)
    {
      hide Delivered, Client.Valid;
      NothingDelivered(chunks);
      ghost var all := received + Delivered(chunks);
      var i := 0;
      while NEWLINE !in receiveBuffer
        invariant Valid() && i <= |chunks| && popped == old(popped)
        invariant old(received) <= received && received + Delivered(chunks[i..]) == all
        invariant NEWLINE in old(receiveBuffer) ==> receiveBuffer == old(receiveBuffer) && received == old(received)
        decreases |chunks| - i
      {
        if i == |chunks| {
          return None;
        }
        DeliveredSteps(received, chunks, i);
        if chunks[i] == [] {
          return None;
        }
        Extend(chunks[i]);
        i := i + 1;
      }
      var first := PopLine();
      return Some(first);
    }
  }

  /** Whenever the buffer holds no complete line, the lines handed out so far, over however many reads of whatever
      pieces, are determined by the bytes received. */
  lemma HistoryIsDetermined(one: Client, two: Client)
    requires one.Valid() && two.Valid() && one.received == two.received
    requires NoNewline(one.receiveBuffer) && NoNewline(two.receiveBuffer)
    ensures one.popped == two.popped && one.receiveBuffer == two.receiveBuffer
  {
    SplitIsUnique(one.received, one.popped, one.receiveBuffer, two.popped, two.receiveBuffer);
  }

  /** The bytes before the first empty chunk. */
  function Delivered(chunks: seq<seq<Byte>>): seq<Byte> {
    if chunks == [] || chunks[0] == [] then [] else chunks[0] + Delivered(chunks[1..])
  }

  lemma FirstHasNewline(bytes: seq<Byte>, lines: seq<Line>, rest: seq<Byte>)
    requires Splits(bytes, lines, rest) && lines != []
    ensures NEWLINE in bytes
  {
    UnlinesOpens(lines);
    assert bytes[|lines[0]|] == NEWLINE;
  }

  /** Two reads one after the other give the lines of all their bytes, wherever the cut between them. */
  lemma SplitsCompose(first: seq<Byte>, second: seq<Byte>,
                      a: seq<Line>, b: seq<Line>, rest: seq<Byte>, rest': seq<Byte>)
    requires Splits(first, a, rest) && Splits(rest + second, b, rest')
    ensures Splits(first + second, a + b, rest')
  {
    hide Unlines;
    UnlinesConcat(a, b);
    assert first + second == Unlines(a) + (rest + second);
  }
}
