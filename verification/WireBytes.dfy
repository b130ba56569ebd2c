/** Big-endian fields and packed layouts, as `struct.Struct("!...")` reads and writes them. */
module WireBytes {

  type Byte = b: int | 0 <= b < 256

  function Limit(width: nat): (limit: nat)
    ensures 1 <= limit
  {
    if width == 0 then 1 else 256 * Limit(width - 1)
  }

  function BigEndian(n: nat, width: nat): (bytes: seq<Byte>)
    ensures |bytes| == width
  {
    if width == 0 then [] else BigEndian(n / 256, width - 1) + [n % 256]
  }

  function Number(bytes: seq<Byte>): nat {
    if bytes == [] then 0 else 256 * Number(bytes[..|bytes| - 1]) + bytes[|bytes| - 1]
  }

  lemma {:induction false} NumberFits(bytes: seq<Byte>)
    ensures Number(bytes) < Limit(|bytes|)
  {
    if bytes != [] {
      NumberFits(bytes[..|bytes| - 1]);
    }
  }

  lemma {:induction false} NumberOfBigEndian(n: nat, width: nat)
    requires n < Limit(width)
    ensures Number(BigEndian(n, width)) == n
  {
    if width > 0 {
      NumberOfBigEndian(n / 256, width - 1);
      var bytes := BigEndian(n, width);
      assert bytes[..width - 1] == BigEndian(n / 256, width - 1);
    }
  }

  lemma {:induction false} BigEndianOfNumber(bytes: seq<Byte>)
    ensures BigEndian(Number(bytes), |bytes|) == bytes
  {
    if bytes != [] {
      var shorter := bytes[..|bytes| - 1];
      BigEndianOfNumber(shorter);
      assert bytes == shorter + [bytes[|bytes| - 1]];
    }
  }

  // ---------------------------------------------------------------- layouts

  /** A layout lists the widths of its fields in bytes. */
  type Layout = seq<nat>

  function Size(layout: Layout): nat {
    if layout == [] then 0 else layout[0] + Size(layout[1..])
  }

  lemma {:induction false} SizeAppends(a: Layout, b: Layout)
    ensures Size(a + b) == Size(a) + Size(b)
  {
    if a == [] {
      assert a + b == b;
    } else {
      assert (a + b)[1..] == a[1..] + b;
      SizeAppends(a[1..], b);
    }
  }

  predicate Fits(layout: Layout, values: seq<nat>) {
    |values| == |layout| && forall i | 0 <= i < |layout| :: values[i] < Limit(layout[i])
  }

  function Pack(layout: Layout, values: seq<nat>): (bytes: seq<Byte>)
    requires |values| == |layout|
    ensures |bytes| == Size(layout)
  {
    if layout == [] then [] else BigEndian(values[0], layout[0]) + Pack(layout[1..], values[1..])
  }

  function Unpack(layout: Layout, bytes: seq<Byte>): (values: seq<nat>)
    requires |bytes| == Size(layout)
    ensures |values| == |layout|
  {
    if layout == [] then [] else [Number(bytes[..layout[0]])] + Unpack(layout[1..], bytes[layout[0]..])
  }

  lemma {:induction false} UnpackFits(layout: Layout, bytes: seq<Byte>)
    requires |bytes| == Size(layout)
    ensures Fits(layout, Unpack(layout, bytes))
  {
    if layout != [] {
      NumberFits(bytes[..layout[0]]);
      UnpackFits(layout[1..], bytes[layout[0]..]);
    }
  }

  lemma {:induction false} UnpackOfPack(layout: Layout, values: seq<nat>)
    requires Fits(layout, values)
    ensures Unpack(layout, Pack(layout, values)) == values
  {
    if layout != [] {
      var bytes := Pack(layout, values);
      assert bytes[..layout[0]] == BigEndian(values[0], layout[0]);
      assert bytes[layout[0]..] == Pack(layout[1..], values[1..]);
      NumberOfBigEndian(values[0], layout[0]);
      UnpackOfPack(layout[1..], values[1..]);
    }
  }

  lemma {:induction false} PackOfUnpack(layout: Layout, bytes: seq<Byte>)
    requires |bytes| == Size(layout)
    ensures Pack(layout, Unpack(layout, bytes)) == bytes
  {
    if layout != [] {
      BigEndianOfNumber(bytes[..layout[0]]);
      PackOfUnpack(layout[1..], bytes[layout[0]..]);
      assert bytes == bytes[..layout[0]] + bytes[layout[0]..];
    }
  }
}
