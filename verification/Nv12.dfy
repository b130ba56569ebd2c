/** The two NV12 kernels: a 180 degree rotation of a frame and its conversion to RGBA.

    An NV12 frame of width `w` and height `h` is a plane of `w * h` luma bytes followed by `h / 2` rows of
    `w / 2` chroma pairs. A launch runs one thread per pixel of a grid of 16 x 16 blocks. Nothing orders the
    stores of different threads, so a launch is any schedule in which every store of every thread occurs. */
module Nv12 {
  import opened Arithmetic
  import opened WireBytes

  const BLOCK: nat := 16

  function Blocks(size: nat): nat { (size + 15) / BLOCK }

  datatype Thread = Thread(blockX: nat, blockY: nat, threadX: nat, threadY: nat) {
    function X(): nat { blockX * BLOCK + threadX }

    function Y(): nat { blockY * BLOCK + threadY }

    predicate InGrid(w: nat, h: nat) {
      blockX < Blocks(w) && blockY < Blocks(h) && threadX < BLOCK && threadY < BLOCK
    }
  }

  predicate Even(w: nat, h: nat) { w % 2 == 0 && h % 2 == 0 }

  function Area(w: nat, h: nat): nat { w * h }

  function FrameBytes(w: nat, h: nat): nat { w * h * 3 / 2 }

  /** The one thread of the grid that handles column `x` and row `y`. */
  function ThreadFor(x: nat, y: nat): Thread { Thread(x / BLOCK, y / BLOCK, x % BLOCK, y % BLOCK) }

  lemma GridCovers(x: nat, y: nat, w: nat, h: nat)
    requires x < w && y < h
    ensures ThreadFor(x, y).InGrid(w, h) && ThreadFor(x, y).X() == x && ThreadFor(x, y).Y() == y
  {
  }

  lemma ThreadIsUnique(t: Thread, w: nat, h: nat)
    requires t.InGrid(w, h)
    ensures ThreadFor(t.X(), t.Y()) == t
  {
  }

  // ---------------------------------------------------------------- positions in a plane

  /** The position of column `x` of row `y`, and the column and the row of a position. */
  function At(x: int, y: int, w: nat): int { y * w + x }

  function Column(k: nat, w: nat): nat
    requires 0 < w
  {
    k % w
  }

  function Row(k: nat, w: nat): nat
    requires 0 < w
  {
    k / w
  }

  lemma Cell(x: nat, y: nat, w: nat, h: nat)
    requires x < w && y < h
    ensures 0 <= At(x, y, w) < Area(w, h)
    ensures Row(At(x, y, w), w) == y && Column(At(x, y, w), w) == x
  {
    MultiplesAreApart(w, y, h);
    assert w * y == y * w;
    DivModIs(y * w + x, w, y, x);
  }

  lemma CellOf(k: nat, w: nat, h: nat)
    requires k < Area(w, h)
    ensures 0 < w && Column(k, w) < w && Row(k, w) < h && At(Column(k, w), Row(k, w), w) == k
  {
    assert w != 0 && h != 0;
    var y := k / w;
    assert k == w * y + k % w;
    assert w * y == y * w;
    assert h < y ==> w * h + w <= w * y by {
      if h < y {
        MultiplesAreApart(w, h, y);
      }
    }
    assert y != h;
  }

  lemma NextColumn(x: int, y: int, w: nat)
    ensures At(x + 1, y, w) == At(x, y, w) + 1
  {
  }

  /** Counting rows and columns from the other end counts positions from the other end. */
  lemma Opposite(x: nat, y: nat, c: int, w: nat, h: nat)
    ensures At(c - x, h - 1 - y, w) == Area(w, h) - w + c - At(x, y, w)
  {
    assert (h - 1 - y) * w == w * h - w - y * w;
  }

  lemma Halves(w: nat, h: nat)
    requires Even(w, h)
    ensures Area(w, h) % 2 == 0 && Area(w, h / 2) == Area(w, h) / 2 && Area(w, h) / 2 % 2 == 0
    ensures FrameBytes(w, h) == Area(w, h) + Area(w, h) / 2
  {
    var hw, hh := w / 2, h / 2;
    assert w == 2 * hw && h == 2 * hh;
    assert w * h == 2 * (w * hh) && w * hh == 2 * (hw * hh);
  }

  lemma Parity(x: nat, y: nat, w: nat)
    requires w % 2 == 0
    ensures At(x, y, w) % 2 == x % 2
  {
    var hw := w / 2;
    assert y * w == 2 * (y * hw);
  }

  // ---------------------------------------------------------------- rotation

  datatype Plane = Luma | U | V

  /** One store of one thread of the rotation kernel. */
  datatype Store = Store(thread: Thread, plane: Plane)

  predicate Issued(s: Store, w: nat, h: nat) {
    var x, y := s.thread.X(), s.thread.Y();
    s.thread.InGrid(w, h) && if s.plane.Luma? then x < w && y < h else x < w / 2 && y < h / 2
  }

  function Source(s: Store, w: nat, h: nat): int {
    var x, y := s.thread.X(), s.thread.Y();
    match s.plane
    case Luma => At(x, y, w)
    case U => Area(w, h) + At(x * 2, y, w)
    case V => Area(w, h) + At(x * 2, y, w) + 1
  }

  function Target(s: Store, w: nat, h: nat): int {
    var x, y := s.thread.X(), s.thread.Y();
    match s.plane
    case Luma => At(w - 1 - x, h - 1 - y, w)
    case U => Area(w, h) + At(w - 2 - x * 2, h / 2 - 1 - y, w)
    case V => Area(w, h) + At(w - 2 - x * 2, h / 2 - 1 - y, w) + 1
  }

  /** Where the byte at `p` goes: the luma plane is reversed byte by byte, the chroma plane pair by pair. */
  function Turned(p: nat, area: nat): int {
    if p < area then area - 1 - p
    else
      var q := p - area;
      area + (area / 2 - (if q % 2 == 0 then q + 2 else q))
  }

  function Rotated(frame: seq<Byte>, w: nat, h: nat): (turned: seq<Byte>)
    requires Even(w, h) && |frame| == FrameBytes(w, h)
    ensures |turned| == |frame|
  {
    seq(|frame|, p requires 0 <= p < |frame| => TurnedInside(p, w, h); frame[Turned(p, Area(w, h))])
  }

  lemma TurnedInside(p: nat, w: nat, h: nat)
    requires Even(w, h) && p < FrameBytes(w, h)
    ensures 0 <= Turned(p, Area(w, h)) < FrameBytes(w, h) && Turned(Turned(p, Area(w, h)), Area(w, h)) == p
  {
    hide Area, FrameBytes, Turned;
    Halves(w, h);
    TurnsTwice(p, Area(w, h) / 4);
  }

  lemma TurnsTwice(p: nat, quarter: nat)
    requires p < 6 * quarter
    ensures var area := 4 * quarter;
            0 <= Turned(p, area) < 6 * quarter && Turned(Turned(p, area), area) == p
  {
    var area := 4 * quarter;
    assert area / 2 == 2 * quarter;
    if area <= p {
      PairTurns(p - area, quarter);
    }
  }

  /** Pairs change places, and the bytes of a pair keep theirs. */
  lemma PairTurns(q: nat, pairs: nat)
    requires q < 2 * pairs
    ensures q % 2 == 0 ==> 0 <= 2 * pairs - (q + 2) && (2 * pairs - (q + 2)) % 2 == 0
    ensures q % 2 == 1 ==> (2 * pairs - q) % 2 == 1
  {
  }

  lemma TargetIsTurned(s: Store, w: nat, h: nat)
    requires Even(w, h) && Issued(s, w, h)
    ensures 0 <= Source(s, w, h) < FrameBytes(w, h) && Target(s, w, h) == Turned(Source(s, w, h), Area(w, h))
  {
    hide At, Area, FrameBytes, Row, Column, Thread.InGrid, Thread.X, Thread.Y;
    Halves(w, h);
    var x, y := s.thread.X(), s.thread.Y();
    if s.plane.Luma? {
      Cell(x, y, w, h);
      Opposite(x, y, w - 1, w, h);
    } else {
      Cell(x * 2, y, w, h / 2);
      Opposite(x * 2, y, w - 2, w, h / 2);
      Parity(x * 2, y, w);
    }
  }

  /** The store that reads byte `p`. */
  function Reader(p: nat, w: nat, h: nat): Store
    requires 0 < w
  {
    if p < Area(w, h) then Store(ThreadFor(Column(p, w), Row(p, w)), Luma)
    else
      var q := p - Area(w, h);
      Store(ThreadFor(Column(q, w) / 2, Row(q, w)), if q % 2 == 0 then U else V)
  }

  lemma ReaderReads(p: nat, w: nat, h: nat)
    requires Even(w, h) && p < FrameBytes(w, h)
    ensures 0 < w && Issued(Reader(p, w, h), w, h) && Source(Reader(p, w, h), w, h) == p
  {
    hide At, Area, FrameBytes, Row, Column, Thread.InGrid, Thread.X, Thread.Y, ThreadFor;
    Halves(w, h);
    if p < Area(w, h) {
      CellOf(p, w, h);
      GridCovers(Column(p, w), Row(p, w), w, h);
    } else {
      var q := p - Area(w, h);
      CellOf(q, w, h / 2);
      var x, y := Column(q, w), Row(q, w);
      Parity(x, y, w);
      NextColumn(x / 2 * 2, y, w);
      GridCovers(x / 2, y, w, h);
    }
  }

  lemma ReaderIsUnique(s: Store, w: nat, h: nat)
    requires Even(w, h) && Issued(s, w, h)
    ensures 0 < w && 0 <= Source(s, w, h) && Reader(Source(s, w, h), w, h) == s
  {
    hide At, Area, FrameBytes, Row, Column, Thread.InGrid, Thread.X, Thread.Y, ThreadFor;
    var x, y := s.thread.X(), s.thread.Y();
    ThreadIsUnique(s.thread, w, h);
    if s.plane.Luma? {
      Cell(x, y, w, h);
    } else {
      var odd := if s.plane.U? then 0 else 1;
      Cell(x * 2 + odd, y, w, h / 2);
      NextColumn(x * 2, y, w);
      Parity(x * 2 + odd, y, w);
    }
  }

  /** Exactly one store of one thread of the grid writes byte `p` of the destination, and no store falls
      outside it: the threads do not race. */
  lemma EachByteIsStoredOnce(p: nat, w: nat, h: nat)
    requires Even(w, h) && p < FrameBytes(w, h)
    ensures exists s :: Issued(s, w, h) && Target(s, w, h) == p
    ensures forall s, s' | Issued(s, w, h) && Issued(s', w, h) && Target(s, w, h) == Target(s', w, h) :: s == s'
    ensures forall s | Issued(s, w, h) :: 0 <= Target(s, w, h) < FrameBytes(w, h)
  {
    hide Issued, Target, Source, Turned, Reader, Area, FrameBytes;
    TurnedInside(p, w, h);
    var q := Turned(p, Area(w, h));
    ReaderReads(q, w, h);
    TargetIsTurned(Reader(q, w, h), w, h);
    forall s | Issued(s, w, h)
      ensures 0 <= Target(s, w, h) < FrameBytes(w, h) && Turned(Target(s, w, h), Area(w, h)) == Source(s, w, h)
      ensures 0 < w && 0 <= Source(s, w, h) && s == Reader(Source(s, w, h), w, h)
    {
      TargetIsTurned(s, w, h);
      TurnedInside(Source(s, w, h), w, h);
      ReaderIsUnique(s, w, h);
    }
  }

  /** A schedule of a launch: the stores the threads issue, each at least once, in any order. */
  ghost predicate Launch(schedule: seq<Store>, w: nat, h: nat) {
    && (forall s <- schedule :: Issued(s, w, h))
    && (forall s | Issued(s, w, h) :: s in schedule)
  }

  /** There is such a schedule, with one store for each byte. */
  lemma LaunchExists(w: nat, h: nat) returns (schedule: seq<Store>)
    requires Even(w, h)
    ensures Launch(schedule, w, h) && |schedule| == FrameBytes(w, h)
  {
    hide Issued, Target, Source, Turned, Reader, FrameBytes, Area;
    schedule := seq(FrameBytes(w, h), p requires 0 <= p < FrameBytes(w, h) => ReaderReads(p, w, h); Reader(p, w, h));
    forall s <- schedule ensures Issued(s, w, h) {
      var p: nat :| p < |schedule| && schedule[p] == s;
      ReaderReads(p, w, h);
    }
    forall s | Issued(s, w, h) ensures s in schedule {
      TargetIsTurned(s, w, h);
      ReaderIsUnique(s, w, h);
      assert schedule[Source(s, w, h)] == s;
    }
  }

  /** Whatever the schedule, the destination ends up as the rotated frame. */
  method Rotate180(src: array<Byte>, dst: array<Byte>, w: nat, h: nat, schedule: seq<Store>)
    requires Even(w, h) && src.Length == dst.Length == FrameBytes(w, h) && src != dst
    requires Launch(schedule, w, h)
    modifies dst
    ensures dst[..] == Rotated(src[..], w, h)
  {
    hide Issued, Target, Source, Turned, FrameBytes, Area;
    ghost var stored: set<nat> := {};
    for i := 0 to |schedule|
      invariant forall p <- stored :: p < dst.Length && dst[p] == Rotated(src[..], w, h)[p]
      invariant forall j | 0 <= j < i :: Target(schedule[j], w, h) in stored
    {
      var s := schedule[i];
      TargetIsTurned(s, w, h);
      TurnedInside(Source(s, w, h), w, h);
      dst[Target(s, w, h)] := src[Source(s, w, h)];
      stored := stored + {Target(s, w, h)};
    }
    forall p | 0 <= p < dst.Length ensures dst[p] == Rotated(src[..], w, h)[p] {
      EachByteIsStoredOnce(p, w, h);
      var s :| Issued(s, w, h) && Target(s, w, h) == p;
      assert s in schedule;
    }
    assert dst[..] == Rotated(src[..], w, h);
  }

  /** Rotating twice gives the frame back. */
  lemma RotatedTwice(frame: seq<Byte>, w: nat, h: nat)
    requires Even(w, h) && |frame| == FrameBytes(w, h)
    ensures Rotated(Rotated(frame, w, h), w, h) == frame
  {
    hide Turned, Area, FrameBytes;
    forall p | 0 <= p < |frame| ensures Rotated(Rotated(frame, w, h), w, h)[p] == frame[p] {
      TurnedInside(p, w, h);
    }
  }

  // ---------------------------------------------------------------- conversion to RGBA

  function Clamped(x: real): Byte {
    var c := if x < 0.0 then 0.0 else if 255.0 < x then 255.0 else x;
    c.Floor
  }

  /** The bytes of one pixel, over exact arithmetic. */
  function Pixel(luma: Byte, u: Byte, v: Byte): (p: seq<Byte>)
    ensures |p| == 4 && p[3] == 255
  {
    var yn := (luma as real - 16.0) * 1.16438;
    var cu, cv := u as real - 128.0, v as real - 128.0;
    [Clamped(yn + 1.79274 * cv), Clamped(yn - 0.21325 * cu - 0.53291 * cv), Clamped(yn + 2.11240 * cu), 255]
  }

  /** The chroma pair of column `x` and row `y`. */
  function ChromaAt(x: nat, y: nat, w: nat, h: nat): int { Area(w, h) + At(x - x % 2, y / 2, w) }

  lemma ChromaInside(x: nat, y: nat, w: nat, h: nat)
    requires Even(w, h) && x < w && y < h
    ensures Area(w, h) <= ChromaAt(x, y, w, h) && ChromaAt(x, y, w, h) + 1 < FrameBytes(w, h)
    ensures (ChromaAt(x, y, w, h) - Area(w, h)) % 2 == 0
    ensures 0 <= At(x, y, w) < Area(w, h) <= FrameBytes(w, h)
  {
    hide At, Area, FrameBytes, Row, Column;
    Halves(w, h);
    Cell(x, y, w, h);
    Cell(x - x % 2, y / 2, w, h / 2);
    Parity(x - x % 2, y / 2, w);
  }

  function PixelAt(frame: seq<Byte>, x: nat, y: nat, w: nat, h: nat): (p: seq<Byte>)
    requires Even(w, h) && |frame| == FrameBytes(w, h) && x < w && y < h
    ensures |p| == 4
  {
    ChromaInside(x, y, w, h);
    var c := ChromaAt(x, y, w, h);
    Pixel(frame[At(x, y, w)], frame[c], frame[c + 1])
  }

  /** One store of one thread of the conversion kernel. */
  datatype PixelStore = PixelStore(thread: Thread, channel: nat)

  predicate PixelIssued(s: PixelStore, w: nat, h: nat) {
    s.thread.InGrid(w, h) && s.thread.X() < w && s.thread.Y() < h && s.channel < 4
  }

  function PixelTarget(s: PixelStore, w: nat, h: nat, rotation: nat): int {
    var x, y := s.thread.X(), s.thread.Y();
    var ox := if rotation == 180 then w - 1 - x else x;
    var oy := if rotation == 180 then h - 1 - y else y;
    At(ox, oy, w) * 4 + s.channel
  }

  /** The pixel shown at place `k` of the picture. */
  function Shown(k: nat, area: nat, rotation: nat): nat
    requires k < area
  {
    if rotation == 180 then area - 1 - k else k
  }

  function ShownByte(frame: seq<Byte>, w: nat, h: nat, rotation: nat, o: nat): Byte
    requires Even(w, h) && |frame| == FrameBytes(w, h) && o / 4 < Area(w, h)
  {
    var k := Shown(o / 4, Area(w, h), rotation);
    CellOf(k, w, h);
    PixelAt(frame, Column(k, w), Row(k, w), w, h)[o % 4]
  }

  /** The picture: pixels in row order, or in reverse order if rotated. */
  function Rgba(frame: seq<Byte>, w: nat, h: nat, rotation: nat): (out: seq<Byte>)
    requires Even(w, h) && |frame| == FrameBytes(w, h)
    ensures |out| == Area(w, h) * 4
  {
    var area := Area(w, h);
    seq(area * 4, o requires 0 <= o < area * 4 => ShownByte(frame, w, h, rotation, o))
  }

  /** The store that writes byte `o` of the picture. */
  function Writer(o: nat, w: nat, h: nat, rotation: nat): PixelStore
    requires 0 < w && o / 4 < Area(w, h)
  {
    var k := Shown(o / 4, Area(w, h), rotation);
    PixelStore(ThreadFor(Column(k, w), Row(k, w)), o % 4)
  }

  lemma WriterWrites(o: nat, w: nat, h: nat, rotation: nat)
    requires o / 4 < Area(w, h)
    ensures 0 < w && PixelIssued(Writer(o, w, h, rotation), w, h)
    ensures PixelTarget(Writer(o, w, h, rotation), w, h, rotation) == o
  {
    hide At, Area, Row, Column, Thread.InGrid, Thread.X, Thread.Y, ThreadFor;
    var k := Shown(o / 4, Area(w, h), rotation);
    CellOf(k, w, h);
    GridCovers(Column(k, w), Row(k, w), w, h);
    Opposite(Column(k, w), Row(k, w), w - 1, w, h);
  }

  lemma WriterIsUnique(s: PixelStore, w: nat, h: nat, rotation: nat)
    requires PixelIssued(s, w, h)
    ensures 0 < w && 0 <= PixelTarget(s, w, h, rotation) < Area(w, h) * 4
    ensures Writer(PixelTarget(s, w, h, rotation), w, h, rotation) == s
  {
    hide At, Area, Row, Column, Thread.InGrid, Thread.X, Thread.Y, ThreadFor;
    var x, y := s.thread.X(), s.thread.Y();
    Cell(x, y, w, h);
    Opposite(x, y, w - 1, w, h);
    ThreadIsUnique(s.thread, w, h);
  }

  ghost predicate PixelLaunch(schedule: seq<PixelStore>, w: nat, h: nat) {
    && (forall s <- schedule :: PixelIssued(s, w, h))
    && (forall s | PixelIssued(s, w, h) :: s in schedule)
  }

  lemma PixelLaunchExists(w: nat, h: nat) returns (schedule: seq<PixelStore>)
    ensures PixelLaunch(schedule, w, h) && |schedule| == Area(w, h) * 4
  {
    hide PixelIssued, PixelTarget, Writer, Area;
    var size := Area(w, h) * 4;
    schedule := seq(size, o requires 0 <= o < size => WriterWrites(o, w, h, 0); Writer(o, w, h, 0));
    forall s <- schedule ensures PixelIssued(s, w, h) {
      var o: nat :| o < |schedule| && schedule[o] == s;
      WriterWrites(o, w, h, 0);
    }
    forall s | PixelIssued(s, w, h) ensures s in schedule {
      WriterIsUnique(s, w, h, 0);
      assert schedule[PixelTarget(s, w, h, 0)] == s;
    }
  }

  lemma StoreIsPicture(frame: seq<Byte>, s: PixelStore, w: nat, h: nat, rotation: nat)
    requires Even(w, h) && |frame| == FrameBytes(w, h) && PixelIssued(s, w, h)
    ensures s.thread.X() < w && s.thread.Y() < h && s.channel < 4
    ensures var o := PixelTarget(s, w, h, rotation);
            && 0 <= o < Area(w, h) * 4
            && Rgba(frame, w, h, rotation)[o] == PixelAt(frame, s.thread.X(), s.thread.Y(), w, h)[s.channel]
  {
    hide At, Area, FrameBytes, Row, Column, Thread.InGrid, Thread.X, Thread.Y, ThreadFor, PixelAt, PixelTarget;
    WriterIsUnique(s, w, h, rotation);
    var o := PixelTarget(s, w, h, rotation);
    var k := Shown(o / 4, Area(w, h), rotation);
    CellOf(k, w, h);
    GridCovers(Column(k, w), Row(k, w), w, h);
  }

  /** Whatever the schedule, the output ends up as the picture of the frame. */
  method ToRgba(nv12: array<Byte>, out: array<Byte>, w: nat, h: nat, rotation: nat, schedule: seq<PixelStore>)
    requires Even(w, h) && nv12.Length == FrameBytes(w, h) && out.Length == Area(w, h) * 4 && nv12 != out
    requires PixelLaunch(schedule, w, h)
    modifies out
    ensures out[..] == Rgba(nv12[..], w, h, rotation)
  {
    hide PixelIssued, PixelTarget, PixelAt, Rgba, Writer, Area, FrameBytes;
    ghost var stored: set<nat> := {};
    for i := 0 to |schedule|
      invariant forall o <- stored :: o < out.Length && out[o] == Rgba(nv12[..], w, h, rotation)[o]
      invariant forall j | 0 <= j < i :: PixelTarget(schedule[j], w, h, rotation) in stored
    {
      var s := schedule[i];
      StoreIsPicture(nv12[..], s, w, h, rotation);
      out[PixelTarget(s, w, h, rotation)] := PixelAt(nv12[..], s.thread.X(), s.thread.Y(), w, h)[s.channel];
      stored := stored + {PixelTarget(s, w, h, rotation)};
    }
    forall o | 0 <= o < out.Length ensures out[o] == Rgba(nv12[..], w, h, rotation)[o] {
      WriterWrites(o, w, h, rotation);
      assert Writer(o, w, h, rotation) in schedule;
    }
    assert out[..] == Rgba(nv12[..], w, h, rotation);
  }

  // ---------------------------------------------------------------- the two kernels agree

  lemma TurnedIndexes(x: nat, y: nat, w: nat, h: nat)
    requires Even(w, h) && x < w && y < h
    ensures 0 <= At(x, y, w) && Turned(At(x, y, w), Area(w, h)) == At(w - 1 - x, h - 1 - y, w)
    ensures var c := ChromaAt(x, y, w, h);
            && 0 <= c && Turned(c, Area(w, h)) == ChromaAt(w - 1 - x, h - 1 - y, w, h)
            && Turned(c + 1, Area(w, h)) == ChromaAt(w - 1 - x, h - 1 - y, w, h) + 1
  {
    hide At, Area, FrameBytes;
    Halves(w, h);
    ChromaInside(x, y, w, h);
    Opposite(x, y, w - 1, w, h);
    Opposite(x - x % 2, y / 2, w - 2, w, h / 2);
    assert (h - 1 - y) / 2 == h / 2 - 1 - y / 2;
    assert (w - 1 - x) - (w - 1 - x) % 2 == w - 2 - (x - x % 2);
  }

  lemma OppositePixel(frame: seq<Byte>, x: nat, y: nat, w: nat, h: nat)
    requires Even(w, h) && |frame| == FrameBytes(w, h) && x < w && y < h
    ensures PixelAt(frame, w - 1 - x, h - 1 - y, w, h) == PixelAt(Rotated(frame, w, h), x, y, w, h)
  {
    hide Turned, ChromaAt, At, Area, FrameBytes, Pixel;
    ChromaInside(x, y, w, h);
    TurnedIndexes(x, y, w, h);
  }

  /** Converting with a rotation is converting the rotated frame: a consumer of RGBA and a consumer of NV12
      see the same picture. */
  lemma KernelsAgree(frame: seq<Byte>, w: nat, h: nat)
    requires Even(w, h) && |frame| == FrameBytes(w, h)
    ensures Rgba(frame, w, h, 180) == Rgba(Rotated(frame, w, h), w, h, 0)
  {
    hide PixelAt, Rotated, At, Area, FrameBytes, Row, Column;
    var area := Area(w, h);
    forall o | 0 <= o < area * 4
      ensures Rgba(frame, w, h, 180)[o] == Rgba(Rotated(frame, w, h), w, h, 0)[o]
    {
      CellOf(o / 4, w, h);
      var x, y := Column(o / 4, w), Row(o / 4, w);
      Opposite(x, y, w - 1, w, h);
      Cell(w - 1 - x, h - 1 - y, w, h);
      OppositePixel(frame, x, y, w, h);
    }
  }
}
