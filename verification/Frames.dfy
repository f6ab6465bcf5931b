/** The frames the server sends: a little-endian byte count, a player tag of three
    digits and a NUL, and the command with its NUL. */
module Frames {
  import opened Bytes

  const MAX_PLAYER := 4
  const RECEIVE_MAX := 4096
  /** The longest command whose frame fits the receive buffer: 8 bytes of header and a NUL. */
  const COMMAND_MAX := RECEIVE_MAX - 9

  datatype Frame = Frame(id: nat, cmd: Bytes)

  /** A uint32_t as it lies in memory. */
  function LE32(n: nat): (b: Bytes)
    ensures |b| == 4
  {
    [n % 0x100, n / 0x100 % 0x100, n / 0x1_0000 % 0x100, n / 0x100_0000 % 0x100]
  }

  /** The first four bytes as the client reads them: a signed 32-bit integer. */
  function BlockLen(b: Bytes): int
    requires |b| >= 4
  {
    var b0: int, b1: int, b2: int, b3: int := b[0], b[1], b[2], b[3];
    var u := b0 + 0x100 * b1 + 0x1_0000 * b2 + 0x100_0000 * b3;
    if u < 0x8000_0000 then u else u - 0x1_0000_0000
  }

  /** digit_atoi, of a signed char and without a check that it is a digit. */
  function DigitValue(c: byte): int {
    if c < 128 then c - 48 else c - 256 - 48
  }

  /** fixed_atoi */
  function PlayerId(b: Bytes): int
    requires |b| >= 8
  {
    DigitValue(b[4]) * 100 + DigitValue(b[5]) * 10 + DigitValue(b[6])
  }

  const INT_MAX := 0x7FFF_FFFF

  /** The client is waiting for more bytes of the frame at the front. */
  predicate Waits(b: Bytes) {
    |b| < 8 || |b| < 8 + BlockLen(b) <= INT_MAX
  }

  /** A header whose frame the client can handle: with any other, its arithmetic or its
      memory accesses are undefined in C, unless the id stops it first. */
  predicate GoodHeader(b: Bytes)
    requires |b| >= 8
  {
    1 <= BlockLen(b) <= INT_MAX - 8 && PlayerId(b) >= 0
  }

  predicate HasFrame(b: Bytes) {
    |b| >= 8 && GoodHeader(b) && |b| >= 8 + BlockLen(b)
  }

  function FrameLen(b: Bytes): nat
    requires HasFrame(b)
  {
    8 + BlockLen(b)
  }

  function HeadFrame(b: Bytes): Frame
    requires HasFrame(b)
  {
    Frame(PlayerId(b), b[8..FrameLen(b) - 1])
  }

  /** All the complete frames at the front of b, and what they leave. */
  function Deframe(b: Bytes): seq<Frame> {
    if HasFrame(b) then [HeadFrame(b)] + Deframe(b[FrameLen(b)..]) else []
  }

  function DeframeRest(b: Bytes): Bytes {
    if HasFrame(b) then DeframeRest(b[FrameLen(b)..]) else b
  }

  /** Three digits can hold the tag, and a signed 32-bit int the frame's length. */
  predicate Sendable(f: Frame) {
    f.id < 1000 && |f.cmd| + 9 <= INT_MAX
  }

  ghost predicate AllSendable(fs: seq<Frame>) {
    forall i :: 0 <= i < |fs| ==> Sendable(fs[i])
  }

  function FrameBytes(f: Frame): (b: Bytes)
    ensures |b| == |f.cmd| + 9
  {
    LE32(|f.cmd| + 1) + [48 + f.id / 100 % 10, 48 + f.id / 10 % 10, 48 + f.id % 10, NUL] + f.cmd + [NUL]
  }

  function Stream(fs: seq<Frame>): Bytes {
    if fs == [] then [] else FrameBytes(fs[0]) + Stream(fs[1..])
  }

  /** The bytes a frame sequence takes on the wire. */
  function StreamLen(fs: seq<Frame>): nat {
    if fs == [] then 0 else |fs[0].cmd| + 9 + StreamLen(fs[1..])
  }

  /** The byte count the server writes is the one the client reads. */
  lemma LengthRoundTrip(n: nat, b: Bytes)
    requires n < 0x8000_0000 && |b| >= 4
    requires b[0] == LE32(n)[0] && b[1] == LE32(n)[1] && b[2] == LE32(n)[2] && b[3] == LE32(n)[3]
    ensures BlockLen(b) == n
  {
    var b0: int, b1: int, b2: int, b3: int := b[0], b[1], b[2], b[3];
    assert n / 0x1_0000 == 0x100 * b3 + b2;
    assert n / 0x100 == 0x100 * (n / 0x1_0000) + b1;
    assert n == 0x100 * (n / 0x100) + b0;
  }

  /** What is decoded from the front of the buffer is exactly what was framed there. */
  lemma HeadOfFrame(f: Frame, t: Bytes)
    requires Sendable(f)
    ensures HasFrame(FrameBytes(f) + t) && HeadFrame(FrameBytes(f) + t) == f
    ensures FrameLen(FrameBytes(f) + t) == |FrameBytes(f)|
    ensures (FrameBytes(f) + t)[|FrameBytes(f)|..] == t
  {
    hide BlockLen, LE32;
    var b := FrameBytes(f) + t;
    var n := |f.cmd| + 1;
    Parts(LE32(n), [48 + f.id / 100 % 10, 48 + f.id / 10 % 10, 48 + f.id % 10, NUL], f.cmd, t);
    LengthRoundTrip(n, b);
    TagValue(f.id, b);
    hide PlayerId;
  }

  lemma TagValue(id: nat, b: Bytes)
    requires id < 1000 && |b| >= 8
    requires b[4] == 48 + id / 100 % 10 && b[5] == 48 + id / 10 % 10 && b[6] == 48 + id % 10
    ensures PlayerId(b) == id
  {
    hide BlockLen, LE32;
    var x, y, z := id / 100 % 10, id / 10 % 10, id % 10;
    ThreeDigits(id);
    assert PlayerId(b) == x * 100 + y * 10 + z;
  }

  /** Where the parts of a frame lie. */
  lemma Parts(count: Bytes, tag: Bytes, cmd: Bytes, t: Bytes)
    requires |count| == |tag| == 4
    ensures var b := count + tag + cmd + [NUL] + t;
            && |b| == 9 + |cmd| + |t| && b[8..8 + |cmd|] == cmd
            && forall i :: 0 <= i < 4 ==> b[i] == count[i] && b[4 + i] == tag[i]
  {
  }

  /** A frame on the wire, byte by byte: the count in four bytes, least significant first, three
      decimal digits and a NUL, and the command with its NUL. */
  lemma FrameBytesAre(f: Frame)
    requires Sendable(f)
    ensures var b := FrameBytes(f);
            var b0: int, b1: int, b2: int, b3: int := b[0], b[1], b[2], b[3];
            var x: int, y: int, z: int := b[4] as int - 48, b[5] as int - 48, b[6] as int - 48;
            && b0 + 256 * b1 + 65536 * b2 + 16777216 * b3 == |f.cmd| + 1
            && 0 <= x <= 9 && 0 <= y <= 9 && 0 <= z <= 9 && b[7] == 0
            && 100 * x + 10 * y + z == f.id
            && b[8..|b| - 1] == f.cmd && b[|b| - 1] == 0
  {
    var n, tag: Bytes := |f.cmd| + 1, [48 + f.id / 100 % 10, 48 + f.id / 10 % 10, 48 + f.id % 10, NUL];
    CountBytes(n);
    ThreeDigits(f.id);
    Parts(LE32(n), tag, f.cmd, []);
    assert FrameBytes(f) == LE32(n) + tag + f.cmd + [NUL] + [];
    hide LE32, FrameBytes;
    var b := FrameBytes(f);
    assert b[4] == tag[0] && b[5] == tag[1] && b[6] == tag[2] && b[7] == tag[3];
  }

  lemma ThreeDigits(id: nat)
    requires id < 1000
    ensures 100 * (id / 100 % 10) + 10 * (id / 10 % 10) + id % 10 == id
  {
    var tens := id / 10;
    assert tens / 10 == id / 100 < 10;
    assert id == 10 * tens + id % 10 && tens == 10 * (tens / 10) + tens % 10;
  }

  lemma CountBytes(n: nat)
    requires n <= INT_MAX
    ensures var b := LE32(n);
            var b0: int, b1: int, b2: int, b3: int := b[0], b[1], b[2], b[3];
            b0 + 256 * b1 + 65536 * b2 + 16777216 * b3 == n
  {
    FourDigits(n);
  }

  lemma FourDigits(n: nat)
    requires n < 0x1_0000_0000
    ensures n % 256 + 256 * (n / 256 % 256) + 65536 * (n / 65536 % 256) + 16777216 * (n / 16777216 % 256) == n
  {
    var a, b := n / 256, n / 65536;
    assert a / 256 == b && b / 256 == n / 16777216;
  }

  /** The header as the client reads it, in the bytes' own values. */
  lemma HeaderIs(b: Bytes)
    requires |b| >= 8
    ensures var b0: int, b1: int, b2: int, b3: int := b[0], b[1], b[2], b[3];
            var n := b0 + 256 * b1 + 65536 * b2 + 16777216 * b3;
            BlockLen(b) == if n < 2147483648 then n else n - 4294967296
    ensures var x: int, y: int, z: int := b[4] as int - 48, b[5] as int - 48, b[6] as int - 48;
            && (0 <= x <= 9 && 0 <= y <= 9 && 0 <= z <= 9 ==> PlayerId(b) == 100 * x + 10 * y + z)
            && (b[4] < 128 && b[5] < 128 && b[6] >= 128 ==> PlayerId(b) == 100 * x + 10 * y + z - 256)
  {
  }

  /** A frame complete in a is the same frame in every extension of a. */
  lemma HeadAppend(a: Bytes, b: Bytes)
    requires HasFrame(a)
    ensures HasFrame(a + b) && HeadFrame(a + b) == HeadFrame(a) && FrameLen(a + b) == FrameLen(a)
    ensures (a + b)[FrameLen(a)..] == a[FrameLen(a)..] + b
  {
    forall i | 0 <= i < 8
      ensures (a + b)[i] == a[i]
    {
    }
  }

  /** Client deframing is chunk-independent. */
  lemma {:induction false} DeframeAppend(a: Bytes, b: Bytes)
    ensures Deframe(a + b) == Deframe(a) + Deframe(DeframeRest(a) + b)
    ensures DeframeRest(a + b) == DeframeRest(DeframeRest(a) + b)
    decreases |a|
  {
    if HasFrame(a) {
      HeadAppend(a, b);
      DeframeAppend(a[FrameLen(a)..], b);
    }
  }

  lemma DeframeCons(f: Frame, t: Bytes)
    requires Sendable(f)
    ensures Deframe(FrameBytes(f) + t) == [f] + Deframe(t)
    ensures DeframeRest(FrameBytes(f) + t) == DeframeRest(t)
  {
    HeadOfFrame(f, t);
  }

  /** Decoding inverts framing, whatever follows. */
  lemma {:induction false} DeframeStream(fs: seq<Frame>, t: Bytes)
    requires AllSendable(fs)
    ensures Deframe(Stream(fs) + t) == fs + Deframe(t)
    ensures DeframeRest(Stream(fs) + t) == DeframeRest(t)
  {
    if fs == [] {
      assert Stream(fs) + t == t;
    } else {
      var more := Stream(fs[1..]) + t;
      assert Stream(fs) + t == FrameBytes(fs[0]) + more;
      DeframeCons(fs[0], more);
      DeframeStream(fs[1..], t);
      Uncons(fs, Deframe(t));
    }
  }

  lemma {:induction false} StreamAppend(a: seq<Frame>, b: seq<Frame>)
    ensures Stream(a + b) == Stream(a) + Stream(b)
  {
    if a == [] {
      assert a + b == b;
    } else {
      assert (a + b)[1..] == a[1..] + b;
      StreamAppend(a[1..], b);
    }
  }

  lemma {:induction false} StreamLength(fs: seq<Frame>)
    ensures |Stream(fs)| == StreamLen(fs)
  {
    if fs != [] {
      StreamLength(fs[1..]);
    }
  }

  /** Every byte of the buffer is in a decoded frame or left over at the end. */
  lemma {:induction false} DeframeConserves(b: Bytes)
    ensures |b| == StreamLen(Deframe(b)) + |DeframeRest(b)|
    ensures DeframeRest(b) == b[StreamLen(Deframe(b))..]
    ensures !HasFrame(DeframeRest(b))
    decreases |b|
  {
    if HasFrame(b) {
      DeframeConserves(b[FrameLen(b)..]);
      var fs := Deframe(b[FrameLen(b)..]);
      assert ([HeadFrame(b)] + fs)[1..] == fs;
    }
  }

  lemma SplitStream(fs: seq<Frame>, n: nat)
    requires n <= |fs|
    ensures Stream(fs) == Stream(fs[..n]) + Stream(fs[n..])
    ensures |Stream(fs[..n])| == StreamLen(fs[..n])
  {
    assert fs == fs[..n] + fs[n..];
    StreamAppend(fs[..n], fs[n..]);
    StreamLength(fs[..n]);
  }

  lemma DropPrefix(b: Bytes, t: Bytes, p: Bytes, q: Bytes)
    requires b + t == p + q && |p| <= |b|
    ensures b[|p|..] + t == q
  {
    assert (b + t)[|p|..] == b[|p|..] + t;
    assert (p + q)[|p|..] == q;
  }

  lemma PartialFrames(fs: seq<Frame>, b: Bytes, t: Bytes) returns (n: nat)
    requires AllSendable(fs)
    requires b + t == Stream(fs)
    ensures n <= |fs| && Deframe(b) == fs[..n]
  {
    n := |Deframe(b)|;
    DeframeStream(fs, []);
    assert Stream(fs) + [] == b + t;
    DeframeAppend(b, t);
    assert fs == Deframe(b) + Deframe(DeframeRest(b) + t);
  }

  /** b is however much of a frame stream has arrived and t is still to come: what b
      completes is a prefix of the frames, and the rest is still owed. */
  lemma PartialStream(fs: seq<Frame>, b: Bytes, t: Bytes)
    requires AllSendable(fs)
    requires b + t == Stream(fs)
    ensures |Deframe(b)| <= |fs| && Deframe(b) == fs[..|Deframe(b)|]
    ensures DeframeRest(b) + t == Stream(fs[|Deframe(b)|..])
  {
    var n := PartialFrames(fs, b, t);
    SplitStream(fs, n);
    DeframeConserves(b);
    DropPrefix(b, t, Stream(fs[..n]), Stream(fs[n..]));
  }

  /** The buffer holds an unfinished frame, or nothing, once decoding stops. */
  lemma LeftoverIsShort(fs: seq<Frame>, b: Bytes, t: Bytes)
    requires AllSendable(fs)
    requires b + t == Stream(fs) && !HasFrame(b)
    ensures fs == [] ==> b == []
    ensures fs != [] ==> |b| < |fs[0].cmd| + 9
  {
    if fs != [] && |b| >= |fs[0].cmd| + 9 {
      var f := FrameBytes(fs[0]);
      assert Stream(fs)[..|f|] == f;
      assert b[..|f|] == (b + t)[..|f|];
      assert b == f + b[|f|..];
      HeadOfFrame(fs[0], b[|f|..]);
    }
  }

  // ---- headers

  /** No bad header shows in b, as far as it has arrived. */
  ghost predicate GoodHeaders(b: Bytes) {
    |b| >= 8 ==> GoodHeader(b) && (HasFrame(b) ==> GoodHeaders(b[FrameLen(b)..]))
  }

  /** Without bad headers, decoding stops only to wait. */
  lemma {:induction false} LeftoverWaits(b: Bytes)
    requires GoodHeaders(b)
    ensures Waits(DeframeRest(b))
    decreases |b|
  {
    if HasFrame(b) {
      LeftoverWaits(b[FrameLen(b)..]);
    }
  }

  /** A header is read from eight bytes only. */
  lemma SameHeader(a: Bytes, b: Bytes)
    requires |a| >= 8 && |b| >= 8 && a[..8] == b[..8]
    ensures BlockLen(a) == BlockLen(b) && (GoodHeader(a) <==> GoodHeader(b))
  {
    forall i | 0 <= i < 8
      ensures a[i] == b[i]
    {
      assert a[i] == a[..8][i] && b[i] == b[..8][i];
    }
  }

  /** However much of a frame stream has arrived, it never shows the client a bad header. */
  lemma {:induction false} PartialHeaders(fs: seq<Frame>, b: Bytes, t: Bytes)
    requires AllSendable(fs) && b + t == Stream(fs)
    ensures GoodHeaders(b)
    decreases |b|
  {
    hide BlockLen, GoodHeader, FrameBytes, PlayerId;
    if |b| >= 8 {
      var more := Stream(fs[1..]);
      HeadOfFrame(fs[0], more);
      assert (b + t)[..8] == b[..8];
      SameHeader(b, b + t);
      if HasFrame(b) {
        HeadAppend(b, t);
        PartialHeaders(fs[1..], b[FrameLen(b)..], t);
      }
    }
  }

  // The local server tags every frame with player 000.

  function LocalFrames(cmds: seq<Bytes>): (fs: seq<Frame>)
    ensures |fs| == |cmds|
    ensures forall i :: 0 <= i < |cmds| ==> fs[i] == Frame(0, cmds[i])
  {
    seq(|cmds|, i requires 0 <= i < |cmds| => Frame(0, cmds[i]))
  }

  function LocalStream(cmds: seq<Bytes>): Bytes {
    Stream(LocalFrames(cmds))
  }

  lemma LocalStreamEmpty()
    ensures LocalStream([]) == []
  {
    assert LocalFrames([]) == [];
  }

  lemma LocalStreamAppend(a: seq<Bytes>, b: seq<Bytes>)
    ensures LocalStream(a + b) == LocalStream(a) + LocalStream(b)
  {
    assert LocalFrames(a + b) == LocalFrames(a) + LocalFrames(b);
    StreamAppend(LocalFrames(a), LocalFrames(b));
  }

  lemma LocalStreamOne(c: Bytes)
    ensures LocalStream([c]) == FrameBytes(Frame(0, c))
  {
    assert LocalFrames([c]) == [Frame(0, c)];
    assert Stream([Frame(0, c)][1..]) == [];
  }
}
