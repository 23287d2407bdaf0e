/** The channel-multiplexed binary frames of the tunnel: a 13-byte header
    [kind u8][channel u32le][seq u32le][len u32le], then the payload. The gateway and the
    agent each carry a copy of this codec. */
module FrameCodec {
  import opened Sequences
  import opened Bytes
  import opened Options

  const HEADER_BYTES := 13
  const U32 := 0x1_0000_0000

  datatype Frame = Frame(kind: nat, channel: nat, seqNo: nat, data: seq<byte>)

  predicate InRange(f: Frame) {
    f.kind < 256 && f.channel < U32 && f.seqNo < U32 && |f.data| < U32
  }

  // ---- the wire form ----------------------------------------------------------

  function LittleEndian(n: nat): (b: seq<byte>)
    requires n < U32
    ensures |b| == 4
  {
    [(n % 256) as byte, (n / 0x100 % 256) as byte, (n / 0x1_0000 % 256) as byte, (n / 0x100_0000) as byte]
  }

  function ReadU32(b: seq<byte>, at: nat): nat
    requires at + 4 <= |b|
    ensures ReadU32(b, at) < U32
  {
    b[at] as int + 0x100 * b[at + 1] as int + 0x1_0000 * b[at + 2] as int + 0x100_0000 * b[at + 3] as int
  }

  function Header(f: Frame): (h: seq<byte>)
    requires InRange(f)
    ensures |h| == HEADER_BYTES
  {
    [f.kind as byte] + LittleEndian(f.channel) + LittleEndian(f.seqNo) + LittleEndian(|f.data|)
  }

  function Encode(f: Frame): seq<byte>
    requires InRange(f)
  {
    Header(f) + f.data
  }

  function EncodeAll(frames: seq<Frame>): seq<byte>
    requires forall i :: 0 <= i < |frames| ==> InRange(frames[i])
  {
    if frames == [] then [] else Encode(frames[0]) + EncodeAll(frames[1..])
  }

  // ---- reading it back --------------------------------------------------------

  /** Whether the bytes begin with one complete frame. */
  predicate Complete(b: seq<byte>) {
    |b| >= HEADER_BYTES && |b| >= HEADER_BYTES + ReadU32(b, 9)
  }

  function FrameLength(b: seq<byte>): nat
    requires Complete(b)
  {
    HEADER_BYTES + ReadU32(b, 9)
  }

  function FirstFrame(b: seq<byte>): Frame
    requires Complete(b)
  {
    Frame(b[0] as int, ReadU32(b, 1), ReadU32(b, 5), b[HEADER_BYTES..FrameLength(b)])
  }

  /** Every complete frame at the front of the bytes, and what is left over. */
  function ParseAll(b: seq<byte>): (r: (seq<Frame>, seq<byte>))
    decreases |b|
  {
    if !Complete(b) then ([], b)
    else
      var (frames, rest) := ParseAll(b[FrameLength(b)..]);
      ([FirstFrame(b)] + frames, rest)
  }

  /** The frames of successive pushes, and the buffer after them. */
  function PushAll(buf: seq<byte>, chunks: seq<seq<byte>>): (seq<Frame>, seq<byte>)
    decreases chunks
  {
    if chunks == [] then ([], buf)
    else
      var (frames, buf') := ParseAll(buf + chunks[0]);
      var (more, rest) := PushAll(buf', chunks[1..]);
      (frames + more, rest)
  }

  // ---- one frame --------------------------------------------------------------

  lemma FourDigits(n: nat)
    requires n < U32
    ensures n == n % 256 + 0x100 * (n / 0x100 % 256) + 0x1_0000 * (n / 0x1_0000 % 256) + 0x100_0000 * (n / 0x100_0000)
  {
    assert n / 0x1_0000 == n / 0x100 / 0x100;
    assert n / 0x100_0000 == n / 0x1_0000 / 0x100;
  }

  lemma DigitsOf(b0: nat, b1: nat, b2: nat, b3: nat)
    requires b0 < 256 && b1 < 256 && b2 < 256 && b3 < 256
    ensures var n := b0 + 0x100 * b1 + 0x1_0000 * b2 + 0x100_0000 * b3;
            n < U32 && n % 256 == b0 && n / 0x100 % 256 == b1 && n / 0x1_0000 % 256 == b2 && n / 0x100_0000 == b3
  {
    var n := b0 + 0x100 * b1 + 0x1_0000 * b2 + 0x100_0000 * b3;
    assert n / 0x100 == b1 + 0x100 * b2 + 0x1_0000 * b3;
    assert n / 0x1_0000 == b2 + 0x100 * b3;
  }

  lemma LittleEndianReads(n: nat, b: seq<byte>, at: nat)
    requires n < U32 && at + 4 <= |b| && b[at..at + 4] == LittleEndian(n)
    ensures ReadU32(b, at) == n
  {
    var digits := b[at..at + 4];
    assert b[at] == digits[0] && b[at + 1] == digits[1] && b[at + 2] == digits[2] && b[at + 3] == digits[3];
    FourDigits(n);
  }

  lemma ReadU32Writes(b: seq<byte>, at: nat)
    requires at + 4 <= |b|
    ensures LittleEndian(ReadU32(b, at)) == b[at..at + 4]
  {
    DigitsOf(b[at] as int, b[at + 1] as int, b[at + 2] as int, b[at + 3] as int);
  }

  /** A header is read back field by field, whatever follows it. */
  lemma HeaderReads(f: Frame, more: seq<byte>)
    requires InRange(f)
    ensures var b := Header(f) + more;
            b[0] as int == f.kind && ReadU32(b, 1) == f.channel && ReadU32(b, 5) == f.seqNo && ReadU32(b, 9) == |f.data|
  {
    var b := Header(f) + more;
    assert b[1..5] == LittleEndian(f.channel);
    assert b[5..9] == LittleEndian(f.seqNo);
    assert b[9..13] == LittleEndian(|f.data|);
    LittleEndianReads(f.channel, b, 1);
    LittleEndianReads(f.seqNo, b, 5);
    LittleEndianReads(|f.data|, b, 9);
  }

  lemma EncodedFrameParses(f: Frame, more: seq<byte>)
    requires InRange(f)
    ensures var b := Encode(f) + more;
            Complete(b) && FirstFrame(b) == f && b[FrameLength(b)..] == more
  {
    var b := Encode(f) + more;
    assert b == Header(f) + (f.data + more);
    HeaderReads(f, f.data + more);
  }

  /** Re-encoding the first frame gives back the bytes it was read from. */
  lemma FirstFrameEncodes(b: seq<byte>)
    requires Complete(b)
    ensures InRange(FirstFrame(b)) && Encode(FirstFrame(b)) == b[..FrameLength(b)]
  {
    ReadU32Writes(b, 1);
    ReadU32Writes(b, 5);
    ReadU32Writes(b, 9);
    assert b[..13] == [b[0]] + b[1..5] + b[5..9] + b[9..13];
    assert b[..FrameLength(b)] == b[..13] + b[13..FrameLength(b)];
  }

  // ---- whole streams ----------------------------------------------------------

  lemma {:induction false} EncodeAllConcat(a: seq<Frame>, b: seq<Frame>)
    requires forall i :: 0 <= i < |a| ==> InRange(a[i])
    requires forall i :: 0 <= i < |b| ==> InRange(b[i])
    ensures EncodeAll(a + b) == EncodeAll(a) + EncodeAll(b)
  {
    if a == [] {
      assert a + b == b;
    } else {
      assert (a + b)[1..] == a[1..] + b;
      EncodeAllConcat(a[1..], b);
    }
  }

  /** For arbitrary bytes: the frames re-encode to exactly the bytes consumed, and what is
      left over holds no complete frame. */
  lemma {:induction false} ParseConserves(b: seq<byte>)
    ensures forall i :: 0 <= i < |ParseAll(b).0| ==> InRange(ParseAll(b).0[i])
    ensures EncodeAll(ParseAll(b).0) + ParseAll(b).1 == b
    ensures !Complete(ParseAll(b).1)
    decreases |b|
  {
    if Complete(b) {
      var n := FrameLength(b);
      var (frames, rest) := ParseAll(b[n..]);
      FirstFrameEncodes(b);
      ParseConserves(b[n..]);
      assert ([FirstFrame(b)] + frames)[1..] == frames;
      Grouped(b[..n], EncodeAll(frames), rest);
      assert b == b[..n] + b[n..];
    }
  }

  /** Any frames followed by an incomplete tail are read back as they are. */
  lemma {:induction false} ParseEncoded(frames: seq<Frame>, tail: seq<byte>)
    requires forall i :: 0 <= i < |frames| ==> InRange(frames[i])
    requires !Complete(tail)
    ensures ParseAll(EncodeAll(frames) + tail) == (frames, tail)
  {
    if frames == [] {
      assert EncodeAll(frames) + tail == tail;
    } else {
      var more := EncodeAll(frames[1..]) + tail;
      assert EncodeAll(frames) + tail == Encode(frames[0]) + more;
      EncodedFrameParses(frames[0], more);
      ParseEncoded(frames[1..], tail);
      assert [frames[0]] + frames[1..] == frames;
    }
  }

  lemma ParseIsUnique(b: seq<byte>, frames: seq<Frame>, tail: seq<byte>)
    requires forall i :: 0 <= i < |frames| ==> InRange(frames[i])
    requires EncodeAll(frames) + tail == b && !Complete(tail)
    ensures ParseAll(b) == (frames, tail)
  {
    ParseEncoded(frames, tail);
  }

  lemma Splice(x: seq<byte>, left: seq<byte>, y: seq<byte>, rest: seq<byte>, b: seq<byte>)
    requires y + rest == left + b
    ensures (x + y) + rest == (x + left) + b
  {
    assert (x + y) + rest == x + (y + rest);
    assert (x + left) + b == x + (left + b);
  }

  lemma {:induction false} EncodingsJoin(
    a: seq<byte>, b: seq<byte>, first: seq<Frame>, left: seq<byte>, second: seq<Frame>, rest: seq<byte>)
    requires forall i :: 0 <= i < |first| ==> InRange(first[i])
    requires forall i :: 0 <= i < |second| ==> InRange(second[i])
    requires EncodeAll(first) + left == a && EncodeAll(second) + rest == left + b
    ensures EncodeAll(first + second) + rest == a + b
  {
    EncodeAllConcat(first, second);
    Splice(EncodeAll(first), left, EncodeAll(second), rest, b);
  }

  /** Parsing is the only way to split bytes into frames and an incomplete tail, so parsing in
      two steps is parsing once. */
  lemma ParseInTwoSteps(a: seq<byte>, b: seq<byte>)
    ensures var (first, left) := ParseAll(a);
            var (second, rest) := ParseAll(left + b);
            ParseAll(a + b) == (first + second, rest)
  {
    var (first, left) := ParseAll(a);
    var (second, rest) := ParseAll(left + b);
    ParseConserves(a);
    ParseConserves(left + b);
    EncodingsJoin(a, b, first, left, second, rest);
    ParseIsUnique(a + b, first + second, rest);
  }

  /** The result of a run of pushes does not depend on how the bytes were cut. */
  lemma {:induction false} ChunkingIsInvisible(buf: seq<byte>, chunks: seq<seq<byte>>)
    requires !Complete(buf)
    ensures PushAll(buf, chunks) == ParseAll(buf + Flat(chunks))
    decreases chunks
  {
    if chunks == [] {
      assert buf + Flat(chunks) == buf;
    } else {
      var (frames, buf') := ParseAll(buf + chunks[0]);
      ParseConserves(buf + chunks[0]);
      ChunkingIsInvisible(buf', chunks[1..]);
      ParseInTwoSteps(buf + chunks[0], Flat(chunks[1..]));
      Grouped(buf, chunks[0], Flat(chunks[1..]));
    }
  }

  /** The round trip: any frames, cut into any chunks, come out as they went in. */
  lemma {:induction false} RoundTrip(frames: seq<Frame>, chunks: seq<seq<byte>>)
    requires forall i :: 0 <= i < |frames| ==> InRange(frames[i])
    requires Flat(chunks) == EncodeAll(frames)
    ensures PushAll([], chunks) == (frames, [])
  {
    ChunkingIsInvisible([], chunks);
    ParseEncoded(frames, []);
    assert [] + Flat(chunks) == EncodeAll(frames) + [];
  }

  /** Nothing is lost or made up: frames returned so far and the buffer are all the bytes fed. */
  lemma PushesConserve(chunks: seq<seq<byte>>)
    ensures forall i :: 0 <= i < |PushAll([], chunks).0| ==> InRange(PushAll([], chunks).0[i])
    ensures EncodeAll(PushAll([], chunks).0) + PushAll([], chunks).1 == Flat(chunks)
    ensures !Complete(PushAll([], chunks).1)
  {
    ChunkingIsInvisible([], chunks);
    ParseConserves([] + Flat(chunks));
    assert [] + Flat(chunks) == Flat(chunks);
  }

  // ---- the code ---------------------------------------------------------------

  /** `>>> 0` on an integer: its value as an unsigned 32-bit word. */
  function Word(n: int): nat { n % U32 }

  method WriteU32LE(head: array<byte>, n: nat, at: nat)
    requires n < U32 && at + 4 <= head.Length
    modifies head
    ensures head[..] == old(head[..at]) + LittleEndian(n) + old(head[at + 4..])
  {
    head[at] := (n % 256) as byte;
    head[at + 1] := (n / 0x100 % 256) as byte;
    head[at + 2] := (n / 0x1_0000 % 256) as byte;
    head[at + 3] := (n / 0x100_0000) as byte;
  }

  /** Out-of-range kinds and ids are truncated to the wire width; an oversized payload throws. */
  method EncodeFrame(kind: int, channel: int, seqNo: int, payload: seq<byte>) returns (r: Option<seq<byte>>)
    ensures r.None? <==> |payload| >= U32
    ensures r.Some? ==> r.value == Encode(Frame(kind % 256, Word(channel), Word(seqNo), payload))
  {
    var head := new byte[HEADER_BYTES](_ => 0);
    head[0] := (kind % 256) as byte;
    WriteU32LE(head, Word(channel), 1);
    WriteU32LE(head, Word(seqNo), 5);
    if |payload| >= U32 {
      return None;
    }
    WriteU32LE(head, |payload|, 9);
    var frame := Frame(kind % 256, Word(channel), Word(seqNo), payload);
    assert head[..] == Header(frame);
    return Some(head[..] + payload);
  }

  class BinaryFrameParser {
    var buf: seq<byte>

    constructor ()
      ensures buf == []
    {
      buf := [];
    }

    method Push(chunk: seq<byte>) returns (frames: seq<Frame>)
      modifies this
      ensures (frames, buf) == ParseAll(old(buf) + chunk)
    {
      buf := buf + chunk;
      frames := [];
      assert [] + ParseAll(buf).0 == ParseAll(buf).0;
      while true
        invariant ParseAll(old(buf) + chunk) == (frames + ParseAll(buf).0, ParseAll(buf).1)
        decreases |buf|
      {
        if |buf| < HEADER_BYTES { break; }
        var kind := buf[0] as int;
        var channel := ReadU32(buf, 1);
        var seqNo := ReadU32(buf, 5);
        var len := ReadU32(buf, 9);
        if |buf| < HEADER_BYTES + len { break; }
        var data := buf[HEADER_BYTES..HEADER_BYTES + len];
        ghost var was := buf;
        buf := buf[HEADER_BYTES + len..];
        assert ParseAll(was) == ([FirstFrame(was)] + ParseAll(buf).0, ParseAll(buf).1);
        assert frames + ([FirstFrame(was)] + ParseAll(buf).0) == frames + [FirstFrame(was)] + ParseAll(buf).0;
        frames := frames + [Frame(kind, channel, seqNo, data)];
      }
      assert !Complete(buf) && frames + [] == frames;
    }
  }
}
