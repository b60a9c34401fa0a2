/**
 * The length-prefixed framing of the stream: four bytes of big-endian length, then the payload. Deframe
 * is the reference reading of a whole byte stream; FrameDecoder reads the same stream piece by piece.
 */
module Framing {
  import opened Bytes

  const MAX_PAYLOAD: int := 8 * 1024 * 1024

  predicate LengthOk(n: int) { 0 < n <= MAX_PAYLOAD }

  predicate PayloadOk(p: bytes) { LengthOk(|p|) }

  function Header(n: nat): (h: bytes)
    ensures |h| == 4
  {
    [n / 16777216 % 256, n / 65536 % 256, n / 256 % 256, n % 256]
  }

  function BigEndian(h: bytes): nat {
    if h == [] then 0 else BigEndian(h[..|h| - 1]) * 256 + h[|h| - 1]
  }

  function FrameOf(payload: bytes): bytes { Header(|payload|) + payload }

  lemma BigEndianSnoc(h: bytes, b: byte)
    ensures BigEndian(h + [b]) == BigEndian(h) * 256 + b
  {
    assert (h + [b])[..|h|] == h;
  }

  lemma BigEndian4(a: byte, b: byte, c: byte, d: byte)
    ensures BigEndian([a, b, c, d]) == ((a * 256 + b) * 256 + c) * 256 + d
  {
    BigEndianSnoc([], a);
    BigEndianSnoc([a], b);
    BigEndianSnoc([a, b], c);
    BigEndianSnoc([a, b, c], d);
    assert [] + [a] == [a] && [a] + [b] == [a, b] && [a, b] + [c] == [a, b, c] && [a, b, c] + [d] == [a, b, c, d];
  }

  lemma Split256(n: nat)
    ensures n == n / 256 * 256 + n % 256 && n / 256 / 256 == n / 65536
  {
  }

  /** Four bytes, the most significant first. */
  lemma HeaderValue(n: nat)
    requires n < 0x1_0000_0000
    ensures BigEndian(Header(n)) == n
    ensures var h := Header(n);
            (h[0] as int) * 0x100_0000 + (h[1] as int) * 0x1_0000 + (h[2] as int) * 0x100 + h[3] == n
  {
    BigEndian4(n / 16777216 % 256, n / 65536 % 256, n / 256 % 256, n % 256);
    Split256(n);
    Split256(n / 256);
    Split256(n / 65536);
    assert n / 65536 / 256 == n / 16777216;
  }

  lemma {:induction false} BigEndianBound(h: bytes)
    requires |h| <= 4
    ensures BigEndian(h) < if |h| == 0 then 1 else if |h| == 1 then 0x100 else if |h| == 2 then 0x1_0000
                           else if |h| == 3 then 0x100_0000 else 0x1_0000_0000
  {
    if h != [] {
      BigEndianBound(h[..|h| - 1]);
    }
  }

  function ByteShift(i: nat): nat
    requires i < 4
  {
    if i == 0 then 16777216 else if i == 1 then 65536 else if i == 2 then 256 else 1
  }

  /** Frame: the bytes of one frame, or None where the source throws length_error. */
  method Frame(payload: bytes) returns (r: Option<bytes>)
    ensures r == if PayloadOk(payload) then Some(FrameOf(payload)) else None
  {
    if payload == [] || |payload| > MAX_PAYLOAD {
      return None;
    }
    var out := new byte[4](_ => 0);
    var n := |payload|;
    for i := 0 to 4
      invariant forall k :: 0 <= k < i ==> out[k] == n / ByteShift(k) % 256
    {
      out[i] := n / ByteShift(i) % 256;
    }
    assert out[..] == [out[0], out[1], out[2], out[3]] == Header(n);
    r := Some(out[..] + payload);
  }

  // ----- The reference reading of a stream -----

  /** The payloads of the complete frames, the bytes after them, and whether those start with a bad length. */
  datatype Deframed = Deframed(frames: seq<bytes>, rest: bytes, bad: bool)

  function Deframe(s: bytes): Deframed {
    if |s| < 4 then Deframed([], s, false)
    else
      var n := BigEndian(s[..4]);
      if !LengthOk(n) then Deframed([], s, true)
      else if |s| < 4 + n then Deframed([], s, false)
      else
        var more := Deframe(s[4 + n..]);
        Deframed([s[4..4 + n]] + more.frames, more.rest, more.bad)
  }

  /** The first frame of a stream, whatever follows it. */
  lemma DeframeCons(p: bytes, s: bytes)
    requires PayloadOk(p)
    ensures Deframe(FrameOf(p) + s) == Deframed([p] + Deframe(s).frames, Deframe(s).rest, Deframe(s).bad)
  {
    var t := FrameOf(p) + s;
    HeaderValue(|p|);
    assert t[..4] == Header(|p|);
    assert t[4..4 + |p|] == p;
    assert t[4 + |p|..] == s;
  }

  /** The frames of a sequence of payloads, one after the other. */
  function Frames(payloads: seq<bytes>): bytes {
    if payloads == [] then [] else FrameOf(payloads[0]) + Frames(payloads[1..])
  }

  predicate AllPayloadsOk(payloads: seq<bytes>) {
    payloads == [] || (PayloadOk(payloads[0]) && AllPayloadsOk(payloads[1..]))
  }

  /** Something that is not yet a whole frame: a proper prefix of a frame. */
  ghost predicate Partial(part: bytes) {
    part == [] || (exists p :: PayloadOk(p) && part < FrameOf(p))
  }

  lemma DeframePartial(part: bytes)
    requires Partial(part)
    ensures Deframe(part) == Deframed([], part, false)
  {
    if part != [] && |part| >= 4 {
      var p :| PayloadOk(p) && part < FrameOf(p);
      HeaderValue(|p|);
      assert part[..4] == FrameOf(p)[..4] == Header(|p|);
    }
  }

  /** A stream of whole frames and the beginning of another is read back payload by payload. */
  lemma {:induction false} DeframeFrames(payloads: seq<bytes>, part: bytes)
    requires AllPayloadsOk(payloads) && Partial(part)
    ensures Deframe(Frames(payloads) + part) == Deframed(payloads, part, false)
  {
    if payloads == [] {
      assert [] + part == part;
      DeframePartial(part);
    } else {
      var tail := Frames(payloads[1..]) + part;
      assert Frames(payloads) + part == FrameOf(payloads[0]) + tail by {
        Glue(FrameOf(payloads[0]), Frames(payloads[1..]), part);
      }
      assert Deframe(tail) == Deframed(payloads[1..], part, false) by {
        DeframeFrames(payloads[1..], part);
      }
      DeframeCons(payloads[0], tail);
      assert [payloads[0]] + payloads[1..] == payloads;
    }
  }

  lemma DeframeStep(s: bytes, n: nat, p: bytes, tail: bytes)
    requires |s| >= 4 && BigEndian(s[..4]) == n && LengthOk(n) && |s| >= 4 + n
    requires s[4..4 + n] == p && s[4 + n..] == tail
    ensures Deframe(s) == Deframed([p] + Deframe(tail).frames, Deframe(tail).rest, Deframe(tail).bad)
  {
  }

  lemma AppendSlices(a: bytes, b: bytes, n: nat)
    requires |a| >= 4 + n
    ensures (a + b)[..4] == a[..4] && (a + b)[4..4 + n] == a[4..4 + n] && (a + b)[4 + n..] == a[4 + n..] + b
  {
  }

  /** The reading of a and then b, from the reading of a. */
  function Continue(d: Deframed, b: bytes): Deframed {
    var more := Deframe(d.rest + b);
    Deframed(d.frames + more.frames, more.rest, more.bad)
  }

  lemma ContinueCons(p: bytes, d: Deframed, b: bytes)
    ensures Continue(Deframed([p] + d.frames, d.rest, d.bad), b) ==
            Deframed([p] + Continue(d, b).frames, Continue(d, b).rest, Continue(d, b).bad)
  {
    assert ([p] + d.frames) + Deframe(d.rest + b).frames == [p] + (d.frames + Deframe(d.rest + b).frames);
  }

  lemma ContinueNothing(a: bytes, b: bytes)
    ensures Continue(Deframed([], a, false), b) == Deframe(a + b)
  {
    assert [] + Deframe(a + b).frames == Deframe(a + b).frames;
  }

  /**
   * Chunk independence: reading a stream in two pieces, the second after what the first left over, gives
   * the frames of the whole stream; a bad length is found by the first piece that contains it.
   */
  lemma {:induction false} DeframeAppend(a: bytes, b: bytes)
    ensures var d := Deframe(a);
            if d.bad then Deframe(a + b).frames == d.frames && Deframe(a + b).bad else Deframe(a + b) == Continue(d, b)
    decreases |a|
  {
    if |a| < 4 {
      ContinueNothing(a, b);
    } else {
      var n := BigEndian(a[..4]);
      AppendSlices(a, b, 0);
      if LengthOk(n) && |a| >= 4 + n {
        var p, tail := a[4..4 + n], a[4 + n..];
        AppendSlices(a, b, n);
        DeframeAppend(tail, b);
        DeframeStep(a, n, p, tail);
        DeframeStep(a + b, n, p, tail + b);
        ContinueCons(p, Deframe(tail), b);
      } else if LengthOk(n) {
        ContinueNothing(a, b);
      }
    }
  }

  /** Frames that were complete stay the first ones, whatever follows. */
  lemma FramesStay(a: bytes, b: bytes)
    ensures Deframe(a).frames <= Deframe(a + b).frames
  {
    DeframeAppend(a, b);
  }

  // ----- The incremental decoder -----

  /** Shifting a header byte into the 32-bit length loses nothing. */
  lemma HeaderByte(got: bytes, b: byte, expected: nat)
    requires |got| < 4 && expected == BigEndian(got[..|got|])
    ensures expected * 256 % 0x1_0000_0000 + b == BigEndian((got + [b])[..|got| + 1])
    ensures (got + [b])[..|got| + 1] == got + [b]
  {
    assert got[..|got|] == got && (got + [b])[..|got| + 1] == got + [b];
    BigEndianBound(got);
    BigEndianSnoc(got, b);
  }

  class FrameDecoder {
    var expected: nat
    var headerBytes: nat
    var payload: bytes
    ghost var got: bytes  // what was consumed since the last Reset

    ghost predicate Valid() reads this {
      && headerBytes == Min(4, |got|)
      && expected == BigEndian(got[..headerBytes])
      && (headerBytes < 4 ==> payload == [])
      && (headerBytes == 4 ==> LengthOk(expected) && payload == got[4..] && |payload| <= expected)
    }

    constructor ()
      ensures Valid() && got == [] && !Complete()
    {
      expected, headerBytes, payload, got := 0, 0, [], [];
    }

    predicate Complete() reads this { expected != 0 && |payload| == expected }

    method Reset()
      modifies this
      ensures Valid() && got == [] && !Complete()
    {
      expected, headerBytes, payload, got := 0, 0, [], [];
    }

    /** One byte of the header; ok is false when the length it completes is out of range. */
    method HeaderTurn(b: byte) returns (ok: bool)
      requires Valid() && headerBytes < 4
      modifies this
      ensures headerBytes == old(headerBytes) + 1 && payload == old(payload) && got == old(got) + [b]
      ensures if ok then Valid() else |got| == 4 && !LengthOk(BigEndian(got))
    {
      HeaderByte(got, b, expected);
      expected := expected * 256 % 0x1_0000_0000 + b;
      headerBytes := headerBytes + 1;
      got := got + [b];
      ok := !(headerBytes == 4 && (expected == 0 || expected > MAX_PAYLOAD));
    }

    /** The header loop of Feed. */
    method FeedHeader(input: bytes) returns (consumed: nat, ok: bool)
      requires Valid()
      modifies this
      ensures consumed <= |input| && got == old(got) + input[..consumed]
      ensures ok ==> Valid() && (consumed == |input| || headerBytes == 4)
      ensures old(headerBytes) == 4 ==> ok && consumed == 0 && payload == old(payload) && expected == old(expected)
      ensures ok && input != [] && old(headerBytes) < 4 ==> consumed > 0
      ensures ok && old(headerBytes) < 4 ==> payload == []
      ensures !ok ==> |got| == 4 && !LengthOk(BigEndian(got))
    {
      consumed := 0;
      assert old(got) + input[..0] == old(got);
      while headerBytes < 4 && consumed < |input|
        invariant consumed <= |input| && Valid() && got == old(got) + input[..consumed]
        invariant consumed == 0 ==>
                    headerBytes == old(headerBytes) && payload == old(payload) && expected == old(expected)
        invariant old(headerBytes) == 4 ==> consumed == 0
        invariant old(headerBytes) < 4 ==> payload == []
      {
        PiecesJoin(old(got), input, consumed, 1);
        assert input[consumed..consumed + 1] == [input[consumed]];
        ok := HeaderTurn(input[consumed]);
        consumed := consumed + 1;
        if !ok {
          return;
        }
      }
      ok := true;
    }

    /**
     * Consumes at most the rest of one frame. It consumes everything unless the frame is complete, and it
     * always makes progress on a frame that is not; ok is false where the source throws length_error.
     */
    method Feed(input: bytes) returns (consumed: nat, ok: bool)
      requires Valid()
      modifies this
      ensures consumed <= |input|
      ensures ok ==> Valid() && got == old(got) + input[..consumed]
      ensures ok ==> consumed == |input| || Complete()
      ensures old(Complete()) ==> ok && consumed == 0
      ensures ok && input != [] && !old(Complete()) ==> consumed > 0
      ensures !ok ==> Deframe(old(got) + input) == Deframed([], old(got) + input, true)
    {
      consumed, ok := FeedHeader(input);
      if !ok {
        assert (old(got) + input)[..4] == got;
        return;
      }
      if headerBytes == 4 {
        var count := Min(|input| - consumed, expected - |payload|);
        ghost var piece := input[consumed..consumed + count];
        PiecesJoin(old(got), input, consumed, count);
        ghost var held := got;
        payload := payload + input[consumed..consumed + count];
        got := got + piece;
        assert got[..4] == held[..4] && got[4..] == held[4..] + piece;
        consumed := consumed + count;
      }
    }
  }

  lemma PiecesJoin(start: bytes, input: bytes, i: nat, n: nat)
    requires i + n <= |input|
    ensures start + input[..i] + input[i..i + n] == start + input[..i + n]
  {
    assert input[..i] + input[i..i + n] == input[..i + n];
  }

  /** What the decoder holds, read as a stream: nothing but a partial frame until Complete, then one frame. */
  lemma HeldFrame(d: FrameDecoder)
    requires d.Valid()
    ensures Deframe(d.got) == if d.Complete() then Deframed([d.payload], [], false) else Deframed([], d.got, false)
  {
    if d.headerBytes == 4 && d.Complete() {
      assert d.got[4..4 + d.expected] == d.payload;
      assert d.got[4 + d.expected..] == [];
      assert [d.payload] + [] == [d.payload];
    }
  }
}
