/** How Reactor::Read collects an HTTP request from the pieces that recv returns. */
module Requests {
  import opened Bytes

  const HEADER_LIMIT := 8192
  const END: bytes := [13, 10, 13, 10]
  const RECV_BUFFER: int := 2048  // what one recv returns at most

  predicate EndAt(s: bytes, i: nat) { i + 4 <= |s| && s[i..i + 4] == END }

  predicate HasEnd(s: bytes) { exists i: nat :: i < |s| && EndAt(s, i) }

  /** What Read does with the text collected so far: wait for more, call Route on it, or answer 431. */
  datatype Verdict = Waiting(request: bytes) | Routed(text: bytes) | TooLong

  function Judge(request: bytes): Verdict {
    if |request| > HEADER_LIMIT then TooLong
    else if HasEnd(request) then Routed(request)
    else Waiting(request)
  }

  /** The verdict after some more pieces; once it is given, nothing more is read. */
  function Gather(request: bytes, pieces: seq<bytes>): Verdict
    decreases pieces
  {
    if pieces == [] then Waiting(request)
    else if Judge(request + pieces[0]).Waiting? then Gather(request + pieces[0], pieces[1..])
    else Judge(request + pieces[0])
  }

  /** What one call of Read leaves behind, the next one goes on from: the pieces of several calls add up. */
  lemma {:induction false} GatherAppend(request: bytes, a: seq<bytes>, b: seq<bytes>)
    ensures var v := Gather(request, a);
            Gather(request, a + b) == if v.Waiting? then Gather(v.request, b) else v
    decreases a
  {
    if a == [] {
      assert a + b == b;
    } else {
      assert (a + b)[1..] == a[1..] + b;
      GatherAppend(request + a[0], a[1..], b);
    }
  }

  /** At most 8192 bytes whose only blank line is the end: the texts that pass the guards of ParseHttpRequest. */
  ghost predicate Whole(r: bytes) {
    && |r| <= HEADER_LIMIT && |r| >= 4 && EndAt(r, |r| - 4)
    && (forall i: nat :: i + 4 < |r| ==> !EndAt(r, i))
  }

  /** A proper prefix of a whole request is not yet answered. */
  lemma PrefixWaits(r: bytes, k: nat)
    requires Whole(r) && k < |r|
    ensures Judge(r[..k]) == Waiting(r[..k])
  {
    if HasEnd(r[..k]) {
      var i: nat :| i < k && EndAt(r[..k], i);
      assert r[i..i + 4] == r[..k][i..i + 4];
      assert EndAt(r, i);
    }
  }

  predicate NoneEmpty(pieces: seq<bytes>) { pieces == [] || (pieces[0] != [] && NoneEmpty(pieces[1..])) }

  lemma {:induction false} RequestFragmentsFrom(r: bytes, k: nat, pieces: seq<bytes>)
    requires Whole(r) && k < |r| && NoneEmpty(pieces) && r[k..] == Flatten(pieces)
    ensures Gather(r[..k], pieces) == Routed(r)
    ensures forall j :: 0 <= j < |pieces| ==> Gather(r[..k], pieces[..j]).Waiting?
    decreases |pieces|
  {
    var p := pieces[0];
    var k' := k + |p|;
    assert r[k'..] == r[k..][|p|..] == Flatten(pieces[1..]);
    assert r[..k] + p == r[..k'] by {
      assert p == r[k..][..|p|];
    }
    if k' == |r| {
      assert r[..k'] == r;
      NothingLeft(pieces[1..]);
      assert EndAt(r, |r| - 4);
      assert pieces[..0] == [];
    } else {
      PrefixWaits(r, k');
      RequestFragmentsFrom(r, k', pieces[1..]);
      forall j | 0 <= j < |pieces| ensures Gather(r[..k], pieces[..j]).Waiting? {
        if j > 0 {
          assert pieces[..j][1..] == pieces[1..][..j - 1];
        }
      }
    }
  }

  lemma NothingLeft(pieces: seq<bytes>)
    requires NoneEmpty(pieces) && Flatten(pieces) == []
    ensures pieces == []
  {
  }

  /**
   * Fragmentation: under every split into non-empty pieces a whole request is routed once, as a whole, and
   * not before its last piece.
   */
  lemma RequestFragments(r: bytes, pieces: seq<bytes>)
    requires Whole(r) && NoneEmpty(pieces) && r == Flatten(pieces)
    ensures Gather([], pieces) == Routed(r)
    ensures forall j :: 0 <= j < |pieces| ==> Gather([], pieces[..j]).Waiting?
  {
    assert r[..0] == [] && r[0..] == r;
    RequestFragmentsFrom(r, 0, pieces);
  }

  /** Pieces that stop short of the end of a whole request leave it waiting. */
  lemma {:induction false} PrefixFragments(r: bytes, k: nat, pieces: seq<bytes>)
    requires Whole(r) && k + |Flatten(pieces)| < |r| && r[k..k + |Flatten(pieces)|] == Flatten(pieces)
    ensures Gather(r[..k], pieces) == Waiting(r[..k + |Flatten(pieces)|])
    decreases |pieces|
  {
    if pieces != [] {
      var p, more := pieces[0], Flatten(pieces[1..]);
      var k' := k + |p|;
      assert r[k..k + |Flatten(pieces)|] == p + more;
      assert p == r[k..k'] && r[k'..k' + |more|] == more by {
        assert (p + more)[..|p|] == p && (p + more)[|p|..] == more;
      }
      assert r[..k] + p == r[..k'];
      PrefixWaits(r, k');
      PrefixFragments(r, k', pieces[1..]);
    }
  }

  /** Pieces as recv returns them: not empty, and at most one buffer long. */
  predicate Cut(pieces: seq<bytes>) {
    pieces == [] || (0 < |pieces[0]| <= RECV_BUFFER && Cut(pieces[1..]))
  }

  lemma {:induction false} CutNoneEmpty(pieces: seq<bytes>)
    requires Cut(pieces)
    ensures NoneEmpty(pieces)
  {
    if pieces != [] {
      CutNoneEmpty(pieces[1..]);
    }
  }

  lemma {:induction false} CutAppend(a: seq<bytes>, b: seq<bytes>)
    requires Cut(a) && Cut(b)
    ensures Cut(a + b) && Flatten(a + b) == Flatten(a) + Flatten(b)
  {
    if a == [] {
      assert a + b == b;
    } else {
      assert (a + b)[1..] == a[1..] + b;
      CutAppend(a[1..], b);
    }
  }

  /** Every byte received on its own. */
  function Singles(s: bytes): (r: seq<bytes>)
    ensures Cut(r) && Flatten(r) == s
  {
    if s == [] then [] else [[s[0]]] + Singles(s[1..])
  }

  /** A cut right behind the blank line. */
  lemma CutBehind(s: bytes, e: nat) returns (a: seq<bytes>)
    requires e <= |s| && Whole(s[..e])
    ensures Cut(a) && Flatten(a) == s && Gather([], a) == Routed(s[..e])
  {
    var whole := Singles(s[..e]);
    a := whole + Singles(s[e..]);
    CutAppend(whole, Singles(s[e..]));
    assert s == s[..e] + s[e..];
    CutNoneEmpty(whole);
    RequestFragments(s[..e], whole);
    GatherAppend([], whole, Singles(s[e..]));
  }

  /** One piece with the last byte of the blank line and the byte behind it. */
  lemma CutAcross(s: bytes, e: nat) returns (b: seq<bytes>)
    requires e < |s| && Whole(s[..e])
    ensures Cut(b) && Flatten(b) == s
    ensures Gather([], b) == if e < HEADER_LIMIT then Routed(s[..e + 1]) else TooLong
  {
    var r := s[..e];
    var start, across, rest := Singles(r[..e - 1]), [s[e - 1..e + 1]], Singles(s[e + 1..]);
    b := start + (across + rest);
    assert Cut(b) && Flatten(b) == s by {
      assert Flatten(across) == s[e - 1..e + 1];
      CutAppend(across, rest);
      CutAppend(start, across + rest);
      assert s == r[..e - 1] + (s[e - 1..e + 1] + s[e + 1..]);
    }
    assert Gather([], start) == Waiting(r[..e - 1]) by {
      assert r[..0] == [] && r[0..e - 1] == r[..e - 1];
      PrefixFragments(r, 0, start);
    }
    GatherAppend([], start, across + rest);
    assert r[..e - 1] + s[e - 1..e + 1] == s[..e + 1];
    assert EndAt(s[..e + 1], e - 4) by {
      assert s[..e + 1][e - 4..e] == r[e - 4..e];
      assert EndAt(r, e - 4);
    }
  }

  /**
   * With bytes after the blank line the split matters: of two ways in which recv may cut the same text, one
   * gives Route the text up to the blank line, and the other one byte more, or the 431 response.
   */
  lemma PipelinedBytesSplit(s: bytes, e: nat) returns (a: seq<bytes>, b: seq<bytes>)
    requires e < |s| && Whole(s[..e])
    ensures Cut(a) && Cut(b) && Flatten(a) == Flatten(b) == s
    ensures Gather([], a) == Routed(s[..e])
    ensures Gather([], b) == if e < HEADER_LIMIT then Routed(s[..e + 1]) else TooLong
  {
    a := CutBehind(s, e);
    b := CutAcross(s, e);
  }

  /** A text is routed as a whole under every split into reads exactly when nothing follows its blank line. */
  lemma SplitIndependent(s: bytes, e: nat)
    requires e <= |s| && Whole(s[..e])
    ensures (forall pieces :: Cut(pieces) && Flatten(pieces) == s ==> Gather([], pieces) == Routed(s)) <==> e == |s|
  {
    if e == |s| {
      assert s[..e] == s;
      forall pieces | Cut(pieces) && Flatten(pieces) == s ensures Gather([], pieces) == Routed(s) {
        CutNoneEmpty(pieces);
        RequestFragments(s, pieces);
      }
    } else {
      var a, b := PipelinedBytesSplit(s, e);
    }
  }
}
