/**
 * From publication to the client's screen: whatever the reactor pushed, dropped and sent in parts, and
 * wherever the network cut the bytes, a client sees published generations, in order, over any connections.
 */
module EndToEnd {
  import opened Bytes
  import opened Framing
  import opened OutputQueue
  import opened SharedState
  import opened FanOut
  import opened SequenceFilter
  import StreamClient

  // ----- Buffers and payloads -----

  function PayloadOf(b: Buffer): bytes { if |b.data| >= 4 then b.data[4..] else [] }

  function Payloads(bs: seq<Buffer>): (r: seq<bytes>)
    ensures |r| == |bs| && forall i :: 0 <= i < |bs| ==> r[i] == PayloadOf(bs[i])
  {
    if bs == [] then [] else Payloads(bs[..|bs| - 1]) + [PayloadOf(bs[|bs| - 1])]
  }

  predicate Framed(b: Buffer) { PayloadOk(PayloadOf(b)) && b.data == FrameOf(PayloadOf(b)) }

  ghost predicate AllFramed(bs: seq<Buffer>) { forall i {:trigger bs[i]} :: 0 <= i < |bs| ==> Framed(bs[i]) }

  lemma GenerationFramed(b: Buffer, h: seq<Generation>)
    requires History(h) && IsGeneration(b, h)
    ensures Framed(b)
  {
    var i :| 0 <= i < |h| && b == BufferOf(h[i]);
    assert b.data[4..] == h[i].payload;
  }

  lemma {:induction false} FramesSnoc(ps: seq<bytes>, p: bytes)
    requires AllPayloadsOk(ps) && PayloadOk(p)
    ensures Frames(ps + [p]) == Frames(ps) + FrameOf(p) && AllPayloadsOk(ps + [p])
  {
    if ps == [] {
      assert Frames([p]) == FrameOf(p) + Frames([]);
      assert ps + [p] == [p] && FrameOf(p) + [] == FrameOf(p);
    } else {
      assert (ps + [p])[1..] == ps[1..] + [p] && (ps + [p])[0] == ps[0];
      FramesSnoc(ps[1..], p);
      Glue(FrameOf(ps[0]), Frames(ps[1..]), FrameOf(p));
    }
  }

  lemma {:induction false} BodiesAreFrames(bs: seq<Buffer>)
    requires AllFramed(bs)
    ensures AllPayloadsOk(Payloads(bs)) && Bodies(bs) == Frames(Payloads(bs))
  {
    if bs != [] {
      var front, last := bs[..|bs| - 1], bs[|bs| - 1];
      assert Framed(bs[|bs| - 1]);
      BodiesAreFrames(front);
      FramesSnoc(Payloads(front), PayloadOf(last));
    }
  }

  lemma {:induction false} SubsequencePayloads(a: seq<Buffer>, b: seq<Buffer>)
    requires Subsequence(a, b)
    ensures Subsequence(Payloads(a), Payloads(b))
    decreases |b|
  {
    if a != [] {
      var a', b' := a[..|a| - 1], b[..|b| - 1];
      if Subsequence(a, b') {
        SubsequencePayloads(a, b');
        SubsequenceSkip(Payloads(a), Payloads(b'), PayloadOf(b[|b| - 1]));
      } else {
        SubsequencePayloads(a', b');
        SubsequenceTake(Payloads(a'), Payloads(b'), PayloadOf(b[|b| - 1]));
      }
    }
  }

  // ----- Any prefix of what was sent -----

  /** x is k whole frames and the beginning of one more, or nothing. */
  ghost predicate CutAt(x: bytes, done: seq<Buffer>, k: nat, part: bytes) {
    k <= |done| && x == Bodies(done[..k]) + part && Partial(part)
  }

  lemma ProperPrefix(f: bytes, n: nat)
    requires 0 < n < |f|
    ensures f[..n] < f
  {
  }

  lemma PrefixWithin(a: bytes, b: bytes, x: bytes)
    requires x <= a + b && |x| <= |a|
    ensures x <= a + []
  {
  }

  lemma PrefixBeyond(a: bytes, b: bytes, x: bytes)
    requires x <= a + b && |a| <= |x|
    ensures x == a + x[|a|..] && x[|a|..] <= b
  {
  }

  /** A cut inside the frame f, after the frames of front. */
  lemma CutInFrame(front: seq<Buffer>, f: Buffer, x: bytes)
    requires Framed(f) && x <= Bodies(front) + f.data && |Bodies(front)| <= |x| < |Bodies(front)| + |f.data|
    ensures CutAt(x, front + [f], |front|, x[|Bodies(front)|..])
  {
    var rest := x[|Bodies(front)|..];
    PrefixBeyond(Bodies(front), f.data, x);
    assert (front + [f])[..|front|] == front;
    if rest != [] {
      ProperPrefix(f.data, |rest|);
      assert rest < FrameOf(PayloadOf(f));
    }
  }

  lemma {:induction false} CutAnywhere(done: seq<Buffer>, part: bytes, x: bytes) returns (k: nat, rest: bytes)
    requires AllFramed(done) && Partial(part) && x <= Bodies(done) + part
    ensures CutAt(x, done, k, rest)
    decreases |done|
  {
    var all := Bodies(done);
    if |x| >= |all| {
      k, rest := |done|, x[|all|..];
      PrefixBeyond(all, part, x);
      PartialPrefix(part, rest);
      assert done[..k] == done;
    } else {
      var front, last := done[..|done| - 1], done[|done| - 1];
      assert Framed(done[|done| - 1]) && done == front + [last];
      PrefixWithin(all, part, x);
      if |x| >= |Bodies(front)| {
        k, rest := |front|, x[|Bodies(front)|..];
        CutInFrame(front, last, x);
      } else {
        PrefixWithin(Bodies(front), last.data, x);
        k, rest := CutAnywhere(front, [], x);
        assert front[..k] == done[..k];
      }
    }
  }

  lemma PartialPrefix(part: bytes, rest: bytes)
    requires Partial(part) && rest <= part
    ensures Partial(rest)
  {
    if rest != [] {
      var p :| PayloadOk(p) && part < FrameOf(p);
      assert rest < FrameOf(p);
    }
  }

  lemma PushedFramed(w: Wire, h: seq<Generation>, bs: seq<Buffer>)
    requires History(h) && FromHistory(w.pushed, h) && Subsequence(bs, w.pushed)
    ensures AllFramed(bs)
  {
    forall i | 0 <= i < |bs| ensures Framed(bs[i]) {
      SubsequenceMember(bs, w.pushed, i);
      var j :| 0 <= j < |w.pushed| && w.pushed[j] == bs[i];
      assert IsGeneration(w.pushed[j], h);
      GenerationFramed(bs[i], h);
    }
  }

  /** Whole frames and the beginning of one more: what a sound history looks like on the wire. */
  lemma WireShape(w: Wire, h: seq<Generation>) returns (part: bytes)
    requires Safe(w) && History(h) && FromHistory(w.pushed, h)
    ensures w.sent == Bodies(w.done) + part && Partial(part) && AllFramed(w.done) && Subsequence(w.done, w.pushed)
  {
    part :| w.sent == Bodies(w.done) + part && SafePart(w, part);
    if part != [] {
      var f :| Subsequence(w.done + [f], w.pushed) && part < f.data;
      PushedFramed(w, h, w.done + [f]);
      assert Framed((w.done + [f])[|w.done|]);
      SubsequencePrefix(w.done + [f], w.pushed, |w.done|);
      assert (w.done + [f])[..|w.done|] == w.done;
    }
    PushedFramed(w, h, w.done);
  }

  /**
   * End-to-end stream safety. Cut what one session was sent at any byte: what precedes the cut reads as
   * the payloads of completed frames, and those are, in order, some of the payloads pushed to the session.
   */
  lemma StreamSafety(w: Wire, h: seq<Generation>, x: bytes) returns (k: nat)
    requires Safe(w) && History(h) && FromHistory(w.pushed, h) && x <= w.sent
    ensures k <= |w.done| && Deframe(x).frames == Payloads(w.done[..k]) && !Deframe(x).bad
    ensures Subsequence(Deframe(x).frames, Payloads(w.pushed)) && Subsequence(w.done, w.pushed)
    ensures x == w.sent && w.sent == Bodies(w.done) ==> k == |w.done|
  {
    var part := WireShape(w, h);
    var rest;
    k, rest := CutAnywhere(w.done, part, x);
    forall i | 0 <= i < k ensures Framed(w.done[..k][i]) {
      assert Framed(w.done[i]);
    }
    BodiesAreFrames(w.done[..k]);
    DeframeFrames(Payloads(w.done[..k]), rest);
    SubsequencePrefix(w.done, w.pushed, k);
    SubsequencePayloads(w.done[..k], w.pushed);
    if x == w.sent && w.sent == Bodies(w.done) {
      BodiesAreFrames(w.done);
      assert Bodies(w.done) + [] == Bodies(w.done);
      DeframeFrames(Payloads(w.done), []);
      assert |Payloads(w.done[..k])| == |Payloads(w.done)|;
    }
  }

  // ----- What the client makes of it -----

  /** Decoding recovers the sequence number of every generation of this server. */
  ghost predicate Decodes(decode: bytes -> Option<Snapshot>, h: seq<Generation>, id: bytes) {
    forall i {:trigger h[i]} :: 0 <= i < |h| ==>
      && decode(h[i].payload).Some? && decode(h[i].payload).value.sequence == h[i].sequence
      && decode(h[i].payload).value.instance == id
  }

  lemma BufferDecodes(decode: bytes -> Option<Snapshot>, h: seq<Generation>, id: bytes, b: Buffer)
    requires History(h) && Decodes(decode, h, id) && IsGeneration(b, h)
    ensures decode(PayloadOf(b)).Some? && decode(PayloadOf(b)).value.sequence == b.gen
    ensures decode(PayloadOf(b)).value.instance == id
  {
    var i :| 0 <= i < |h| && b == BufferOf(h[i]);
    assert b.data[4..] == h[i].payload;
  }

  lemma {:induction false} DecodedElement(decode: bytes -> Option<Snapshot>, ps: seq<bytes>, i: nat)
    requires StreamClient.AllDecode(decode, ps) && i < |ps|
    ensures |StreamClient.Decoded(decode, ps)| == |ps| && StreamClient.Decoded(decode, ps)[i] == decode(ps[i]).value
  {
    var front := ps[..|ps| - 1];
    if i < |front| {
      DecodedElement(decode, front, i);
    } else if front != [] {
      DecodedElement(decode, front, 0);
    }
  }

  /** A subsequence of the frames pushed keeps their order: at most its first generation is repeated. */
  lemma {:induction false} SubsequenceOrdered(a: seq<Buffer>, b: seq<Buffer>)
    requires Subsequence(a, b) && Ordered(b)
    ensures Ordered(a)
    decreases |b|
  {
    if |a| > 1 {
      var a', b', n := a[..|a| - 1], b[..|b| - 1], |a| - 1;
      assert Ordered(b') by {
        forall i, j | 0 <= i < j < |b'| ensures b'[i].gen <= b'[j].gen && (i > 0 ==> b'[i].gen < b'[j].gen) {
          assert b[i].gen <= b[j].gen;
        }
      }
      if Subsequence(a, b') {
        SubsequenceOrdered(a, b');
      } else {
        SubsequenceOrdered(a', b');
        forall i, j | 0 <= i < j <= n ensures a[i].gen <= a[j].gen && (i > 0 ==> a[i].gen < a[j].gen) {
          if j < n {
            assert a'[i].gen <= a'[j].gen;
          } else {
            SubsequenceMember(a', b', i);
            var m :| i <= m < |b'| && b'[m] == a'[i];
            assert b[m].gen <= b[|b| - 1].gen;
          }
        }
      }
    }
  }

  lemma FrameSeen(bs: seq<Buffer>, pushed: seq<Buffer>, h: seq<Generation>, decode: bytes -> Option<Snapshot>,
                  id: bytes, i: nat)
    requires History(h) && FromHistory(pushed, h) && Decodes(decode, h, id) && Subsequence(bs, pushed) && i < |bs|
    ensures var s := decode(PayloadOf(bs[i])); s.Some? && s.value.sequence == bs[i].gen && s.value.instance == id
  {
    SubsequenceMember(bs, pushed, i);
    var j :| 0 <= j < |pushed| && pushed[j] == bs[i];
    assert IsGeneration(pushed[j], h);
    BufferDecodes(decode, h, id, bs[i]);
  }

  /** Frames in the order of their generations decode to snapshots in that order. */
  lemma FramesSeen(bs: seq<Buffer>, pushed: seq<Buffer>, h: seq<Generation>, decode: bytes -> Option<Snapshot>,
                   id: bytes)
    requires History(h) && FromHistory(pushed, h) && Decodes(decode, h, id) && Subsequence(bs, pushed)
    ensures StreamClient.AllDecode(decode, Payloads(bs))
    ensures var arrived := StreamClient.Decoded(decode, Payloads(bs));
            && NonDecreasing(arrived, id) && |arrived| == |bs|
            && forall i {:trigger arrived[i]} :: 0 <= i < |bs| ==> arrived[i].sequence == bs[i].gen
  {
    var ps := Payloads(bs);
    forall i | 0 <= i < |ps| ensures decode(ps[i]).Some? {
      FrameSeen(bs, pushed, h, decode, id, i);
    }
    var arrived := StreamClient.Decoded(decode, ps);
    forall i | 0 <= i < |bs|
      ensures |arrived| == |bs| && arrived[i].instance == id && arrived[i].sequence == bs[i].gen
    {
      FrameSeen(bs, pushed, h, decode, id, i);
      DecodedElement(decode, ps, i);
    }
    SubsequenceOrdered(bs, pushed);
    forall i, j | 0 <= i < j < |bs| ensures arrived[i].sequence <= arrived[j].sequence {
      assert bs[i].gen <= bs[j].gen;
    }
  }

  /**
   * Every frame the client can cut from the stream decodes, so the stream never ends because of what it
   * carries, and the snapshots arrive with sequence numbers that do not go back.
   */
  lemma ClientSees(w: Wire, h: seq<Generation>, x: bytes, decode: bytes -> Option<Snapshot>, id: bytes) returns (k: nat)
    requires Safe(w) && History(h) && FromHistory(w.pushed, h) && x <= w.sent && Decodes(decode, h, id)
    ensures k <= |w.done| && Deframe(x).frames == Payloads(w.done[..k]) && !Deframe(x).bad
    ensures StreamClient.AllDecode(decode, Deframe(x).frames)
    ensures var arrived := StreamClient.Decoded(decode, Deframe(x).frames);
            && NonDecreasing(arrived, id) && |arrived| == k
            && forall i {:trigger arrived[i]} :: 0 <= i < k ==> arrived[i].sequence == w.done[i].gen
    ensures Ordered(w.done[..k])
    ensures x == w.sent && w.sent == Bodies(w.done) ==> k == |w.done|
  {
    k := StreamSafety(w, h, x);
    SubsequencePrefix(w.done, w.pushed, k);
    FramesSeen(w.done[..k], w.pushed, h, decode, id);
    SubsequenceOrdered(w.done[..k], w.pushed);
  }

  lemma FrameNotNewer(bs: seq<Buffer>, pushed: seq<Buffer>, h: seq<Generation>, i: nat)
    requires History(h) && FromHistory(pushed, h) && Subsequence(bs, pushed) && i < |bs|
    ensures bs[i].gen <= LatestSequence(h)
  {
    SubsequenceMember(bs, pushed, i);
    var m :| i <= m < |pushed| && pushed[m] == bs[i];
    PushedAtMostLatest(pushed, h, m);
  }

  /** What a connection delivers was published before it ended: nothing is newer than the latest generation. */
  lemma NotNewerThanLatest(w: Wire, h: seq<Generation>, x: bytes, decode: bytes -> Option<Snapshot>, id: bytes)
    requires Safe(w) && History(h) && FromHistory(w.pushed, h) && x <= w.sent && Decodes(decode, h, id)
    ensures StreamClient.AllDecode(decode, Deframe(x).frames)
    ensures var arrived := StreamClient.Decoded(decode, Deframe(x).frames);
            forall i {:trigger arrived[i]} :: 0 <= i < |arrived| ==> arrived[i].sequence <= LatestSequence(h)
  {
    var k := ClientSees(w, h, x, decode, id);
    assert Subsequence(w.done, w.pushed) by {
      var k' := StreamSafety(w, h, x);
    }
    forall i | 0 <= i < k ensures w.done[i].gen <= LatestSequence(h) {
      FrameNotNewer(w.done, w.pushed, h, i);
    }
  }

  /** A connection to this server is never given up because of the data it carried. */
  lemma NeverBroken(w: Wire, h: seq<Generation>, x: bytes, decode: bytes -> Option<Snapshot>, id: bytes,
                    before: seq<bytes>, got: seq<bytes>, alive: bool)
    requires Safe(w) && History(h) && FromHistory(w.pushed, h) && x <= w.sent && Decodes(decode, h, id)
    requires StreamClient.Delivery(decode, before, got, x, alive)
    ensures alive
  {
    var k := ClientSees(w, h, x, decode, id);
  }

  /**
   * After the client's filter, whatever earlier connections delivered: what this connection adds increases
   * strictly, also over what the client held of this server; nothing newer arrived than what the client
   * holds then; and the gap counter grows by the sequence numbers that were skipped.
   */
  lemma AcceptedOnce(w: Wire, h: seq<Generation>, x: bytes, decode: bytes -> Option<Snapshot>, id: bytes,
                     before: seq<Snapshot>)
    requires Safe(w) && History(h) && FromHistory(w.pushed, h) && x <= w.sent && Decodes(decode, h, id)
    requires StreamClient.AllDecode(decode, Deframe(x).frames) && Deframe(x).frames != []
    ensures var arrived := StreamClient.Decoded(decode, Deframe(x).frames);
            var held, t, c := Last(Filter(before)), Taken(before, arrived), Last(Filter(before + arrived));
            && Filter(before + arrived) == Filter(before) + t
            && Of(t, id) && Increasing(t) && (t != [] ==> Accepts(held, t[0]))
            && c.Some? && c.value.instance == id && arrived[|arrived| - 1].sequence <= c.value.sequence
            && Gaps(Filter(before + arrived)) - Gaps(Filter(before)) == Skipped(held, t)
  {
    var k := ClientSees(w, h, x, decode, id);
    OneConnection(before, StreamClient.Decoded(decode, Deframe(x).frames), id);
  }

  /** On its first connection a client drops nothing but a repeated first generation. */
  lemma FirstConnection(w: Wire, h: seq<Generation>, x: bytes, decode: bytes -> Option<Snapshot>,
                        id: bytes)
    returns (k: nat)
    requires Safe(w) && History(h) && FromHistory(w.pushed, h) && x <= w.sent && Decodes(decode, h, id)
    ensures k <= |w.done| && Deframe(x).frames == Payloads(w.done[..k])
    ensures StreamClient.AllDecode(decode, Deframe(x).frames)
    ensures |Filter(StreamClient.Decoded(decode, Deframe(x).frames))| == k - if Repeats(w.done[..k]) then 1 else 0
  {
    k := ClientSees(w, h, x, decode, id);
    var arrived, bs := StreamClient.Decoded(decode, Deframe(x).frames), w.done[..k];
    forall i, j | 0 < i < j < k ensures arrived[i].sequence < arrived[j].sequence {
      assert bs[i].gen < bs[j].gen && arrived[i].sequence == bs[i].gen && arrived[j].sequence == bs[j].gen;
    }
    OnlyRepetitionDropped(arrived, id);
  }

  /**
   * Convergence. When the latest publication was broadcast, a stream has nothing left to send, and its
   * client has read everything, the snapshot the client holds is the latest one published; before is what
   * earlier connections delivered, from this server or another.
   */
  lemma ClientHasLatest(m: map<nat, SessionView>, closed: seq<Closed>, queuedBytes: int, h: seq<Generation>, t: nat,
                        decode: bytes -> Option<Snapshot>, id: bytes, before: seq<Snapshot>)
    requires Invariant(m, closed, queuedBytes, LatestSequence(h), h) && History(h) && h != []
    requires t in m && m[t].streaming && m[t].queue.current.None? && Decodes(decode, h, id)
    requires StreamClient.AllDecode(decode, Deframe(m[t].wire.sent).frames)
    requires forall s {:trigger s in before} :: s in before && s.instance == id ==> s.sequence <= LatestSequence(h)
    ensures var current := Last(Filter(before + StreamClient.Decoded(decode, Deframe(m[t].wire.sent).frames)));
            current.Some? && current.value.instance == id && current.value.sequence == LatestSequence(h)
  {
    var w, n := m[t].wire, |m[t].wire.done|;
    assert Safe(w) && FromHistory(w.pushed, h) && w.sent == Bodies(w.done) && n > 0 &&
           w.done[n - 1].gen == LatestSequence(h) by {
      assert SessionOk(m[t], LatestSequence(h), h);
      LatestWins(m, closed, queuedBytes, LatestSequence(h), h, t);
      EmptyMeansNewestSent(w, m[t].queue);
      FaithfulIsSafe(w, m[t].queue);
    }
    var arrived := StreamClient.Decoded(decode, Deframe(w.sent).frames);
    assert NonDecreasing(arrived, id) && |arrived| == n && arrived[n - 1].sequence == LatestSequence(h) by {
      var k := ClientSees(w, h, w.sent, decode, id);
    }
    OneConnection(before, arrived, id);
    if Filter(before) != [] {
      FilterMember(before, |Filter(before)| - 1);
    }
  }

  // ----- A client that has reconnected -----

  /** The connection carried bytes of a session of this server, or delivered snapshots of other servers only. */
  ghost predicate OfServer(c: StreamClient.Connection, h: seq<Generation>, decode: bytes -> Option<Snapshot>,
                           id: bytes)
  {
    || (exists w: Wire {:trigger Safe(w)} :: Safe(w) && FromHistory(w.pushed, h) && c.stream <= w.sent)
    || (forall i {:trigger c.got[i]} :: 0 <= i < |c.got| ==>
          decode(c.got[i]).Some? && decode(c.got[i]).value.instance != id)
  }

  ghost predicate NotNewer(s: seq<Snapshot>, id: bytes, last: nat) {
    forall i {:trigger s[i]} :: 0 <= i < |s| && s[i].instance == id ==> s[i].sequence <= last
  }

  lemma DecodedLength(decode: bytes -> Option<Snapshot>, ps: seq<bytes>)
    requires StreamClient.AllDecode(decode, ps)
    ensures |StreamClient.Decoded(decode, ps)| == |ps|
  {
    if ps != [] {
      DecodedElement(decode, ps, 0);
    }
  }

  /** What was delivered of the frames of a session of this server. */
  lemma DeliveredNotNewer(w: Wire, h: seq<Generation>, x: bytes, got: seq<bytes>, decode: bytes -> Option<Snapshot>,
                          id: bytes)
    requires Safe(w) && History(h) && FromHistory(w.pushed, h) && x <= w.sent && Decodes(decode, h, id)
    requires StreamClient.AllDecode(decode, got) && got <= Deframe(x).frames
    ensures NotNewer(StreamClient.Decoded(decode, got), id, LatestSequence(h))
  {
    var frames := Deframe(x).frames;
    var rest := frames[|got|..];
    assert frames == got + rest;
    NotNewerThanLatest(w, h, x, decode, id);
    assert forall i :: 0 <= i < |rest| ==> rest[i] == frames[|got| + i];
    StreamClient.DecodedAppend(decode, got, rest);
    var all, s := StreamClient.Decoded(decode, frames), StreamClient.Decoded(decode, got);
    assert forall i :: 0 <= i < |s| ==> s[i] == all[i];
  }

  lemma OthersNotNewer(got: seq<bytes>, decode: bytes -> Option<Snapshot>, id: bytes, last: nat)
    requires StreamClient.AllDecode(decode, got)
    requires forall i {:trigger got[i]} :: 0 <= i < |got| ==> decode(got[i]).value.instance != id
    ensures NotNewer(StreamClient.Decoded(decode, got), id, last)
  {
    DecodedLength(decode, got);
    forall i | 0 <= i < |got| ensures StreamClient.Decoded(decode, got)[i].instance != id {
      DecodedElement(decode, got, i);
    }
  }

  lemma ConnectionNotNewer(c: StreamClient.Connection, h: seq<Generation>, decode: bytes -> Option<Snapshot>,
                           id: bytes)
    requires History(h) && Decodes(decode, h, id) && OfServer(c, h, decode, id)
    requires StreamClient.Delivery(decode, [], c.got, c.stream, c.clean)
    ensures NotNewer(StreamClient.Decoded(decode, c.got), id, LatestSequence(h))
  {
    if w: Wire :| Safe(w) && FromHistory(w.pushed, h) && c.stream <= w.sent {
      assert [] + c.got == c.got;
      DeliveredNotNewer(w, h, c.stream, c.got, decode, id);
    } else {
      OthersNotNewer(c.got, decode, id, LatestSequence(h));
    }
  }

  /** Nothing that earlier connections delivered of this server is newer than its latest generation. */
  lemma {:induction false} HeardNotNewer(past: seq<StreamClient.Connection>, h: seq<Generation>,
                                         decode: bytes -> Option<Snapshot>, id: bytes)
    requires History(h) && Decodes(decode, h, id) && StreamClient.AllDelivered(decode, past)
    requires forall i {:trigger past[i]} :: 0 <= i < |past| ==> OfServer(past[i], h, decode, id)
    ensures NotNewer(StreamClient.Heard(decode, past), id, LatestSequence(h))
    decreases |past|
  {
    if past != [] {
      var front, c := past[..|past| - 1], past[|past| - 1];
      HeardNotNewer(front, h, decode, id);
      ConnectionNotNewer(c, h, decode, id);
    }
  }

  /**
   * Convergence of the objects: after any run over any connections to this server and to others, a client
   * that has read all that an up to date session of this server has sent shows the latest generation.
   */
  lemma ReconnectedClientHasLatest(conn: StreamClient.StreamConnection, app: ClientApp,
                                   past: seq<StreamClient.Connection>, m: map<nat, SessionView>, closed: seq<Closed>,
                                   queuedBytes: int, h: seq<Generation>, t: nat, id: bytes)
    requires conn.Valid() && app.Valid() && conn.Told(app, past) && !(app.once && app.quit)
    requires Invariant(m, closed, queuedBytes, LatestSequence(h), h) && History(h) && h != []
    requires t in m && m[t].streaming && m[t].queue.current.None? && conn.stream == m[t].wire.sent
    requires Decodes(conn.decode, h, id)
    requires forall i {:trigger past[i]} :: 0 <= i < |past| ==> OfServer(past[i], h, conn.decode, id)
    ensures app.current.Some? && app.current.value.instance == id && app.current.value.sequence == LatestSequence(h)
    ensures !app.paused ==> app.visible == app.current
  {
    var before := StreamClient.Heard(conn.decode, past);
    HeardNotNewer(past, h, conn.decode, id);
    assert Deframe(conn.stream).frames == conn.delivered;
    ClientHasLatest(m, closed, queuedBytes, h, t, conn.decode, id, before);
  }
}
