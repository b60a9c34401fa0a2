/**
 * The latest-wins output queue of a session: one frame that may be partly sent, and one that waits behind
 * it. The history of a session (Wire) says what its socket has carried.
 */
module OutputQueue {
  import opened Bytes

  /** A shared immutable buffer; gen names the generation it carries (0 for an HTTP response). */
  datatype Buffer = Buffer(gen: nat, data: bytes)

  /** The value of a queue: current, pending and how much of current was sent. */
  datatype State = State(current: Option<Buffer>, pending: Option<Buffer>, offset: nat)

  const EMPTY: State := State(None, None, 0)

  /** Only a frame in flight has another one waiting behind it, and a frame in flight is not finished. */
  predicate Ok(q: State) {
    && (q.current.None? ==> q.pending.None? && q.offset == 0)
    && (q.pending.Some? ==> q.offset > 0)
    && (q.current.Some? && q.offset > 0 ==> q.offset < |q.current.value.data|)
  }

  function Front(q: State): bytes
    requires Ok(q)
  {
    if q.current.Some? then q.current.value.data[q.offset..] else []
  }

  /** Everything the queue will send if nothing more is pushed. */
  function Stream(q: State): bytes
    requires Ok(q)
  {
    Front(q) + if q.pending.Some? then q.pending.value.data else []
  }

  /** What was sent of the frame in flight. */
  function SentPart(q: State): bytes
    requires Ok(q)
  {
    if q.current.Some? then q.current.value.data[..q.offset] else []
  }

  function Held(q: State): seq<Buffer> {
    (if q.current.Some? then [q.current.value] else []) + (if q.pending.Some? then [q.pending.value] else [])
  }

  function Pushed(q: State, b: Buffer): (r: State)
    requires Ok(q)
    ensures Ok(r)
  {
    if q.current.None? || q.offset == 0 then State(Some(b), None, 0) else q.(pending := Some(b))
  }

  /** A push drops a frame of which no byte was sent. */
  predicate Supersedes(q: State) { if q.offset == 0 then q.current.Some? else q.pending.Some? }

  function Consumed(q: State, n: nat): (r: State)
    requires Ok(q) && q.current.Some? && n <= |Front(q)|
    ensures Ok(r)
  {
    if q.offset + n == |q.current.value.data| then State(q.pending, None, 0) else q.(offset := q.offset + n)
  }

  lemma ConsumedBytes(q: State, n: nat)
    requires Ok(q) && q.current.Some? && n <= |Front(q)|
    ensures |Stream(Consumed(q, n))| == |Stream(q)| - n
  {
  }

  /** Whether sending n more bytes completes the frame in flight. */
  predicate Completes(q: State, n: nat)
    requires Ok(q)
  {
    q.current.Some? && q.offset + n == |q.current.value.data|
  }

  // ----- Histories -----

  /** Frames given to the session, frames sent completely, and every byte the socket accepted. */
  datatype Wire = Wire(pushed: seq<Buffer>, done: seq<Buffer>, sent: bytes)

  const SILENT: Wire := Wire([], [], [])

  function Bodies(bs: seq<Buffer>): bytes {
    if bs == [] then [] else Bodies(bs[..|bs| - 1]) + bs[|bs| - 1].data
  }

  lemma BodiesSnoc(bs: seq<Buffer>, b: Buffer)
    ensures Bodies(bs + [b]) == Bodies(bs) + b.data
  {
    assert (bs + [b])[..|bs|] == bs;
  }

  /** The bytes sent are completed frames and the sent part of the one in flight. */
  ghost predicate BytesMatch(w: Wire, q: State)
    requires Ok(q)
  {
    w.sent == Bodies(w.done) + SentPart(q)
  }

  /**
   * Completed, in-flight and waiting frames are, in order, some of those pushed; and the last frame pushed
   * is never lost.
   */
  ghost predicate FramesMatch(w: Wire, all: seq<Buffer>) {
    Subsequence(all, w.pushed) && (w.pushed != [] ==> Last(all) == Some(w.pushed[|w.pushed| - 1]))
  }

  ghost predicate Faithful(w: Wire, q: State) { Ok(q) && BytesMatch(w, q) && FramesMatch(w, w.done + Held(q)) }

  function AfterPush(w: Wire, b: Buffer): Wire { w.(pushed := w.pushed + [b]) }

  function AfterSend(w: Wire, q: State, n: nat): Wire
    requires Ok(q) && q.current.Some? && n <= |Front(q)|
  {
    Wire(w.pushed, if Completes(q, n) then w.done + [q.current.value] else w.done, w.sent + Front(q)[..n])
  }

  lemma FaithfulStart()
    ensures Faithful(SILENT, EMPTY)
  {
  }

  /** The frames that a push does not take away. */
  function Kept(w: Wire, q: State): seq<Buffer> {
    if q.offset > 0 && q.current.Some? then w.done + [q.current.value] else w.done
  }

  lemma KeptFrames(w: Wire, q: State, b: Buffer)
    requires Ok(q)
    ensures Kept(w, q) <= w.done + Held(q)
    ensures w.done + Held(Pushed(q, b)) == Kept(w, q) + [b]
  {
  }

  /** How many of the frames given to the session were neither sent nor are still held. */
  function Lost(w: Wire, q: State): int { |w.pushed| - |w.done| - |Held(q)| }

  /**
   * After a push the queue holds a front of what it held, and then the new frame. The push supersedes a frame
   * exactly if a frame that was held is not in that front: the last one, of which no byte is on the wire.
   * Sending bytes loses nothing.
   */
  lemma SupersededFrame(w: Wire, q: State, b: Buffer)
    requires Ok(q)
    ensures var kept := |Held(Pushed(q, b))| - 1;
            && 0 <= kept <= |Held(q)| && Held(Pushed(q, b)) == Held(q)[..kept] + [b]
            && (Supersedes(q) <==> kept < |Held(q)|)
            && kept >= |Held(q)| - 1 && (q.offset > 0 ==> kept >= 1)
    ensures Lost(AfterPush(w, b), Pushed(q, b)) == Lost(w, q) + if Supersedes(q) then 1 else 0
    ensures forall n: nat :: q.current.Some? && n <= |Front(q)| ==>
              Lost(AfterSend(w, q, n), Consumed(q, n)) == Lost(w, q)
  {
  }

  lemma PushFrames(pushed: seq<Buffer>, all: seq<Buffer>, kept: seq<Buffer>, b: Buffer)
    requires Subsequence(all, pushed) && kept <= all
    ensures Subsequence(kept + [b], pushed + [b])
  {
    assert Subsequence(kept, pushed) by {
      SubsequencePrefix(all, pushed, |kept|);
      assert all[..|kept|] == kept;
    }
    SubsequenceTake(kept, pushed, b);
  }

  /** Pushing keeps the frame in flight and puts the new frame last. */
  lemma PushKeeps(w: Wire, q: State, b: Buffer)
    requires Faithful(w, q)
    ensures Faithful(AfterPush(w, b), Pushed(q, b))
    ensures q.offset > 0 ==> Pushed(q, b).current == q.current && Pushed(q, b).offset == q.offset
    ensures Last(Held(Pushed(q, b))) == Some(b)
  {
    KeptFrames(w, q, b);
    assert FramesMatch(AfterPush(w, b), Kept(w, q) + [b]) by {
      PushFrames(w.pushed, w.done + Held(q), Kept(w, q), b);
    }
    assert SentPart(Pushed(q, b)) == SentPart(q);
  }

  lemma Slices(data: bytes, i: nat, n: nat)
    requires i + n <= |data|
    ensures data[..i] + data[i..][..n] == data[..i + n]
    ensures data[i..] == data[i..][..n] + data[i + n..]
  {
  }

  /** The bytes sent last complete the frame in flight, or they are added to its sent part. */
  lemma SendBytes(w: Wire, q: State, n: nat)
    requires Ok(q) && BytesMatch(w, q) && q.current.Some? && n <= |Front(q)|
    ensures BytesMatch(AfterSend(w, q, n), Consumed(q, n))
  {
    var data := q.current.value.data;
    Glue(Bodies(w.done), SentPart(q), Front(q)[..n]);
    assert SentPart(q) + Front(q)[..n] == data[..q.offset + n] by {
      Slices(data, q.offset, n);
    }
    if Completes(q, n) {
      assert data[..q.offset + n] == data;
      BodiesSnoc(w.done, q.current.value);
      assert Bodies(w.done + [q.current.value]) + [] == Bodies(w.done + [q.current.value]);
    }
  }

  /** No frame is added or lost when bytes are sent. */
  lemma SendFrames(w: Wire, q: State, n: nat)
    requires Ok(q) && q.current.Some? && n <= |Front(q)|
    ensures AfterSend(w, q, n).done + Held(Consumed(q, n)) == w.done + Held(q)
  {
  }

  /** The bytes sent are taken off the stream. */
  lemma SendStream(q: State, n: nat)
    requires Ok(q) && q.current.Some? && n <= |Front(q)|
    ensures Stream(q) == Front(q)[..n] + Stream(Consumed(q, n))
  {
    var rest := if q.pending.Some? then q.pending.value.data else [];
    if Completes(q, n) {
      assert Front(q)[..n] == Front(q);
      assert Stream(Consumed(q, n)) == rest;
    } else {
      assert Front(q) == Front(q)[..n] + Front(Consumed(q, n)) by {
        Slices(q.current.value.data, q.offset, n);
      }
      Glue(Front(q)[..n], Front(Consumed(q, n)), rest);
    }
  }

  /** Sending part of the front appends exactly those bytes to the wire and takes them off the stream. */
  lemma SendKeeps(w: Wire, q: State, n: nat)
    requires Faithful(w, q) && q.current.Some? && n <= |Front(q)|
    ensures Faithful(AfterSend(w, q, n), Consumed(q, n))
    ensures Stream(q) == Front(q)[..n] + Stream(Consumed(q, n))
  {
    SendBytes(w, q, n);
    SendFrames(w, q, n);
    SendStream(q, n);
  }

  /**
   * Since w0 and q0, total bytes were sent and nothing was pushed: what the socket carried and what is still
   * queued make up the same bytes as before.
   */
  ghost predicate SentSoFar(w0: Wire, q0: State, w: Wire, q: State, total: nat) {
    && Ok(q0) && Faithful(w, q) && w.pushed == w0.pushed
    && |w.sent| == |w0.sent| + total && w.sent + Stream(q) == w0.sent + Stream(q0)
  }

  lemma SentMore(w0: Wire, q0: State, w: Wire, q: State, total: nat, n: nat)
    requires SentSoFar(w0, q0, w, q, total) && q.current.Some? && n <= |Front(q)|
    ensures SentSoFar(w0, q0, AfterSend(w, q, n), Consumed(q, n), total + n)
  {
    SendKeeps(w, q, n);
    Glue(w.sent, Front(q)[..n], Stream(Consumed(q, n)));
  }

  /** So the socket received the first bytes of the stream, and the queue holds exactly the others. */
  lemma SentIsFront(w0: Wire, q0: State, w: Wire, q: State, total: nat)
    requires SentSoFar(w0, q0, w, q, total)
    ensures total <= |Stream(q0)|
    ensures w.sent == w0.sent + Stream(q0)[..total] && Stream(q) == Stream(q0)[total..]
  {
    var all := w.sent + Stream(q);
    assert w.sent == all[..|w.sent|] && Stream(q) == all[|w.sent|..];
    assert Stream(q0) == all[|w0.sent|..];
  }

  /**
   * What remains true of a wire forever, also when its queue is thrown away: whole frames in the order
   * they were pushed, then at most the beginning of one more frame pushed after them.
   */
  ghost predicate Safe(w: Wire) {
    exists part :: w.sent == Bodies(w.done) + part && SafePart(w, part)
  }

  ghost predicate SafePart(w: Wire, part: bytes) {
    if part == [] then Subsequence(w.done, w.pushed)
    else exists f :: Subsequence(w.done + [f], w.pushed) && part < f.data
  }

  lemma FaithfulIsSafe(w: Wire, q: State)
    requires Faithful(w, q)
    ensures Safe(w)
  {
    var part := SentPart(q);
    var all := w.done + Held(q);
    if part == [] {
      SubsequencePrefix(all, w.pushed, |w.done|);
      assert all[..|w.done|] == w.done;
    } else {
      var f := q.current.value;
      SubsequencePrefix(all, w.pushed, |w.done| + 1);
      assert all[..|w.done| + 1] == w.done + [f];
      assert part < f.data;
    }
    assert SafePart(w, part);
  }

  /** When the queue is empty, the newest frame was sent completely. */
  lemma EmptyMeansNewestSent(w: Wire, q: State)
    requires Faithful(w, q) && q.current.None? && w.pushed != []
    ensures w.done != [] && w.done[|w.done| - 1] == w.pushed[|w.pushed| - 1]
    ensures w.sent == Bodies(w.done)
  {
    assert w.done + Held(q) == w.done;
    assert Bodies(w.done) + [] == Bodies(w.done);
  }

  // ----- The class -----

  class OutputQueue {
    var current: Option<Buffer>
    var pending: Option<Buffer>
    var offset: nat

    ghost function View(): State reads this { State(current, pending, offset) }

    constructor ()
      ensures View() == EMPTY
    {
      current, pending, offset := None, None, 0;
    }

    /** The assignment of an empty queue. */
    method Reset()
      modifies this
      ensures View() == EMPTY
    {
      current, pending, offset := None, None, 0;
    }

    /** Returns true when an unsent frame was superseded. */
    method Push(buffer: Buffer) returns (dropped: bool)
      requires Ok(View())
      modifies this
      ensures View() == Pushed(old(View()), buffer)
      ensures dropped <==> Supersedes(old(View()))
    {
      if current.None? {
        current, offset := Some(buffer), 0;
        return false;
      }
      if offset == 0 {
        current := Some(buffer);
        return true;
      }
      dropped := pending.Some?;
      pending := Some(buffer);
    }

    function Unsent(): (r: bytes)
      requires Ok(View())
      reads this
      ensures r == Front(View())
    {
      if current.Some? then current.value.data[offset..] else []
    }

    /** False, and nothing changes, where the source throws "over-consumed". */
    method Consume(size: nat) returns (ok: bool)
      requires Ok(View())
      modifies this
      ensures ok <==> old(View()).current.Some? && size <= |Front(old(View()))|
      ensures View() == if ok then Consumed(old(View()), size) else old(View())
    {
      if current.None? || size > |Unsent()| {
        return false;
      }
      offset := offset + size;
      if offset == |current.value.data| {
        current, pending := pending, None;
        offset := 0;
      }
      ok := true;
    }

    predicate Empty() reads this { current.None? }

    function ByteCount(): (r: nat)
      requires Ok(View())
      reads this
      ensures r == |Stream(View())|
    {
      (if current.Some? then |current.value.data| - offset else 0) + (if pending.Some? then |pending.value.data| else 0)
    }
  }
}
