/**
 * The fan-out as values: what a session is, and the invariant that every step of the reactor keeps. The
 * class Reactor works on session objects; its methods are proved against these definitions.
 */
module FanOut {
  import opened Bytes
  import opened OutputQueue
  import opened SharedState

  const WRITE_BUDGET: int := 64 * 1024
  const QUEUE_BUDGET: int := 64 * 1024 * 1024

  /** The interest set registered with epoll. */
  datatype Mask = Mask(read: bool, write: bool)

  datatype SessionView = SessionView(
    streaming: bool,
    responding: bool,
    request: bytes,
    queue: State,
    acceptedAt: int,
    lastProgress: int,
    mask: Mask,
    wire: Wire)

  /** The mask Modify would register. */
  function MaskFor(s: SessionView): Mask { Mask(!s.streaming && !s.responding, s.queue.current.Some?) }

  // ----- What a stream may carry -----

  ghost predicate IsGeneration(b: Buffer, h: seq<Generation>) { exists i :: 0 <= i < |h| && b == BufferOf(h[i]) }

  /** Generations never go back, and behind the first frame each one is newer than the one before. */
  ghost predicate Ordered(bs: seq<Buffer>) {
    forall i, j {:trigger bs[i].gen, bs[j].gen} :: 0 <= i < j < |bs| ==>
      bs[i].gen <= bs[j].gen && (i > 0 ==> bs[i].gen < bs[j].gen)
  }

  /** Every frame pushed is a published generation, in order; only the first one may be pushed twice. */
  ghost predicate FromHistory(pushed: seq<Buffer>, h: seq<Generation>) {
    && (forall i {:trigger IsGeneration(pushed[i], h)} :: 0 <= i < |pushed| ==> IsGeneration(pushed[i], h))
    && Ordered(pushed)
  }

  /**
   * The newest frame pushed is at least the last generation that was broadcast, and exactly that one as
   * soon as the stream has taken part in a broadcast after its first frame.
   */
  ghost predicate UpToDate(pushed: seq<Buffer>, lastSequence: nat) {
    && (lastSequence > 0 ==> pushed != [] && pushed[|pushed| - 1].gen >= lastSequence)
    && (|pushed| >= 2 ==> pushed[|pushed| - 1].gen == lastSequence)
  }

  ghost predicate StreamOk(s: SessionView, h: seq<Generation>) {
    !s.responding && s.request == [] && FromHistory(s.wire.pushed, h)
  }

  /** An HTTP session gets one response, and reads nothing after it. */
  ghost predicate HttpOk(s: SessionView) {
    && |s.wire.pushed| <= 1 && (s.responding <==> |s.wire.pushed| == 1)
    && (s.responding ==> s.request == []) && (forall i :: 0 <= i < |s.wire.pushed| ==> s.wire.pushed[i].data != [])
  }

  /** The invariant of one session, its epoll mask aside. */
  ghost predicate SessionOk(s: SessionView, lastSequence: nat, h: seq<Generation>) {
    && Faithful(s.wire, s.queue)
    && (if s.streaming then StreamOk(s, h) && UpToDate(s.wire.pushed, lastSequence) else HttpOk(s))
  }

  lemma HistoryGrows(pushed: seq<Buffer>, h: seq<Generation>, h': seq<Generation>)
    requires FromHistory(pushed, h) && h <= h'
    ensures FromHistory(pushed, h')
  {
    forall i | 0 <= i < |pushed| ensures IsGeneration(pushed[i], h') {
      assert IsGeneration(pushed[i], h);
      var k :| 0 <= k < |h| && pushed[i] == BufferOf(h[k]);
      assert h'[k] == h[k];
    }
  }

  /** The newest generation may follow a first frame, and anything older. */
  lemma PushLatest(pushed: seq<Buffer>, h: seq<Generation>)
    requires History(h) && h != [] && FromHistory(pushed, h)
    requires |pushed| >= 2 ==> pushed[|pushed| - 1].gen < LatestSequence(h)
    ensures FromHistory(pushed + [BufferOf(h[|h| - 1])], h)
  {
    var b := BufferOf(h[|h| - 1]);
    assert IsGeneration(b, h);
    var bs := pushed + [b];
    forall i, j | 0 <= i < j < |bs| ensures bs[i].gen <= bs[j].gen && (i > 0 ==> bs[i].gen < bs[j].gen) {
      assert IsGeneration(pushed[i], h);
      if j == |pushed| && 0 < i < j - 1 {
        assert pushed[i].gen < pushed[j - 1].gen;
      }
    }
  }

  /** Nothing newer than the latest generation was ever pushed. */
  lemma PushedAtMostLatest(pushed: seq<Buffer>, h: seq<Generation>, i: nat)
    requires History(h) && FromHistory(pushed, h) && i < |pushed|
    ensures pushed[i].gen <= LatestSequence(h)
  {
    assert IsGeneration(pushed[i], h);
  }

  // ----- The sum of the queues -----

  function SessionBytes(s: SessionView): nat { if Ok(s.queue) then |Stream(s.queue)| else 0 }

  ghost function TotalBytes(m: map<nat, SessionView>): nat {
    if m == map[] then 0
    else
      var t :| t in m;
      SessionBytes(m[t]) + TotalBytes(m - {t})
  }

  /** The total does not depend on the order of the sessions. */
  lemma {:induction false} TotalWithout(m: map<nat, SessionView>, t: nat)
    requires t in m
    ensures TotalBytes(m) == SessionBytes(m[t]) + TotalBytes(m - {t})
    decreases |m|
  {
    var u :| u in m && TotalBytes(m) == SessionBytes(m[u]) + TotalBytes(m - {u});
    if u != t {
      assert |m - {u}| < |m| by {
        assert (m - {u}).Keys == m.Keys - {u};
      }
      TotalWithout(m - {u}, t);
      TotalWithoutSmaller(m, t, u);
      assert m - {u} - {t} == m - {t} - {u};
    }
  }

  lemma {:induction false} TotalWithoutSmaller(m: map<nat, SessionView>, t: nat, u: nat)
    requires t in m && u in m && u != t
    ensures TotalBytes(m - {t}) == SessionBytes(m[u]) + TotalBytes(m - {t} - {u})
    decreases |m|, 0
  {
    assert (m - {t}).Keys == m.Keys - {t};
    TotalWithout(m - {t}, u);
  }

  lemma TotalUpdate(m: map<nat, SessionView>, t: nat, s: SessionView)
    ensures TotalBytes(m[t := s]) == SessionBytes(s) + TotalBytes(m - {t})
    ensures t in m ==> TotalBytes(m) == SessionBytes(m[t]) + TotalBytes(m - {t})
  {
    TotalWithout(m[t := s], t);
    assert m[t := s] - {t} == m - {t};
    if t in m {
      TotalWithout(m, t);
    }
  }

  // ----- Sessions that are gone -----

  /** What is remembered of a closed session. */
  datatype Closed = Closed(streaming: bool, wire: Wire)

  ghost predicate ClosedOk(c: Closed, h: seq<Generation>) {
    Safe(c.wire) && (c.streaming ==> FromHistory(c.wire.pushed, h))
  }

  // ----- The invariant of the reactor -----

  ghost predicate AllSessionsOk(m: map<nat, SessionView>, lastSequence: nat, h: seq<Generation>) {
    forall t {:trigger SessionOk(m[t], lastSequence, h)} :: t in m ==> SessionOk(m[t], lastSequence, h)
  }

  ghost predicate AllMasksOk(m: map<nat, SessionView>) {
    forall t {:trigger MaskFor(m[t])} :: t in m ==> m[t].mask == MaskFor(m[t])
  }

  ghost predicate AllClosedOk(closed: seq<Closed>, h: seq<Generation>) {
    forall i {:trigger ClosedOk(closed[i], h)} :: 0 <= i < |closed| ==> ClosedOk(closed[i], h)
  }

  ghost predicate Accounted(m: map<nat, SessionView>, queuedBytes: int) {
    queuedBytes == TotalBytes(m) <= QUEUE_BUDGET
  }

  ghost predicate Invariant(m: map<nat, SessionView>, closed: seq<Closed>, queuedBytes: int, lastSequence: nat,
                            h: seq<Generation>)
  {
    && AllSessionsOk(m, lastSequence, h) && AllMasksOk(m)
    && AllClosedOk(closed, h)
    && Accounted(m, queuedBytes)
    && lastSequence <= LatestSequence(h)
  }

  /** A step of the writer keeps the invariant: the reactor and the worker do not disturb each other. */
  lemma PublicationKeeps(m: map<nat, SessionView>, closed: seq<Closed>, queuedBytes: int, lastSequence: nat,
                         h: seq<Generation>, h': seq<Generation>)
    requires Invariant(m, closed, queuedBytes, lastSequence, h) && h <= h' && History(h')
    ensures Invariant(m, closed, queuedBytes, lastSequence, h')
  {
    forall t | t in m ensures SessionOk(m[t], lastSequence, h') {
      assert SessionOk(m[t], lastSequence, h);
      if m[t].streaming {
        HistoryGrows(m[t].wire.pushed, h, h');
      }
    }
    forall i | 0 <= i < |closed| ensures ClosedOk(closed[i], h') {
      assert ClosedOk(closed[i], h);
      if closed[i].streaming {
        HistoryGrows(closed[i].wire.pushed, h, h');
      }
    }
    if h != [] {
      assert h'[|h| - 1] == h[|h| - 1];
    }
  }

  // ----- Steps on one session -----

  /** A session after a frame was pushed and kept. */
  function Enqueued(s: SessionView, b: Buffer, now: int): SessionView
    requires Ok(s.queue)
  {
    s.(queue := Pushed(s.queue, b),
       lastProgress := if s.queue.current.None? then now else s.lastProgress,
       wire := AfterPush(s.wire, b))
  }

  /** A session whose frame was over the budget: its queue is thrown away, and it must be closed. */
  function Overflowed(s: SessionView, now: int): SessionView {
    s.(queue := EMPTY, lastProgress := if s.queue.current.None? then now else s.lastProgress)
  }

  /** Whether one more frame for s keeps the total within the budget. */
  predicate Fits(s: SessionView, b: Buffer, queuedBytes: int)
    requires Ok(s.queue)
  {
    queuedBytes - |Stream(s.queue)| + |Stream(Pushed(s.queue, b))| <= QUEUE_BUDGET
  }

  /** A push adds at most its frame. */
  lemma PushGrowth(q: State, b: Buffer)
    requires Ok(q)
    ensures |Stream(Pushed(q, b))| <= |Stream(q)| + |b.data|
  {
  }

  /** A session that was given a frame in a broadcast, registered for writing. */
  function Given(s: SessionView, b: Buffer, now: int): SessionView {
    if Ok(s.queue) then var e := Enqueued(s, b, now); e.(mask := MaskFor(e)) else s
  }

  /**
   * What a broadcast does to one stream: its clock starts only if it had nothing to send, nothing of what it
   * has sent changes, and it now waits for EPOLLOUT.
   */
  lemma GivenLaws(s: SessionView, b: Buffer, now: int)
    requires Ok(s.queue)
    ensures var r := Given(s, b, now);
            && (s.queue.current.Some? ==> r.lastProgress == s.lastProgress)
            && (s.queue.current.None? ==> r.lastProgress == now)
            && r.wire == s.wire.(pushed := s.wire.pushed + [b]) && r.queue.current.Some? && r.mask.write
            && r.streaming == s.streaming && r.responding == s.responding && r.acceptedAt == s.acceptedAt
  {
  }

  /**
   * A broadcast of b with the sessions in todo still to come: those and the HTTP sessions are as they were,
   * and every other stream was given the frame or is gone.
   */
  ghost predicate Fanned(m: map<nat, SessionView>, m': map<nat, SessionView>, todo: set<nat>, b: Buffer,
                         clock: nat -> int)
  {
    && (forall t {:trigger m'[t]} :: t in m' ==> t in m)
    && (forall t {:trigger m[t]} :: t in m && (t in todo || !m[t].streaming) ==> t in m' && m'[t] == m[t])
    && (forall t {:trigger Given(m[t], b, clock(t))} :: t in m' && t !in todo && m[t].streaming ==>
          m'[t] == Given(m[t], b, clock(t)))
  }

  /**
   * The turn of session t in a broadcast of b, with the bytes queued before and after it: a stream is given
   * the frame if it fits in the budget, and is closed if it does not.
   */
  ghost predicate Turned(m: map<nat, SessionView>, before: int, m': map<nat, SessionView>, after: int, t: nat,
                         b: Buffer, at: int)
  {
    && t in m && Ok(m[t].queue)
    && if !m[t].streaming then m' == m && after == before
       else if Fits(m[t], b, before) then
         m' == m[t := Given(m[t], b, at)] && after == before - SessionBytes(m[t]) + SessionBytes(Given(m[t], b, at))
       else m' == m - {t} && after == before - SessionBytes(m[t])
  }

  /** The sessions and the bytes queued for them. */
  datatype Fan = Fan(sessions: map<nat, SessionView>, queuedBytes: int)

  /** One turn of a broadcast, as a function. */
  function AfterTurn(x: Fan, t: nat, b: Buffer, at: int): Fan {
    if t !in x.sessions || !x.sessions[t].streaming || !Ok(x.sessions[t].queue) then x
    else
      var s, s' := x.sessions[t], Given(x.sessions[t], b, at);
      if Fits(s, b, x.queuedBytes) then
        Fan(x.sessions[t := s'], x.queuedBytes - SessionBytes(s) + SessionBytes(s'))
      else Fan(x.sessions - {t}, x.queuedBytes - SessionBytes(s))
  }

  /** The turns of a broadcast in some order. */
  function AfterTurns(x: Fan, order: seq<nat>, b: Buffer, clock: nat -> int): Fan {
    if order == [] then x
    else
      var t := order[|order| - 1];
      AfterTurn(AfterTurns(x, order[..|order| - 1], b, clock), t, b, clock(t))
  }

  /** The order holds every token of keys that is not in todo, once. */
  ghost predicate Covers(order: seq<nat>, keys: set<nat>, todo: set<nat>) {
    && (forall t {:trigger t in order} :: t in order <==> t in keys && t !in todo)
    && (forall i, j {:trigger order[i], order[j]} :: 0 <= i < j < |order| ==> order[i] != order[j])
  }

  /** m' and after are what the turns of all sessions but those in todo make of m and before, in some order. */
  ghost predicate Tried(m: map<nat, SessionView>, before: int, m': map<nat, SessionView>, after: int, todo: set<nat>,
                        b: Buffer, clock: nat -> int)
  {
    exists order: seq<nat> {:trigger AfterTurns(Fan(m, before), order, b, clock)} ::
      Covers(order, m.Keys, todo) && AfterTurns(Fan(m, before), order, b, clock) == Fan(m', after)
  }

  lemma TriedOn(m: map<nat, SessionView>, before: int, m0: map<nat, SessionView>, bytesThen: int,
                m1: map<nat, SessionView>, after: int, t: nat, todo: set<nat>, b: Buffer, clock: nat -> int)
    requires Tried(m, before, m0, bytesThen, todo, b, clock) && t in todo && t in m
    requires Turned(m0, bytesThen, m1, after, t, b, clock(t))
    ensures Tried(m, before, m1, after, todo - {t}, b, clock)
  {
    var order: seq<nat> :| Covers(order, m.Keys, todo)
                           && AfterTurns(Fan(m, before), order, b, clock) == Fan(m0, bytesThen);
    var more := order + [t];
    assert more[..|order|] == order && more[|order|] == t;
    assert AfterTurns(Fan(m, before), more, b, clock) == Fan(m1, after);
    assert Covers(more, m.Keys, todo - {t}) by {
      forall i, j | 0 <= i < j < |more| ensures more[i] != more[j] {
        assert order[i] in order;
      }
    }
  }

  /** A session is as it was until its turn comes. */
  lemma {:induction false} UntilItsTurn(x: Fan, order: seq<nat>, b: Buffer, clock: nat -> int, t: nat)
    requires t !in order
    ensures var y := AfterTurns(x, order, b, clock);
            (t in y.sessions <==> t in x.sessions) && (t in x.sessions ==> y.sessions[t] == x.sessions[t])
    decreases |order|
  {
    if order != [] {
      UntilItsTurn(x, order[..|order| - 1], b, clock, t);
    }
  }

  /** And after its turn no other turn changes it. */
  lemma {:induction false} AfterItsTurn(x: Fan, order: seq<nat>, b: Buffer, clock: nat -> int, k: nat)
    requires k < |order| && forall i, j {:trigger order[i], order[j]} :: 0 <= i < j < |order| ==> order[i] != order[j]
    ensures var t, y, z := order[k], AfterTurns(x, order[..k + 1], b, clock), AfterTurns(x, order, b, clock);
            (t in z.sessions <==> t in y.sessions) && (t in y.sessions ==> z.sessions[t] == y.sessions[t])
    decreases |order|
  {
    if k == |order| - 1 {
      assert order[..k + 1] == order;
    } else {
      var front := order[..|order| - 1];
      assert front[..k + 1] == order[..k + 1];
      AfterItsTurn(x, front, b, clock, k);
      assert order[|order| - 1] != order[k];
    }
  }

  /**
   * A stream survives a broadcast exactly if the frame fits in the budget at its turn; then it has been given
   * the frame.
   */
  lemma ClosedIffItDidNotFit(x: Fan, order: seq<nat>, b: Buffer, clock: nat -> int, k: nat)
    requires k < |order| && forall i, j {:trigger order[i], order[j]} :: 0 <= i < j < |order| ==> order[i] != order[j]
    requires order[k] in x.sessions && x.sessions[order[k]].streaming && Ok(x.sessions[order[k]].queue)
    ensures var t, s := order[k], x.sessions[order[k]];
            var z := AfterTurns(x, order, b, clock);
            && (t in z.sessions <==> Fits(s, b, AfterTurns(x, order[..k], b, clock).queuedBytes))
            && (t in z.sessions ==> z.sessions[t] == Given(s, b, clock(t)))
  {
    var t := order[k];
    assert t !in order[..k];
    UntilItsTurn(x, order[..k], b, clock, t);
    assert order[..k + 1][..k] == order[..k] && order[..k + 1][k] == t;
    AfterItsTurn(x, order, b, clock, k);
  }

  /** The size of n frames of the same size. */
  function Copies(n: nat, size: nat): nat { if n == 0 then 0 else size + Copies(n - 1, size) }

  lemma CopiesProduct(n: nat, size: nat)
    ensures Copies(n, size) == n * size
  {
  }

  /**
   * A broadcast with the sessions in todo still to come. Every turn adds at most one frame; and if a session
   * is gone, then one frame for every session was more than the budget had room for.
   */
  ghost predicate Passing(m: map<nat, SessionView>, before: int, m': map<nat, SessionView>, after: int,
                          todo: set<nat>, b: Buffer, clock: nat -> int)
  {
    && Fanned(m, m', todo, b, clock) && todo <= m'.Keys
    && after + Copies(|todo|, |b.data|) <= before + Copies(|m|, |b.data|)
    && (m'.Keys == m.Keys || before + Copies(|m|, |b.data|) > QUEUE_BUDGET)
    && Tried(m, before, m', after, todo, b, clock)
  }

  lemma PassFanned(m: map<nat, SessionView>, m0: map<nat, SessionView>, before: int, m1: map<nat, SessionView>,
                   after: int, t: nat, todo: set<nat>, b: Buffer, clock: nat -> int)
    requires Fanned(m, m0, todo, b, clock) && t in todo && Turned(m0, before, m1, after, t, b, clock(t))
    ensures Fanned(m, m1, todo - {t}, b, clock)
  {
    assert m0[t] == m[t];
  }

  lemma PassOn(m: map<nat, SessionView>, before: int, m0: map<nat, SessionView>, bytesThen: int,
               m1: map<nat, SessionView>, after: int, t: nat, todo: set<nat>, b: Buffer, clock: nat -> int)
    requires Passing(m, before, m0, bytesThen, todo, b, clock) && t in todo
    requires Turned(m0, bytesThen, m1, after, t, b, clock(t))
    ensures Passing(m, before, m1, after, todo - {t}, b, clock)
  {
    PassFanned(m, m0, bytesThen, m1, after, t, todo, b, clock);
    TriedOn(m, before, m0, bytesThen, m1, after, t, todo, b, clock);
    PushGrowth(m0[t].queue, b);
    assert |todo| == |todo - {t}| + 1;
  }

  /** A property of the sessions, of the bytes queued for them, and of the turns still to come. */
  type TurnProperty = (map<nat, SessionView>, int, set<nat>) -> bool

  ghost predicate KeptByTurns(keeps: TurnProperty, b: Buffer, clock: nat -> int) {
    forall m, before, todo, m', after, t
      {:trigger keeps(m, before, todo), Turned(m, before, m', after, t, b, clock(t))} ::
      keeps(m, before, todo) && t in todo && Turned(m, before, m', after, t, b, clock(t)) ==>
        keeps(m', after, todo - {t})
  }

  /** Passing, as a property that every turn keeps. */
  ghost function PassingFrom(m: map<nat, SessionView>, before: int, b: Buffer, clock: nat -> int): (keeps: TurnProperty)
    ensures KeptByTurns(keeps, b, clock)
    ensures forall m', after, todo :: keeps(m', after, todo) == Passing(m, before, m', after, todo, b, clock)
  {
    var keeps := (m', after, todo) => Passing(m, before, m', after, todo, b, clock);
    assert KeptByTurns(keeps, b, clock) by {
      forall m0, bytesThen, todo, m1, after, t |
        keeps(m0, bytesThen, todo) && t in todo && Turned(m0, bytesThen, m1, after, t, b, clock(t))
        ensures keeps(m1, after, todo - {t})
      {
        PassOn(m, before, m0, bytesThen, m1, after, t, todo, b, clock);
      }
    }
    keeps
  }

  lemma PassingStarts(m: map<nat, SessionView>, before: int, b: Buffer, clock: nat -> int)
    ensures Passing(m, before, m, before, m.Keys, b, clock)
  {
    var none: seq<nat> := [];
    assert Covers(none, m.Keys, m.Keys) && AfterTurns(Fan(m, before), none, b, clock) == Fan(m, before);
    assert |m.Keys| == |m|;
  }

  /** Pushing the latest generation brings a stream up to date. */
  lemma EnqueueLatestKeeps(s: SessionView, h: seq<Generation>, last: nat, now: int)
    requires History(h) && s.streaming && SessionOk(s, last, h) && last < LatestSequence(h)
    ensures SessionOk(Enqueued(s, BufferOf(h[|h| - 1]), now), LatestSequence(h), h)
  {
    PushKeeps(s.wire, s.queue, BufferOf(h[|h| - 1]));
    PushLatest(s.wire.pushed, h);
  }

  /** A session as Accept creates it, before anything is pushed. */
  lemma NewSessionOk(streaming: bool, now: int, mask: Mask, last: nat, h: seq<Generation>)
    requires streaming ==> last == 0
    ensures SessionOk(SessionView(streaming, false, [], EMPTY, now, now, mask, SILENT), last, h)
  {
    FaithfulStart();
  }

  /** A session as Accept creates it, registered for input if it has a request to read. */
  function NewSession(streaming: bool, at: int): SessionView {
    SessionView(streaming, false, [], EMPTY, at, at, Mask(!streaming, false), SILENT)
  }

  /** What Accept makes of a connection for which there is room: a stream is given the latest generation. */
  function Greeted(streaming: bool, at: int, latest: Option<Generation>): SessionView {
    var s := NewSession(streaming, at);
    if streaming && latest.Some? then Given(s, BufferOf(latest.value), at) else s
  }

  /** Whether the latest generation still fits for one more stream. */
  predicate HasRoom(streaming: bool, latest: Option<Generation>, queuedBytes: int) {
    streaming && latest.Some? ==> queuedBytes + |BufferOf(latest.value).data| <= QUEUE_BUDGET
  }

  /** A greeted session is sound: its first frame is the latest generation, and its interest set is right. */
  lemma GreetedOk(streaming: bool, at: int, last: nat, queuedBytes: int, h: seq<Generation>)
    requires History(h) && last <= LatestSequence(h) && queuedBytes <= QUEUE_BUDGET
    ensures var s := Greeted(streaming, at, Last(h));
            && SessionOk(s, last, h) && s.mask == MaskFor(s)
            && (HasRoom(streaming, Last(h), queuedBytes) <==> queuedBytes + SessionBytes(s) <= QUEUE_BUDGET)
  {
    var s := NewSession(streaming, at);
    NewSessionOk(streaming, at, s.mask, 0, h);
    if streaming && h != [] {
      EnqueueLatestKeeps(s, h, 0, at);
    }
  }

  /** The one response of an HTTP session. */
  lemma EnqueueResponseKeeps(s: SessionView, h: seq<Generation>, last: nat, response: bytes, now: int)
    requires !s.streaming && !s.responding && SessionOk(s, last, h) && response != []
    ensures SessionOk(Enqueued(s, Buffer(0, response), now).(responding := true, request := []), last, h)
  {
    PushKeeps(s.wire, s.queue, Buffer(0, response));
  }

  lemma ClosedAfter(s: SessionView, last: nat, h: seq<Generation>)
    requires SessionOk(s, last, h)
    ensures ClosedOk(Closed(s.streaming, s.wire), h)
  {
    FaithfulIsSafe(s.wire, s.queue);
  }

  /** Sending keeps everything but the queue as it was. */
  lemma SendKeepsSession(s: SessionView, s': SessionView, total: nat, last: nat, h: seq<Generation>)
    requires SessionOk(s, last, h) && SentSoFar(s.wire, s.queue, s'.wire, s'.queue, total)
    requires s' == s.(queue := s'.queue, wire := s'.wire, lastProgress := s'.lastProgress)
    ensures SessionOk(s', last, h)
    ensures SessionBytes(s') == SessionBytes(s) - total
  {
    assert |s'.wire.sent + Stream(s'.queue)| == |s.wire.sent + Stream(s.queue)|;
  }

  // ----- Steps on the map of sessions -----

  function Due(t: nat, todo: set<nat>, last: nat, next: nat): nat { if t in todo then last else next }

  /** Between two sessions of a broadcast: those in todo are due for next, the others have it. */
  ghost predicate Broadcasting(m: map<nat, SessionView>, todo: set<nat>, closed: seq<Closed>, queuedBytes: int,
                               last: nat, next: nat, h: seq<Generation>)
  {
    && (forall t {:trigger SessionOk(m[t], Due(t, todo, last, next), h)} :: t in m ==>
          SessionOk(m[t], Due(t, todo, last, next), h))
    && AllMasksOk(m) && AllClosedOk(closed, h) && Accounted(m, queuedBytes) && next <= LatestSequence(h)
  }

  lemma BroadcastStarts(m: map<nat, SessionView>, closed: seq<Closed>, queuedBytes: int, last: nat, next: nat,
                        h: seq<Generation>)
    requires Invariant(m, closed, queuedBytes, last, h) && next <= LatestSequence(h)
    ensures Broadcasting(m, m.Keys, closed, queuedBytes, last, next, h)
  {
    forall t | t in m ensures SessionOk(m[t], Due(t, m.Keys, last, next), h) {
      assert SessionOk(m[t], last, h);
    }
  }

  lemma BroadcastEnds(m: map<nat, SessionView>, todo: set<nat>, closed: seq<Closed>, queuedBytes: int, last: nat,
                      next: nat,
                      h: seq<Generation>)
    requires Broadcasting(m, todo, closed, queuedBytes, last, next, h) && todo !! m.Keys
    ensures Invariant(m, closed, queuedBytes, next, h)
  {
    forall t | t in m ensures SessionOk(m[t], next, h) {
      assert SessionOk(m[t], Due(t, todo, last, next), h);
    }
  }

  /** The invariant is the case in which no session is due. */
  lemma NobodyDue(m: map<nat, SessionView>, closed: seq<Closed>, queuedBytes: int, last: nat, h: seq<Generation>)
    ensures Invariant(m, closed, queuedBytes, last, h) <==> Broadcasting(m, {}, closed, queuedBytes, last, last, h)
  {
    if Invariant(m, closed, queuedBytes, last, h) {
      forall t | t in m ensures SessionOk(m[t], Due(t, {}, last, last), h) {
        assert SessionOk(m[t], last, h);
      }
    }
    if Broadcasting(m, {}, closed, queuedBytes, last, last, h) {
      BroadcastEnds(m, {}, closed, queuedBytes, last, last, h);
    }
  }

  /** An HTTP session is never due. */
  lemma SkipKeeps(m: map<nat, SessionView>, t: nat, todo: set<nat>, closed: seq<Closed>, queuedBytes: int,
                  last: nat, next: nat, h: seq<Generation>)
    requires Broadcasting(m, todo, closed, queuedBytes, last, next, h) && t in m && !m[t].streaming
    ensures Broadcasting(m, todo - {t}, closed, queuedBytes, last, next, h)
  {
    forall u | u in m ensures SessionOk(m[u], Due(u, todo - {t}, last, next), h) {
      assert SessionOk(m[u], Due(u, todo, last, next), h);
    }
  }

  lemma ReplaceKeeps(m: map<nat, SessionView>, t: nat, s: SessionView, todo: set<nat>, closed: seq<Closed>,
                     queuedBytes: int,
                     last: nat, next: nat, h: seq<Generation>)
    requires Broadcasting(m, todo, closed, queuedBytes, last, next, h) && t in m
    requires SessionOk(s, next, h) && s.mask == MaskFor(s)
    requires queuedBytes - SessionBytes(m[t]) + SessionBytes(s) <= QUEUE_BUDGET
    ensures Broadcasting(m[t := s], todo - {t}, closed, queuedBytes - SessionBytes(m[t]) + SessionBytes(s), last, next,
                         h)
  {
    var m' := m[t := s];
    assert Accounted(m', queuedBytes - SessionBytes(m[t]) + SessionBytes(s)) by {
      TotalUpdate(m, t, s);
    }
    forall u | u in m' ensures SessionOk(m'[u], Due(u, todo - {t}, last, next), h) {
      if u != t {
        assert SessionOk(m[u], Due(u, todo, last, next), h);
      }
    }
  }

  lemma RemoveKeeps(m: map<nat, SessionView>, t: nat, c: Closed, todo: set<nat>, closed: seq<Closed>, queuedBytes: int,
                    last: nat, next: nat, h: seq<Generation>)
    requires Broadcasting(m, todo, closed, queuedBytes, last, next, h) && t in m && ClosedOk(c, h)
    ensures SessionBytes(m[t]) <= queuedBytes
    ensures Broadcasting(m - {t}, todo - {t}, closed + [c], queuedBytes - SessionBytes(m[t]), last, next, h)
  {
    TotalWithout(m, t);
    var m' := m - {t};
    forall u | u in m' ensures SessionOk(m'[u], Due(u, todo - {t}, last, next), h) {
      assert SessionOk(m[u], Due(u, todo, last, next), h);
    }
  }

  lemma AddKeeps(m: map<nat, SessionView>, t: nat, s: SessionView, closed: seq<Closed>, queuedBytes: int, last: nat,
                 h: seq<Generation>)
    requires Invariant(m, closed, queuedBytes, last, h) && t !in m
    requires SessionOk(s, last, h) && s.mask == MaskFor(s) && queuedBytes + SessionBytes(s) <= QUEUE_BUDGET
    ensures Invariant(m[t := s], closed, queuedBytes + SessionBytes(s), last, h)
  {
    TotalUpdate(m, t, s);
    assert m - {t} == m;
    var m' := m[t := s];
    forall u | u in m' ensures SessionOk(m'[u], last, h) {
      if u != t {
        assert SessionOk(m[u], last, h);
      }
    }
  }

  /** Whether the budget has room for one more frame of this size in every session. */
  ghost predicate RoomForAll(m: map<nat, SessionView>, size: nat) { TotalBytes(m) + |m| * size <= QUEUE_BUDGET }

  /**
   * What a broadcast comes to: nothing if the latest generation was broadcast before; otherwise it is given
   * to every stream in some order, and nobody is closed if the budget has room for one frame each.
   */
  ghost predicate CaughtUp(m: map<nat, SessionView>, last: nat, m': map<nat, SessionView>, next: nat,
                           latest: Option<Generation>, clock: nat -> int)
  {
    if next == last then m' == m else latest.Some? && Distributed(m, m', BufferOf(latest.value), clock)
  }

  /** Every session has had its turn in a broadcast of b. */
  ghost predicate Distributed(m: map<nat, SessionView>, m': map<nat, SessionView>, b: Buffer, clock: nat -> int) {
    && Fanned(m, m', {}, b, clock) && (RoomForAll(m, |b.data|) ==> m'.Keys == m.Keys)
    && Tried(m, TotalBytes(m), m', TotalBytes(m'), {}, b, clock)
  }

  lemma AllPassed(m: map<nat, SessionView>, before: int, m': map<nat, SessionView>, after: int, b: Buffer,
                  clock: nat -> int)
    requires Passing(m, before, m', after, {}, b, clock) && before == TotalBytes(m) && after == TotalBytes(m')
    requires before + |m| * |b.data| <= QUEUE_BUDGET ==> m'.Keys == m.Keys
    ensures Distributed(m, m', b, clock)
  {
  }

  lemma OneOf(m: map<nat, SessionView>, t: nat, closed: seq<Closed>, queuedBytes: int, last: nat, h: seq<Generation>)
    requires Invariant(m, closed, queuedBytes, last, h) && t in m
    ensures SessionOk(m[t], last, h) && SessionBytes(m[t]) <= queuedBytes <= QUEUE_BUDGET
  {
    TotalWithout(m, t);
  }

  lemma OneDue(m: map<nat, SessionView>, t: nat, todo: set<nat>, closed: seq<Closed>, queuedBytes: int,
               last: nat, next: nat, h: seq<Generation>)
    requires Broadcasting(m, todo, closed, queuedBytes, last, next, h) && t in m && t in todo
    ensures SessionOk(m[t], last, h) && SessionBytes(m[t]) <= queuedBytes
  {
    TotalWithout(m, t);
    assert SessionOk(m[t], Due(t, todo, last, next), h);
  }

  // ----- What the invariant means -----

  lemma NewestHeld(w: Wire, q: State)
    requires Faithful(w, q) && w.pushed != [] && q.current.Some?
    ensures Last(Held(q)) == Some(w.pushed[|w.pushed| - 1])
  {
    var all := w.done + Held(q);
    assert all[|all| - 1] == Held(q)[|Held(q)| - 1];
  }

  lemma NewestIsLatest(pushed: seq<Buffer>, h: seq<Generation>)
    requires History(h) && FromHistory(pushed, h) && pushed != [] && pushed[|pushed| - 1].gen >= LatestSequence(h)
    ensures h != [] && pushed[|pushed| - 1] == BufferOf(h[|h| - 1])
  {
    assert IsGeneration(pushed[|pushed| - 1], h);
    var i :| 0 <= i < |h| && pushed[|pushed| - 1] == BufferOf(h[i]);
    assert i == |h| - 1;
  }

  /**
   * Latest wins, read off the invariant: the newest frame of a streaming session lies between the last
   * broadcast and the latest publication, a non-empty queue ends with it, and if the last broadcast was
   * the latest publication then an empty queue means that publication was sent completely.
   */
  lemma LatestWins(m: map<nat, SessionView>, closed: seq<Closed>, queuedBytes: int, lastSequence: nat,
                   h: seq<Generation>, t: nat)
    requires Invariant(m, closed, queuedBytes, lastSequence, h) && History(h) && t in m && m[t].streaming
    requires lastSequence > 0
    ensures var pushed := m[t].wire.pushed;
            && pushed != [] && lastSequence <= pushed[|pushed| - 1].gen <= LatestSequence(h)
            && (m[t].queue.current.Some? ==> Last(Held(m[t].queue)) == Some(pushed[|pushed| - 1]))
    ensures lastSequence == LatestSequence(h) && m[t].queue.current.None? ==>
              h != [] && Last(m[t].wire.done) == Some(BufferOf(h[|h| - 1]))
  {
    var s := m[t];
    assert SessionOk(s, lastSequence, h);
    var pushed := s.wire.pushed;
    PushedAtMostLatest(pushed, h, |pushed| - 1);
    if s.queue.current.Some? {
      NewestHeld(s.wire, s.queue);
    } else {
      EmptyMeansNewestSent(s.wire, s.queue);
      if lastSequence == LatestSequence(h) {
        NewestIsLatest(pushed, h);
      }
    }
  }

  /**
   * An HTTP session that answered and has nothing left to send has sent the whole response: it was pushed
   * once and superseded by nothing.
   */
  lemma ResponseComplete(s: SessionView, last: nat, h: seq<Generation>)
    requires SessionOk(s, last, h) && !s.streaming && s.responding && s.queue.current.None?
    ensures s.wire.done == s.wire.pushed && |s.wire.pushed| == 1 && s.wire.sent == s.wire.pushed[0].data
  {
    var w, b := s.wire, s.wire.pushed[0];
    EmptyMeansNewestSent(w, s.queue);
    assert w.done + Held(s.queue) == w.done;
    SubsequenceLength(w.done, w.pushed);
    assert w.done == [b];
    BodiesSnoc([], b);
    assert [] + [b] == [b];
  }

  // ----- Frames that are pushed twice -----

  /** The first generation was pushed a second time. */
  predicate Repeats(bs: seq<Buffer>) { |bs| >= 2 && bs[0].gen == bs[1].gen }

  /** That is the only way in which the generations of a stream fail to increase strictly. */
  lemma IncreasesIffNoRepeat(bs: seq<Buffer>)
    requires Ordered(bs)
    ensures (forall i, j {:trigger bs[i].gen, bs[j].gen} :: 0 <= i < j < |bs| ==> bs[i].gen < bs[j].gen) <==>
              !Repeats(bs)
  {
    if !Repeats(bs) {
      forall i, j | 0 <= i < j < |bs| ensures bs[i].gen < bs[j].gen {
        assert bs[0].gen <= bs[1].gen;
        assert j > 1 ==> bs[1].gen < bs[j].gen;
      }
    }
  }

  /**
   * A broadcast pushes a generation again exactly for a stream that has been given nothing but this very
   * generation; for any other stream whether something was repeated stays as it was.
   */
  lemma BroadcastRepeatsIff(s: SessionView, last: nat, now: int, h: seq<Generation>)
    requires History(h) && s.streaming && SessionOk(s, last, h) && last < LatestSequence(h)
    ensures var b := BufferOf(h[|h| - 1]);
            && Given(s, b, now).wire.pushed == s.wire.pushed + [b]
            && (Repeats(s.wire.pushed + [b]) <==> Repeats(s.wire.pushed) || s.wire.pushed == [b])
  {
    var b, pushed := BufferOf(h[|h| - 1]), s.wire.pushed;
    if |pushed| == 1 {
      assert IsGeneration(pushed[0], h);
      var i :| 0 <= i < |h| && pushed[0] == BufferOf(h[i]);
      assert pushed[0].gen == b.gen ==> i == |h| - 1;
      assert pushed == [pushed[0]];
    }
  }

  /**
   * A stream accepted when the latest generation was h's last, and then in a broadcast with the history h':
   * it is given two frames, and they are the same exactly when nothing was published in between.
   */
  lemma GreetedThenBroadcast(m: map<nat, SessionView>, t: nat, at: int, h: seq<Generation>,
                             m': map<nat, SessionView>, h': seq<Generation>, clock: nat -> int)
    requires History(h') && h != [] && h <= h' && t !in m
    requires Fanned(m[t := Greeted(true, at, Last(h))], m', {}, BufferOf(h'[|h'| - 1]), clock) && t in m'
    ensures m'[t].wire.pushed == [BufferOf(h[|h| - 1]), BufferOf(h'[|h'| - 1])]
    ensures Repeats(m'[t].wire.pushed) <==> h == h'
  {
    var s := Greeted(true, at, Last(h));
    assert m'[t] == Given(s, BufferOf(h'[|h'| - 1]), clock(t));
    assert h'[|h| - 1] == h[|h| - 1];
    if LatestSequence(h) == LatestSequence(h') {
      assert |h| == |h'|;
    }
  }

  /**
   * When that happens, both copies reach the wire exactly if a byte of the first one was sent before the
   * broadcast; otherwise the second copy takes the place of the first.
   */
  lemma CarriedTwiceIff(s: SessionView, last: nat, now: int, h: seq<Generation>)
    requires History(h) && s.streaming && SessionOk(s, last, h) && last < LatestSequence(h)
    requires s.wire.pushed == [BufferOf(h[|h| - 1])]
    ensures var b := BufferOf(h[|h| - 1]);
            var s' := Given(s, b, now);
            s'.wire.done + Held(s'.queue) == if s.wire.sent == [] then [b] else [b, b]
  {
    var b, w, q := BufferOf(h[|h| - 1]), s.wire, s.queue;
    var all := w.done + Held(q);
    SubsequenceLength(all, w.pushed);
    assert all == [b];
    if q.current.None? {
      assert w.done == [b];
      BodiesSnoc([], b);
      assert [] + [b] == [b];
    } else {
      assert w.done == [] && q.current == Some(b) && q.pending.None?;
      assert w.sent == [] + SentPart(q);
    }
  }
}
