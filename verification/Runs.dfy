/**
 * Whole runs of the reactor, seen from one session: what its events make of it, whatever the reactor does
 * for other sessions in between.
 */
module Runs {
  import opened Bytes
  import Q = OutputQueue
  import opened SharedState
  import opened Requests
  import opened FanOut
  import opened Turns
  import opened Reactor

  // ----- Tokens -----

  /** A burst leaves the sessions that are there alone and uses tokens that are new. */
  lemma AcceptGrows(c: Limits, e: Event, a: Status, b: Status)
    requires Effect(c, e, a, b) && e.AcceptEvent? && Sound(a)
    ensures Grown(a.sessions, a.nextToken, b.sessions, b.nextToken)
  {
    if !a.paused {
      BurstUses(c, a, e.streaming, e.results, 0);
      ResultsTallied(c, a, e.streaming, e.results, Used(e.results, 0));
    }
  }

  /**
   * What a burst comes to: it adds as many sessions as it accepts, within the client limit, and everybody is
   * accepted or rejected. Every new session came with a connection, is of the kind of the listener, and a
   * stream starts with the generation that was the latest then.
   */
  lemma AcceptAdds(c: Limits, e: Event, a: Status, b: Status)
    requires Effect(c, e, a, b) && e.AcceptEvent? && !a.paused && Sound(a)
    ensures var k := Used(e.results, 0); Tallied(c, a, b, CountOf(e.results, k), NewsOf(e.results, k))
    ensures forall t {:trigger b.sessions[t]} :: t in b.sessions && t !in a.sessions ==>
              exists i {:trigger e.results[i]} :: 0 <= i < |e.results| && e.results[i].Connected? &&
                JustAccepted(b.sessions[t], e.streaming, e.results[i].at,
                             a.history + Added(a.sequence, NewsOf(e.results, i + 1)))
  {
    var k := Used(e.results, 0);
    BurstUses(c, a, e.streaming, e.results, 0);
    ResultsTallied(c, a, e.streaming, e.results, k);
    forall t | t in b.sessions && t !in a.sessions
      ensures exists i {:trigger e.results[i]} :: 0 <= i < |e.results| && e.results[i].Connected? &&
                JustAccepted(b.sessions[t], e.streaming, e.results[i].at,
                             a.history + Added(a.sequence, NewsOf(e.results, i + 1)))
    {
      BurstAdds(c, a, e.streaming, e.results, k, t);
    }
  }

  /** One event never brings back a token that was used before. */
  lemma TokensOnce(c: Limits, e: Event, a: Status, b: Status, t: nat)
    requires Effect(c, e, a, b) && Sound(a) && t < a.nextToken && t !in a.sessions
    ensures t < b.nextToken && t !in b.sessions
  {
    if e.AcceptEvent? {
      AcceptGrows(c, e, a, b);
    }
  }

  lemma TokensGrow(c: Limits, e: Event, a: Status, b: Status)
    requires Effect(c, e, a, b) && Sound(a)
    ensures a.nextToken <= b.nextToken
  {
    if e.AcceptEvent? {
      AcceptGrows(c, e, a, b);
    }
  }

  lemma TokensOnceAt(c: Limits, es: seq<Event>, path: seq<Status>, t: nat, i: nat)
    requires Leads(c, es, path) && i < |es| && t < path[i].nextToken && t !in path[i].sessions
    ensures t < path[i + 1].nextToken && t !in path[i + 1].sessions
  {
    EffectAt(c, es, path, i);
    TokensOnce(c, es[i], path[i], path[i + 1], t);
  }

  lemma TokensGrowAt(c: Limits, es: seq<Event>, path: seq<Status>, i: nat)
    requires Leads(c, es, path) && i < |es|
    ensures path[i].nextToken <= path[i + 1].nextToken
  {
    EffectAt(c, es, path, i);
    TokensGrow(c, es[i], path[i], path[i + 1]);
  }

  /** So a late event can not reach another session than the one it was meant for. */
  lemma {:induction false} TokenNeverReturns(c: Limits, es: seq<Event>, path: seq<Status>, t: nat, i: nat, j: nat)
    requires Leads(c, es, path) && i <= j <= |es| && t < path[i].nextToken && t !in path[i].sessions
    ensures t < path[j].nextToken && t !in path[j].sessions
    decreases j
  {
    if i < j {
      TokenNeverReturns(c, es, path, t, i, j - 1);
      TokensOnceAt(c, es, path, t, j - 1);
    }
  }

  // ----- The events of one session in a run -----

  predicate Concerns(e: Event, t: nat) { e.SessionEvent? && e.token == t }

  /** The events of session t among the first n events of a run. */
  function VisitsOf(es: seq<Event>, path: seq<Status>, t: nat, n: nat): seq<Visit>
    requires n <= |es| < |path|
  {
    if n == 0 then []
    else
      VisitsOf(es, path, t, n - 1)
      + if Concerns(es[n - 1], t) then [Visit(es[n - 1].poll, path[n - 1].queuedBytes)] else []
  }

  /** The timer finds session s past a deadline. */
  predicate Sweeps(c: Limits, e: Event, s: SessionView) {
    e.TimerEvent? && Expired(s, e.now, c.requestTimeout, c.writeTimeout)
  }

  /** An HTTP session is changed by no event but its own; only a timer can end it otherwise. */
  lemma OtherEventsLeaveIt(c: Limits, e: Event, a: Status, b: Status, t: nat)
    requires Effect(c, e, a, b) && Sound(a) && t in a.sessions && !a.sessions[t].streaming && !Concerns(e, t)
    ensures if Sweeps(c, e, a.sessions[t]) then t !in b.sessions
            else t in b.sessions && b.sessions[t] == a.sessions[t]
  {
    match e
    case TimerEvent(now, _, _) =>
      var m := Unexpired(a.sessions, {}, now, c.requestTimeout, c.writeTimeout);
      assert t in m <==> !Sweeps(c, e, a.sessions[t]);
    case AcceptEvent(_, _) => AcceptGrows(c, e, a, b);
    case _ =>
  }

  /** A session only ever changes its mutable part. */
  lemma PollKeepsKind(s: SessionView, e: Poll, queuedBytes: int)
    requires Q.Ok(s.queue)
    ensures var o := AfterPoll(s, e, queuedBytes);
            o.after.streaming == s.streaming && o.after.acceptedAt == s.acceptedAt
  {
  }

  /** No timer among the first n events finds the session past a deadline. */
  ghost predicate NotSwept(c: Limits, es: seq<Event>, path: seq<Status>, t: nat, n: nat)
    requires n <= |es| < |path|
  {
    forall i {:trigger es[i]} :: 0 <= i < n && t in path[i].sessions ==> !Sweeps(c, es[i], path[i].sessions[t])
  }

  /** The session of token t is what the outcome of its own events says: as they left it, or gone. */
  ghost predicate Agrees(o: Outcome, x: Status, t: nat) {
    && t < x.nextToken && (t in x.sessions <==> o.alive)
    && (o.alive ==> x.sessions[t] == o.after)
  }

  /** What its events make of session t. */
  function OutcomeAt(s: SessionView, es: seq<Event>, path: seq<Status>, t: nat, n: nat): (o: Outcome)
    requires n <= |es| < |path| && Q.Ok(s.queue)
    ensures Q.Ok(o.after.queue)
  {
    AfterVisits(s, VisitsOf(es, path, t, n))
  }

  lemma OutcomeNext(s: SessionView, es: seq<Event>, path: seq<Status>, t: nat, n: nat)
    requires 0 < n <= |es| < |path| && Q.Ok(s.queue)
    ensures var o := OutcomeAt(s, es, path, t, n - 1);
            OutcomeAt(s, es, path, t, n) ==
            if Concerns(es[n - 1], t) && o.alive
            then Registered(AfterPoll(o.after, es[n - 1].poll, path[n - 1].queuedBytes)) else o
  {
    var front := VisitsOf(es, path, t, n - 1);
    if Concerns(es[n - 1], t) {
      var v := Visit(es[n - 1].poll, path[n - 1].queuedBytes);
      assert (front + [v])[..|front|] == front && (front + [v])[|front|] == v;
    } else {
      assert VisitsOf(es, path, t, n) == front;
    }
  }

  lemma VisitNext(c: Limits, e: Event, a: Status, b: Status, t: nat, o: Outcome)
    requires Effect(c, e, a, b) && Sound(a) && Concerns(e, t) && Q.Ok(o.after.queue) && Agrees(o, a, t)
    ensures Agrees(if o.alive then Registered(AfterPoll(o.after, e.poll, a.queuedBytes)) else o, b, t)
  {
  }

  lemma {:induction false} VisitsKeepKind(s: SessionView, vs: seq<Visit>)
    requires Q.Ok(s.queue)
    ensures AfterVisits(s, vs).after.streaming == s.streaming && AfterVisits(s, vs).after.acceptedAt == s.acceptedAt
    decreases |vs|
  {
    if vs != [] {
      var front, v := vs[..|vs| - 1], vs[|vs| - 1];
      VisitsKeepKind(s, front);
      PollKeepsKind(AfterVisits(s, front).after, v.poll, v.queuedBytes);
    }
  }

  lemma OtherNext(c: Limits, e: Event, a: Status, b: Status, t: nat, o: Outcome)
    requires Effect(c, e, a, b) && Sound(a) && !Concerns(e, t) && !o.after.streaming && Agrees(o, a, t)
    requires t in a.sessions ==> !Sweeps(c, e, a.sessions[t])
    ensures Agrees(o, b, t)
  {
    if o.alive {
      OtherEventsLeaveIt(c, e, a, b, t);
      TokensGrow(c, e, a, b);
    } else {
      TokensOnce(c, e, a, b, t);
    }
  }

  /** One event of a run more. */
  lemma AgreesNext(c: Limits, es: seq<Event>, path: seq<Status>, t: nat, i: nat, o: Outcome)
    requires Leads(c, es, path) && i < |es| && Q.Ok(o.after.queue) && !o.after.streaming && Agrees(o, path[i], t)
    requires t in path[i].sessions ==> !Sweeps(c, es[i], path[i].sessions[t])
    ensures var next := if Concerns(es[i], t) && o.alive
                        then Registered(AfterPoll(o.after, es[i].poll, path[i].queuedBytes)) else o;
            Agrees(next, path[i + 1], t)
  {
    EffectAt(c, es, path, i);
    if Concerns(es[i], t) {
      VisitNext(c, es[i], path[i], path[i + 1], t, o);
    } else {
      OtherNext(c, es[i], path[i], path[i + 1], t, o);
    }
  }

  /**
   * An HTTP session that no timer ends is at every moment of a run what its own events make of it, whatever
   * other sessions do, whoever connects and whatever is published.
   */
  lemma {:induction false} SessionFollowsItsEvents(c: Limits, es: seq<Event>, path: seq<Status>, t: nat, n: nat)
    requires Leads(c, es, path) && n <= |es| && NotSwept(c, es, path, t, n)
    requires t < path[0].nextToken && t in path[0].sessions
    requires !path[0].sessions[t].streaming && Q.Ok(path[0].sessions[t].queue)
    ensures Agrees(OutcomeAt(path[0].sessions[t], es, path, t, n), path[n], t)
    decreases n
  {
    if n > 0 {
      var s := path[0].sessions[t];
      SessionFollowsItsEvents(c, es, path, t, n - 1);
      VisitsKeepKind(s, VisitsOf(es, path, t, n - 1));
      AgreesNext(c, es, path, t, n - 1, OutcomeAt(s, es, path, t, n - 1));
      OutcomeNext(s, es, path, t, n);
    }
  }

  // ----- A request in a run -----

  /** Every timer of the run comes before the request deadline of a session accepted at this time. */
  predicate InTime(c: Limits, es: seq<Event>, acceptedAt: int) {
    forall i {:trigger es[i]} :: 0 <= i < |es| && es[i].TimerEvent? ==> es[i].now - acceptedAt <= c.requestTimeout
  }

  /** A session that waits for its request is swept by no timer in time. */
  lemma WaitingNotSwept(c: Limits, e: Event, s: SessionView, r: bytes)
    requires WaitsFor(s, r) && (e.TimerEvent? ==> e.now - s.acceptedAt <= c.requestTimeout)
    ensures !Sweeps(c, e, s)
  {
  }

  /** What has arrived before event n is the beginning of what arrives with it. */
  lemma FrontArrived(es: seq<Event>, path: seq<Status>, t: nat, n: nat, p: bytes, r: bytes)
    requires 0 < n <= |es| < |path| && AllBring(VisitsOf(es, path, t, n)) && p + Brought(VisitsOf(es, path, t, n)) < r
    ensures AllBring(VisitsOf(es, path, t, n - 1)) && p + Brought(VisitsOf(es, path, t, n - 1)) < r
  {
    var front, vs := VisitsOf(es, path, t, n - 1), VisitsOf(es, path, t, n);
    assert vs[..|front|] == front && forall i :: 0 <= i < |front| ==> front[i] == vs[i];
    BroughtPrefix(vs, |front|);
    assert p + Brought(front) <= p + Brought(vs);
  }

  lemma WaitsAt(c: Limits, es: seq<Event>, path: seq<Status>, t: nat, r: bytes, n: nat)
    requires Leads(c, es, path) && n <= |es| && NotSwept(c, es, path, t, n)
    requires t < path[0].nextToken && t in path[0].sessions && Whole(r) && WaitsFor(path[0].sessions[t], r)
    requires var vs := VisitsOf(es, path, t, n); AllBring(vs) && path[0].sessions[t].request + Brought(vs) < r
    ensures var s := path[0].sessions[t];
            t in path[n].sessions && path[n].sessions[t] == s.(request := s.request + Brought(VisitsOf(es, path, t, n)))
  {
    var s := path[0].sessions[t];
    SessionFollowsItsEvents(c, es, path, t, n);
    var vs := VisitsOf(es, path, t, n);
    assert OutcomeAt(s, es, path, t, n) == Outcome(true, s.(request := s.request + Brought(vs))) by {
      StillWaiting(r, s, vs);
    }
  }

  /** Until its request is complete, a session that is in time is not swept. */
  lemma {:induction false} WaitsInRun(c: Limits, es: seq<Event>, path: seq<Status>, t: nat, r: bytes, n: nat)
    requires Leads(c, es, path) && n <= |es| && t < path[0].nextToken && t in path[0].sessions && Whole(r)
    requires WaitsFor(path[0].sessions[t], r) && InTime(c, es, path[0].sessions[t].acceptedAt)
    requires n > 0 ==> var vs := VisitsOf(es, path, t, n - 1);
                       AllBring(vs) && path[0].sessions[t].request + Brought(vs) < r
    ensures NotSwept(c, es, path, t, n)
    decreases n
  {
    if n > 0 {
      if n > 1 {
        FrontArrived(es, path, t, n - 1, path[0].sessions[t].request, r);
      }
      WaitsInRun(c, es, path, t, r, n - 1);
      WaitsAt(c, es, path, t, r, n - 1);
      WaitingNotSwept(c, es[n - 1], path[n - 1].sessions[t], r);
    }
  }

  /**
   * In this run session t waits for request r, and the last event brings its last byte; other sessions,
   * connections, publications and timers may fall anywhere in between.
   */
  ghost predicate RequestArrives(c: Limits, es: seq<Event>, path: seq<Status>, t: nat, r: bytes) {
    && Leads(c, es, path) && t < path[0].nextToken && t in path[0].sessions
    && Whole(r) && WaitsFor(path[0].sessions[t], r) && InTime(c, es, path[0].sessions[t].acceptedAt)
    && es != [] && Concerns(es[|es| - 1], t) && Arriving(es[|es| - 1].poll.recvs, 0) != []
    && AllBring(VisitsOf(es, path, t, |es|))
    && path[0].sessions[t].request + Brought(VisitsOf(es, path, t, |es|)) == r
  }

  lemma LastVisit(es: seq<Event>, path: seq<Status>, t: nat)
    requires es != [] && |path| == |es| + 1 && Concerns(es[|es| - 1], t)
    ensures var n := |es| - 1;
            VisitsOf(es, path, t, n + 1) == VisitsOf(es, path, t, n) + [Visit(es[n].poll, path[n].queuedBytes)]
  {
  }

  /** All events but the last one bring less than the whole request. */
  lemma NotYet(p: bytes, r: bytes, front: seq<Visit>, v: Visit)
    requires AllBring(front + [v]) && p + Brought(front + [v]) == r && Arriving(v.poll.recvs, 0) != []
    ensures AllBring(front) && p + Brought(front) < r
  {
    assert (front + [v])[..|front|] == front && forall i :: 0 <= i < |front| ==> front[i] == (front + [v])[i];
    BroughtFront(p, front + [v]);
  }

  /**
   * HTTP fragmentation over a whole run: the last event pushes the one answer to the whole text, or ends the
   * session if the answer does not fit in the budget.
   */
  lemma RequestAnsweredInRun(c: Limits, es: seq<Event>, path: seq<Status>, t: nat, r: bytes) returns (at: int)
    requires RequestArrives(c, es, path, t, r)
    ensures var v := Visit(es[|es| - 1].poll, path[|es| - 1].queuedBytes);
            Agrees(Registered(Respond(path[0].sessions[t], v.poll.answers.route(r), at, v.queuedBytes)), path[|es|], t)
  {
    var s, n := path[0].sessions[t], |es| - 1;
    var front, v := VisitsOf(es, path, t, n), Visit(es[n].poll, path[n].queuedBytes);
    LastVisit(es, path, t);
    NotYet(s.request, r, front, v);
    WaitsInRun(c, es, path, t, r, n + 1);
    SessionFollowsItsEvents(c, es, path, t, n + 1);
    at := WholeRequestAnswered(r, s, front + [v]);
  }

  // ----- A stream in a run -----

  lemma OneSound(a: Status, t: nat)
    requires Sound(a) && t in a.sessions
    ensures SessionOk(a.sessions[t], a.lastSequence, a.history) && a.sessions[t].mask == MaskFor(a.sessions[t])
    ensures SessionBytes(a.sessions[t]) <= a.queuedBytes <= QUEUE_BUDGET
    ensures Q.Ok(a.sessions[t].queue) && Nonempty(a.sessions[t].queue)
  {
    TotalWithout(a.sessions, t);
    QueueNonempty(a.sessions[t], a.lastSequence, a.history);
  }

  /** The sessions that take part in the broadcast of an event: a timer sweeps first. */
  function Present(c: Limits, e: Event, a: Status): map<nat, SessionView> {
    if e.TimerEvent? then Unexpired(a.sessions, {}, e.now, c.requestTimeout, c.writeTimeout) else a.sessions
  }

  function ClockOf(e: Event): nat -> int
    requires Broadcasts(e)
  {
    if e.TimerEvent? then e.clock else e.clock
  }

  /** An event that broadcasts something new. */
  predicate Fans(e: Event, a: Status, b: Status) { Broadcasts(e) && b.lastSequence != a.lastSequence }

  /** The order in which a broadcast came to the sessions, and the place of t in it. */
  lemma TurnOf(c: Limits, e: Event, a: Status, b: Status, t: nat) returns (order: seq<nat>, k: nat)
    requires Effect(c, e, a, b) && Sound(a) && Fans(e, a, b) && t in Present(c, e, a)
    ensures b.history != [] && Covers(order, Present(c, e, a).Keys, {}) && k < |order| && order[k] == t
    ensures var x, g := Fan(Present(c, e, a), TotalBytes(Present(c, e, a))), BufferOf(b.history[|b.history| - 1]);
            AfterTurns(x, order, g, ClockOf(e)).sessions == b.sessions
  {
    var m := Present(c, e, a);
    var g := BufferOf(b.history[|b.history| - 1]);
    assert Tried(m, TotalBytes(m), b.sessions, TotalBytes(b.sessions), {}, g, ClockOf(e));
    order :| Covers(order, m.Keys, {}) &&
             AfterTurns(Fan(m, TotalBytes(m)), order, g, ClockOf(e)) == Fan(b.sessions, TotalBytes(b.sessions));
    assert t in order;
    k :| 0 <= k < |order| && order[k] == t;
  }

  /** An event of its own ends a stream: an error, a hang-up, or a send that fails. */
  ghost predicate Breaks(s: SessionView, p: Poll) {
    p.error || p.hangup || (p.writable && Q.Ok(s.queue) && WriteFails(s, p.sends))
  }

  /** A timer finds a stream past its write deadline. */
  predicate Overdue(c: Limits, e: Event, s: SessionView) {
    e.TimerEvent? && s.queue.current.Some? && e.now - s.lastProgress > c.writeTimeout
  }

  /** What the first k turns of a broadcast of g leave of the bytes queued. */
  ghost function BytesAtTurn(m: map<nat, SessionView>, order: seq<nat>, k: nat, g: Q.Buffer, clock: nat -> int): int
    requires k <= |order|
  {
    AfterTurns(Fan(m, TotalBytes(m)), order[..k], g, clock).queuedBytes
  }

  /** Broadcast g came to the sessions of m in this order, to t at turn k, and there it fits. */
  ghost predicate FitsAtTurn(m: map<nat, SessionView>, t: nat, order: seq<nat>, k: nat, g: Q.Buffer,
                             clock: nat -> int)
  {
    && t in m && Q.Ok(m[t].queue) && k < |order| && order[k] == t
    && Fits(m[t], g, BytesAtTurn(m, order, k, g, clock))
  }

  /**
   * A stream leaves the reactor only on an error, a hang-up or a send that fails in an event of its own, when
   * a timer finds it past its deadline, or when at its turn in a broadcast the frame does not fit in the
   * budget; and on each of these it does.
   */
  lemma StreamLeavesIff(c: Limits, e: Event, a: Status, b: Status, t: nat) returns (order: seq<nat>, k: nat)
    requires Effect(c, e, a, b) && Sound(a) && t in a.sessions && a.sessions[t].streaming
    ensures !Broadcasts(e) ==> (t in b.sessions <==> !(Concerns(e, t) && Breaks(a.sessions[t], e.poll)))
    ensures Broadcasts(e) && Overdue(c, e, a.sessions[t]) ==> t !in b.sessions
    ensures Broadcasts(e) && !Overdue(c, e, a.sessions[t]) && !Fans(e, a, b) ==> t in b.sessions
    ensures Fans(e, a, b) && !Overdue(c, e, a.sessions[t]) ==>
              && b.history != [] && Covers(order, Present(c, e, a).Keys, {})
              && (t in b.sessions <==>
                    FitsAtTurn(Present(c, e, a), t, order, k, BufferOf(b.history[|b.history| - 1]), ClockOf(e)))
  {
    order, k := [], 0;
    OneSound(a, t);
    assert Broadcasts(e) ==> (t in Present(c, e, a) <==> !Overdue(c, e, a.sessions[t]));
    match e
    case SessionEvent(token, p) =>
      if token == t {
        StreamEvent(a.sessions[t], p, a.queuedBytes);
      }
    case AcceptEvent(_, _) => AcceptGrows(c, e, a, b);
    case SignalEvent =>
    case _ =>
      if t in Present(c, e, a) && Fans(e, a, b) {
        order, k := TurnOf(c, e, a, b, t);
        StreamTurn(c, e, a, b, t, order, k);
      }
  }

  lemma StreamTurn(c: Limits, e: Event, a: Status, b: Status, t: nat, order: seq<nat>, k: nat)
    requires Sound(a) && Broadcasts(e) && t in Present(c, e, a) && a.sessions[t].streaming && b.history != []
    requires Covers(order, Present(c, e, a).Keys, {}) && k < |order| && order[k] == t
    requires AfterTurns(Fan(Present(c, e, a), TotalBytes(Present(c, e, a))), order,
                        BufferOf(b.history[|b.history| - 1]), ClockOf(e)).sessions == b.sessions
    ensures var m, g := Present(c, e, a), BufferOf(b.history[|b.history| - 1]);
            && (t in b.sessions <==> FitsAtTurn(m, t, order, k, g, ClockOf(e)))
            && (t in b.sessions ==> b.sessions[t] == Given(a.sessions[t], g, ClockOf(e)(t)))
  {
    var m := Present(c, e, a);
    OneSound(a, t);
    assert m[t] == a.sessions[t];
    ClosedIffItDidNotFit(Fan(m, TotalBytes(m)), order, BufferOf(b.history[|b.history| - 1]), ClockOf(e), k);
  }

  // ----- The write deadline -----

  /**
   * A broadcast starts the clock of a stream that had nothing to send, at its turn; it never moves the clock
   * of one with output pending.
   */
  lemma BroadcastClock(c: Limits, e: Event, a: Status, b: Status, t: nat)
    requires Effect(c, e, a, b) && Sound(a) && Broadcasts(e)
    requires t in a.sessions && t in b.sessions && a.sessions[t].streaming
    ensures var s, r := a.sessions[t], b.sessions[t];
            && r.wire.sent == s.wire.sent
            && (s.queue.current.Some? ==> r.lastProgress == s.lastProgress && r.queue.current.Some?)
            && (s.queue.current.None? && Fans(e, a, b) ==> r.lastProgress == ClockOf(e)(t) && r.queue.current.Some?)
            && (!Fans(e, a, b) ==> r == s)
  {
    OneSound(a, t);
    if Fans(e, a, b) {
      var order, k := TurnOf(c, e, a, b, t);
      StreamTurn(c, e, a, b, t, order, k);
      GivenLaws(a.sessions[t], BufferOf(b.history[|b.history| - 1]), ClockOf(e)(t));
    }
  }

  /** What an event of its own leaves of a session that goes on. */
  lemma OwnEvent(c: Limits, e: Event, a: Status, b: Status, t: nat)
    requires Effect(c, e, a, b) && Concerns(e, t) && t in a.sessions && t in b.sessions && Q.Ok(a.sessions[t].queue)
    ensures var r := AfterPoll(a.sessions[t], e.poll, a.queuedBytes).after; b.sessions[t] == r.(mask := MaskFor(r))
  {
  }

  /** Since a, session t has sent nothing: its output is still pending and its clock has not moved. */
  ghost predicate Stalled(a: Status, b: Status, t: nat) {
    && t in a.sessions && t in b.sessions && |a.sessions[t].wire.sent| <= |b.sessions[t].wire.sent|
    && (|a.sessions[t].wire.sent| == |b.sessions[t].wire.sent| ==>
          b.sessions[t].lastProgress == a.sessions[t].lastProgress && b.sessions[t].queue.current.Some?)
  }

  lemma OwnClock(c: Limits, e: Event, a: Status, b: Status, t: nat)
    requires Effect(c, e, a, b) && Sound(a) && Concerns(e, t) && t in a.sessions && t in b.sessions
    requires a.sessions[t].queue.current.Some?
    ensures Stalled(a, b, t)
  {
    OneSound(a, t);
    OwnEvent(c, e, a, b, t);
    StalledByPoll(a.sessions[t], e.poll, a.queuedBytes, a.lastSequence, a.history);
  }

  /** No event moves the clock of pending output without sending some of it, whatever is published or done. */
  lemma ClockStands(c: Limits, e: Event, a: Status, b: Status, t: nat)
    requires Effect(c, e, a, b) && Sound(a) && t in a.sessions && t in b.sessions
    requires a.sessions[t].queue.current.Some?
    ensures Stalled(a, b, t)
  {
    if Concerns(e, t) {
      OwnClock(c, e, a, b, t);
    } else if !a.sessions[t].streaming {
      OtherEventsLeaveIt(c, e, a, b, t);
    } else if Broadcasts(e) {
      BroadcastClock(c, e, a, b, t);
    } else if e.AcceptEvent? {
      AcceptGrows(c, e, a, b);
    }
  }

  lemma SentOnlyGrows(c: Limits, e: Event, a: Status, b: Status, t: nat)
    requires Effect(c, e, a, b) && Sound(a) && t in a.sessions && t in b.sessions
    ensures |a.sessions[t].wire.sent| <= |b.sessions[t].wire.sent|
  {
    OneSound(a, t);
    if a.sessions[t].queue.current.Some? {
      ClockStands(c, e, a, b, t);
    } else if Concerns(e, t) {
      OwnEvent(c, e, a, b, t);
      SentByPoll(a.sessions[t], e.poll, a.queuedBytes);
    } else if !a.sessions[t].streaming {
      OtherEventsLeaveIt(c, e, a, b, t);
    } else if Broadcasts(e) {
      BroadcastClock(c, e, a, b, t);
    } else if e.AcceptEvent? {
      AcceptGrows(c, e, a, b);
    }
  }

  /** A token that is there at both ends of a part of a run is there all the time. */
  lemma ThereBetween(c: Limits, es: seq<Event>, path: seq<Status>, t: nat, i: nat, k: nat, j: nat)
    requires Leads(c, es, path) && i <= k <= j <= |es| && t in path[i].sessions && t in path[j].sessions
    ensures t in path[k].sessions
  {
    SoundAt(c, es, path, i);
    TokenBound(c, es, path, i, k);
    if t !in path[k].sessions {
      TokenNeverReturns(c, es, path, t, k, j);
    }
  }

  lemma SoundAt(c: Limits, es: seq<Event>, path: seq<Status>, i: nat)
    requires Leads(c, es, path) && i <= |es|
    ensures Sound(path[i])
  {
    assert SoundStatus()(path[i]);
  }

  lemma {:induction false} TokenBound(c: Limits, es: seq<Event>, path: seq<Status>, i: nat, k: nat)
    requires Leads(c, es, path) && i <= k <= |es|
    ensures path[i].nextToken <= path[k].nextToken
    decreases k
  {
    if i < k {
      TokenBound(c, es, path, i, k - 1);
      TokensGrowAt(c, es, path, k - 1);
    }
  }

  lemma StalledAt(c: Limits, es: seq<Event>, path: seq<Status>, t: nat, i: nat)
    requires Leads(c, es, path) && i < |es| && t in path[i].sessions && t in path[i + 1].sessions
    ensures |path[i].sessions[t].wire.sent| <= |path[i + 1].sessions[t].wire.sent|
    ensures path[i].sessions[t].queue.current.Some? ==> Stalled(path[i], path[i + 1], t)
  {
    EffectAt(c, es, path, i);
    SentOnlyGrows(c, es[i], path[i], path[i + 1], t);
    if path[i].sessions[t].queue.current.Some? {
      ClockStands(c, es[i], path[i], path[i + 1], t);
    }
  }

  /** Over a run: as long as nothing is sent, pending output stays pending and its clock stands still. */
  lemma {:induction false} StalledInRun(c: Limits, es: seq<Event>, path: seq<Status>, t: nat, i: nat, j: nat)
    requires Leads(c, es, path) && i <= j <= |es| && t in path[i].sessions && t in path[j].sessions
    requires path[i].sessions[t].queue.current.Some?
    ensures Stalled(path[i], path[j], t)
    decreases j
  {
    if i < j {
      ThereBetween(c, es, path, t, i, j - 1, j);
      StalledInRun(c, es, path, t, i, j - 1);
      StalledAt(c, es, path, t, j - 1);
    }
  }

  /**
   * A client that takes nothing is ended: whatever is published or done for others, the first timer that comes
   * later than the write deadline after its last progress closes its session.
   */
  lemma StalledClientEnds(c: Limits, es: seq<Event>, path: seq<Status>, t: nat, i: nat, j: nat)
    requires Leads(c, es, path) && i <= j < |es| && t in path[i].sessions && t in path[j].sessions
    requires path[i].sessions[t].queue.current.Some?
    requires |path[j].sessions[t].wire.sent| == |path[i].sessions[t].wire.sent|
    requires es[j].TimerEvent? && es[j].now > path[i].sessions[t].lastProgress + c.writeTimeout
    ensures t !in path[j + 1].sessions
  {
    StalledInRun(c, es, path, t, i, j);
    EffectAt(c, es, path, j);
    TimerLaws(path[j].sessions, es[j].now, c.requestTimeout, c.writeTimeout);
  }
}
