/**
 * The reactor: one owner of all sessions. Everything the kernel or another thread decides is an input of
 * the step: what recv and send return, which events are reported, the clock, and what was published.
 */
module Reactor {
  import opened Bytes
  import opened Framing
  import Q = OutputQueue
  import opened SharedState
  import opened Requests
  import opened FanOut
  import opened Turns

  // ----- Inputs of the steps -----

  datatype AcceptResult =
    | Connected(at: int, news: seq<bytes>)
    | AcceptInterrupted
    | AcceptWouldBlock
    | TooManyFiles
    | AcceptFailed

  const MAX_ACCEPTS: nat := 32

  /** The results of accept4 that move one of the counters. */
  predicate Counted(r: AcceptResult) { r.Connected? || r.TooManyFiles? || r.AcceptFailed? }

  function ResultAt(results: seq<AcceptResult>, turn: nat): AcceptResult {
    if turn < |results| then results[turn] else AcceptWouldBlock
  }

  predicate GoesOn(r: AcceptResult) { r.AcceptInterrupted? || r.Connected? }

  /** How many of the first k results move a counter. */
  function CountOf(results: seq<AcceptResult>, k: nat): nat
    requires k <= |results|
  {
    if k == 0 then 0 else CountOf(results, k - 1) + if Counted(results[k - 1]) then 1 else 0
  }

  /** What was published before the connections among the first k results. */
  function NewsOf(results: seq<AcceptResult>, k: nat): seq<bytes>
    requires k <= |results|
  {
    if k == 0 then [] else NewsOf(results, k - 1) + if results[k - 1].Connected? then results[k - 1].news else []
  }

  /** How many results one call of Accept uses, from turn on. */
  function Used(results: seq<AcceptResult>, turn: nat): (u: nat)
    requires turn <= |results|
    ensures turn <= u <= |results|
    decreases |results| - turn
  {
    if turn >= MAX_ACCEPTS || turn >= |results| || results[turn].AcceptWouldBlock? then turn
    else if GoesOn(results[turn]) then Used(results, turn + 1)
    else turn + 1
  }

  /** Accept stops after 32 results, when there are no more, or with the first one that is neither taken nor retried. */
  lemma {:induction false} UsedLaws(results: seq<AcceptResult>, turn: nat)
    requires turn <= |results| && turn <= MAX_ACCEPTS
    ensures var u := Used(results, turn);
            && turn <= u <= |results| && u <= MAX_ACCEPTS
            && (forall j {:trigger results[j]} :: turn <= j < u ==> !results[j].AcceptWouldBlock?)
            && (forall j {:trigger results[j]} :: turn <= j < u - 1 ==> GoesOn(results[j]))
            && (u == MAX_ACCEPTS || u == |results| || results[u].AcceptWouldBlock?
                || (u > turn && !GoesOn(results[u - 1])))
    decreases |results| - turn
  {
    if turn < MAX_ACCEPTS && turn < |results| && GoesOn(results[turn]) {
      UsedLaws(results, turn + 1);
    }
  }

  /** m' has the sessions of m, unchanged, and maybe others, under tokens that were not used before n' came from n. */
  ghost predicate Grown(m: map<nat, SessionView>, n: nat, m': map<nat, SessionView>, n': nat) {
    && n <= n' && (forall t {:trigger m[t]} {:trigger m'[t]} :: t in m ==> t in m' && m'[t] == m[t])
    && (forall t {:trigger t in m'} :: t in m' ==> t in m || n <= t)
  }

  lemma GrownFurther(a: map<nat, SessionView>, n: nat, b: map<nat, SessionView>, k: nat, c: map<nat, SessionView>,
                     l: nat)
    requires Grown(a, n, b, k) && Grown(b, k, c, l)
    ensures Grown(a, n, c, l)
  {
    forall t | t in a ensures t in c && c[t] == a[t] {
      assert b[t] == a[t];
    }
  }

  datatype Event =
    | AcceptEvent(streaming: bool, results: seq<AcceptResult>)
    | TimerEvent(now: int, news: seq<bytes>, clock: nat -> int)
    | NotificationEvent(news: seq<bytes>, clock: nat -> int)
    | SessionEvent(token: nat, poll: Poll)
    | SignalEvent

  predicate Broadcasts(e: Event) { e.TimerEvent? || e.NotificationEvent? }

  ghost predicate HasSignal(events: seq<Event>) { exists i :: 0 <= i < |events| && events[i].SignalEvent? }

  method SignalAmong(events: seq<Event>) returns (found: bool)
    ensures found <==> HasSignal(events)
  {
    for i := 0 to |events|
      invariant forall k :: 0 <= k < i ==> !events[k].SignalEvent?
    {
      if events[i].SignalEvent? {
        return true;
      }
    }
    found := false;
  }

  // ----- What an event does -----

  /** The reactor as a value, with what the other threads have published. */
  datatype Status = Status(sessions: map<nat, SessionView>, queuedBytes: int, nextToken: nat, lastSequence: nat,
                           history: seq<Generation>, sequence: nat, accepted: nat, rejected: nat, timeouts: nat,
                           paused: bool)

  /** What holds of the reactor between two events. */
  ghost predicate Sound(a: Status) {
    && AllSessionsOk(a.sessions, a.lastSequence, a.history) && AllMasksOk(a.sessions)
    && Accounted(a.sessions, a.queuedBytes) && History(a.history) && a.lastSequence <= LatestSequence(a.history)
    && (forall t {:trigger t in a.sessions} :: t in a.sessions ==> t < a.nextToken)
  }

  datatype Limits = Limits(maxClients: nat, requestTimeout: int, writeTimeout: int)

  predicate Expired(s: SessionView, now: int, requestTimeout: int, writeTimeout: int) {
    || (!s.streaming && !s.responding && now - s.acceptedAt > requestTimeout)
    || (s.queue.current.Some? && now - s.lastProgress > writeTimeout)
  }

  /** The sessions left when all but those in todo were checked against their deadlines. */
  function Unexpired(m: map<nat, SessionView>, todo: set<nat>, now: int, requestTimeout: int,
                     writeTimeout: int): map<nat, SessionView>
  {
    map t | t in m && (t in todo || !Expired(m[t], now, requestTimeout, writeTimeout)) :: m[t]
  }

  /** A session that a timer leaves: a request is read in time, and pending output moves in time. */
  predicate InTimeAt(s: SessionView, now: int, requestTimeout: int, writeTimeout: int) {
    && (s.streaming || s.responding || now <= s.acceptedAt + requestTimeout)
    && (s.queue.current.None? || now <= s.lastProgress + writeTimeout)
  }

  lemma TimerLaws(m: map<nat, SessionView>, now: int, requestTimeout: int, writeTimeout: int)
    ensures var m' := Unexpired(m, {}, now, requestTimeout, writeTimeout);
            && (forall t {:trigger t in m'} :: t in m' <==> t in m && InTimeAt(m[t], now, requestTimeout, writeTimeout))
            && (forall t {:trigger m'[t]} :: t in m' ==> m'[t] == m[t])
  {
  }

  /** What was published comes behind the history, numbered upwards. */
  ghost predicate Informed(a: Status, b: Status, news: seq<bytes>) {
    b.sequence == a.sequence + |news| && b.history == a.history + Added(a.sequence, news)
  }

  // ----- The step of Accept -----

  /** A greeted session takes the next token. */
  function Seated(a: Status, streaming: bool, at: int): Status {
    var s := Greeted(streaming, at, Last(a.history));
    a.(sessions := a.sessions[a.nextToken := s], nextToken := a.nextToken + 1,
       queuedBytes := a.queuedBytes + SessionBytes(s))
  }

  function CountedAs(a: Status, ok: bool): Status {
    if ok then a.(accepted := a.accepted + 1) else a.(rejected := a.rejected + 1)
  }

  /** A connection is greeted and gets the next token, or it is turned away. */
  function Admitted(c: Limits, a: Status, streaming: bool, at: int): Status {
    if |a.sessions| >= c.maxClients then CountedAs(a, false)
    else if HasRoom(streaming, Last(a.history), a.queuedBytes) then CountedAs(Seated(a, streaming, at), true)
    else CountedAs(a.(nextToken := a.nextToken + 1), false)
  }

  function Published(a: Status, news: seq<bytes>): Status {
    a.(history := a.history + Added(a.sequence, news), sequence := a.sequence + |news|)
  }

  /** One result of accept4. */
  function Arrived(c: Limits, a: Status, streaming: bool, r: AcceptResult): Status {
    match r
    case Connected(at, news) => Admitted(c, Published(a, news), streaming, at)
    case TooManyFiles => a.(rejected := a.rejected + 1, paused := true)
    case AcceptFailed => a.(rejected := a.rejected + 1)
    case _ => a
  }

  function AfterResults(c: Limits, a: Status, streaming: bool, results: seq<AcceptResult>, k: nat): Status
    requires k <= |results|
  {
    if k == 0 then a else Arrived(c, AfterResults(c, a, streaming, results, k - 1), streaming, results[k - 1])
  }

  /** The loop of Accept from turn on. */
  function Burst(c: Limits, a: Status, streaming: bool, results: seq<AcceptResult>, turn: nat): Status
    decreases MAX_ACCEPTS - turn
  {
    if turn >= MAX_ACCEPTS then a
    else
      var b := Arrived(c, a, streaming, ResultAt(results, turn));
      if GoesOn(ResultAt(results, turn)) then Burst(c, b, streaming, results, turn + 1) else b
  }

  /** A property that holds before every turn of Accept, and one of its end. */
  ghost predicate LedByResults(c: Limits, streaming: bool, results: seq<AcceptResult>, keeps: (Status, nat) -> bool,
                               ends: Status -> bool)
  {
    && (forall x {:trigger ends(x)} :: keeps(x, MAX_ACCEPTS) ==> ends(x))
    && (forall x: Status, k: nat {:trigger keeps(x, k), Arrived(c, x, streaming, ResultAt(results, k))} ::
          keeps(x, k) && k < MAX_ACCEPTS ==>
            var y := Arrived(c, x, streaming, ResultAt(results, k));
            if GoesOn(ResultAt(results, k)) then keeps(y, k + 1) else ends(y))
  }

  lemma BurstTurn(c: Limits, a: Status, streaming: bool, results: seq<AcceptResult>, turn: nat)
    requires turn < MAX_ACCEPTS
    ensures var b := Arrived(c, a, streaming, ResultAt(results, turn));
            Burst(c, a, streaming, results, turn) ==
            if GoesOn(ResultAt(results, turn)) then Burst(c, b, streaming, results, turn + 1) else b
  {
  }

  /** What is still to come of a burst does not change. */
  lemma BurstGoal(c: Limits, goal: Status, streaming: bool, results: seq<AcceptResult>)
    returns (keeps: (Status, nat) -> bool, ends: Status -> bool)
    ensures LedByResults(c, streaming, results, keeps, ends)
    ensures forall x: Status, k: nat :: keeps(x, k) == (goal == Burst(c, x, streaming, results, k))
    ensures forall x :: ends(x) == (x == goal)
  {
    keeps := (x: Status, k: nat) => goal == Burst(c, x, streaming, results, k);
    ends := (x: Status) => x == goal;
    forall x: Status, k: nat | keeps(x, k) && k < MAX_ACCEPTS
      ensures var y := Arrived(c, x, streaming, ResultAt(results, k));
              if GoesOn(ResultAt(results, k)) then keeps(y, k + 1) else ends(y)
    {
      BurstTurn(c, x, streaming, results, k);
    }
  }

  /** It comes to the results that are used, one after the other. */
  lemma {:induction false} BurstUses(c: Limits, a: Status, streaming: bool, results: seq<AcceptResult>, turn: nat)
    requires turn <= |results| && turn <= MAX_ACCEPTS
    ensures Burst(c, AfterResults(c, a, streaming, results, turn), streaming, results, turn)
            == AfterResults(c, a, streaming, results, Used(results, turn))
    decreases MAX_ACCEPTS - turn
  {
    if turn < MAX_ACCEPTS {
      var x := AfterResults(c, a, streaming, results, turn);
      BurstTurn(c, x, streaming, results, turn);
      if turn == |results| || results[turn].AcceptWouldBlock? {
        NothingArrives(c, x, streaming);
      } else {
        ResultNext(c, a, streaming, results, turn);
        if GoesOn(results[turn]) {
          BurstUses(c, a, streaming, results, turn + 1);
        }
      }
    }
  }

  lemma NothingArrives(c: Limits, a: Status, streaming: bool)
    ensures Arrived(c, a, streaming, AcceptWouldBlock) == a
  {
  }

  lemma ResultNext(c: Limits, a: Status, streaming: bool, results: seq<AcceptResult>, k: nat)
    requires k < |results|
    ensures AfterResults(c, a, streaming, results, k + 1)
            == Arrived(c, AfterResults(c, a, streaming, results, k), streaming, results[k])
  {
  }

  /**
   * A session as it is right after accept: of the kind of its listener, with nothing read or sent, its clocks
   * at the time of the connection; a stream has the latest generation queued, if there is one, and waits for
   * EPOLLOUT then; an HTTP session waits for input.
   */
  predicate JustAccepted(s: SessionView, streaming: bool, at: int, h: seq<Generation>) {
    && s.streaming == streaming && !s.responding && s.request == [] && s.acceptedAt == at && s.lastProgress == at
    && s.wire.sent == [] && s.wire.done == []
    && if streaming && h != [] then
         var b := Q.Buffer(h[|h| - 1].sequence, FrameOf(h[|h| - 1].payload));
         s.wire.pushed == [b] && s.queue == Q.State(Some(b), None, 0) && s.mask == Mask(false, true)
       else s.wire.pushed == [] && s.queue == Q.State(None, None, 0) && s.mask == Mask(!streaming, false)
  }

  /**
   * A connection is accepted exactly if there is a free place and, for a stream, the latest generation fits in
   * the budget: then one session is new, under the next token. Otherwise nothing is new and it is rejected.
   */
  lemma ArrivedLaws(c: Limits, a: Status, streaming: bool, r: AcceptResult)
    requires r.Connected? && a.nextToken !in a.sessions
    ensures var b, t := Arrived(c, a, streaming, r), a.nextToken;
            var h := a.history + Added(a.sequence, r.news);
            && b.history == h && b.sequence == a.sequence + |r.news| && b.paused == a.paused
            && (t in b.sessions <==>
                  && |a.sessions| < c.maxClients
                  && (streaming && h != [] ==> a.queuedBytes + |FrameOf(h[|h| - 1].payload)| <= QUEUE_BUDGET))
            && (if t in b.sessions then
                  && b.accepted == a.accepted + 1 && b.rejected == a.rejected && b.nextToken == t + 1
                  && b.sessions == a.sessions[t := b.sessions[t]] && JustAccepted(b.sessions[t], streaming, r.at, h)
                else b.accepted == a.accepted && b.rejected == a.rejected + 1 && b.sessions == a.sessions)
  {
  }

  /** The other results admit nobody; running out of descriptors pauses the listeners. */
  lemma NotConnected(c: Limits, a: Status, streaming: bool, r: AcceptResult)
    requires !r.Connected?
    ensures var b := Arrived(c, a, streaming, r);
            && b.sessions == a.sessions && b.nextToken == a.nextToken && b.accepted == a.accepted
            && b.history == a.history && b.sequence == a.sequence && b.queuedBytes == a.queuedBytes
            && b.rejected == a.rejected + (if r.TooManyFiles? || r.AcceptFailed? then 1 else 0)
            && (b.paused <==> a.paused || r.TooManyFiles?)
  {
  }

  /** A sum over a burst: everybody is either accepted or rejected, and the accepted are the new sessions. */
  ghost predicate Tallied(c: Limits, a: Status, b: Status, counted: nat, news: seq<bytes>) {
    && Grown(a.sessions, a.nextToken, b.sessions, b.nextToken) && |b.sessions| <= Max(|a.sessions|, c.maxClients)
    && (forall t {:trigger t in b.sessions} :: t in b.sessions ==> t < b.nextToken)
    && b.accepted - a.accepted == |b.sessions| - |a.sessions|
    && b.accepted + b.rejected == a.accepted + a.rejected + counted
    && Informed(a, b, news) && b.lastSequence == a.lastSequence && b.timeouts == a.timeouts
  }

  lemma NewsNext(a: Status, x: Status, news: seq<bytes>, more: seq<bytes>)
    requires Informed(a, x, news)
    ensures x.history + Added(x.sequence, more) == a.history + Added(a.sequence, news + more)
  {
    AddedAppend(a.sequence, news, more);
    Glue(a.history, Added(a.sequence, news), Added(x.sequence, more));
  }

  /** One result adds at most the session of the next token. */
  lemma OneMore(c: Limits, a: Status, streaming: bool, r: AcceptResult)
    requires a.nextToken !in a.sessions
    ensures var b := Arrived(c, a, streaming, r);
            && Grown(a.sessions, a.nextToken, b.sessions, b.nextToken)
            && (forall t {:trigger t in b.sessions} :: t in b.sessions && t !in a.sessions ==>
                  t == a.nextToken && r.Connected?)
  {
    if r.Connected? {
      ArrivedLaws(c, a, streaming, r);
    }
  }

  lemma TalliedConnection(c: Limits, a: Status, b: Status, counted: nat, news: seq<bytes>, streaming: bool,
                          r: AcceptResult)
    requires Tallied(c, a, b, counted, news) && r.Connected?
    ensures Tallied(c, a, Arrived(c, b, streaming, r), counted + 1, news + r.news)
  {
    var x := Arrived(c, b, streaming, r);
    NewsNext(a, b, news, r.news);
    assert b.nextToken !in b.sessions;
    ArrivedLaws(c, b, streaming, r);
    assert Grown(b.sessions, b.nextToken, x.sessions, x.nextToken) by {
      OneMore(c, b, streaming, r);
    }
    GrownFurther(a.sessions, a.nextToken, b.sessions, b.nextToken, x.sessions, x.nextToken);
  }

  lemma TalliedNext(c: Limits, a: Status, b: Status, counted: nat, news: seq<bytes>, streaming: bool, r: AcceptResult)
    requires Tallied(c, a, b, counted, news)
    ensures Tallied(c, a, Arrived(c, b, streaming, r), counted + if Counted(r) then 1 else 0,
                    news + if r.Connected? then r.news else [])
  {
    if r.Connected? {
      TalliedConnection(c, a, b, counted, news, streaming, r);
    } else {
      assert news + [] == news;
    }
  }

  lemma {:induction false} ResultsTallied(c: Limits, a: Status, streaming: bool, results: seq<AcceptResult>, k: nat)
    requires k <= |results| && forall t {:trigger t in a.sessions} :: t in a.sessions ==> t < a.nextToken
    ensures Tallied(c, a, AfterResults(c, a, streaming, results, k), CountOf(results, k), NewsOf(results, k))
    decreases k
  {
    if k == 0 {
      assert a.history + [] == a.history;
    } else {
      ResultsTallied(c, a, streaming, results, k - 1);
      TalliedNext(c, a, AfterResults(c, a, streaming, results, k - 1), CountOf(results, k - 1),
                  NewsOf(results, k - 1), streaming, results[k - 1]);
    }
  }

  /**
   * Every session that a burst adds came with one of its connections: it streams exactly if the listener does,
   * and a stream starts with what was the latest generation at that moment.
   */
  lemma {:induction false} BurstAdds(c: Limits, a: Status, streaming: bool, results: seq<AcceptResult>, k: nat, t: nat)
    requires k <= |results| && forall u {:trigger u in a.sessions} :: u in a.sessions ==> u < a.nextToken
    requires var b := AfterResults(c, a, streaming, results, k); t in b.sessions && t !in a.sessions
    ensures exists i {:trigger results[i]} ::
              && 0 <= i < k && results[i].Connected? && AfterResults(c, a, streaming, results, i).nextToken == t
              && JustAccepted(AfterResults(c, a, streaming, results, k).sessions[t], streaming, results[i].at,
                              a.history + Added(a.sequence, NewsOf(results, i + 1)))
    decreases k
  {
    var x, y := AfterResults(c, a, streaming, results, k - 1), AfterResults(c, a, streaming, results, k);
    var r := results[k - 1];
    ResultsTallied(c, a, streaming, results, k - 1);
    if t in x.sessions {
      assert y.sessions[t] == x.sessions[t] by {
        OneMore(c, x, streaming, r);
      }
      BurstAdds(c, a, streaming, results, k - 1, t);
    } else {
      assert r.Connected? && x.nextToken == t
             && JustAccepted(y.sessions[t], streaming, r.at, x.history + Added(x.sequence, r.news)) by {
        OneMore(c, x, streaming, r);
        if r.Connected? {
          ArrivedLaws(c, x, streaming, r);
        }
      }
      NewsNext(a, x, NewsOf(results, k - 1), r.news);
      assert NewsOf(results, k) == NewsOf(results, k - 1) + r.news;
    }
  }

  // ----- The step of any event -----

  /** The step of one event from a to b. */
  ghost predicate Effect(c: Limits, e: Event, a: Status, b: Status) {
    match e
    case AcceptEvent(streaming, results) => b == if a.paused then a else Burst(c, a, streaming, results, 0)
    case TimerEvent(now, news, clock) =>
      var m := Unexpired(a.sessions, {}, now, c.requestTimeout, c.writeTimeout);
      && b.timeouts == a.timeouts + |a.sessions| - |m| && !b.paused && b.nextToken == a.nextToken
      && CaughtUp(m, a.lastSequence, b.sessions, b.lastSequence, Last(b.history), clock)
      && b.accepted == a.accepted && b.rejected == a.rejected + |m| - |b.sessions|
      && Informed(a, b, news) && b.lastSequence == LatestSequence(b.history)
    case NotificationEvent(news, clock) =>
      && b.timeouts == a.timeouts && b.paused == a.paused && b.nextToken == a.nextToken
      && CaughtUp(a.sessions, a.lastSequence, b.sessions, b.lastSequence, Last(b.history), clock)
      && b.accepted == a.accepted && b.rejected == a.rejected + |a.sessions| - |b.sessions|
      && Informed(a, b, news) && b.lastSequence == LatestSequence(b.history)
    case SessionEvent(token, poll) =>
      b == a.(sessions := Polled(a.sessions, token, poll, a.queuedBytes), queuedBytes := b.queuedBytes)
    case SignalEvent => b == a
  }

  /** A path of states that are all ok, each of them one step behind the one before. */
  ghost predicate Chain<E, S>(step: (E, S, S) -> bool, ok: S -> bool, es: seq<E>, path: seq<S>) {
    && |path| == |es| + 1 && (forall i {:trigger ok(path[i])} :: 0 <= i < |path| ==> ok(path[i]))
    && forall i {:trigger step(es[i], path[i], path[i + 1])} :: 0 <= i < |es| ==> step(es[i], path[i], path[i + 1])
  }

  lemma ChainOn<E, S>(step: (E, S, S) -> bool, ok: S -> bool, es: seq<E>, i: nat, path: seq<S>, b: S)
    requires i < |es| && Chain(step, ok, es[..i], path) && step(es[i], path[i], b) && ok(b)
    ensures Chain(step, ok, es[..i + 1], path + [b])
  {
    forall k | 0 <= k <= i + 1 ensures ok((path + [b])[k]) {
      assert k <= i ==> ok(path[k]);
    }
    forall k | 0 <= k <= i ensures step(es[..i + 1][k], (path + [b])[k], (path + [b])[k + 1]) {
      if k < i {
        assert step(es[..i][k], path[k], path[k + 1]);
      }
    }
  }

  lemma ChainJoin<E, S>(step: (E, S, S) -> bool, ok: S -> bool, es: seq<E>, path: seq<S>, more: seq<E>, rest: seq<S>)
    requires Chain(step, ok, es, path) && Chain(step, ok, more, rest) && rest[0] == path[|es|]
    ensures Chain(step, ok, es + more, path + rest[1..])
  {
    var all, ps := es + more, path + rest[1..];
    forall i | 0 <= i < |ps| ensures ok(ps[i]) {
      assert ok(if i < |path| then path[i] else rest[i - |es|]);
    }
    forall i | 0 <= i < |all| ensures step(all[i], ps[i], ps[i + 1]) {
      if i < |es| {
        assert step(es[i], path[i], path[i + 1]);
      } else {
        var j := i - |es|;
        assert step(more[j], rest[j], rest[j + 1]);
        assert all[i] == more[j] && ps[i] == rest[j] && ps[i + 1] == rest[j + 1];
      }
    }
  }

  ghost function StepOf(c: Limits): (Event, Status, Status) -> bool { (e, a, b) => Effect(c, e, a, b) }

  ghost function SoundStatus(): Status -> bool { a => Sound(a) }

  /** A run of events: path holds the status before each of them, and the one after the last; all are sound. */
  ghost predicate Leads(c: Limits, events: seq<Event>, path: seq<Status>) {
    Chain(StepOf(c), SoundStatus(), events, path)
  }

  lemma EffectAt(c: Limits, events: seq<Event>, path: seq<Status>, i: nat)
    requires Leads(c, events, path) && i < |events|
    ensures Effect(c, events[i], path[i], path[i + 1]) && Sound(path[i]) && Sound(path[i + 1])
  {
    assert StepOf(c)(events[i], path[i], path[i + 1]);
    assert SoundStatus()(path[i]) && SoundStatus()(path[i + 1]);
  }

  lemma LeadsOn(c: Limits, events: seq<Event>, i: nat, path: seq<Status>, b: Status)
    requires i < |events| && Leads(c, events[..i], path) && Effect(c, events[i], path[i], b) && Sound(b)
    ensures Leads(c, events[..i + 1], path + [b])
  {
    ChainOn(StepOf(c), SoundStatus(), events, i, path, b);
  }

  /** After a run that ends with a broadcast the latest publication was broadcast. */
  lemma LastStep(c: Limits, events: seq<Event>, path: seq<Status>)
    requires Leads(c, events, path)
    ensures var b := path[|events|];
            events != [] && Broadcasts(events[|events| - 1]) ==> b.lastSequence == LatestSequence(b.history)
  {
    if events != [] {
      EffectAt(c, events, path, |events| - 1);
    }
  }

  lemma LeadsJoin(c: Limits, events: seq<Event>, path: seq<Status>, more: seq<Event>, rest: seq<Status>)
    requires Leads(c, events, path) && Leads(c, more, rest) && rest[0] == path[|events|]
    ensures Leads(c, events + more, path + rest[1..])
    ensures var ps := path + rest[1..]; ps[0] == path[0] && ps[|events + more|] == rest[|more|]
  {
    ChainJoin(StepOf(c), SoundStatus(), events, path, more, rest);
  }

  /** The events of a run up to the batch with a signal, of which none is served. */
  ghost function Served(batches: seq<seq<Event>>): seq<Event> {
    if batches == [] || HasSignal(batches[0]) then [] else batches[0] + Served(batches[1..])
  }

  lemma ServedStep(batches: seq<seq<Event>>, i: nat, served: seq<Event>)
    requires i < |batches| && served + Served(batches[i..]) == Served(batches)
    ensures if HasSignal(batches[i]) then served == Served(batches)
            else (served + batches[i]) + Served(batches[i + 1..]) == Served(batches)
  {
    assert batches[i..][1..] == batches[i + 1..];
    if HasSignal(batches[i]) {
      assert served + [] == served;
    } else {
      Glue(served, batches[i], Served(batches[i + 1..]));
    }
  }

  // ----- Sessions -----

  class Session {
    const streaming: bool
    const acceptedAt: int
    var responding: bool
    var request: bytes
    const output: Q.OutputQueue
    var lastProgress: int
    var mask: Mask
    ghost var wire: Q.Wire

    ghost function View(): SessionView
      reads this, output
    {
      SessionView(streaming, responding, request, output.View(), acceptedAt, lastProgress, mask, wire)
    }

    constructor (streaming: bool, now: int)
      ensures fresh(output)
      ensures View() == SessionView(streaming, false, [], Q.EMPTY, now, now, Mask(!streaming, false), Q.SILENT)
    {
      this.streaming, acceptedAt := streaming, now;
      responding, request, lastProgress := false, [], now;
      output := new Q.OutputQueue();
      mask, wire := Mask(!streaming, false), Q.SILENT;
    }
  }

  /** Every token is smaller than n. */
  ghost predicate Below(m: map<nat, Session>, n: nat) { forall t {:trigger t in m} :: t in m ==> t < n }

  class Reactor {
    const maxClients: nat
    const requestTimeout: int
    const writeTimeout: int
    const state: SharedState
    var sessions: map<nat, Session>
    var nextToken: nat
    var lastSequence: nat
    var accepted: nat
    var rejected: nat
    var dropped: nat
    var timeouts: nat
    var bytesSent: nat
    var queuedBytes: nat
    var listenersPaused: bool
    ghost var closed: seq<Closed>

    constructor (maxClients: nat, requestTimeout: int, writeTimeout: int, state: SharedState)
      requires state.Valid()
      ensures Valid() && this.state == state && sessions == map[] && closed == []
    {
      this.maxClients, this.state := maxClients, state;
      this.requestTimeout, this.writeTimeout := requestTimeout, writeTimeout;
      sessions, nextToken, lastSequence := map[], 16, 0;
      accepted, rejected, dropped, timeouts, bytesSent, queuedBytes := 0, 0, 0, 0, 0, 0;
      listenersPaused, closed := false, [];
    }

    /** The session objects and their queues. */
    ghost function Objects(): set<object>
      reads this`sessions
    {
      (set t | t in sessions :: sessions[t] as object) + (set t | t in sessions :: sessions[t].output as object)
    }

    /** No two sessions share an object. */
    ghost predicate Separate()
      reads this`sessions
    {
      forall t, u {:trigger sessions[t], sessions[u]} :: t in sessions && u in sessions && t != u ==>
        sessions[t] != sessions[u] && sessions[t].output != sessions[u].output
    }

    /** s shares no object with the sessions in the map. */
    ghost predicate Outside(s: Session)
      reads this`sessions
    {
      forall t {:trigger sessions[t]} :: t in sessions ==> sessions[t] != s && sessions[t].output != s.output
    }

    ghost predicate Numbered() reads this`sessions, this`nextToken { Below(sessions, nextToken) }

    ghost function Views(): map<nat, SessionView>
      reads this`sessions, Objects()
    {
      map t | t in sessions :: sessions[t].View()
    }

    ghost function Now(): Status
      reads this, Objects(), state
    {
      Status(Views(), queuedBytes, nextToken, lastSequence, state.history, state.sequence, accepted, rejected,
             timeouts, listenersPaused)
    }

    ghost function Configured(): Limits { Limits(maxClients, requestTimeout, writeTimeout) }

    ghost predicate Valid()
      reads this, Objects(), state
    {
      && Separate() && Numbered() && state.Valid()
      && Invariant(Views(), closed, queuedBytes, lastSequence, state.history)
    }

    /** Every session was there before, or is new. */
    twostate predicate Owned()
      reads this`sessions
    {
      forall t {:trigger sessions[t]} :: t in sessions ==>
        (t in old(sessions) && sessions[t] == old(sessions)[t]) || (fresh(sessions[t]) && fresh(sessions[t].output))
    }

    /** What does not belong to the sessions, and is not counted by their traffic, is as it was. */
    twostate predicate Aside()
      reads this, state
    {
      Steady() && timeouts == old(timeouts) && listenersPaused == old(listenersPaused)
    }

    /** Nobody came, no timer was served and nothing was published. */
    twostate predicate Uninvolved()
      reads this, state
    {
      && accepted == old(accepted) && timeouts == old(timeouts) && listenersPaused == old(listenersPaused)
      && state.sequence == old(state.sequence)
    }

    /** Nobody came, nothing was published and nothing was broadcast. */
    twostate predicate Steady()
      reads this, state
    {
      && nextToken == old(nextToken) && lastSequence == old(lastSequence) && accepted == old(accepted)
      && rejected == old(rejected) && state.latest == old(state.latest) && state.sequence == old(state.sequence)
      && state.history == old(state.history)
    }

    lemma SameSize()
      ensures |Views()| == |sessions|
    {
      assert Views().Keys == sessions.Keys;
    }

    // ----- Modify, Enqueue, Close -----

    /** Registers the interest set of a session with epoll. */
    method Modify(s: Session)
      modifies s`mask
      ensures s.View() == old(s.View()).(mask := MaskFor(old(s.View())))
      ensures (s.mask.read <==> !s.streaming && !s.responding) && (s.mask.write <==> s.output.current.Some?)
    {
      s.mask := Mask(!s.streaming && !s.responding, !s.output.Empty());
    }

    /** s need not be in the map yet; on failure its queue is replaced and the caller has to close it. */
    method Enqueue(s: Session, buffer: Q.Buffer, now: int) returns (ok: bool)
      requires Q.Ok(s.output.View()) && s.output.ByteCount() <= queuedBytes
      modifies this`queuedBytes, this`dropped, s`lastProgress, s`wire, s.output
      ensures ok <==> Fits(old(s.View()), buffer, old(queuedBytes))
      ensures s.View() == if ok then Enqueued(old(s.View()), buffer, now) else Overflowed(old(s.View()), now)
      ensures queuedBytes == old(queuedBytes) - SessionBytes(old(s.View())) + SessionBytes(s.View())
      ensures s.lastProgress == if old(s.output.current).None? then now else old(s.lastProgress)
      ensures dropped == old(dropped) + if Q.Supersedes(old(s.output.View())) then 1 else 0
    {
      var before := s.output.ByteCount();
      var wasEmpty := s.output.Empty();
      var superseded := s.output.Push(buffer);
      if superseded {
        dropped := dropped + 1;
      }
      queuedBytes := queuedBytes - before + s.output.ByteCount();
      if wasEmpty {
        s.lastProgress := now;
      }
      if queuedBytes > QUEUE_BUDGET {
        queuedBytes := queuedBytes - s.output.ByteCount();
        s.output.Reset();
        return false;
      }
      s.wire := Q.AfterPush(s.wire, buffer);
      ok := true;
    }

    method Close(token: nat)
      requires token in sessions ==>
                Q.Ok(sessions[token].output.View()) && sessions[token].output.ByteCount() <= queuedBytes
      modifies this`sessions, this`queuedBytes, this`closed
      ensures sessions == old(sessions) - {token}
      ensures token !in old(sessions) ==> queuedBytes == old(queuedBytes) && closed == old(closed)
      ensures token in old(sessions) ==>
                && queuedBytes == old(queuedBytes) - SessionBytes(old(sessions[token].View()))
                && closed == old(closed) + [Closed(old(sessions)[token].streaming, old(sessions[token].wire))]
    {
      if token !in sessions {
        assert sessions == sessions - {token};
        return;
      }
      var s := sessions[token];
      queuedBytes := queuedBytes - s.output.ByteCount();
      closed := closed + [Closed(s.streaming, s.wire)];
      sessions := sessions - {token};
    }

    // ----- Write -----

    /** One send of at most budget bytes from the front. */
    method SendTurn(s: Session, result: SendResult, budget: nat, ghost x: Sending) returns (written: nat, failed: bool)
      requires Q.Ok(s.output.View()) && !s.output.Empty() && s.output.ByteCount() <= queuedBytes
      requires x == Sending(s.output.View(), s.wire, s.lastProgress, x.total, false)
      modifies this`queuedBytes, this`bytesSent, s`lastProgress, s`wire, s.output
      ensures SendOne(x, result, budget) == Sending(s.output.View(), s.wire, s.lastProgress, x.total + written, failed)
      ensures written <= budget && queuedBytes == old(queuedBytes) - written && s.output.ByteCount() <= queuedBytes
      ensures bytesSent == old(bytesSent) + written
    {
      written, failed := 0, result.SendFailed?;
      if result.Sent? {
        written := Min(result.count, Min(|s.output.Unsent()|, budget));
        if written == 0 {
          return 0, true;
        }
        ghost var q := s.output.View();
        Q.ConsumedBytes(q, written);
        s.wire := Q.AfterSend(s.wire, q, written);
        var ok := s.output.Consume(written);
        queuedBytes := queuedBytes - written;
        bytesSent := bytesSent + written;
        s.lastProgress := result.at;
      }
    }

    /** One turn of the loop of Write. */
    method WriteTurn(s: Session, sends: seq<SendResult>, turn: nat, budget: nat,
                     ghost x: Sending) returns (left: nat, failed: bool, ghost y: Sending)
      requires Q.Ok(s.output.View()) && !s.output.Empty() && s.output.ByteCount() <= queuedBytes && budget > 0
      requires turn < |sends| && !sends[turn].SendWouldBlock?
      requires x == Sending(s.output.View(), s.wire, s.lastProgress, x.total, false)
      modifies this`queuedBytes, this`bytesSent, s`lastProgress, s`wire, s.output
      ensures left <= budget && Q.Ok(y.queue)
      ensures y == Sending(s.output.View(), s.wire, s.lastProgress, x.total + (budget - left), failed)
      ensures SendAll(x, sends, turn, x.total + budget) == SendAll(y, sends, turn + 1, x.total + budget)
      ensures s.output.ByteCount() <= queuedBytes == old(queuedBytes) - (budget - left)
      ensures bytesSent == old(bytesSent) + (budget - left)
    {
      y := SendOne(x, sends[turn], budget);
      SendOn(x, sends, turn, x.total + budget);
      var written;
      written, failed := SendTurn(s, sends[turn], budget, x);
      left := budget - written;
    }

    /** Sends at most 64 KiB; sends lists the results of send, one per turn. */
    method Write(s: Session, sends: seq<SendResult>) returns (alive: bool)
      requires Q.Ok(s.output.View()) && s.output.ByteCount() <= queuedBytes
      modifies this`queuedBytes, this`bytesSent, s`lastProgress, s`wire, s.output
      ensures Outcome(alive, s.View()) == AfterWrite(old(s.View()), sends)
      ensures bytesSent - old(bytesSent) == old(queuedBytes) - queuedBytes
      ensures queuedBytes == old(queuedBytes) - SendAll(StartSending(old(s.View())), sends, 0, WRITE_BUDGET).total
    {
      var budget := WRITE_BUDGET;
      var turn := 0;
      var failed := false;
      ghost var x := StartSending(s.View());
      ghost var all := SendAll(x, sends, 0, WRITE_BUDGET);
      while budget > 0 && !s.output.Empty() && !failed
        invariant 0 <= budget <= WRITE_BUDGET && turn <= |sends|
        invariant x == Sending(s.output.View(), s.wire, s.lastProgress, WRITE_BUDGET - budget, failed)
        invariant Q.Ok(x.queue) && all == SendAll(x, sends, turn, WRITE_BUDGET)
        invariant s.output.ByteCount() <= queuedBytes == old(queuedBytes) - x.total
        invariant bytesSent == old(bytesSent) + x.total
        decreases |sends| - turn
      {
        if turn == |sends| || sends[turn].SendWouldBlock? {
          break;
        }
        budget, failed, x := WriteTurn(s, sends, turn, budget, x);
        turn := turn + 1;
      }
      assert all == x;
      alive := !failed && (s.streaming || !s.output.Empty());
    }

    // ----- Read -----

    /** Answers the request in s; the text is dropped. */
    method Answer(s: Session, response: Response, now: int) returns (alive: bool)
      requires Q.Ok(s.output.View()) && s.output.ByteCount() <= queuedBytes
      modifies this`queuedBytes, this`dropped, s`lastProgress, s`wire, s`responding, s`request, s.output
      ensures Outcome(alive, s.View()) == Respond(old(s.View()), response, now, old(queuedBytes))
      ensures queuedBytes == old(queuedBytes) - SessionBytes(old(s.View())) + SessionBytes(s.View())
    {
      s.responding := true;
      s.request := [];
      alive := Enqueue(s, Q.Buffer(0, response), now);
    }

    /** Reads until something can be answered; recvs lists the results of recv, one per turn. */
    method Read(s: Session, recvs: seq<RecvResult>, answers: Answers) returns (alive: bool)
      requires !s.streaming && !s.responding
      requires Q.Ok(s.output.View()) && s.output.ByteCount() <= queuedBytes
      modifies this`queuedBytes, this`dropped, s`lastProgress, s`wire, s`responding, s`request, s.output
      ensures Outcome(alive, s.View()) == AfterRead(old(s.View()), recvs, 0, answers, old(queuedBytes))
      ensures queuedBytes == old(queuedBytes) - SessionBytes(old(s.View())) + SessionBytes(s.View())
    {
      ghost var v := s.View();
      ghost var o := ReadTurns(v, recvs, 0, answers, queuedBytes);
      ReadTurnsCollect(v, recvs, 0, answers, queuedBytes);
      assert v == v.(request := s.request);
      for turn := 0 to MAX_RECVS
        invariant s.View() == v.(request := s.request) && queuedBytes == old(queuedBytes)
        invariant o == ReadTurns(v.(request := s.request), recvs, turn, answers, queuedBytes)
      {
        var result := if turn < |recvs| then recvs[turn] else RecvWouldBlock;
        if result.RecvInterrupted? {
          continue;
        }
        if result.RecvWouldBlock? || result.RecvFailed? || result.data == [] {
          return result.RecvWouldBlock?;
        }
        s.request := s.request + if |result.data| > RECV_BUFFER then result.data[..RECV_BUFFER] else result.data;
        if |s.request| > HEADER_LIMIT {
          alive := Answer(s, answers.headerLimit, result.at);
          return;
        }
        if HasEnd(s.request) {
          alive := Answer(s, answers.route(s.request), result.at);
          return;
        }
      }
      alive := true;
    }

    // ----- One event of a session -----

    /** The part of the dispatch in Run that works on one session. */
    method Serve(s: Session, e: Poll) returns (alive: bool)
      requires Q.Ok(s.output.View()) && s.output.ByteCount() <= queuedBytes
      modifies this`queuedBytes, this`dropped, this`bytesSent, s, s.output
      ensures Outcome(alive, s.View()) == AfterPoll(old(s.View()), e, old(queuedBytes))
      ensures queuedBytes == old(queuedBytes) - SessionBytes(old(s.View())) + SessionBytes(s.View())
    {
      alive := !e.error;
      if alive && !s.streaming && !s.responding && (e.readable || e.hangup) {
        alive := Read(s, e.recvs, e.answers);
      }
      if alive && e.writable {
        ghost var v := s.View();
        alive := Write(s, e.sends);
        WriteBytes(v, e.sends);
      }
      if e.hangup {
        alive := false;
      }
    }

    // ----- The steps of Run -----

    /** Nothing but the session of one token changed. */
    twostate lemma OneChanged(token: nat)
      requires old(Separate()) && sessions == old(sessions) && token in sessions
      requires forall t :: t in sessions && t != token ==> unchanged(sessions[t]) && unchanged(sessions[t].output)
      ensures Views() == old(Views())[token := sessions[token].View()]
    {
    }

    twostate lemma OneRemoved(token: nat)
      requires sessions == old(sessions) - {token}
      requires forall t :: t in sessions ==> unchanged(sessions[t]) && unchanged(sessions[t].output)
      ensures Views() == old(Views()) - {token}
    {
    }

    /**
     * The end of a step for a session that lives on: its interest set is registered again. m and before are
     * the sessions and the byte count as the step found them.
     */
    method Keep(token: nat, s: Session, ghost m: map<nat, SessionView>, ghost before: int, ghost todo: set<nat>,
                ghost last: nat, ghost next: nat)
      requires Separate() && token in sessions && sessions[token] == s && token in m && Views() == m[token := s.View()]
      requires Broadcasting(m, todo, closed, before, last, next, state.history)
      requires SessionOk(s.View(), next, state.history)
      requires queuedBytes == before - SessionBytes(m[token]) + SessionBytes(s.View()) <= QUEUE_BUDGET
      modifies s`mask
      ensures Separate() && Broadcasting(Views(), todo - {token}, closed, queuedBytes, last, next, state.history)
      ensures Views() == m[token := s.View()] && s.View() == old(s.View()).(mask := MaskFor(old(s.View())))
    {
      ReplaceTwice(m, token, s.View(), s.View().(mask := MaskFor(s.View())));
      Modify(s);
      OneChanged(token);
      ReplaceKeeps(m, token, s.View(), todo, closed, before, last, next, state.history);
    }

    /** The end of a step for a session that has to be closed. */
    method Drop(token: nat, ghost m: map<nat, SessionView>, ghost before: int, ghost todo: set<nat>, ghost last: nat,
                ghost next: nat)
      requires Separate() && token in sessions && token in m && Views() == m[token := sessions[token].View()]
      requires Broadcasting(m, todo, closed, before, last, next, state.history)
      requires Q.Ok(sessions[token].output.View())
      requires ClosedOk(Closed(sessions[token].streaming, sessions[token].wire), state.history)
      requires queuedBytes == before - SessionBytes(m[token]) + SessionBytes(sessions[token].View())
      modifies this`sessions, this`queuedBytes, this`closed
      ensures sessions == old(sessions) - {token} && Part(sessions, old(sessions)) && old(closed) <= closed
      ensures nextToken == old(nextToken) && queuedBytes == before - SessionBytes(m[token])
      ensures Aside()
      ensures Separate() && Broadcasting(Views(), todo - {token}, closed, queuedBytes, last, next, state.history)
      ensures Views() == m - {token}
    {
      RemoveKeeps(m, token, Closed(sessions[token].streaming, sessions[token].wire), todo, closed, before, last, next,
                  state.history);
      ReplaceAndRemove(m, token, sessions[token].View());
      Close(token);
      OneRemoved(token);
    }

    /** The end of the turn of one session, alive or not. */
    method Settle(token: nat, s: Session, alive: bool, ghost m: map<nat, SessionView>, ghost before: int,
                  ghost todo: set<nat>, ghost last: nat, ghost next: nat)
      requires Separate() && token in sessions && sessions[token] == s && token in m && Views() == m[token := s.View()]
      requires Broadcasting(m, todo, closed, before, last, next, state.history)
      requires Q.Ok(s.output.View())
      requires if alive then SessionOk(s.View(), next, state.history)
               else ClosedOk(Closed(s.streaming, s.wire), state.history)
      requires queuedBytes == before - SessionBytes(m[token]) + SessionBytes(s.View()) <= QUEUE_BUDGET
      modifies this`sessions, this`queuedBytes, this`closed, s`mask
      ensures Aside()
      ensures Separate() && Broadcasting(Views(), todo - {token}, closed, queuedBytes, last, next, state.history)
      ensures Part(sessions, old(sessions)) && old(closed) <= closed
      ensures queuedBytes == before - SessionBytes(m[token]) + if alive then SessionBytes(s.View()) else 0
      ensures sessions.Keys == (if alive then old(sessions).Keys else old(sessions).Keys - {token})
      ensures Views() == (if alive then m[token := s.View()] else m - {token})
      ensures alive ==> s.View() == old(s.View()).(mask := MaskFor(old(s.View())))
    {
      if alive {
        Keep(token, s, m, before, todo, last, next);
      } else {
        Drop(token, m, before, todo, last, next);
      }
    }

    /** Settle outside of any broadcast. */
    method Finish(token: nat, s: Session, alive: bool, ghost m: map<nat, SessionView>, ghost before: int)
      requires Separate() && Numbered() && state.Valid()
      requires token in sessions && sessions[token] == s && token in m && Views() == m[token := s.View()]
      requires Invariant(m, closed, before, lastSequence, state.history) && Q.Ok(s.output.View())
      requires if alive then SessionOk(s.View(), lastSequence, state.history)
               else ClosedOk(Closed(s.streaming, s.wire), state.history)
      requires queuedBytes == before - SessionBytes(m[token]) + SessionBytes(s.View()) <= QUEUE_BUDGET
      modifies this`sessions, this`queuedBytes, this`closed, s`mask
      ensures Aside()
      ensures Valid() && Part(sessions, old(sessions)) && old(closed) <= closed
      ensures sessions.Keys == (if alive then old(sessions).Keys else old(sessions).Keys - {token})
      ensures Views() == (if alive then m[token := s.View()] else m - {token})
      ensures alive ==> s.View() == old(s.View()).(mask := MaskFor(old(s.View())))
    {
      ghost var none: set<nat> := {};
      assert none - {token} == none;
      NobodyDue(m, closed, before, lastSequence, state.history);
      Settle(token, s, alive, m, before, none, lastSequence, lastSequence);
      PartBelow(sessions, old(sessions), nextToken);
      NobodyDue(Views(), closed, queuedBytes, lastSequence, state.history);
    }

    /** Serve on one of the sessions in the map; no other session is touched. */
    method ServeAt(token: nat, s: Session, e: Poll, ghost last: nat, ghost h: seq<Generation>) returns (alive: bool)
      requires Separate() && token in sessions && sessions[token] == s
      requires SessionOk(s.View(), last, h) && s.output.ByteCount() <= queuedBytes <= QUEUE_BUDGET
      modifies this`queuedBytes, this`dropped, this`bytesSent, s, s.output
      ensures Separate() && Views() == old(Views())[token := s.View()]
      ensures Outcome(alive, s.View()) == AfterPoll(old(s.View()), e, old(queuedBytes)) && Q.Ok(s.output.View())
      ensures if alive then SessionOk(s.View(), last, h) else ClosedOk(Closed(s.streaming, s.wire), h)
      ensures queuedBytes == old(queuedBytes) - SessionBytes(old(s.View())) + SessionBytes(s.View()) <= QUEUE_BUDGET
      ensures Aside() && sessions == old(sessions) && closed == old(closed)
    {
      PollKeeps(s.View(), e, queuedBytes, last, h);
      alive := Serve(s, e);
      OneChanged(token);
    }

    /** One event of one session: it goes on with its new interest set, or it is closed. */
    method SessionStep(token: nat, s: Session, e: Poll)
      requires Valid() && token in sessions && sessions[token] == s
      modifies this`sessions, this`queuedBytes, this`closed, this`dropped, this`bytesSent, s, s.output
      ensures Aside()
      ensures Valid() && old(closed) <= closed && Part(sessions, old(sessions))
      ensures Views() == Polled(old(Views()), token, e, old(queuedBytes))
    {
      ghost var m := Views();
      assert SessionOk(s.View(), lastSequence, state.history) && s.output.ByteCount() <= queuedBytes by {
        OneOf(m, token, closed, queuedBytes, lastSequence, state.history);
      }
      var alive := ServeAt(token, s, e, lastSequence, state.history);
      Finish(token, s, alive, m, old(queuedBytes));
    }

    /** What other threads publish leaves the reactor as it was. */
    method Interfere(news: seq<bytes>)
      requires Valid()
      modifies state
      ensures Valid() && Views() == old(Views()) && Now() == Published(old(Now()), news)
      ensures sessions == old(sessions) && queuedBytes == old(queuedBytes) && closed == old(closed)
      ensures nextToken == old(nextToken) && lastSequence == old(lastSequence) && accepted == old(accepted)
      ensures rejected == old(rejected) && timeouts == old(timeouts) && listenersPaused == old(listenersPaused)
      ensures state.sequence == old(state.sequence) + |news|
      ensures state.history == old(state.history) + Added(old(state.sequence), news)
    {
      ghost var m, h := Views(), state.history;
      state.PublishAll(news);
      PublicationKeeps(m, closed, queuedBytes, lastSequence, h, state.history);
      assert Views() == m;
    }

    // ----- Accept -----

    /** A new session with the latest generation already pushed; None when that is over the budget. */
    method Greet(streaming: bool, at: int) returns (r: Option<Session>)
      requires queuedBytes <= QUEUE_BUDGET
      modifies this`queuedBytes, this`dropped
      ensures r.Some? <==> HasRoom(streaming, state.latest, old(queuedBytes))
      ensures r.None? ==> queuedBytes == old(queuedBytes)
      ensures r.Some? ==> fresh(r.value) && fresh(r.value.output)
      ensures r.Some? ==> r.value.View() == Greeted(streaming, at, state.latest)
      ensures r.Some? ==> queuedBytes == old(queuedBytes) + SessionBytes(Greeted(streaming, at, state.latest))
    {
      var s := new Session(streaming, at);
      if streaming && state.latest.Some? {
        var ok := Enqueue(s, BufferOf(state.latest.value), at);
        if !ok {
          return None;
        }
      }
      Modify(s);
      r := Some(s);
    }

    method Reject(pause: bool)
      requires Valid()
      modifies this`rejected, this`listenersPaused
      ensures Valid() && Views() == old(Views())
      ensures rejected == old(rejected) + 1 && listenersPaused == (old(listenersPaused) || pause)
      ensures Now() == old(Now()).(rejected := rejected, paused := listenersPaused)
    {
      ghost var m := Views();
      rejected := rejected + 1;
      listenersPaused := listenersPaused || pause;
      assert Views() == m;
    }

    method Emplace(token: nat, s: Session)
      requires Separate() && Numbered() && Outside(s) && token !in sessions && token < nextToken
      modifies this`sessions
      ensures Separate() && Numbered() && |sessions| == |old(sessions)| + 1 && sessions == old(sessions)[token := s]
      ensures Aside() && queuedBytes == old(queuedBytes) && closed == old(closed)
      ensures Now() == old(Now()).(sessions := Views())
      ensures Views() == old(Views())[token := s.View()]
    {
      ghost var m := Views();
      sessions := sessions[token := s];
      assert Views() == m[token := s.View()];
    }

    /** A greeted session enters the map under a token that was never used. */
    method Insert(s: Session, token: nat, ghost before: int)
      requires Separate() && Numbered() && state.Valid() && token < nextToken && token !in sessions
      requires Outside(s) && before <= QUEUE_BUDGET && s.View() == Greeted(s.streaming, s.acceptedAt, state.latest)
      requires Invariant(Views(), closed, before, lastSequence, state.history)
      requires queuedBytes == before + SessionBytes(s.View()) && HasRoom(s.streaming, state.latest, before)
      modifies this`sessions
      ensures Valid() && |sessions| == |old(sessions)| + 1 && sessions == old(sessions)[token := s]
      ensures Now() == old(Now()).(sessions := Views())
      ensures nextToken == old(nextToken)
      ensures Views() == old(Views())[token := s.View()]
    {
      GreetedOk(s.streaming, s.acceptedAt, lastSequence, before, state.history);
      AddKeeps(Views(), token, s.View(), closed, before, lastSequence, state.history);
      Emplace(token, s);
    }

    /** The token of the next session; the counter only moves forward. */
    method TakeToken() returns (token: nat)
      requires Valid()
      modifies this`nextToken
      ensures Valid() && token == old(nextToken) && token !in sessions && Views() == old(Views())
      ensures nextToken == old(nextToken) + 1 && sessions == old(sessions) && queuedBytes == old(queuedBytes)
      ensures Now() == old(Now()).(nextToken := nextToken)
    {
      ghost var m := Views();
      token := nextToken;
      nextToken := nextToken + 1;
      assert Views() == m;
    }

    /** Greet, seen from the map: nothing in it changes. */
    method GreetBesides(streaming: bool, at: int) returns (r: Option<Session>)
      requires Separate() && queuedBytes <= QUEUE_BUDGET
      modifies this`queuedBytes, this`dropped
      ensures sessions == old(sessions) && nextToken == old(nextToken)
      ensures lastSequence == old(lastSequence) && closed == old(closed)
      ensures state.latest == old(state.latest) && state.history == old(state.history)
      ensures Now() == old(Now()).(queuedBytes := queuedBytes)
      ensures Separate() && Views() == old(Views())
      ensures r.Some? <==> HasRoom(streaming, state.latest, old(queuedBytes))
      ensures r.None? ==> queuedBytes == old(queuedBytes)
      ensures r.Some? ==> Outside(r.value) && fresh(r.value) && fresh(r.value.output)
      ensures r.Some? ==> r.value.View() == Greeted(streaming, at, state.latest)
      ensures r.Some? ==> queuedBytes == old(queuedBytes) + SessionBytes(Greeted(streaming, at, state.latest))
    {
      r := Greet(streaming, at);
      assert Views() == old(Views()) by {
        forall t | t in sessions ensures sessions[t].View() == old(sessions[t].View()) {
          assert sessions[t] in old(Objects());
        }
      }
    }

    /** A connection for which there is a free place: the session is greeted and enters the map, or is dropped. */
    method AddSession(streaming: bool, at: int) returns (ok: bool)
      requires Valid()
      modifies this`sessions, this`nextToken, this`queuedBytes, this`dropped
      ensures Valid() && |sessions| <= |old(sessions)| + 1 && Owned() && nextToken == old(nextToken) + 1
      ensures Now() == old(Now()).(nextToken := nextToken, sessions := Views(), queuedBytes := queuedBytes)
      ensures ok <==> HasRoom(streaming, state.latest, old(queuedBytes))
      ensures Views() == if ok then old(Views())[old(nextToken) := Greeted(streaming, at, state.latest)]
                         else old(Views())
      ensures queuedBytes == old(queuedBytes)
                             + if ok then SessionBytes(Greeted(streaming, at, state.latest)) else 0
    {
      ghost var before := queuedBytes;
      var token := TakeToken();
      var greeted := GreetBesides(streaming, at);
      ok := greeted.Some?;
      if ok {
        Insert(greeted.value, token, before);
      }
    }

    /** The same, as a step from status to status. */
    method Seat(streaming: bool, at: int) returns (ok: bool)
      requires Valid()
      modifies this`sessions, this`nextToken, this`queuedBytes, this`dropped
      ensures Valid() && |sessions| <= |old(sessions)| + 1 && Owned() && nextToken == old(nextToken) + 1
      ensures Now() == if ok then Seated(old(Now()), streaming, at) else old(Now()).(nextToken := nextToken)
      ensures ok <==> HasRoom(streaming, state.latest, old(queuedBytes))
      ensures Views() == if ok then old(Views())[old(nextToken) := Greeted(streaming, at, state.latest)]
                         else old(Views())
    {
      ok := AddSession(streaming, at);
    }

    /** Counts one connection as accepted or rejected. */
    method CountAdmission(ok: bool)
      requires Valid()
      modifies this`accepted, this`rejected
      ensures Valid() && Views() == old(Views())
      ensures sessions == old(sessions)
      ensures Now() == CountedAs(old(Now()), ok)
      ensures accepted == old(accepted) + (if ok then 1 else 0) && rejected == old(rejected) + (if ok then 0 else 1)
    {
      ghost var m := Views();
      if ok {
        accepted := accepted + 1;
      } else {
        rejected := rejected + 1;
      }
      assert Views() == m;
    }

    /** One accepted connection: with a free place and room for its first frame there is one new session. */
    method Admit(streaming: bool, at: int)
      requires Valid()
      modifies this`sessions, this`nextToken, this`accepted, this`rejected, this`queuedBytes, this`dropped
      ensures Valid() && |sessions| <= Max(|old(sessions)|, maxClients) && Owned()
      ensures Now() == Admitted(Configured(), old(Now()), streaming, at)
    {
      SameSize();
      if |sessions| >= maxClients {
        CountAdmission(false);
      } else {
        var ok := Seat(streaming, at);
        CountAdmission(ok);
      }
    }

    /** One result of accept4; more tells whether the loop of Accept goes on. */
    method AcceptOne(streaming: bool, result: AcceptResult) returns (more: bool)
      requires Valid()
      modifies this`sessions, this`nextToken, this`accepted, this`rejected, this`queuedBytes, this`dropped
      modifies this`listenersPaused, state
      ensures Valid() && Owned() && Now() == Arrived(Configured(), old(Now()), streaming, result)
      ensures more <==> GoesOn(result)
    {
      more := result.AcceptInterrupted? || result.Connected?;
      if result.TooManyFiles? || result.AcceptFailed? {
        Reject(result.TooManyFiles?);
      } else if result.Connected? {
        Interfere(result.news);
        Admit(streaming, result.at);
      }
    }

    /** The loop of Accept; what holds before every turn leads to what holds at the end. */
    method AcceptAll(streaming: bool, results: seq<AcceptResult>, ghost keeps: (Status, nat) -> bool,
                     ghost ends: Status -> bool)
      requires Valid() && keeps(Now(), 0) && LedByResults(Configured(), streaming, results, keeps, ends)
      modifies this`sessions, this`nextToken, this`accepted, this`rejected, this`queuedBytes, this`dropped
      modifies this`listenersPaused, state
      ensures Valid() && Owned() && ends(Now())
    {
      for count := 0 to MAX_ACCEPTS
        invariant Valid() && Owned() && keeps(Now(), count)
      {
        ghost var x := Now();
        var more := AcceptOne(streaming, ResultAt(results, count));
        assert keeps(x, count) && Now() == Arrived(Configured(), x, streaming, ResultAt(results, count));
        if !more {
          return;
        }
      }
    }

    /** Every connection is either accepted or rejected, and the sessions there are stay as they were. */
    method Accept(streaming: bool, results: seq<AcceptResult>)
      requires Valid()
      modifies this`sessions, this`nextToken, this`accepted, this`rejected, this`queuedBytes, this`dropped
      modifies this`listenersPaused, state
      ensures Valid() && Owned() && Now() == Burst(Configured(), old(Now()), streaming, results, 0)
    {
      ghost var c, goal := Configured(), Burst(Configured(), Now(), streaming, results, 0);
      ghost var keeps, ends := BurstGoal(c, goal, streaming, results);
      AcceptAll(streaming, results, keeps, ends);
    }

    // ----- Broadcast -----

    /** Enqueue on one of the sessions in the map; no other session is touched. */
    method Offer(token: nat, s: Session, buffer: Q.Buffer, now: int) returns (ok: bool)
      requires Separate() && token in sessions && sessions[token] == s
      requires Q.Ok(s.output.View()) && s.output.ByteCount() <= queuedBytes
      modifies this`queuedBytes, this`dropped, this`rejected, s`lastProgress, s`wire, s.output
      ensures Separate() && Views() == old(Views())[token := s.View()]
      ensures ok <==> Fits(old(s.View()), buffer, old(queuedBytes))
      ensures s.View() == if ok then Enqueued(old(s.View()), buffer, now) else Overflowed(old(s.View()), now)
      ensures queuedBytes == old(queuedBytes) - SessionBytes(old(s.View())) + SessionBytes(s.View())
      ensures sessions == old(sessions) && closed == old(closed)
      ensures lastSequence == old(lastSequence) && nextToken == old(nextToken)
      ensures Uninvolved() && rejected == old(rejected) + if ok then 0 else 1
    {
      ok := Enqueue(s, buffer, now);
      if !ok {
        rejected := rejected + 1;
      }
      OneChanged(token);
    }

    /** Offer of the latest generation: a session that takes it is up to date with it. */
    method OfferLatest(token: nat, s: Session, now: int, ghost last: nat) returns (ok: bool)
      requires Separate() && token in sessions && sessions[token] == s
      requires state.Valid() && state.latest.Some? && last < LatestSequence(state.history)
      requires s.streaming && SessionOk(s.View(), last, state.history)
      requires s.output.ByteCount() <= queuedBytes <= QUEUE_BUDGET
      modifies this`queuedBytes, this`dropped, this`rejected, s`lastProgress, s`wire, s.output
      ensures Separate() && Views() == old(Views())[token := s.View()] && Q.Ok(s.output.View())
      ensures sessions == old(sessions) && closed == old(closed)
      ensures lastSequence == old(lastSequence) && nextToken == old(nextToken)
      ensures state.latest == old(state.latest) && state.history == old(state.history)
      ensures Uninvolved() && rejected == old(rejected) + if ok then 0 else 1
      ensures ok <==> Fits(old(s.View()), BufferOf(state.latest.value), old(queuedBytes))
      ensures if ok then SessionOk(s.View(), LatestSequence(state.history), state.history)
              else ClosedOk(Closed(s.streaming, s.wire), state.history)
      ensures queuedBytes == old(queuedBytes) - SessionBytes(old(s.View())) + SessionBytes(s.View()) <= QUEUE_BUDGET
      ensures ok ==> s.View().(mask := MaskFor(s.View())) == Given(old(s.View()), BufferOf(state.latest.value), now)
    {
      ghost var before, h, l := s.View(), state.history, state.latest;
      ok := Offer(token, s, BufferOf(state.latest.value), now);
      assert state.history == h && state.latest == l;
      OfferKeeps(before, s.View(), ok, last, now, state.history);
    }

    /** The turn of one streaming session in a broadcast of the latest generation. */
    method BroadcastOne(token: nat, s: Session, now: int, ghost todo: set<nat>, ghost last: nat, ghost b: Q.Buffer)
      requires Separate() && state.Valid() && state.latest.Some? && b == BufferOf(state.latest.value)
      requires last < LatestSequence(state.history)
      requires token in sessions && sessions[token] == s && s.streaming && token in todo
      requires Broadcasting(Views(), todo, closed, queuedBytes, last, LatestSequence(state.history), state.history)
      modifies this`sessions, this`queuedBytes, this`dropped, this`rejected, this`closed, s, s.output
      ensures lastSequence == old(lastSequence) && nextToken == old(nextToken)
      ensures state.latest == old(state.latest) && state.history == old(state.history)
      ensures Separate() && Part(sessions, old(sessions)) && old(closed) <= closed
      ensures old(sessions).Keys - {token} <= sessions.Keys
      ensures rejected + |Views()| == old(rejected) + |old(Views())| && Uninvolved()
      ensures Broadcasting(Views(), todo - {token}, closed, queuedBytes, last, LatestSequence(state.history),
                           state.history)
      ensures Turned(old(Views()), old(queuedBytes), Views(), queuedBytes, token, b, now)
    {
      ghost var m, before, h, next := Views(), queuedBytes, state.history, LatestSequence(state.history);
      assert SessionOk(s.View(), last, h) && s.output.ByteCount() <= queuedBytes by {
        OneDue(m, token, todo, closed, before, last, next, h);
      }
      var ok := OfferLatest(token, s, now, last);
      Settle(token, s, ok, m, before, todo, last, next);
      SizeAfter(m, token, s.View());
    }

    /** The turn of one session. */
    method BroadcastTurn(token: nat, s: Session, now: int, ghost todo: set<nat>, ghost last: nat, ghost b: Q.Buffer)
      requires Separate() && state.Valid() && state.latest.Some? && b == BufferOf(state.latest.value)
      requires last < LatestSequence(state.history)
      requires token in sessions && sessions[token] == s && token in todo
      requires Broadcasting(Views(), todo, closed, queuedBytes, last, LatestSequence(state.history), state.history)
      modifies this`sessions, this`queuedBytes, this`dropped, this`rejected, this`closed, s, s.output
      ensures lastSequence == old(lastSequence) && nextToken == old(nextToken)
      ensures state.Valid() && state.latest == old(state.latest) && state.history == old(state.history)
      ensures Separate() && Part(sessions, old(sessions)) && old(closed) <= closed
      ensures old(sessions).Keys - {token} <= sessions.Keys
      ensures rejected + |Views()| == old(rejected) + |old(Views())| && Uninvolved()
      ensures Broadcasting(Views(), todo - {token}, closed, queuedBytes, last, LatestSequence(state.history),
                           state.history)
      ensures Turned(old(Views()), old(queuedBytes), Views(), queuedBytes, token, b, now)
    {
      if s.streaming {
        BroadcastOne(token, s, now, todo, last, b);
      } else {
        OneDue(Views(), token, todo, closed, queuedBytes, last, LatestSequence(state.history), state.history);
        SkipKeeps(Views(), token, todo, closed, queuedBytes, last, LatestSequence(state.history), state.history);
      }
    }

    /** A turn for every session, in any order; what every turn keeps is kept. */
    method TakeTurns(clock: nat -> int, ghost last: nat, ghost b: Q.Buffer, ghost keeps: TurnProperty)
      requires Separate() && state.Valid() && state.latest.Some? && b == BufferOf(state.latest.value)
      requires last < LatestSequence(state.history)
      requires Broadcasting(Views(), sessions.Keys, closed, queuedBytes, last, LatestSequence(state.history),
                            state.history)
      requires keeps(Views(), queuedBytes, sessions.Keys) && KeptByTurns(keeps, b, clock)
      modifies this`sessions, this`queuedBytes, this`dropped, this`rejected, this`closed, Objects()
      ensures lastSequence == old(lastSequence) && nextToken == old(nextToken)
      ensures state.latest == old(state.latest) && state.history == old(state.history)
      ensures Separate() && Part(sessions, old(sessions)) && old(closed) <= closed
      ensures Invariant(Views(), closed, queuedBytes, LatestSequence(state.history), state.history)
      ensures keeps(Views(), queuedBytes, {}) && rejected + |Views()| == old(rejected) + |old(Views())|
      ensures Uninvolved()
    {
      var todo := sessions.Keys;
      while todo != {}
        invariant Separate() && Part(sessions, old(sessions)) && old(closed) <= closed && todo <= sessions.Keys
        invariant lastSequence == old(lastSequence) && nextToken == old(nextToken)
        invariant state.Valid() && state.latest == old(state.latest) && state.history == old(state.history)
        invariant Broadcasting(Views(), todo, closed, queuedBytes, last, LatestSequence(state.history), state.history)
        invariant keeps(Views(), queuedBytes, todo) && rejected + |Views()| == old(rejected) + |old(Views())|
        invariant Uninvolved()
      {
        var token :| token in todo;
        BroadcastTurn(token, sessions[token], clock(token), todo, last, b);
        todo := todo - {token};
      }
      BroadcastEnds(Views(), todo, closed, queuedBytes, last, LatestSequence(state.history), state.history);
    }

    /** Pushes the latest generation to every streaming session; last is what was broadcast before. */
    method PushToAll(clock: nat -> int, ghost last: nat)
      requires Separate() && state.Valid() && state.latest.Some? && last < LatestSequence(state.history)
      requires Broadcasting(Views(), sessions.Keys, closed, queuedBytes, last, LatestSequence(state.history),
                            state.history)
      modifies this`sessions, this`queuedBytes, this`dropped, this`rejected, this`closed, Objects()
      ensures lastSequence == old(lastSequence) && nextToken == old(nextToken)
      ensures state.Valid() && state.latest == old(state.latest) && state.history == old(state.history)
      ensures Separate() && Part(sessions, old(sessions)) && old(closed) <= closed
      ensures Invariant(Views(), closed, queuedBytes, LatestSequence(state.history), state.history)
      ensures Passing(old(Views()), old(queuedBytes), Views(), queuedBytes, {}, BufferOf(state.latest.value), clock)
      ensures old(queuedBytes) + |old(Views())| * |BufferOf(state.latest.value).data| <= QUEUE_BUDGET ==>
                Views().Keys == old(Views()).Keys
      ensures rejected + |Views()| == old(rejected) + |old(Views())| && Uninvolved()
    {
      ghost var m, before, b := Views(), queuedBytes, BufferOf(state.latest.value);
      ghost var keeps := PassingFrom(m, before, b, clock);
      assert m.Keys == sessions.Keys;
      PassingStarts(m, before, b, clock);
      TakeTurns(clock, last, b, keeps);
      CopiesProduct(|m|, |b.data|);
    }

    /** The latest generation counts as broadcast before it is pushed. */
    method StartBroadcast() returns (ghost last: nat)
      requires Valid() && state.latest.Some? && state.latest.value.sequence != lastSequence
      modifies this`lastSequence
      ensures last == old(lastSequence) < lastSequence == LatestSequence(state.history)
      ensures Separate() && Numbered() && state.Valid() && Views() == old(Views())
      ensures Broadcasting(Views(), sessions.Keys, closed, queuedBytes, last, lastSequence, state.history)
      ensures nextToken == old(nextToken) && queuedBytes == TotalBytes(Views()) && sessions == old(sessions)
      ensures queuedBytes == old(queuedBytes) && closed == old(closed) && rejected == old(rejected) && Uninvolved()
      ensures state.latest == old(state.latest) && state.history == old(state.history)
    {
      last := lastSequence;
      BroadcastStarts(Views(), closed, queuedBytes, last, LatestSequence(state.history), state.history);
      lastSequence := state.latest.value.sequence;
    }

    /** A broadcast when there is something new. */
    method BroadcastLatest(clock: nat -> int)
      requires Valid() && state.latest.Some? && state.latest.value.sequence != lastSequence
      modifies this`sessions, this`lastSequence, this`queuedBytes, this`dropped, this`rejected, this`closed, Objects()
      ensures Valid() && old(closed) <= closed && lastSequence == LatestSequence(state.history)
      ensures nextToken == old(nextToken) && state.latest == old(state.latest) && state.history == old(state.history)
      ensures Uninvolved() && Part(sessions, old(sessions))
      ensures Distributed(old(Views()), Views(), BufferOf(state.latest.value), clock)
      ensures rejected + |Views()| == old(rejected) + |old(Views())|
    {
      ghost var m, before := Views(), queuedBytes;
      ghost var last := StartBroadcast();
      PushToAll(clock, last);
      AllPassed(m, before, Views(), queuedBytes, BufferOf(state.latest.value), clock);
      PartBelow(sessions, old(sessions), nextToken);
    }

    /** news is what was published since the last step; afterwards the latest generation was broadcast. */
    method Broadcast(news: seq<bytes>, clock: nat -> int)
      requires Valid()
      modifies this`sessions, this`lastSequence, this`queuedBytes, this`dropped, this`rejected
      modifies this`closed, Objects(), state
      ensures Valid() && old(closed) <= closed
      ensures nextToken == old(nextToken) && accepted == old(accepted)
      ensures state.sequence == old(state.sequence) + |news|
      ensures state.history == old(state.history) + Added(old(state.sequence), news)
      ensures rejected + |Views()| == old(rejected) + |old(Views())|
      ensures timeouts == old(timeouts) && listenersPaused == old(listenersPaused)
      ensures lastSequence == LatestSequence(state.history) && Part(sessions, old(sessions))
      ensures CaughtUp(old(Views()), old(lastSequence), Views(), lastSequence, state.latest, clock)
    {
      Interfere(news);
      if state.latest.None? || state.latest.value.sequence == lastSequence {
        return;
      }
      BroadcastLatest(clock);
    }

    // ----- Sweep -----

    /** Closes one session outside of any broadcast. */
    method CloseExpired(token: nat)
      requires Valid() && token in sessions
      modifies this`sessions, this`queuedBytes, this`closed
      ensures Valid() && old(closed) <= closed && Views() == old(Views()) - {token}
      ensures Part(sessions, old(sessions)) && sessions.Keys == old(sessions).Keys - {token}
      ensures |Views()| == |old(Views())| - 1 && Steady()
    {
      ghost var m := Views();
      ghost var none: set<nat> := {};
      assert none - {token} == none && m == m[token := sessions[token].View()];
      assert Q.Ok(m[token].queue) && ClosedOk(Closed(m[token].streaming, m[token].wire), state.history) by {
        OneOf(m, token, closed, queuedBytes, lastSequence, state.history);
        ClosedAfter(m[token], lastSequence, state.history);
      }
      NobodyDue(m, closed, queuedBytes, lastSequence, state.history);
      Drop(token, m, queuedBytes, none, lastSequence, lastSequence);
      NobodyDue(Views(), closed, queuedBytes, lastSequence, state.history);
      PartBelow(sessions, old(sessions), nextToken);
      OneLess(m, Views(), token);
    }

    method CountTimeout()
      requires Valid()
      modifies this`timeouts
      ensures Valid() && Views() == old(Views()) && timeouts == old(timeouts) + 1 && Steady()
    {
      ghost var m := Views();
      timeouts := timeouts + 1;
      assert Views() == m;
    }

    /** A session that has waited too long for its request, or for its peer to take output. */
    predicate Late(s: Session, now: int): (late: bool)
      reads s, s.output
      ensures late == Expired(s.View(), now, requestTimeout, writeTimeout)
    {
      || (!s.streaming && !s.responding && now - s.acceptedAt > requestTimeout)
      || (!s.output.Empty() && now - s.lastProgress > writeTimeout)
    }

    /** The turn of one session: it is closed exactly when it is past a deadline. */
    method SweepOne(token: nat, s: Session, now: int)
      requires Valid() && token in sessions && sessions[token] == s
      modifies this`sessions, this`queuedBytes, this`closed, this`timeouts
      ensures Valid() && old(closed) <= closed && Steady()
      ensures Part(sessions, old(sessions)) && old(sessions).Keys - {token} <= sessions.Keys
      ensures timeouts - old(timeouts) == |old(Views())| - |Views()|
      ensures Views() == if Expired(old(s.View()), now, requestTimeout, writeTimeout) then old(Views()) - {token}
                         else old(Views())
    {
      if Late(s, now) {
        CloseExpired(token);
        CountTimeout();
      }
    }

    /** Exactly the sessions past a deadline are closed; the others are left as they were. */
    method Sweep(now: int)
      requires Valid()
      modifies this`sessions, this`queuedBytes, this`closed, this`timeouts, this`listenersPaused
      ensures Valid() && old(closed) <= closed && !listenersPaused && Part(sessions, old(sessions))
      ensures Views() == Unexpired(old(Views()), {}, now, requestTimeout, writeTimeout)
      ensures forall t {:trigger t in Views()} :: t in Views() <==>
                t in old(Views()) && InTimeAt(old(Views())[t], now, requestTimeout, writeTimeout)
      ensures Steady()
      ensures timeouts - old(timeouts) == |old(Views())| - |Views()|
    {
      ghost var m := Views();
      var todo := sessions.Keys;
      assert m == Unexpired(m, todo, now, requestTimeout, writeTimeout);
      while todo != {}
        invariant Valid() && todo <= sessions.Keys && Part(sessions, old(sessions)) && old(closed) <= closed
        invariant Steady()
        invariant Views() == Unexpired(m, todo, now, requestTimeout, writeTimeout)
        invariant timeouts - old(timeouts) == |old(Views())| - |Views()|
      {
        var token :| token in todo;
        var s := sessions[token];
        assert s.View() == Views()[token] == m[token];
        UnexpiredMore(m, todo, token, now, requestTimeout, writeTimeout);
        SweepOne(token, s, now);
        todo := todo - {token};
      }
      Resume();
      TimerLaws(m, now, requestTimeout, writeTimeout);
    }

    method Resume()
      requires Valid()
      modifies this`listenersPaused
      ensures Valid() && Views() == old(Views()) && !listenersPaused
      ensures sessions == old(sessions) && closed == old(closed) && timeouts == old(timeouts)
      ensures Steady()
    {
      ghost var m := Views();
      listenersPaused := false;
      assert Views() == m;
    }

    // ----- Run -----

    /** Nothing is accepted while the listeners are paused. */
    method OnAccept(streaming: bool, results: seq<AcceptResult>)
      requires Valid()
      modifies this`sessions, this`nextToken, this`accepted, this`rejected, this`queuedBytes, this`dropped
      modifies this`listenersPaused, state
      ensures Valid() && Owned() && Handled(AcceptEvent(streaming, results))
    {
      if !listenersPaused {
        Accept(streaming, results);
      }
    }

    /** The timer: deadlines first, then what was published. */
    method OnTimer(now: int, news: seq<bytes>, clock: nat -> int)
      requires Valid()
      modifies this`sessions, this`lastSequence, this`queuedBytes, this`dropped, this`rejected, this`closed
      modifies this`timeouts, this`listenersPaused, Objects(), state
      ensures Valid() && Part(sessions, old(sessions)) && old(closed) <= closed
      ensures Handled(TimerEvent(now, news, clock))
    {
      Sweep(now);
      Broadcast(news, clock);
    }

    method OnNotification(news: seq<bytes>, clock: nat -> int)
      requires Valid()
      modifies this`sessions, this`lastSequence, this`queuedBytes, this`dropped, this`rejected
      modifies this`closed, Objects(), state
      ensures Valid() && Part(sessions, old(sessions)) && old(closed) <= closed
      ensures Handled(NotificationEvent(news, clock))
    {
      Broadcast(news, clock);
    }

    /** An event of a session; one that is gone already is ignored. */
    method OnSession(token: nat, poll: Poll)
      requires Valid()
      modifies this`sessions, this`queuedBytes, this`closed, this`dropped, this`bytesSent, Objects()
      ensures Valid() && Part(sessions, old(sessions)) && old(closed) <= closed
      ensures Aside() && Views() == Polled(old(Views()), token, poll, old(queuedBytes))
    {
      if token in sessions {
        SessionStep(token, sessions[token], poll);
      }
    }

    /** What one event does, apart from keeping the invariant. */
    twostate predicate Handled(e: Event)
      reads this, Objects(), state
    {
      Effect(Configured(), e, old(Now()), Now())
    }

    lemma NowIsSound()
      requires Valid()
      ensures Sound(Now())
    {
      forall t | t in Views() ensures t < nextToken {
        assert t in sessions;
      }
    }

    /** One event that is not a signal. */
    method Dispatch(e: Event)
      requires Valid() && !e.SignalEvent?
      modifies this, Objects(), state
      ensures Valid() && Owned() && old(closed) <= closed && Handled(e)
      ensures Sound(Now())
    {
      match e
      case AcceptEvent(streaming, results) => OnAccept(streaming, results);
      case TimerEvent(now, news, clock) => OnTimer(now, news, clock);
      case NotificationEvent(news, clock) => OnNotification(news, clock);
      case SessionEvent(token, poll) => OnSession(token, poll);
      NowIsSound();
    }

    /** Shutdown: every session is dropped at once. */
    method Clear()
      requires Valid()
      modifies this`sessions, this`queuedBytes
      ensures Valid() && sessions == map[] && queuedBytes == 0 && NothingElse()
    {
      sessions, queuedBytes := map[], 0;
      assert Views() == map[];
    }

    /** Nothing but the map of sessions has changed. */
    twostate predicate NothingElse()
      reads this, state
    {
      Aside() && dropped == old(dropped) && bytesSent == old(bytesSent) && closed == old(closed)
    }

    /** The events took the reactor along path from its old status to the new one. */
    twostate predicate Followed(events: seq<Event>, path: seq<Status>)
      reads this, Objects(), state
    {
      Leads(Configured(), events, path) && path[0] == old(Now()) && path[|events|] == Now()
    }

    /** The events of a batch without a signal, in order. */
    method ServeAll(events: seq<Event>) returns (ghost path: seq<Status>)
      requires Valid() && !HasSignal(events)
      modifies this, Objects(), state
      ensures Valid() && Owned() && old(closed) <= closed
      ensures Followed(events, path)
      ensures events != [] && Broadcasts(events[|events| - 1]) ==> lastSequence == LatestSequence(state.history)
    {
      NowIsSound();
      path := [Now()];
      for i := 0 to |events|
        invariant Valid() && Owned() && old(closed) <= closed
        invariant Leads(Configured(), events[..i], path) && path[0] == old(Now()) && path[i] == Now()
      {
        Dispatch(events[i]);
        LeadsOn(Configured(), events, i, path, Now());
        path := path + [Now()];
      }
      assert events[..|events|] == events;
      LastStep(Configured(), events, path);
    }

    /** The events of one epoll_wait; a signal goes before all other work. */
    method Batch(events: seq<Event>) returns (stop: bool, ghost path: seq<Status>)
      requires Valid()
      modifies this, Objects(), state
      ensures Valid() && Owned() && old(closed) <= closed
      ensures stop <==> HasSignal(events)
      ensures !stop && events != [] && Broadcasts(events[|events| - 1]) ==>
                lastSequence == LatestSequence(state.history)
      ensures stop ==> sessions == map[] && queuedBytes == 0 && NothingElse()
      ensures !stop ==> Followed(events, path)
    {
      path := [];
      ghost var start := Now();
      stop := SignalAmong(events);
      assert Now() == start;
      if stop {
        Clear();
        return;
      }
      path := ServeAll(events);
      assert path[0] == start;
    }

    /** One more batch of a run; served are the events before it. */
    method RunBatch(batches: seq<seq<Event>>, i: nat, ghost served: seq<Event>, ghost path: seq<Status>)
      returns (stop: bool, ghost all: seq<Event>, ghost longer: seq<Status>)
      requires Valid() && i < |batches| && served + Served(batches[i..]) == Served(batches)
      requires Leads(Configured(), served, path) && path[|served|] == Now()
      modifies this, Objects(), state
      ensures Valid() && Owned() && old(closed) <= closed
      ensures stop ==> served == Served(batches)
      ensures !stop ==> all + Served(batches[i + 1..]) == Served(batches)
      ensures !stop ==> Leads(Configured(), all, longer) && longer[0] == path[0] && longer[|all|] == Now()
    {
      ServedStep(batches, i, served);
      ghost var more;
      stop, more := Batch(batches[i]);
      all, longer := served, path;
      if !stop {
        LeadsJoin(Configured(), served, path, batches[i], more);
        all, longer := served + batches[i], path + more[1..];
      }
    }

    /** Every run keeps the invariant, and serves the events in order up to a signal. */
    method Run(batches: seq<seq<Event>>) returns (ghost path: seq<Status>)
      requires Valid()
      modifies this, Objects(), state
      ensures Valid() && old(closed) <= closed
      ensures Leads(Configured(), Served(batches), path) && path[0] == old(Now())
    {
      NowIsSound();
      path := [Now()];
      ghost var served: seq<Event> := [];
      assert served + Served(batches[0..]) == Served(batches);
      for i := 0 to |batches|
        invariant Valid() && Owned() && old(closed) <= closed
        invariant served + Served(batches[i..]) == Served(batches)
        invariant Leads(Configured(), served, path) && path[0] == old(Now()) && path[|served|] == Now()
      {
        var stop;
        ghost var all, longer;
        stop, all, longer := RunBatch(batches, i, served, path);
        if stop {
          return;
        }
        served, path := all, longer;
      }
    }
  }

  lemma UnexpiredMore(m: map<nat, SessionView>, todo: set<nat>, t: nat, now: int, requestTimeout: int,
                      writeTimeout: int)
    requires t in m && t in todo
    ensures Unexpired(m, todo - {t}, now, requestTimeout, writeTimeout) ==
            var left := Unexpired(m, todo, now, requestTimeout, writeTimeout);
            if Expired(m[t], now, requestTimeout, writeTimeout) then left - {t} else left
  {
  }

  /** Every session of a is the same session in b. */
  ghost predicate Part(a: map<nat, Session>, b: map<nat, Session>) {
    forall t {:trigger a[t]} :: t in a ==> t in b && a[t] == b[t]
  }

  lemma SizeAfter(m: map<nat, SessionView>, t: nat, s: SessionView)
    requires t in m
    ensures |m[t := s]| == |m| && |m - {t}| == |m| - 1
  {
    assert m[t := s].Keys == m.Keys;
    OneLess(m, m - {t}, t);
  }

  lemma OneLess(a: map<nat, SessionView>, b: map<nat, SessionView>, t: nat)
    requires t in a && b == a - {t}
    ensures |b| == |a| - 1
  {
    assert b.Keys == a.Keys - {t} && |b| == |b.Keys| && |a| == |a.Keys|;
  }

  lemma PartBelow(a: map<nat, Session>, b: map<nat, Session>, n: nat)
    requires Part(a, b) && Below(b, n)
    ensures Below(a, n)
  {
    forall t | t in a ensures t < n {
      assert b[t] == a[t];
    }
  }

  lemma OfferKeeps(before: SessionView, after: SessionView, ok: bool, last: nat, now: int, h: seq<Generation>)
    requires History(h) && last < LatestSequence(h) && before.streaming && SessionOk(before, last, h)
    requires after == if ok then Enqueued(before, BufferOf(h[|h| - 1]), now) else Overflowed(before, now)
    ensures Q.Ok(after.queue)
    ensures if ok then SessionOk(after, LatestSequence(h), h) else ClosedOk(Closed(after.streaming, after.wire), h)
  {
    ClosedAfter(before, last, h);
    EnqueueLatestKeeps(before, h, last, now);
  }

  lemma ReplaceTwice(m: map<nat, SessionView>, t: nat, a: SessionView, b: SessionView)
    ensures m[t := a][t := b] == m[t := b]
  {
  }

  lemma ReplaceAndRemove(m: map<nat, SessionView>, t: nat, a: SessionView)
    ensures m[t := a] - {t} == m - {t}
  {
  }
}
