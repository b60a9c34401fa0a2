/**
 * What one event does to one session, as a function of the session, of what recv and send return, and of
 * the bytes queued for all sessions. The methods of Reactor are proved to compute it; the lemmas say what
 * it is good for.
 */
module Turns {
  import opened Bytes
  import Q = OutputQueue
  import opened SharedState
  import opened Requests
  import opened FanOut

  type Response = r: bytes | r != [] witness [72]

  datatype SendResult = Sent(count: nat, at: int) | SendInterrupted | SendWouldBlock | SendFailed

  /** Received([]) is the end of the stream. */
  datatype RecvResult = Received(data: bytes, at: int) | RecvInterrupted | RecvWouldBlock | RecvFailed

  /** What Route answers to a request text, and the 431 response. */
  datatype Answers = Answers(route: bytes -> Response, headerLimit: Response)

  /** One event of epoll for a session, and what its system calls will return. */
  datatype Poll = Poll(error: bool, hangup: bool, readable: bool, writable: bool,
                       recvs: seq<RecvResult>, sends: seq<SendResult>, answers: Answers)

  const MAX_RECVS: int := 8

  datatype Outcome = Outcome(alive: bool, after: SessionView)

  // ----- Write -----

  /** The state of a Write: the queue and history of the session, and what was sent since it began. */
  datatype Sending = Sending(queue: Q.State, wire: Q.Wire, lastProgress: int, total: nat, broken: bool)

  /** One result of send, offered the front of the queue cut to the budget. */
  function SendOne(x: Sending, r: SendResult, budget: nat): (y: Sending)
    requires Q.Ok(x.queue) && x.queue.current.Some?
    ensures Q.Ok(y.queue) && x.total <= y.total <= x.total + budget
  {
    match r
    case SendFailed => x.(broken := true)
    case Sent(count, at) =>
      var n := Min(count, Min(|Q.Front(x.queue)|, budget));
      if n == 0 then x.(broken := true)
      else Sending(Q.Consumed(x.queue, n), Q.AfterSend(x.wire, x.queue, n), at, x.total + n, x.broken)
    case _ => x
  }

  /** Whether the loop of Write goes on to use a result of send. */
  predicate MaySend(x: Sending, sends: seq<SendResult>, turn: nat, limit: nat) {
    x.total < limit && x.queue.current.Some? && !x.broken && turn < |sends| && !sends[turn].SendWouldBlock?
  }

  /** Sends until limit bytes have been sent, the queue is empty or the socket takes no more. */
  function SendAll(x: Sending, sends: seq<SendResult>, turn: nat, limit: nat): (y: Sending)
    requires Q.Ok(x.queue) && x.total <= limit
    ensures Q.Ok(y.queue) && x.total <= y.total <= limit
    decreases |sends| - turn
  {
    if MaySend(x, sends, turn, limit) then SendAll(SendOne(x, sends[turn], limit - x.total), sends, turn + 1, limit)
    else x
  }

  lemma SendOn(x: Sending, sends: seq<SendResult>, turn: nat, limit: nat)
    requires Q.Ok(x.queue) && MaySend(x, sends, turn, limit)
    ensures SendAll(x, sends, turn, limit) == SendAll(SendOne(x, sends[turn], limit - x.total), sends, turn + 1, limit)
  {
  }

  /**
   * Byte-exact delivery: what the socket took is the front of what was queued, in order and without a gap,
   * and the progress clock moves only with bytes.
   */
  ghost predicate Progress(x0: Sending, y: Sending) {
    && Q.SentSoFar(x0.wire, x0.queue, y.wire, y.queue, y.total)
    && (y.total == 0 ==> y.lastProgress == x0.lastProgress)
  }

  lemma SendOneCases(x: Sending, r: SendResult, budget: nat)
    requires Q.Ok(x.queue) && x.queue.current.Some?
    ensures var y := SendOne(x, r, budget);
            var n := y.total - x.total;
            if n == 0 then y == x.(broken := y.broken)
            else
              && 0 < n <= |Q.Front(x.queue)|
              && y.queue == Q.Consumed(x.queue, n) && y.wire == Q.AfterSend(x.wire, x.queue, n)
  {
  }

  lemma SendProgress(x0: Sending, x: Sending, y: Sending, n: nat)
    requires Progress(x0, x) && x.queue.current.Some? && 0 < n <= |Q.Front(x.queue)|
    requires y.queue == Q.Consumed(x.queue, n) && y.wire == Q.AfterSend(x.wire, x.queue, n) && y.total == x.total + n
    ensures Progress(x0, y)
  {
    Q.SentMore(x0.wire, x0.queue, x.wire, x.queue, x.total, n);
  }

  lemma SendOneProgress(x0: Sending, x: Sending, r: SendResult, budget: nat)
    requires Progress(x0, x) && x.queue.current.Some?
    ensures Progress(x0, SendOne(x, r, budget))
  {
    var y := SendOne(x, r, budget);
    SendOneCases(x, r, budget);
    if y.total > x.total {
      SendProgress(x0, x, y, y.total - x.total);
    }
  }

  ghost predicate KeptBySends(keeps: Sending -> bool) {
    forall x: Sending, r, budget: nat {:trigger SendOne(x, r, budget)} ::
      Q.Ok(x.queue) && x.queue.current.Some? && keeps(x) ==> keeps(SendOne(x, r, budget))
  }

  /** What every single send keeps, a write keeps. */
  lemma {:induction false} SendAllKeeps(keeps: Sending -> bool, x: Sending, sends: seq<SendResult>, turn: nat,
                                        limit: nat)
    requires Q.Ok(x.queue) && x.total <= limit && keeps(x) && KeptBySends(keeps)
    ensures keeps(SendAll(x, sends, turn, limit))
    decreases |sends| - turn
  {
    if MaySend(x, sends, turn, limit) {
      SendAllKeeps(keeps, SendOne(x, sends[turn], limit - x.total), sends, turn + 1, limit);
    }
  }

  lemma SendAllProgress(x: Sending, sends: seq<SendResult>, limit: nat)
    requires Progress(x, x) && x.total <= limit
    ensures Progress(x, SendAll(x, sends, 0, limit))
  {
    var keeps := (y: Sending) => Progress(x, y);
    forall y: Sending, r, b: nat | Q.Ok(y.queue) && y.queue.current.Some? && keeps(y) ensures keeps(SendOne(y, r, b)) {
      SendOneProgress(x, y, r, b);
    }
    SendAllKeeps(keeps, x, sends, 0, limit);
  }

  function StartSending(s: SessionView): Sending { Sending(s.queue, s.wire, s.lastProgress, 0, false) }

  /** Write: at most 64 KiB are sent; an HTTP session is finished when its queue is empty. */
  function AfterWrite(s: SessionView, sends: seq<SendResult>): Outcome
    requires Q.Ok(s.queue)
  {
    var y := SendAll(StartSending(s), sends, 0, WRITE_BUDGET);
    Outcome(!y.broken && (s.streaming || y.queue.current.Some?),
            s.(queue := y.queue, wire := y.wire, lastProgress := y.lastProgress))
  }

  ghost predicate Balanced(x0: Sending, y: Sending) {
    Q.Ok(x0.queue) && Q.Ok(y.queue) && |Q.Stream(y.queue)| + y.total == |Q.Stream(x0.queue)| + x0.total
  }

  lemma SendOneBalanced(x0: Sending, x: Sending, r: SendResult, budget: nat)
    requires Balanced(x0, x) && x.queue.current.Some?
    ensures Balanced(x0, SendOne(x, r, budget))
  {
    SendOneCases(x, r, budget);
    var n := SendOne(x, r, budget).total - x.total;
    if n > 0 {
      Q.ConsumedBytes(x.queue, n);
    }
  }

  /** A write takes as many bytes off the queue as the socket accepted. */
  lemma WriteBytes(s: SessionView, sends: seq<SendResult>)
    requires Q.Ok(s.queue)
    ensures SessionBytes(AfterWrite(s, sends).after)
            == SessionBytes(s) - SendAll(StartSending(s), sends, 0, WRITE_BUDGET).total
  {
    var x := StartSending(s);
    var keeps := (y: Sending) => Balanced(x, y);
    forall y: Sending, r, b: nat | Q.Ok(y.queue) && y.queue.current.Some? && keeps(y) ensures keeps(SendOne(y, r, b)) {
      SendOneBalanced(x, y, r, b);
    }
    SendAllKeeps(keeps, x, sends, 0, WRITE_BUDGET);
  }

  lemma WriteKeeps(s: SessionView, sends: seq<SendResult>, last: nat, h: seq<Generation>)
    requires SessionOk(s, last, h)
    ensures var y := SendAll(StartSending(s), sends, 0, WRITE_BUDGET);
            && SessionOk(AfterWrite(s, sends).after, last, h)
            && SessionBytes(AfterWrite(s, sends).after) == SessionBytes(s) - y.total
  {
    SendAllProgress(StartSending(s), sends, WRITE_BUDGET);
    var y := SendAll(StartSending(s), sends, 0, WRITE_BUDGET);
    SendKeepsSession(s, AfterWrite(s, sends).after, y.total, last, h);
  }

  /** A session with its response still queued has sent only the beginning of it. */
  lemma ResponsePending(s: SessionView, last: nat, h: seq<Generation>)
    requires SessionOk(s, last, h) && !s.streaming && s.responding && s.queue.current.Some?
    ensures s.wire.sent < s.wire.pushed[0].data
  {
    var w, all := s.wire, s.wire.done + Q.Held(s.queue);
    SubsequenceLength(all, w.pushed);
    assert w.done == [] && all == [s.queue.current.value];
    assert Last(all) == Some(w.pushed[0]);
    assert w.sent == [] + Q.SentPart(s.queue) == Q.SentPart(s.queue);
    assert s.queue.offset < |w.pushed[0].data|;
  }

  /**
   * Unless a send fails, a Write ends an HTTP session exactly when the whole response was sent; until then
   * the socket has taken the beginning of it.
   */
  lemma FinishedMeansSent(s: SessionView, sends: seq<SendResult>, last: nat, h: seq<Generation>)
    requires SessionOk(s, last, h) && !s.streaming && s.responding
    requires !SendAll(StartSending(s), sends, 0, WRITE_BUDGET).broken
    ensures var o, response := AfterWrite(s, sends), s.wire.pushed[0].data;
            if o.alive then o.after.wire.sent < response else o.after.wire.sent == response
  {
    var o := AfterWrite(s, sends);
    WriteKeeps(s, sends, last, h);
    assert o.after.wire.pushed == s.wire.pushed by {
      SendAllProgress(StartSending(s), sends, WRITE_BUDGET);
    }
    if o.alive {
      ResponsePending(o.after, last, h);
    } else {
      ResponseComplete(o.after, last, h);
    }
  }

  // ----- When a Write ends its session -----

  /** send reports an error, or takes nothing. */
  predicate SendFails(r: SendResult) { r.SendFailed? || (r.Sent? && r.count == 0) }

  /** No frame that waits in the queue is empty, so a send that takes nothing is offered something. */
  predicate Nonempty(q: Q.State) {
    (q.current.Some? ==> q.current.value.data != []) && (q.pending.Some? ==> q.pending.value.data != [])
  }

  /** The loop of Write comes to use send k: none before it failed or would block, and there is more to send. */
  predicate Reaches(x: Sending, sends: seq<SendResult>, turn: nat, k: nat, limit: nat)
    requires Q.Ok(x.queue) && x.total <= limit && k <= |sends|
  {
    && (forall j {:trigger sends[j]} :: turn <= j < k ==> !sends[j].SendWouldBlock? && !SendFails(sends[j]))
    && var y := SendAll(x, sends[..k], turn, limit); y.queue.current.Some? && y.total < limit
  }

  ghost predicate FailsFrom(x: Sending, sends: seq<SendResult>, turn: nat, limit: nat)
    requires Q.Ok(x.queue) && x.total <= limit
  {
    exists k {:trigger sends[k]} :: turn <= k < |sends| && SendFails(sends[k]) && Reaches(x, sends, turn, k, limit)
  }

  lemma SendOneBreaks(x: Sending, r: SendResult, budget: nat)
    requires Q.Ok(x.queue) && x.queue.current.Some? && Nonempty(x.queue) && !x.broken && budget > 0
    ensures Nonempty(SendOne(x, r, budget).queue) && (SendOne(x, r, budget).broken <==> SendFails(r))
  {
  }

  lemma ReachesNext(x: Sending, sends: seq<SendResult>, turn: nat, k: nat, limit: nat)
    requires Q.Ok(x.queue) && x.total <= limit && turn < k <= |sends| && MaySend(x, sends, turn, limit)
    requires !SendFails(sends[turn])
    ensures Reaches(x, sends, turn, k, limit) <==>
              Reaches(SendOne(x, sends[turn], limit - x.total), sends, turn + 1, k, limit)
  {
    assert sends[..k][turn] == sends[turn];
  }

  lemma NotReached(x: Sending, sends: seq<SendResult>, turn: nat, k: nat, limit: nat)
    requires Q.Ok(x.queue) && x.total <= limit && turn <= k < |sends| && !x.broken && !MaySend(x, sends, turn, limit)
    requires Reaches(x, sends, turn, k, limit)
    ensures !SendFails(sends[k])
  {
    assert SendAll(x, sends[..k], turn, limit) == x by {
      assert turn < k ==> sends[..k][turn] == sends[turn];
    }
    assert sends[turn].SendWouldBlock?;
  }

  /** The loop breaks exactly at the first send that fails, if it comes to use it. */
  lemma {:induction false} BrokenIff(x: Sending, sends: seq<SendResult>, turn: nat, limit: nat)
    requires Q.Ok(x.queue) && Nonempty(x.queue) && x.total <= limit && !x.broken
    ensures SendAll(x, sends, turn, limit).broken <==> FailsFrom(x, sends, turn, limit)
    decreases |sends| - turn
  {
    if !MaySend(x, sends, turn, limit) {
      forall k | turn <= k < |sends| && Reaches(x, sends, turn, k, limit) ensures !SendFails(sends[k]) {
        NotReached(x, sends, turn, k, limit);
      }
    } else {
      var y := SendOne(x, sends[turn], limit - x.total);
      SendOneBreaks(x, sends[turn], limit - x.total);
      if SendFails(sends[turn]) {
        assert Reaches(x, sends, turn, turn, limit);
      } else {
        BrokenIff(y, sends, turn + 1, limit);
        BrokenLater(x, sends, turn, limit);
      }
    }
  }

  lemma BrokenLater(x: Sending, sends: seq<SendResult>, turn: nat, limit: nat)
    requires Q.Ok(x.queue) && x.total <= limit && MaySend(x, sends, turn, limit) && !SendFails(sends[turn])
    ensures FailsFrom(x, sends, turn, limit) <==>
              FailsFrom(SendOne(x, sends[turn], limit - x.total), sends, turn + 1, limit)
  {
    forall k | turn < k < |sends|
      ensures Reaches(x, sends, turn, k, limit) <==>
                Reaches(SendOne(x, sends[turn], limit - x.total), sends, turn + 1, k, limit)
    {
      ReachesNext(x, sends, turn, k, limit);
    }
  }

  /** A Write on s comes to use a send that fails. */
  ghost predicate WriteFails(s: SessionView, sends: seq<SendResult>)
    requires Q.Ok(s.queue)
  {
    FailsFrom(StartSending(s), sends, 0, WRITE_BUDGET)
  }

  /**
   * A Write ends a stream exactly if it comes to use a send that fails; not when the queue is drained, when
   * the socket would block or when 64 KiB were sent.
   */
  lemma StreamLivesOn(s: SessionView, sends: seq<SendResult>)
    requires s.streaming && Q.Ok(s.queue) && Nonempty(s.queue)
    ensures AfterWrite(s, sends).alive <==> !WriteFails(s, sends)
    ensures (forall k {:trigger sends[k]} :: 0 <= k < |sends| ==> !SendFails(sends[k])) ==> AfterWrite(s, sends).alive
  {
    BrokenIff(StartSending(s), sends, 0, WRITE_BUDGET);
  }

  /** An HTTP session ends if a send fails, and otherwise exactly when nothing is left to send. */
  lemma HttpLivesOn(s: SessionView, sends: seq<SendResult>)
    requires !s.streaming && Q.Ok(s.queue) && Nonempty(s.queue)
    ensures var o := AfterWrite(s, sends); o.alive <==> !WriteFails(s, sends) && o.after.queue.current.Some?
  {
    BrokenIff(StartSending(s), sends, 0, WRITE_BUDGET);
  }

  /** What the first k results come to, and what result k adds: as much as fits, if the loop comes to use it. */
  predicate Counts(y: Sending, z: Sending, r: SendResult, reached: bool, limit: nat)
    requires Q.Ok(y.queue)
  {
    if reached && r.Sent? && r.count > 0 then
      && y.total <= limit && z.total == y.total + Min(r.count, Min(|Q.Front(y.queue)|, limit - y.total))
      && z.lastProgress == r.at
    else z.total == y.total && z.lastProgress == y.lastProgress && z.queue == y.queue && z.wire == y.wire
  }

  /** The loop over the first k results, from a turn before them. */
  lemma SendAllTurn(x: Sending, sends: seq<SendResult>, turn: nat, k: nat, limit: nat)
    requires Q.Ok(x.queue) && x.total <= limit && turn < k <= |sends|
    ensures SendAll(x, sends[..k], turn, limit)
            == if MaySend(x, sends, turn, limit)
               then SendAll(SendOne(x, sends[turn], limit - x.total), sends[..k], turn + 1, limit) else x
  {
    assert sends[..k][turn] == sends[turn];
  }

  lemma SendHere(x: Sending, sends: seq<SendResult>, k: nat, limit: nat)
    requires Q.Ok(x.queue) && Nonempty(x.queue) && x.total <= limit && !x.broken && k < |sends|
    ensures Counts(x, SendAll(x, sends[..k + 1], k, limit), sends[k], Reaches(x, sends, k, k, limit), limit)
  {
    SendAllTurn(x, sends, k, k + 1, limit);
    assert SendAll(x, sends[..k], k, limit) == x;
    if MaySend(x, sends, k, limit) {
      var y := SendOne(x, sends[k], limit - x.total);
      assert SendAll(y, sends[..k + 1], k + 1, limit) == y;
    }
  }

  /** Once the loop has ended, no further result is used. */
  lemma NothingCounts(x: Sending, sends: seq<SendResult>, turn: nat, k: nat, limit: nat)
    requires Q.Ok(x.queue) && Nonempty(x.queue) && x.total <= limit && !x.broken && turn < k < |sends|
    requires !MaySend(x, sends, turn, limit) || SendFails(sends[turn])
    ensures SendAll(x, sends[..k], turn, limit) == SendAll(x, sends[..k + 1], turn, limit)
    ensures !Reaches(x, sends, turn, k, limit)
  {
    SendAllTurn(x, sends, turn, k, limit);
    SendAllTurn(x, sends, turn, k + 1, limit);
    if MaySend(x, sends, turn, limit) {
      var y := SendOne(x, sends[turn], limit - x.total);
      SendOneBreaks(x, sends[turn], limit - x.total);
      assert SendAll(y, sends[..k], turn + 1, limit) == y == SendAll(y, sends[..k + 1], turn + 1, limit);
    }
  }

  lemma CountsBefore(x: Sending, sends: seq<SendResult>, turn: nat, k: nat, limit: nat)
    requires Q.Ok(x.queue) && x.total <= limit && turn < k < |sends|
    requires MaySend(x, sends, turn, limit) && !SendFails(sends[turn])
    requires var y := SendOne(x, sends[turn], limit - x.total);
             Counts(SendAll(y, sends[..k], turn + 1, limit), SendAll(y, sends[..k + 1], turn + 1, limit), sends[k],
                    Reaches(y, sends, turn + 1, k, limit), limit)
    ensures Counts(SendAll(x, sends[..k], turn, limit), SendAll(x, sends[..k + 1], turn, limit), sends[k],
                   Reaches(x, sends, turn, k, limit), limit)
  {
    SendAllTurn(x, sends, turn, k, limit);
    SendAllTurn(x, sends, turn, k + 1, limit);
    ReachesNext(x, sends, turn, k, limit);
  }

  /**
   * A Write sends, result by result, as much of the front as fits in the budget, and moves the clock to that send;
   * a result that the loop does not come to use changes nothing.
   */
  lemma {:induction false} EverySendCounts(x: Sending, sends: seq<SendResult>, turn: nat, k: nat, limit: nat)
    requires Q.Ok(x.queue) && Nonempty(x.queue) && x.total <= limit && !x.broken && turn <= k < |sends|
    ensures Counts(SendAll(x, sends[..k], turn, limit), SendAll(x, sends[..k + 1], turn, limit), sends[k],
                   Reaches(x, sends, turn, k, limit), limit)
    decreases k - turn
  {
    if turn == k {
      SendHere(x, sends, k, limit);
      assert SendAll(x, sends[..k], k, limit) == x;
    } else if !MaySend(x, sends, turn, limit) || SendFails(sends[turn]) {
      NothingCounts(x, sends, turn, k, limit);
    } else {
      SendOneBreaks(x, sends[turn], limit - x.total);
      EverySendCounts(SendOne(x, sends[turn], limit - x.total), sends, turn + 1, k, limit);
      CountsBefore(x, sends, turn, k, limit);
    }
  }

  /** No session of the reactor has an empty frame in its queue. */
  lemma QueueNonempty(s: SessionView, last: nat, h: seq<Generation>)
    requires SessionOk(s, last, h)
    ensures Nonempty(s.queue)
  {
    var all := s.wire.done + Q.Held(s.queue);
    forall i | |s.wire.done| <= i < |all| ensures all[i].data != [] {
      SubsequenceMember(all, s.wire.pushed, i);
      var m :| i <= m < |s.wire.pushed| && s.wire.pushed[m] == all[i];
      assert s.streaming ==> IsGeneration(s.wire.pushed[m], h);
    }
    assert s.queue.current.Some? ==> all[|s.wire.done|] == s.queue.current.value;
    assert s.queue.pending.Some? ==> all[|s.wire.done| + 1] == s.queue.pending.value;
  }

  // ----- Read -----

  /** The pieces that Read takes, whether the connection is still open, and the clock of the last piece. */
  datatype Reading = Reading(pieces: seq<bytes>, open: bool, at: int)

  function Piece(data: bytes): bytes { if |data| > RECV_BUFFER then data[..RECV_BUFFER] else data }

  function RecvAt(recvs: seq<RecvResult>, turn: nat): RecvResult {
    if turn < |recvs| then recvs[turn] else RecvWouldBlock
  }

  function ReadFrom(request: bytes, recvs: seq<RecvResult>, turn: nat): Reading
    decreases MAX_RECVS - turn
  {
    if turn >= MAX_RECVS then Reading([], true, 0)
    else
      match RecvAt(recvs, turn)
      case RecvInterrupted => ReadFrom(request, recvs, turn + 1)
      case RecvWouldBlock => Reading([], true, 0)
      case RecvFailed => Reading([], false, 0)
      case Received(data, at) =>
        if data == [] then Reading([], false, 0)
        else if !Judge(request + Piece(data)).Waiting? then Reading([Piece(data)], true, at)
        else
          var more := ReadFrom(request + Piece(data), recvs, turn + 1);
          more.(pieces := [Piece(data)] + more.pieces)
  }

  /** One response is pushed; if it does not fit in the budget the session has to be closed. */
  function Respond(s: SessionView, response: Response, now: int, queuedBytes: int): Outcome
    requires Q.Ok(s.queue)
  {
    var b := Q.Buffer(0, response);
    if Fits(s, b, queuedBytes) then Outcome(true, Enqueued(s, b, now).(responding := true, request := []))
    else Outcome(false, Overflowed(s, now).(responding := true, request := []))
  }

  /** The text is dropped with the answer. */
  lemma RespondForgets(s: SessionView, text: bytes, response: Response, now: int, queuedBytes: int)
    requires Q.Ok(s.queue)
    ensures Respond(s.(request := text), response, now, queuedBytes) == Respond(s, response, now, queuedBytes)
  {
  }

  /** Read, turn by turn. */
  function ReadTurns(s: SessionView, recvs: seq<RecvResult>, turn: nat, answers: Answers,
                     queuedBytes: int): (o: Outcome)
    requires Q.Ok(s.queue)
    ensures Q.Ok(o.after.queue)
    decreases MAX_RECVS - turn
  {
    if turn >= MAX_RECVS then Outcome(true, s)
    else
      match RecvAt(recvs, turn)
      case RecvInterrupted => ReadTurns(s, recvs, turn + 1, answers, queuedBytes)
      case RecvWouldBlock => Outcome(true, s)
      case RecvFailed => Outcome(false, s)
      case Received(data, at) =>
        var more := s.(request := s.request + Piece(data));
        if data == [] then Outcome(false, s)
        else if |more.request| > HEADER_LIMIT then Respond(more, answers.headerLimit, at, queuedBytes)
        else if HasEnd(more.request) then Respond(more, answers.route(more.request), at, queuedBytes)
        else ReadTurns(more, recvs, turn + 1, answers, queuedBytes)
  }

  /** Read as a whole: pieces are collected until their text can be answered, and it is answered once. */
  function AfterRead(s: SessionView, recvs: seq<RecvResult>, turn: nat, answers: Answers,
                     queuedBytes: int): (o: Outcome)
    requires Q.Ok(s.queue)
    ensures Q.Ok(o.after.queue)
  {
    var r := ReadFrom(s.request, recvs, turn);
    match Gather(s.request, r.pieces)
    case Waiting(request) => Outcome(r.open, s.(request := request))
    case Routed(text) => Respond(s, answers.route(text), r.at, queuedBytes)
    case TooLong => Respond(s, answers.headerLimit, r.at, queuedBytes)
  }

  /** The response of a session with an empty queue is pushed whole, and refused exactly over the budget. */
  lemma Responded(s: SessionView, response: Response, now: int, queuedBytes: int)
    requires s.queue == Q.EMPTY
    ensures var o, b := Respond(s, response, now, queuedBytes), Q.Buffer(0, response);
            && (o.alive <==> queuedBytes + |response| <= QUEUE_BUDGET)
            && (o.alive ==> o.after == s.(responding := true, request := [], lastProgress := now,
                                          queue := Q.State(Some(b), None, 0),
                                          wire := s.wire.(pushed := s.wire.pushed + [b])))
  {
  }

  /** What the first k receives add to a request. */
  function TextUpTo(p: bytes, recvs: seq<RecvResult>, k: nat): bytes
    requires k <= |recvs|
  {
    if k == 0 then p
    else TextUpTo(p, recvs, k - 1) + if recvs[k - 1].Received? then Piece(recvs[k - 1].data) else []
  }

  /** The loop of Read comes to its turn k: nothing before ends it, and no text before can be answered. */
  predicate ReadReaches(p: bytes, recvs: seq<RecvResult>, k: nat) {
    && k <= |recvs| && k <= MAX_RECVS
    && (forall j {:trigger recvs[j]} :: 0 <= j < k ==>
          && (recvs[j].RecvInterrupted? || (recvs[j].Received? && recvs[j].data != []))
          && (recvs[j].Received? ==> |TextUpTo(p, recvs, j + 1)| <= HEADER_LIMIT && !HasEnd(TextUpTo(p, recvs, j + 1))))
  }

  lemma {:induction false} ReadComesTo(s: SessionView, recvs: seq<RecvResult>, k: nat, answers: Answers,
                                       queuedBytes: int)
    requires Q.Ok(s.queue) && ReadReaches(s.request, recvs, k)
    ensures ReadTurns(s, recvs, 0, answers, queuedBytes)
            == ReadTurns(s.(request := TextUpTo(s.request, recvs, k)), recvs, k, answers, queuedBytes)
    decreases k
  {
    if k == 0 {
      assert s.(request := s.request) == s;
    } else {
      ReadComesTo(s, recvs, k - 1, answers, queuedBytes);
      var text := TextUpTo(s.request, recvs, k - 1);
      assert recvs[k - 1].RecvInterrupted? ==> text + [] == text;
    }
  }

  /**
   * Where Read stops: an end of stream or a failure ends the session with nothing pushed, too much text gets
   * the 431 response, a blank line the answer of Route to the text up to here; otherwise it goes on waiting.
   */
  lemma ReadStops(s: SessionView, recvs: seq<RecvResult>, k: nat, answers: Answers, queuedBytes: int)
    requires Q.Ok(s.queue) && ReadReaches(s.request, recvs, k)
    ensures var text := TextUpTo(s.request, recvs, k);
            var o := AfterRead(s, recvs, 0, answers, queuedBytes);
            if k == MAX_RECVS || k == |recvs| || recvs[k].RecvWouldBlock? then o == Outcome(true, s.(request := text))
            else if recvs[k].RecvFailed? || (recvs[k].Received? && recvs[k].data == [])
            then o == Outcome(false, s.(request := text))
            else if recvs[k].Received? then
              var all, at := text + Piece(recvs[k].data), recvs[k].at;
              && (|all| > HEADER_LIMIT ==> o == Respond(s, answers.headerLimit, at, queuedBytes))
              && (|all| <= HEADER_LIMIT && HasEnd(all) ==> o == Respond(s, answers.route(all), at, queuedBytes))
            else true
  {
    ReadComesTo(s, recvs, k, answers, queuedBytes);
    ReadTurnsCollect(s, recvs, 0, answers, queuedBytes);
    if k < |recvs| && k < MAX_RECVS && recvs[k].Received? && recvs[k].data != [] {
      var all := TextUpTo(s.request, recvs, k) + Piece(recvs[k].data);
      RespondForgets(s, all, answers.headerLimit, recvs[k].at, queuedBytes);
      RespondForgets(s, all, answers.route(all), recvs[k].at, queuedBytes);
    }
  }

  /** One piece of at most one buffer: it is judged, or Read goes on behind it. */
  lemma PieceRead(p: bytes, recvs: seq<RecvResult>, turn: nat)
    requires turn < MAX_RECVS && turn < |recvs| && recvs[turn].Received? && recvs[turn].data != []
    ensures var q := p + Piece(recvs[turn].data);
            var r, more := ReadFrom(p, recvs, turn), ReadFrom(q, recvs, turn + 1);
            if Judge(q).Waiting?
            then Gather(p, r.pieces) == Gather(q, more.pieces) && r.open == more.open && r.at == more.at
            else Gather(p, r.pieces) == Judge(q) && r.open && r.at == recvs[turn].at
  {
    var q := p + Piece(recvs[turn].data);
    if Judge(q).Waiting? {
      assert ReadFrom(p, recvs, turn).pieces[1..] == ReadFrom(q, recvs, turn + 1).pieces;
    }
  }

  /** Answering early, piece by piece, comes to the same as judging the collected text. */
  lemma {:induction false} ReadTurnsCollect(s: SessionView, recvs: seq<RecvResult>, turn: nat, answers: Answers,
                                            queuedBytes: int)
    requires Q.Ok(s.queue)
    ensures ReadTurns(s, recvs, turn, answers, queuedBytes) == AfterRead(s, recvs, turn, answers, queuedBytes)
    decreases MAX_RECVS - turn
  {
    if turn < MAX_RECVS {
      match RecvAt(recvs, turn)
      case RecvInterrupted => ReadTurnsCollect(s, recvs, turn + 1, answers, queuedBytes);
      case Received(data, at) =>
        if data != [] {
          var more := s.(request := s.request + Piece(data));
          PieceRead(s.request, recvs, turn);
          var v, clock := Judge(more.request), at;
          if v.Waiting? {
            ReadTurnsCollect(more, recvs, turn + 1, answers, queuedBytes);
            var r := ReadFrom(more.request, recvs, turn + 1);
            v, clock := Gather(more.request, r.pieces), r.at;
          }
          if !v.Waiting? {
            RespondForgets(s, more.request, if v.Routed? then answers.route(v.text) else answers.headerLimit, clock,
                           queuedBytes);
          }
        }
      case _ =>
    }
  }

  lemma ReadKeeps(s: SessionView, recvs: seq<RecvResult>, answers: Answers, queuedBytes: int, last: nat,
                  h: seq<Generation>)
    requires SessionOk(s, last, h) && !s.streaming && !s.responding && queuedBytes <= QUEUE_BUDGET
    ensures var o := AfterRead(s, recvs, 0, answers, queuedBytes);
            && (o.alive ==> SessionOk(o.after, last, h)) && ClosedOk(Closed(o.after.streaming, o.after.wire), h)
            && queuedBytes - SessionBytes(s) + SessionBytes(o.after) <= QUEUE_BUDGET
  {
    ClosedAfter(s, last, h);
    var r := ReadFrom(s.request, recvs, 0);
    var v := Gather(s.request, r.pieces);
    var o := AfterRead(s, recvs, 0, answers, queuedBytes);
    if !v.Waiting? && o.alive {
      EnqueueResponseKeeps(s, h, last, if v.Routed? then answers.route(v.text) else answers.headerLimit, r.at);
      ClosedAfter(o.after, last, h);
    }
  }

  // ----- Fragmentation of a request -----

  /** The bytes that one Read takes: at most eight receives, up to one that would block. */
  function Arriving(recvs: seq<RecvResult>, turn: nat): bytes
    decreases MAX_RECVS - turn
  {
    if turn >= MAX_RECVS then []
    else
      match RecvAt(recvs, turn)
      case RecvInterrupted => Arriving(recvs, turn + 1)
      case Received(data, _) => data + Arriving(recvs, turn + 1)
      case _ => []
  }

  /** The connection does not end or fail in this Read, and no receive returns more than its buffer holds. */
  predicate NoEnd(recvs: seq<RecvResult>, turn: nat)
    decreases MAX_RECVS - turn
  {
    turn < MAX_RECVS ==>
      match RecvAt(recvs, turn)
      case RecvInterrupted => NoEnd(recvs, turn + 1)
      case Received(data, _) => 0 < |data| <= RECV_BUFFER && NoEnd(recvs, turn + 1)
      case RecvWouldBlock => true
      case RecvFailed => false
  }

  lemma PrefixJudged(r: bytes, p: bytes)
    requires Whole(r) && p < r
    ensures Judge(p) == Waiting(p)
  {
    PrefixWaits(r, |p|);
    assert r[..|p|] == p;
  }

  /** Receives that stop short of the end of a whole request: Read goes on waiting with all they carried. */
  lemma {:induction false} PartRead(r: bytes, p: bytes, recvs: seq<RecvResult>, turn: nat)
    requires Whole(r) && NoEnd(recvs, turn) && p + Arriving(recvs, turn) < r
    ensures Gather(p, ReadFrom(p, recvs, turn).pieces) == Waiting(p + Arriving(recvs, turn))
    ensures ReadFrom(p, recvs, turn).open
    decreases MAX_RECVS - turn
  {
    assert p + [] == p;
    if turn < MAX_RECVS {
      match RecvAt(recvs, turn)
      case RecvInterrupted => PartRead(r, p, recvs, turn + 1);
      case Received(data, at) =>
        Glue(p, data, Arriving(recvs, turn + 1));
        PrefixJudged(r, p + data);
        PartRead(r, p + data, recvs, turn + 1);
        PieceRead(p, recvs, turn);
      case _ =>
    }
  }

  /** Receives that bring the rest of a whole request: its text is judged at its last piece. */
  lemma {:induction false} LastRead(r: bytes, p: bytes, recvs: seq<RecvResult>, turn: nat)
    requires Whole(r) && NoEnd(recvs, turn) && p < r && p + Arriving(recvs, turn) == r
    ensures Gather(p, ReadFrom(p, recvs, turn).pieces) == Routed(r)
    decreases MAX_RECVS - turn
  {
    match RecvAt(recvs, turn)
    case RecvInterrupted => LastRead(r, p, recvs, turn + 1);
    case Received(data, at) =>
      Glue(p, data, Arriving(recvs, turn + 1));
      PieceRead(p, recvs, turn);
      if p + data == r {
        assert EndAt(r, |r| - 4);
      } else {
        PrefixJudged(r, p + data);
        LastRead(r, p + data, recvs, turn + 1);
      }
    case _ =>
  }

  // ----- The dispatch of one event -----

  predicate Reads(s: SessionView, e: Poll) { !e.error && !s.streaming && !s.responding && (e.readable || e.hangup) }

  function AfterReads(s: SessionView, e: Poll, queuedBytes: int): (o: Outcome)
    requires Q.Ok(s.queue)
    ensures Q.Ok(o.after.queue)
  {
    if Reads(s, e) then AfterRead(s, e.recvs, 0, e.answers, queuedBytes) else Outcome(!e.error, s)
  }

  function AfterPoll(s: SessionView, e: Poll, queuedBytes: int): (o: Outcome)
    requires Q.Ok(s.queue)
    ensures Q.Ok(o.after.queue)
  {
    var r := AfterReads(s, e, queuedBytes);
    var w := if r.alive && e.writable then AfterWrite(r.after, e.sends) else r;
    Outcome(w.alive && !e.hangup, w.after)
  }

  /** The session as Modify leaves it for the next event. */
  function Registered(o: Outcome): Outcome { if o.alive then Outcome(true, o.after.(mask := MaskFor(o.after))) else o }

  /** All sessions after one event: the session goes on with its new interest set, or it is closed. */
  function Polled(m: map<nat, SessionView>, token: nat, e: Poll, queuedBytes: int): map<nat, SessionView> {
    if token !in m || !Q.Ok(m[token].queue) then m
    else
      var o := Registered(AfterPoll(m[token], e, queuedBytes));
      if o.alive then m[token := o.after] else m - {token}
  }

  /** An event of a session, and the bytes queued for all sessions when it is handled. */
  datatype Visit = Visit(poll: Poll, queuedBytes: int)

  /** A session after any number of its events, whatever the reactor does for other sessions in between. */
  function AfterVisits(s: SessionView, vs: seq<Visit>): (o: Outcome)
    requires Q.Ok(s.queue)
    ensures Q.Ok(o.after.queue)
  {
    if vs == [] then Outcome(true, s)
    else
      var o, v := AfterVisits(s, vs[..|vs| - 1]), vs[|vs| - 1];
      if o.alive then Registered(AfterPoll(o.after, v.poll, v.queuedBytes)) else o
  }

  /** Input for a session that waits for a request; EPOLLOUT is not registered while nothing is queued. */
  predicate Brings(p: Poll) {
    !p.error && !p.hangup && p.readable && !p.writable && NoEnd(p.recvs, 0)
  }

  predicate AllBring(vs: seq<Visit>) { forall i {:trigger vs[i]} :: 0 <= i < |vs| ==> Brings(vs[i].poll) }

  function Brought(vs: seq<Visit>): bytes {
    if vs == [] then [] else Brought(vs[..|vs| - 1]) + Arriving(vs[|vs| - 1].poll.recvs, 0)
  }

  /** A session that waits for the rest of the request r, registered for input. */
  predicate WaitsFor(s: SessionView, r: bytes) {
    !s.streaming && !s.responding && s.queue == Q.EMPTY && s.mask == MaskFor(s) && s.request < r
  }

  lemma BroughtFront(p: bytes, vs: seq<Visit>)
    requires vs != []
    ensures p + Brought(vs) == (p + Brought(vs[..|vs| - 1])) + Arriving(vs[|vs| - 1].poll.recvs, 0)
  {
    Glue(p, Brought(vs[..|vs| - 1]), Arriving(vs[|vs| - 1].poll.recvs, 0));
  }

  /** An event that brings less than the rest of the request leaves the session waiting. */
  lemma OnePart(r: bytes, s: SessionView, v: Visit)
    requires Whole(r) && WaitsFor(s, r) && Brings(v.poll) && s.request + Arriving(v.poll.recvs, 0) < r
    ensures AfterPoll(s, v.poll, v.queuedBytes) == Outcome(true, s.(request := s.request + Arriving(v.poll.recvs, 0)))
  {
    PartRead(r, s.request, v.poll.recvs, 0);
  }

  /** Events that bring less than the whole request leave the session waiting, with nothing pushed. */
  lemma {:induction false} StillWaiting(r: bytes, s: SessionView, vs: seq<Visit>)
    requires Whole(r) && WaitsFor(s, r) && AllBring(vs) && s.request + Brought(vs) < r
    ensures AfterVisits(s, vs) == Outcome(true, s.(request := s.request + Brought(vs)))
    decreases |vs|
  {
    if vs == [] {
      assert s.request + [] == s.request;
    } else {
      var front, v := vs[..|vs| - 1], vs[|vs| - 1];
      var s' := s.(request := s.request + Brought(front));
      BroughtFront(s.request, vs);
      StillWaiting(r, s, front);
      OnePart(r, s', v);
    }
  }

  /** The event that brings the last byte: Route is asked about the whole text. */
  lemma LastPart(r: bytes, s: SessionView, v: Visit) returns (at: int)
    requires Whole(r) && WaitsFor(s, r) && Brings(v.poll) && s.request + Arriving(v.poll.recvs, 0) == r
    ensures AfterPoll(s, v.poll, v.queuedBytes) == Respond(s, v.poll.answers.route(r), at, v.queuedBytes)
  {
    LastRead(r, s.request, v.poll.recvs, 0);
    at := ReadFrom(s.request, v.poll.recvs, 0).at;
  }

  /**
   * HTTP fragmentation, over the events of the reactor: the bytes of a whole request arrive in any number of
   * events, cut in any way, with interruptions anywhere. In the event that brings the last byte Route is
   * asked once, about the whole text, and its answer is pushed once.
   */
  lemma WholeRequestAnswered(r: bytes, s: SessionView, vs: seq<Visit>) returns (at: int)
    requires Whole(r) && WaitsFor(s, r) && AllBring(vs) && s.request + Brought(vs) == r
    requires vs != [] && Arriving(vs[|vs| - 1].poll.recvs, 0) != []
    ensures var v := vs[|vs| - 1];
            AfterVisits(s, vs) == Registered(Respond(s, v.poll.answers.route(r), at, v.queuedBytes))
    ensures var o, v := AfterVisits(s, vs), vs[|vs| - 1];
            && (o.alive <==> v.queuedBytes + |v.poll.answers.route(r)| <= QUEUE_BUDGET)
            && (o.alive ==> o.after.wire.pushed == s.wire.pushed + [Q.Buffer(0, v.poll.answers.route(r))])
  {
    var front, v := vs[..|vs| - 1], vs[|vs| - 1];
    var s' := s.(request := s.request + Brought(front));
    BroughtFront(s.request, vs);
    StillWaiting(r, s, front);
    at := LastPart(r, s', v);
    RespondForgets(s, s'.request, v.poll.answers.route(r), at, v.queuedBytes);
    Responded(s, v.poll.answers.route(r), at, v.queuedBytes);
  }

  lemma {:induction false} BroughtPrefix(vs: seq<Visit>, j: nat)
    requires j <= |vs|
    ensures Brought(vs[..j]) <= Brought(vs)
    decreases |vs|
  {
    if j == |vs| {
      assert vs[..j] == vs;
    } else {
      assert vs[..|vs| - 1][..j] == vs[..j];
      BroughtPrefix(vs[..|vs| - 1], j);
    }
  }

  /** And before that event nothing is answered: the session waits with all the bytes that have arrived. */
  lemma NotAnsweredBefore(r: bytes, s: SessionView, vs: seq<Visit>, j: nat)
    requires Whole(r) && WaitsFor(s, r) && AllBring(vs) && s.request + Brought(vs) == r
    requires j < |vs| && Arriving(vs[|vs| - 1].poll.recvs, 0) != []
    ensures AfterVisits(s, vs[..j]) == Outcome(true, s.(request := s.request + Brought(vs[..j])))
  {
    var front := vs[..|vs| - 1];
    BroughtFront(s.request, vs);
    BroughtPrefix(front, j);
    assert front[..j] == vs[..j];
    StillWaiting(r, s, vs[..j]);
  }

  /** An event keeps the invariant of its session, and what a session that ends has sent is sound. */
  lemma PollKeeps(s: SessionView, e: Poll, queuedBytes: int, last: nat, h: seq<Generation>)
    requires SessionOk(s, last, h) && SessionBytes(s) <= queuedBytes <= QUEUE_BUDGET
    ensures var o := AfterPoll(s, e, queuedBytes);
            && Q.Ok(o.after.queue) && (o.alive ==> SessionOk(o.after, last, h))
            && ClosedOk(Closed(o.after.streaming, o.after.wire), h)
            && queuedBytes - SessionBytes(s) + SessionBytes(o.after) <= QUEUE_BUDGET
  {
    ClosedAfter(s, last, h);
    if Reads(s, e) {
      ReadKeeps(s, e.recvs, e.answers, queuedBytes, last, h);
    }
    var r := AfterReads(s, e, queuedBytes);
    if r.alive && e.writable {
      WriteKeeps(r.after, e.sends, last, h);
      ClosedAfter(AfterWrite(r.after, e.sends).after, last, h);
    }
  }

  /** A stream reads nothing; it ends on an error, a hang-up or a send that fails, and on nothing else. */
  lemma StreamEvent(s: SessionView, e: Poll, queuedBytes: int)
    requires s.streaming && Q.Ok(s.queue) && Nonempty(s.queue)
    ensures var o := AfterPoll(s, e, queuedBytes);
            && (o.alive <==> !e.error && !e.hangup && !(e.writable && WriteFails(s, e.sends)))
            && o.after == if e.writable && !e.error then AfterWrite(s, e.sends).after else s
  {
    StreamLivesOn(s, e.sends);
  }

  /**
   * An HTTP session that waits reads on input and on hang-up, and one that has its answer writes; it ends on
   * an error, on a hang-up, if Read ends it, if a send fails or when its response was sent.
   */
  lemma HttpEvent(s: SessionView, e: Poll, queuedBytes: int)
    requires !s.streaming && Q.Ok(s.queue)
    ensures var o := AfterPoll(s, e, queuedBytes);
            var takesInput := !s.responding && (e.readable || e.hangup);
            var r := if takesInput then AfterRead(s, e.recvs, 0, e.answers, queuedBytes) else Outcome(true, s);
            && (e.error ==> o == Outcome(false, s)) && (e.hangup ==> !o.alive)
            && (!e.error && !r.alive ==> o == r)
            && (!e.error && r.alive && !e.writable ==> o == Outcome(!e.hangup, r.after))
            && (!e.error && r.alive && e.writable && Nonempty(r.after.queue) ==>
                  && o.after == AfterWrite(r.after, e.sends).after
                  && (o.alive <==> !e.hangup && !WriteFails(r.after, e.sends) && o.after.queue.current.Some?))
  {
    var r := AfterReads(s, e, queuedBytes);
    if r.alive && e.writable && Nonempty(r.after.queue) {
      PollKeepsHttp(s, e, queuedBytes);
      HttpLivesOn(r.after, e.sends);
    }
  }

  lemma PollKeepsHttp(s: SessionView, e: Poll, queuedBytes: int)
    requires Q.Ok(s.queue)
    ensures AfterReads(s, e, queuedBytes).after.streaming == s.streaming
  {
  }

  /** Only a broadcast pushes a frame to a stream that is open: its own events do not. */
  lemma StreamPollPushesNothing(s: SessionView, e: Poll, queuedBytes: int)
    requires Q.Ok(s.queue) && s.streaming
    ensures AfterPoll(s, e, queuedBytes).after.wire.pushed == s.wire.pushed
  {
    var x := StartSending(s);
    var keeps := (y: Sending) => y.wire.pushed == x.wire.pushed;
    assert KeptBySends(keeps);
    SendAllKeeps(keeps, x, e.sends, 0, WRITE_BUDGET);
  }

  /**
   * While output is pending, the clock that Sweep compares with the write deadline moves only when the
   * socket takes bytes: a client that reads nothing cannot postpone its end.
   */
  lemma ClockMovesWithBytes(s: SessionView, e: Poll, queuedBytes: int, last: nat, h: seq<Generation>)
    requires SessionOk(s, last, h) && SessionBytes(s) <= queuedBytes <= QUEUE_BUDGET && s.queue.current.Some?
    ensures var o := AfterPoll(s, e, queuedBytes);
            o.after.lastProgress != s.lastProgress ==> |o.after.wire.sent| > |s.wire.sent|
  {
    if Reads(s, e) {
      ReadKeeps(s, e.recvs, e.answers, queuedBytes, last, h);
    }
    var r := AfterReads(s, e, queuedBytes);
    assert r.after.lastProgress == s.lastProgress && r.after.wire.sent == s.wire.sent;
    if r.alive && e.writable {
      SendAllProgress(StartSending(r.after), e.sends, WRITE_BUDGET);
    }
  }

  /**
   * An event never takes back bytes; and as long as it sends none, pending output stays pending and its clock
   * stands still.
   */
  lemma StalledByPoll(s: SessionView, e: Poll, queuedBytes: int, last: nat, h: seq<Generation>)
    requires SessionOk(s, last, h) && SessionBytes(s) <= queuedBytes <= QUEUE_BUDGET && s.queue.current.Some?
    ensures var r := AfterPoll(s, e, queuedBytes).after;
            && |s.wire.sent| <= |r.wire.sent|
            && (|r.wire.sent| == |s.wire.sent| ==> r.lastProgress == s.lastProgress && r.queue.current.Some?)
  {
    assert AfterReads(s, e, queuedBytes).after == s;
    if !e.error && e.writable {
      var x := StartSending(s);
      SendAllProgress(x, e.sends, WRITE_BUDGET);
      QueueNonempty(s, last, h);
      assert |Q.Stream(s.queue)| > 0;
    }
  }

  /** No event takes back bytes that were sent. */
  lemma SentByPoll(s: SessionView, e: Poll, queuedBytes: int)
    requires Q.Ok(s.queue)
    ensures |s.wire.sent| <= |AfterPoll(s, e, queuedBytes).after.wire.sent|
  {
    var r := AfterReads(s, e, queuedBytes).after;
    assert r.wire.sent == s.wire.sent;
    var keeps := (y: Sending) => |r.wire.sent| <= |y.wire.sent|;
    assert KeptBySends(keeps);
    SendAllKeeps(keeps, StartSending(r), e.sends, 0, WRITE_BUDGET);
  }
}
