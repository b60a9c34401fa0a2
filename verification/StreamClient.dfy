/**
 * The client's end of the stream: connecting and reconnecting, deadlines, and the loop that cuts what recv
 * returns into frames and hands each decoded snapshot to the application.
 */
module StreamClient {
  import opened Bytes
  import opened Framing
  import opened SequenceFilter

  /** What recv returns, and the clock when it did. Data([]) is the end of the stream. */
  datatype RecvResult = Data(data: bytes, at: int) | Interrupted | WouldBlock | Failed(at: int)

  datatype ConnectResult = ConnectedNow | InProgress | Refused

  /** What poll reported. */
  datatype Poll = Poll(readable: bool, writable: bool, error: bool, hangup: bool, invalid: bool)

  const READ_BUFFER: nat := 16384
  const MAX_READS: nat := 16
  const CONNECT_TIMEOUT: int := 3000
  const FRAME_TIMEOUT: int := 10_000
  const IDLE_TIMEOUT: int := 180_000

  /** 250 ms doubled per failed attempt, at most five times. */
  function Backoff(attempts: nat): (r: nat)
    ensures 250 <= r <= 8000
  {
    Min(10_000, if attempts == 0 then 250 else if attempts == 1 then 500 else if attempts == 2 then 1000
                else if attempts == 3 then 2000 else if attempts == 4 then 4000 else 8000)
  }

  /** A second failure in a row waits twice as long, and after the sixth the delay grows no more. */
  lemma BackoffDoubles(attempts: nat)
    ensures Backoff(0) == 250
    ensures Backoff(attempts + 1) == Backoff(attempts) * if attempts < 5 then 2 else 1
  {
  }

  /** One read takes at most a buffer. */
  function Chunk(data: bytes): bytes { if |data| > READ_BUFFER then data[..READ_BUFFER] else data }

  function RecvAt(recvs: seq<RecvResult>, turn: nat): RecvResult { if turn < |recvs| then recvs[turn] else WouldBlock }

  /** Everything the socket returns to one call of Handle, as long as the loop goes on. */
  function Intake(recvs: seq<RecvResult>, turn: nat): bytes
    decreases MAX_READS - turn
  {
    if turn >= MAX_READS then []
    else
      match RecvAt(recvs, turn)
      case Interrupted => Intake(recvs, turn + 1)
      case Data(data, _) => if data == [] then [] else Chunk(data) + Intake(recvs, turn + 1)
      case _ => []
  }

  /** Whether the end of the stream or a failure is met. */
  predicate Ends(recvs: seq<RecvResult>, turn: nat)
    decreases MAX_READS - turn
  {
    if turn >= MAX_READS then false
    else
      match RecvAt(recvs, turn)
      case Interrupted => Ends(recvs, turn + 1)
      case Data(data, _) => data == [] || Ends(recvs, turn + 1)
      case WouldBlock => false
      case Failed(_) => true
  }

  /** After taken, the rest of all that the socket returns comes from turn on. */
  ghost predicate TakenUpTo(recvs: seq<RecvResult>, taken: bytes, turn: nat) {
    Intake(recvs, 0) == taken + Intake(recvs, turn) && Ends(recvs, 0) == Ends(recvs, turn)
  }

  lemma TakenNext(recvs: seq<RecvResult>, taken: bytes, turn: nat)
    requires turn < MAX_READS && TakenUpTo(recvs, taken, turn)
    ensures match RecvAt(recvs, turn)
            case Interrupted => TakenUpTo(recvs, taken, turn + 1)
            case WouldBlock => taken == Intake(recvs, 0) && !Ends(recvs, 0)
            case Failed(_) => taken == Intake(recvs, 0) && Ends(recvs, 0)
            case Data(data, _) =>
              if data == [] then taken == Intake(recvs, 0) && Ends(recvs, 0)
              else taken + Chunk(data) <= Intake(recvs, 0) && TakenUpTo(recvs, taken + Chunk(data), turn + 1)
  {
    var r := RecvAt(recvs, turn);
    assert taken + [] == taken;
    if r.Data? && r.data != [] {
      Glue(taken, Chunk(r.data), Intake(recvs, turn + 1));
    }
  }

  lemma TakenAll(recvs: seq<RecvResult>, taken: bytes)
    requires TakenUpTo(recvs, taken, MAX_READS)
    ensures taken == Intake(recvs, 0) && !Ends(recvs, 0)
  {
    assert taken + [] == taken;
  }

  // ----- The clocks of the bytes -----

  /** The clock of the recv that returns byte k of what comes from turn on. */
  function ArrivedAt(recvs: seq<RecvResult>, turn: nat, k: nat): int
    decreases MAX_READS - turn
  {
    if turn >= MAX_READS then 0
    else
      match RecvAt(recvs, turn)
      case Interrupted => ArrivedAt(recvs, turn + 1, k)
      case Data(data, at) => if k < |Chunk(data)| then at else ArrivedAt(recvs, turn + 1, k - |Chunk(data)|)
      case _ => 0
  }

  /** The clock of every byte that one call of Handle reads. */
  ghost function Clocks(recvs: seq<RecvResult>): nat -> int { (k: nat) => ArrivedAt(recvs, 0, k) }

  /** Byte j of what comes from turn on is byte |taken| + j of all. */
  ghost predicate ClocksFrom(clock: nat -> int, recvs: seq<RecvResult>, taken: bytes, turn: nat) {
    forall j: nat {:trigger ArrivedAt(recvs, turn, j)} :: clock(|taken| + j) == ArrivedAt(recvs, turn, j)
  }

  lemma ClocksNext(clock: nat -> int, recvs: seq<RecvResult>, taken: bytes, turn: nat)
    requires turn < MAX_READS && ClocksFrom(clock, recvs, taken, turn)
    ensures match RecvAt(recvs, turn)
            case Interrupted => ClocksFrom(clock, recvs, taken, turn + 1)
            case Data(data, at) =>
              && ClocksFrom(clock, recvs, taken + Chunk(data), turn + 1)
              && forall k: nat {:trigger clock(k)} :: |taken| <= k < |taken| + |Chunk(data)| ==> clock(k) == at
            case _ => true
  {
    match RecvAt(recvs, turn)
    case Interrupted =>
      forall j: nat {:trigger ArrivedAt(recvs, turn + 1, j)}
        ensures clock(|taken| + j) == ArrivedAt(recvs, turn + 1, j)
      {
        assert ArrivedAt(recvs, turn, j) == ArrivedAt(recvs, turn + 1, j);
      }
    case Data(data, at) =>
      var n := |Chunk(data)|;
      forall j: nat {:trigger ArrivedAt(recvs, turn + 1, j)}
        ensures clock(|taken + Chunk(data)| + j) == ArrivedAt(recvs, turn + 1, j)
      {
        assert ArrivedAt(recvs, turn, n + j) == ArrivedAt(recvs, turn + 1, j);
      }
      forall k: nat | |taken| <= k < |taken| + n ensures clock(k) == at {
        assert ArrivedAt(recvs, turn, k - |taken|) == at;
      }
    case _ =>
  }

  /** A property of what was taken before each turn of the read loop, and where it ends. */
  ghost predicate ReadsOn(upTo: (bytes, nat) -> bool, recvs: seq<RecvResult>, clock: nat -> int, whole: bytes,
                          ends: bool)
  {
    && (forall taken: bytes, turn: nat {:trigger upTo(taken, turn)} :: upTo(taken, turn) ==>
          taken <= whole && (turn >= MAX_READS ==> taken == whole && !ends))
    && (forall taken: bytes, turn: nat {:trigger upTo(taken, turn), RecvAt(recvs, turn)} ::
          upTo(taken, turn) && turn < MAX_READS ==> ReadStep(upTo, recvs, clock, whole, ends, taken, turn))
  }

  ghost predicate ReadStep(upTo: (bytes, nat) -> bool, recvs: seq<RecvResult>, clock: nat -> int, whole: bytes,
                           ends: bool, taken: bytes, turn: nat)
  {
    match RecvAt(recvs, turn)
    case Interrupted => upTo(taken, turn + 1)
    case WouldBlock => taken == whole && !ends
    case Failed(_) => taken == whole && ends
    case Data(data, at) =>
      if data == [] then taken == whole && ends
      else
        && upTo(taken + Chunk(data), turn + 1)
        && forall k: nat {:trigger clock(k)} :: |taken| <= k < |taken| + |Chunk(data)| ==> clock(k) == at
  }

  lemma Reader(recvs: seq<RecvResult>) returns (upTo: (bytes, nat) -> bool)
    ensures upTo([], 0) && ReadsOn(upTo, recvs, Clocks(recvs), Intake(recvs, 0), Ends(recvs, 0))
  {
    var clock := Clocks(recvs);
    upTo := (taken: bytes, turn: nat) =>
      turn <= MAX_READS && TakenUpTo(recvs, taken, turn) && ClocksFrom(clock, recvs, taken, turn);
    forall taken: bytes, turn: nat | upTo(taken, turn)
      ensures taken <= Intake(recvs, 0) && (turn >= MAX_READS ==> taken == Intake(recvs, 0) && !Ends(recvs, 0))
    {
      if turn == MAX_READS {
        TakenAll(recvs, taken);
      }
    }
    forall taken: bytes, turn: nat | upTo(taken, turn) && turn < MAX_READS
      ensures ReadStep(upTo, recvs, clock, Intake(recvs, 0), Ends(recvs, 0), taken, turn)
    {
      TakenNext(recvs, taken, turn);
      ClocksNext(clock, recvs, taken, turn);
    }
    assert ([] + Intake(recvs, 0)) == Intake(recvs, 0);
  }

  /**
   * The clocks of a connection after taken, of which held bytes belong to a frame that is not complete: lastFrame
   * is when the last byte of the last frame arrived, frameStarted when the first byte of the frame that is held.
   */
  predicate FrameClocks(clock: nat -> int, taken: nat, held: nat, got: seq<bytes>, lastBefore: int,
                        startedBefore: int, lastFrame: int, frameStarted: int)
  {
    && (got == [] ==> lastFrame == lastBefore)
    && (got != [] ==> held < taken && lastFrame == clock(taken - held - 1))
    && (held > 0 ==> frameStarted == if held <= taken then clock(taken - held) else startedBefore)
  }

  /**
   * The same after n bytes that arrived at once: a frame that was completed or begun in them was so then; and
   * without a frame all of them are held, with those that were held before.
   */
  predicate ChunkClocks(n: nat, held: nat, got: seq<bytes>, at: int, heldBefore: nat, lastBefore: int,
                        startedBefore: int, lastFrame: int, frameStarted: int)
  {
    && (got == [] ==> lastFrame == lastBefore && held == heldBefore + n)
    && (got != [] ==> lastFrame == at && held < n)
    && (held > 0 ==> frameStarted == if held <= n then at else startedBefore)
  }

  lemma ChunkOn(n: nat, held: nat, got: seq<bytes>, at: int, h0: nat, l0: int, f0: int, l: int, f: int,
                m: nat, held': nat, more: seq<bytes>, l': int, f': int)
    requires ChunkClocks(n, held, got, at, h0, l0, f0, l, f) && ChunkClocks(m, held', more, at, held, l, f, l', f')
    ensures ChunkClocks(n + m, held', got + more, at, h0, l0, f0, l', f')
  {
  }

  lemma ClocksOn(clock: nat -> int, taken: bytes, chunk: bytes, at: int, held: nat, got: seq<bytes>, l0: int,
                 f0: int, l: int, f: int, held': nat, more: seq<bytes>, l': int, f': int)
    requires FrameClocks(clock, |taken|, held, got, l0, f0, l, f)
    requires ChunkClocks(|chunk|, held', more, at, held, l, f, l', f')
    requires forall k: nat {:trigger clock(k)} :: |taken| <= k < |taken| + |chunk| ==> clock(k) == at
    ensures FrameClocks(clock, |taken + chunk|, held', got + more, l0, f0, l', f')
  {
  }

  // ----- Decoding a list of payloads -----

  predicate AllDecode(decode: bytes -> Option<Snapshot>, payloads: seq<bytes>) {
    forall i {:trigger payloads[i]} :: 0 <= i < |payloads| ==> decode(payloads[i]).Some?
  }

  function Decoded(decode: bytes -> Option<Snapshot>, payloads: seq<bytes>): seq<Snapshot>
    requires AllDecode(decode, payloads)
  {
    if payloads == [] then []
    else Decoded(decode, payloads[..|payloads| - 1]) + [decode(payloads[|payloads| - 1]).value]
  }

  lemma DecodedSnoc(decode: bytes -> Option<Snapshot>, payloads: seq<bytes>, p: bytes)
    requires AllDecode(decode, payloads) && decode(p).Some?
    ensures AllDecode(decode, payloads + [p])
    ensures Decoded(decode, payloads + [p]) == Decoded(decode, payloads) + [decode(p).value]
  {
    assert (payloads + [p])[..|payloads|] == payloads;
  }

  /**
   * What became of a stretch of the stream: got are the payloads decoded and delivered. All frames were
   * delivered, or the connection ended at the first one that does not decode or at a bad length.
   */
  ghost predicate Delivery(decode: bytes -> Option<Snapshot>, before: seq<bytes>, got: seq<bytes>, stream: bytes,
                           alive: bool)
  {
    var d := Deframe(stream);
    && AllDecode(decode, got) && before + got <= d.frames
    && (if alive then !d.bad && before + got == d.frames
        else (before + got == d.frames && d.bad)
             || (|before + got| < |d.frames| && decode(d.frames[|before + got|]).None?))
  }

  lemma {:induction false} DecodedAppend(decode: bytes -> Option<Snapshot>, a: seq<bytes>, b: seq<bytes>)
    requires AllDecode(decode, a) && AllDecode(decode, b)
    ensures AllDecode(decode, a + b) && Decoded(decode, a + b) == Decoded(decode, a) + Decoded(decode, b)
    decreases |b|
  {
    if b == [] {
      assert a + b == a;
    } else {
      var front, last := b[..|b| - 1], b[|b| - 1];
      DecodedAppend(decode, a, front);
      assert a + b == (a + front) + [last];
      DecodedSnoc(decode, a + front, last);
    }
  }

  /** What is true of a stream before more of it is read. */
  lemma NothingYet(decode: bytes -> Option<Snapshot>, s: bytes, d: seq<bytes>, a: seq<Snapshot>, held: bytes)
    requires Deframe(s) == Deframed(d, held, false)
    ensures s + [] == s && d + [] == d && AllDecode(decode, []) && a + Decoded(decode, []) == a
    ensures Delivery(decode, d, [], s + [], true)
  {
    assert s + [] == s && d + [] == d;
  }

  /** A stream all of whose frames were decoded and delivered. */
  lemma AllWhole(decode: bytes -> Option<Snapshot>, before: seq<bytes>, got: seq<bytes>, stream: bytes, held: bytes)
    requires AllDecode(decode, got) && Deframe(stream) == Deframed(before + got, held, false)
    ensures Delivery(decode, before, got, stream, true)
  {
  }

  /** Deliveries follow each other. */
  lemma DeliveryJoin(decode: bytes -> Option<Snapshot>, before: seq<bytes>, a: seq<bytes>, b: seq<bytes>,
                     stream: bytes, alive: bool)
    requires AllDecode(decode, a) && Delivery(decode, before + a, b, stream, alive)
    ensures Delivery(decode, before, a + b, stream, alive)
  {
    DecodedAppend(decode, a, b);
    assert (before + a) + b == before + (a + b);
  }

  // ----- Connections that are over -----

  /** What one connection carried and delivered; clean is false if its data ended it. */
  datatype Connection = Connection(stream: bytes, got: seq<bytes>, clean: bool)

  ghost predicate AllDelivered(decode: bytes -> Option<Snapshot>, past: seq<Connection>) {
    forall i {:trigger past[i]} :: 0 <= i < |past| ==> Delivery(decode, [], past[i].got, past[i].stream, past[i].clean)
  }

  /** Everything that these connections delivered. */
  ghost function Heard(decode: bytes -> Option<Snapshot>, past: seq<Connection>): seq<Snapshot>
    requires AllDelivered(decode, past)
  {
    if past == [] then []
    else Heard(decode, past[..|past| - 1]) + Decoded(decode, past[|past| - 1].got)
  }

  lemma HeardSnoc(decode: bytes -> Option<Snapshot>, past: seq<Connection>, c: Connection)
    requires AllDelivered(decode, past) && Delivery(decode, [], c.got, c.stream, c.clean)
    ensures AllDelivered(decode, past + [c])
    ensures Heard(decode, past + [c]) == Heard(decode, past) + Decoded(decode, c.got)
  {
    assert (past + [c])[..|past|] == past;
  }

  /** One more delivery on the connection that is open. */
  lemma DeliveredOn(decode: bytes -> Option<Snapshot>, base: seq<Snapshot>, d: seq<bytes>, s: bytes, got: seq<bytes>,
                    taken: bytes, clean: bool)
    requires Delivery(decode, [], d, s, true) && Delivery(decode, d, got, s + taken, clean)
    ensures Delivery(decode, [], d + got, s + taken, clean)
    ensures base + Decoded(decode, d) + Decoded(decode, got) == base + Decoded(decode, d + got)
  {
    assert [] + d == d;
    DeliveryJoin(decode, [], d, got, s + taken, clean);
    DecodedAppend(decode, d, got);
    Glue(base, Decoded(decode, d), Decoded(decode, got));
  }

  /** What drives the connection: the clock, or a poll. */
  datatype Step =
    | TickStep(now: int, result: ConnectResult, random: nat)
    | HandleStep(poll: Poll, connects: bool, at: int, recvs: seq<RecvResult>, random: nat)

  /** More bytes of a frame that is not complete. */
  lemma FrameGrows(s: bytes, delivered: seq<bytes>, held: bytes, x: bytes)
    requires Deframe(s) == Deframed(delivered, held, false) && Deframe(held + x) == Deframed([], held + x, false)
    ensures Deframe(s + x) == Deframed(delivered, held + x, false)
  {
    DeframeAppend(s, x);
    assert delivered + [] == delivered;
  }

  lemma FrameEnds(s: bytes, delivered: seq<bytes>, held: bytes, x: bytes, p: bytes)
    requires Deframe(s) == Deframed(delivered, held, false) && Deframe(held + x) == Deframed([p], [], false)
    ensures Deframe(s + x) == Deframed(delivered + [p], [], false)
  {
    DeframeAppend(s, x);
  }

  lemma BadLength(decode: bytes -> Option<Snapshot>, s: bytes, delivered: seq<bytes>, held: bytes, input: bytes)
    requires Deframe(s) == Deframed(delivered, held, false) && Deframe(held + input) == Deframed([], held + input, true)
    ensures Delivery(decode, delivered, [], s + input, false)
  {
    DeframeAppend(s, input);
    assert delivered + [] == delivered;
  }

  lemma Undecodable(decode: bytes -> Option<Snapshot>, s: bytes, delivered: seq<bytes>, input: bytes, n: nat)
    requires n <= |input|
    requires exists p {:trigger decode(p)} ::
               Deframe(s + input[..n]) == Deframed(delivered + [p], [], false) && decode(p).None?
    ensures Delivery(decode, delivered, [], s + input, false)
  {
    var p :| Deframe(s + input[..n]) == Deframed(delivered + [p], [], false) && decode(p).None?;
    var frames := Deframe(s + input).frames;
    assert delivered + [p] <= frames by {
      FramesStay(s + input[..n], input[n..]);
      assert s + input[..n] + input[n..] == s + input;
    }
    assert frames[|delivered|] == (delivered + [p])[|delivered|] == p;
    assert delivered + [] == delivered && delivered <= frames;
  }

  class StreamConnection {
    const decode: bytes -> Option<Snapshot>
    const decoder: FrameDecoder
    var open: bool
    var connected: bool
    var inFrame: bool
    var retry: int
    var deadline: int
    var lastFrame: int
    var frameStarted: int
    var attempts: nat
    var byteCount: nat
    var reconnects: nat
    ghost var stream: bytes           // what this connection carried so far
    ghost var delivered: seq<bytes>   // the payloads decoded on this connection

    /** No byte survives a reconnect, and inFrame holds exactly when a frame has begun. */
    ghost predicate Valid() reads this, decoder {
      && decoder.Valid() && !decoder.Complete() && attempts <= 16
      && Deframe(stream) == Deframed(delivered, decoder.got, false)
      && (inFrame <==> decoder.got != [])
      && (!open ==> !connected) && (!connected ==> stream == [])
    }

    constructor (decode: bytes -> Option<Snapshot>)
      ensures Valid() && !open && fresh(decoder) && this.decode == decode
    {
      this.decode := decode;
      decoder := new FrameDecoder();
      open, connected, inFrame := false, false, false;
      retry, deadline, lastFrame, frameStarted := 0, 0, 0, 0;
      attempts, byteCount, reconnects := 0, 0, 0;
      stream, delivered := [], [];
    }

    /** random is what the generator drew; the delay is between half of the backoff and all of it. */
    method Disconnect(now: int, random: nat)
      requires attempts <= 16
      modifies this, decoder
      ensures Valid() && !open && byteCount == old(byteCount) && reconnects == old(reconnects) + 1
      ensures now + Backoff(old(attempts)) / 2 <= retry <= now + Backoff(old(attempts))
    {
      open := false;
      decoder.Reset();
      connected, inFrame := false, false;
      stream, delivered := [], [];
      var cap := Backoff(attempts);
      retry := now + cap / 2 + random % (cap - cap / 2 + 1);
      attempts := Min(attempts + 1, 16);
      reconnects := reconnects + 1;
    }

    /** After Tick no open connection is past one of its deadlines. */
    method Tick(now: int, result: ConnectResult, random: nat)
      requires Valid()
      modifies this, decoder
      ensures Valid()
      ensures old(open) && open ==> connected == old(connected) && inFrame == old(inFrame) && deadline == old(deadline)
                                    && frameStarted == old(frameStarted) && lastFrame == old(lastFrame)
      ensures old(open) && open ==> (connected || now < deadline)
                                    && (inFrame ==> now - frameStarted <= FRAME_TIMEOUT)
                                    && (connected ==> now - lastFrame <= IDLE_TIMEOUT)
                                    && stream == old(stream) && delivered == old(delivered)
      ensures old(open) && !open ==> (!old(connected) && now >= old(deadline))
                                     || (old(inFrame) && now - old(frameStarted) > FRAME_TIMEOUT)
                                     || (old(connected) && now - old(lastFrame) > IDLE_TIMEOUT)
      ensures !old(open) && now >= old(retry) ==> (open <==> !result.Refused?) && (connected <==> result.ConnectedNow?)
      ensures !old(open) && open ==> now >= old(retry) && stream == [] && deadline == now + CONNECT_TIMEOUT
                                     && lastFrame == now && !inFrame
      ensures !old(open) && now < old(retry) ==> !open && retry == old(retry)
    {
      if open {
        if !connected && now >= deadline {
          Disconnect(now, random);
        } else if inFrame && now - frameStarted > FRAME_TIMEOUT {
          Disconnect(now, random);
        } else if connected && now - lastFrame > IDLE_TIMEOUT {
          Disconnect(now, random);
        }
        return;
      }
      if now < retry {
        return;
      }
      if result.Refused? {
        Disconnect(now, random);
        return;
      }
      open, connected := true, result.ConnectedNow?;
      deadline, lastFrame := now + CONNECT_TIMEOUT, now;
    }

    /** The payload p was decoded: the decoder starts on the next frame. */
    method FrameDone(at: int, ghost p: bytes)
      requires Deframe(stream) == Deframed(delivered + [p], [], false) && open && connected
      modifies `delivered, `inFrame, `lastFrame, `attempts, decoder
      ensures Valid() && delivered == old(delivered) + [p] && attempts == 0
      ensures decoder.got == [] && lastFrame == at && frameStarted == old(frameStarted)
    {
      delivered := delivered + [p];
      decoder.Reset();
      inFrame, lastFrame, attempts := false, at, 0;
    }

    /** A complete frame in the decoder: decode it and hand it on. */
    method Deliver(app: ClientApp, at: int) returns (ok: bool, ghost got: seq<bytes>)
      requires decoder.Valid() && decoder.Complete() && app.Valid()
      requires Deframe(stream) == Deframed(delivered + [decoder.payload], [], false)
      requires attempts <= 16 && open && connected
      modifies `delivered, `inFrame, `lastFrame, `attempts, decoder, app
      ensures app.Valid() && attempts <= 16 && (ok <==> decode(old(decoder.payload)).Some?)
      ensures ok ==> Valid()
      ensures ok ==> decoder.got == [] && lastFrame == at && frameStarted == old(frameStarted) && attempts == 0
      ensures got == if ok then [old(decoder.payload)] else []
      ensures AllDecode(decode, got) && app.arrived == old(app.arrived) + Decoded(decode, got)
      ensures ok ==> delivered == old(delivered) + got
    {
      got := [];
      ghost var a, p, s, d := app.arrived, decoder.payload, stream, delivered;
      var snapshot := decode(decoder.payload);
      if snapshot.None? {
        assert a + Decoded(decode, got) == a;
        return false, got;
      }
      got := [p];
      assert AllDecode(decode, got) && Decoded(decode, got) == [snapshot.value] by {
        DecodedSnoc(decode, [], p);
      }
      app.Receive(snapshot.value);
      assert stream == s && delivered == d && app.arrived == a + [snapshot.value];
      FrameDone(at, p);
      assert app.arrived == a + [snapshot.value] && delivered == d + got;
      ok := true;
    }

    /** After Feed took the bytes x: stream is extended, and a complete frame is delivered. */
    method Took(x: bytes, app: ClientApp, at: int, ghost held: bytes) returns (ok: bool, ghost got: seq<bytes>)
      requires decoder.Valid() && decoder.got == held + x && x != [] && inFrame && app.Valid()
      requires attempts <= 16 && open && connected && Deframe(stream) == Deframed(delivered, held, false)
      modifies `stream, `delivered, `inFrame, `lastFrame, `attempts, decoder, app
      ensures app.Valid() && attempts <= 16 && stream == old(stream) + x
      ensures AllDecode(decode, got) && app.arrived == old(app.arrived) + Decoded(decode, got)
      ensures ok ==> Valid() && delivered == old(delivered) + got
      ensures ok && got == [] ==> decoder.got == held + x && lastFrame == old(lastFrame) && attempts == old(attempts)
      ensures ok && got != [] ==> decoder.got == [] && lastFrame == at && attempts == 0
      ensures ok ==> frameStarted == old(frameStarted)
      ensures !ok ==> got == [] && exists p {:trigger decode(p)} ::
                                     Deframe(stream) == Deframed(old(delivered) + [p], [], false) && decode(p).None?
    {
      ok, got := true, [];
      HeldFrame(decoder);
      if decoder.Complete() {
        FrameEnds(stream, delivered, held, x, decoder.payload);
        stream := stream + x;
        ok, got := Deliver(app, at);
      } else {
        FrameGrows(stream, delivered, held, x);
        stream := stream + x;
      }
    }

    /** One turn of the inner loop: Feed, and the frame if it is complete. */
    method FeedTurn(input: bytes, app: ClientApp, at: int) returns (consumed: nat, ok: bool, ghost got: seq<bytes>)
      requires Valid() && open && connected && input != [] && app.Valid()
      modifies `stream, `delivered, `inFrame, `frameStarted, `lastFrame, `attempts, decoder, app
      ensures consumed <= |input| && app.Valid() && attempts <= 16
      ensures AllDecode(decode, got) && app.arrived == old(app.arrived) + Decoded(decode, got)
      ensures ok ==> Valid() && consumed > 0
      ensures ok ==> stream == old(stream) + input[..consumed] && delivered == old(delivered) + got
      ensures ok ==> ChunkClocks(consumed, |decoder.got|, got, at, |old(decoder.got)|, old(lastFrame),
                                 old(frameStarted), lastFrame, frameStarted)
      ensures ok ==> attempts == if got == [] then old(attempts) else 0
      ensures !ok ==> Delivery(decode, old(delivered), got, old(stream) + input, false)
    {
      got := [];
      if !inFrame {
        inFrame, frameStarted := true, at;
      }
      ghost var s, d, held := stream, delivered, decoder.got;
      consumed, ok := decoder.Feed(input);
      if !ok {
        BadLength(decode, s, d, held, input);
      } else {
        ok, got := Took(input[..consumed], app, at, held);
        if !ok {
          Undecodable(decode, s, d, input, consumed);
        }
      }
    }

    /** One turn at offset i of a chunk; s, d and a are what Drain started with, before is what it delivered. */
    method DrainTurn(chunk: bytes, i: nat, app: ClientApp, at: int, ghost s: bytes, ghost d: seq<bytes>,
                     ghost a: seq<Snapshot>, ghost before: seq<bytes>, ghost h0: nat, ghost l0: int, ghost f0: int)
      returns (next: nat, ok: bool, ghost got: seq<bytes>)
      requires Valid() && open && connected && app.Valid() && i < |chunk|
      requires stream == s + chunk[..i] && delivered == d + before
      requires AllDecode(decode, before) && app.arrived == a + Decoded(decode, before)
      requires ChunkClocks(i, |decoder.got|, before, at, h0, l0, f0, lastFrame, frameStarted)
      modifies `stream, `delivered, `inFrame, `frameStarted, `lastFrame, `attempts, decoder, app
      ensures i <= next <= |chunk| && app.Valid() && attempts <= 16
      ensures AllDecode(decode, got) && app.arrived == a + Decoded(decode, got)
      ensures ok ==> i < next && Valid() && stream == s + chunk[..next] && delivered == d + got
      ensures ok ==> ChunkClocks(next, |decoder.got|, got, at, h0, l0, f0, lastFrame, frameStarted)
      ensures ok ==> before <= got && attempts == if got == before then old(attempts) else 0
      ensures !ok ==> Delivery(decode, d, got, s + chunk, false)
    {
      var consumed;
      ghost var more;
      ghost var held, l, f := |decoder.got|, lastFrame, frameStarted;
      consumed, ok, more := FeedTurn(chunk[i..], app, at);
      if ok {
        ChunkOn(i, held, before, at, h0, l0, f0, l, f, consumed, |decoder.got|, more, lastFrame, frameStarted);
      }
      DrainMore(decode, s, d, a, chunk, i, consumed, before, more, ok);
      got := before + more;
      next := i + consumed;
    }

    /** Everything one recv returned is fed to the decoder, turn by turn. */
    method DrainLoop(chunk: bytes, app: ClientApp, at: int) returns (ok: bool, ghost got: seq<bytes>)
      requires Valid() && open && connected && app.Valid()
      requires stream == stream + chunk[..0] && delivered == delivered + [] && AllDecode(decode, [])
      requires app.arrived == app.arrived + Decoded(decode, []) && chunk[..|chunk|] == chunk
      modifies `stream, `delivered, `inFrame, `frameStarted, `lastFrame, `attempts, decoder, app
      ensures app.Valid() && attempts <= 16
      ensures AllDecode(decode, got) && app.arrived == old(app.arrived) + Decoded(decode, got)
      ensures !ok ==> Delivery(decode, old(delivered), got, old(stream) + chunk, false)
      ensures ok ==> Valid() && stream == old(stream) + chunk && delivered == old(delivered) + got
      ensures ok ==> ChunkClocks(|chunk|, |decoder.got|, got, at, |old(decoder.got)|, old(lastFrame),
                                 old(frameStarted), lastFrame, frameStarted)
      ensures ok ==> attempts == if got == [] then old(attempts) else 0
    {
      ok, got := true, [];
      var offset := 0;
      ghost var s, d, a := stream, delivered, app.arrived;
      ghost var h0, l0, f0 := |decoder.got|, lastFrame, frameStarted;
      while offset < |chunk|
        invariant offset <= |chunk| && ok && Valid() && open && connected && app.Valid()
        invariant AllDecode(decode, got) && app.arrived == a + Decoded(decode, got)
        invariant stream == s + chunk[..offset] && delivered == d + got
        invariant ChunkClocks(offset, |decoder.got|, got, at, h0, l0, f0, lastFrame, frameStarted)
        invariant attempts == if got == [] then old(attempts) else 0
        decreases |chunk| - offset
      {
        offset, ok, got := DrainTurn(chunk, offset, app, at, s, d, a, got, h0, l0, f0);
        if !ok {
          return;
        }
      }
    }

    /** A bad frame ends the connection; the application keeps what it has. */
    method Abandon(app: ClientApp, at: int, random: nat)
      requires attempts <= 16 && app.Valid()
      modifies this, decoder
      ensures Valid() && !open && byteCount == old(byteCount)
      ensures app.Valid() && app.arrived == old(app.arrived)
    {
      Disconnect(at, random);
    }

    /** The chunk up to its first bad frame, which ends the connection. */
    method DrainChunk(chunk: bytes, app: ClientApp, at: int, random: nat) returns (ok: bool, ghost got: seq<bytes>)
      requires Valid() && open && connected && app.Valid()
      requires stream == stream + chunk[..0] && delivered == delivered + [] && AllDecode(decode, [])
      requires app.arrived == app.arrived + Decoded(decode, []) && chunk[..|chunk|] == chunk
      modifies this, decoder, app
      ensures Valid() && app.Valid() && byteCount == old(byteCount)
      ensures AllDecode(decode, got) && app.arrived == old(app.arrived) + Decoded(decode, got)
      ensures Delivery(decode, old(delivered), got, old(stream) + chunk, ok)
      ensures ok ==> open && connected && stream == old(stream) + chunk && delivered == old(delivered) + got
      ensures ok ==> deadline == old(deadline)
      ensures !ok ==> !open
      ensures ok ==> ChunkClocks(|chunk|, |decoder.got|, got, at, |old(decoder.got)|, old(lastFrame),
                                 old(frameStarted), lastFrame, frameStarted)
      ensures ok ==> attempts == if got == [] then old(attempts) else 0
    {
      ghost var s, d := stream, delivered;
      ok, got := DrainLoop(chunk, app, at);
      if ok {
        AllWhole(decode, d, got, s + chunk, decoder.got);
      } else {
        Abandon(app, at, random);
      }
    }

    /** The inner loop of Handle on what one recv returned; a bad frame in it ends the connection. */
    method Drain(chunk: bytes, app: ClientApp, at: int, random: nat) returns (ok: bool, ghost got: seq<bytes>)
      requires Valid() && open && connected && app.Valid()
      modifies this, decoder, app
      ensures Valid() && app.Valid() && byteCount == old(byteCount) + |chunk|
      ensures AllDecode(decode, got) && app.arrived == old(app.arrived) + Decoded(decode, got)
      ensures Delivery(decode, old(delivered), got, old(stream) + chunk, ok)
      ensures ok ==> open && connected && stream == old(stream) + chunk && delivered == old(delivered) + got
      ensures ok ==> deadline == old(deadline)
      ensures !ok ==> !open
      ensures ok ==> ChunkClocks(|chunk|, |decoder.got|, got, at, |old(decoder.got)|, old(lastFrame),
                                 old(frameStarted), lastFrame, frameStarted)
      ensures ok ==> attempts == if got == [] then old(attempts) else 0
    {
      NothingYet(decode, stream, delivered, app.arrived, decoder.got);
      assert stream + chunk[..0] == stream && chunk[..|chunk|] == chunk;
      ok, got := DrainChunk(chunk, app, at, random);
      byteCount := byteCount + |chunk|;
    }

    /** What one recv returned, after what was taken since s, d and a: it ends the connection, or is all used. */
    method ReadChunk(chunk: bytes, at: int, app: ClientApp, random: nat,
                     ghost s: bytes, ghost d: seq<bytes>, ghost a: seq<Snapshot>, ghost taken: bytes,
                     ghost before: seq<bytes>)
      returns (ok: bool, ghost got: seq<bytes>)
      requires Valid() && open && connected && app.Valid()
      requires stream == s + taken && delivered == d + before
      requires AllDecode(decode, before) && app.arrived == a + Decoded(decode, before)
      modifies this, decoder, app
      ensures Valid() && app.Valid() && byteCount == old(byteCount) + |chunk|
      ensures AllDecode(decode, got) && app.arrived == a + Decoded(decode, got)
      ensures Delivery(decode, d, got, s + (taken + chunk), ok)
      ensures ok ==> open && connected && stream == s + (taken + chunk) && delivered == d + got
      ensures !ok ==> !open
      ensures ok ==> before <= got && ChunkClocks(|chunk|, |decoder.got|, got[|before|..], at, |old(decoder.got)|,
                                                  old(lastFrame), old(frameStarted), lastFrame, frameStarted)
      ensures ok ==> deadline == old(deadline)
      ensures ok ==> attempts == if got == before then old(attempts) else 0
    {
      ghost var more;
      ok, more := Drain(chunk, app, at, random);
      got := before + more;
      ReadMore(decode, s, d, a, taken, before, chunk, more, ok);
      assert got[|before|..] == more;
    }

    /** One turn of the read loop that returns data; l0, f0 and a0 are the clocks and attempts it started with. */
    method TakeChunk(recvs: seq<RecvResult>, turn: nat, app: ClientApp, random: nat, ghost s: bytes,
                     ghost d: seq<bytes>, ghost a: seq<Snapshot>, ghost taken: bytes, ghost before: seq<bytes>,
                     ghost l0: int, ghost f0: int, ghost a0: nat, ghost upTo: (bytes, nat) -> bool,
                     ghost clock: nat -> int, ghost whole: bytes, ghost ends: bool)
      returns (ok: bool, ghost all: bytes, ghost got: seq<bytes>)
      requires Valid() && open && connected && app.Valid() && turn < MAX_READS
      requires RecvAt(recvs, turn).Data? && RecvAt(recvs, turn).data != []
      requires stream == s + taken && delivered == d + before
      requires AllDecode(decode, before) && app.arrived == a + Decoded(decode, before)
      requires upTo(taken, turn) && ReadsOn(upTo, recvs, clock, whole, ends)
      requires FrameClocks(clock, |taken|, |decoder.got|, before, l0, f0, lastFrame, frameStarted)
      requires attempts == if before == [] then a0 else 0
      modifies this, decoder, app
      ensures Valid() && app.Valid() && all == taken + Chunk(RecvAt(recvs, turn).data)
      ensures byteCount == old(byteCount) + |all| - |taken|
      ensures AllDecode(decode, got) && app.arrived == a + Decoded(decode, got)
      ensures Delivery(decode, d, got, s + all, ok) && all <= whole && upTo(all, turn + 1)
      ensures ok ==> open && connected && stream == s + all && delivered == d + got && deadline == old(deadline)
      ensures ok ==> FrameClocks(clock, |all|, |decoder.got|, got, l0, f0, lastFrame, frameStarted)
      ensures ok ==> attempts == if got == [] then a0 else 0
      ensures !ok ==> !open
    {
      var result := recvs[turn];
      assert ReadStep(upTo, recvs, clock, whole, ends, taken, turn);
      var chunk := if |result.data| > READ_BUFFER then result.data[..READ_BUFFER] else result.data;
      all := taken + chunk;
      ghost var held, l, f := |decoder.got|, lastFrame, frameStarted;
      ok, got := ReadChunk(chunk, result.at, app, random, s, d, a, taken, before);
      if ok {
        assert before + got[|before|..] == got;
        ClocksOn(clock, taken, chunk, result.at, held, before, l0, f0, l, f, |decoder.got|, got[|before|..], lastFrame,
                 frameStarted);
      }
    }

    /** A turn of the read loop: it goes on, or everything the socket returns was read, or data ends the connection. */
    method ReadTurn(recvs: seq<RecvResult>, turn: nat, app: ClientApp, random: nat, ghost s: bytes, ghost d: seq<bytes>,
                    ghost a: seq<Snapshot>, ghost taken: bytes, ghost before: seq<bytes>, ghost l0: int,
                    ghost f0: int, ghost a0: nat, ghost upTo: (bytes, nat) -> bool, ghost clock: nat -> int,
                    ghost whole: bytes, ghost ends: bool)
      returns (more: bool, ghost all: bytes, ghost got: seq<bytes>, ghost clean: bool)
      requires Valid() && open && connected && app.Valid() && turn < MAX_READS
      requires stream == s + taken && delivered == d + before && Delivery(decode, d, before, s + taken, true)
      requires AllDecode(decode, before) && app.arrived == a + Decoded(decode, before)
      requires upTo(taken, turn) && ReadsOn(upTo, recvs, clock, whole, ends)
      requires FrameClocks(clock, |taken|, |decoder.got|, before, l0, f0, lastFrame, frameStarted)
      requires attempts == if before == [] then a0 else 0
      modifies this, decoder, app
      ensures Valid() && app.Valid() && byteCount == old(byteCount) + |all| - |taken|
      ensures AllDecode(decode, got) && app.arrived == a + Decoded(decode, got)
      ensures Delivery(decode, d, got, s + all, clean) && all <= whole && (clean && !more ==> all == whole)
      ensures more ==> clean && open && upTo(all, turn + 1)
      ensures !more ==> (open <==> clean && !ends)
      ensures open ==> connected && stream == s + all && delivered == d + got && deadline == old(deadline)
      ensures open ==> FrameClocks(clock, |all|, |decoder.got|, got, l0, f0, lastFrame, frameStarted)
      ensures open ==> attempts == if got == [] then a0 else 0
    {
      more, all, got, clean := false, taken, before, true;
      var result := RecvAt(recvs, turn);
      assert ReadStep(upTo, recvs, clock, whole, ends, taken, turn);
      if result.Interrupted? {
        return true, all, got, clean;
      }
      if result.WouldBlock? {
        return;
      }
      if result.Failed? || result.data == [] {
        Disconnect(result.at, random);
        return;
      }
      more, all, got := TakeChunk(recvs, turn, app, random, s, d, a, taken, before, l0, f0, a0, upTo, clock, whole,
                                  ends);
      clean := more;
    }

    /**
     * The read loop of Handle: everything the socket returns is read, unless data ends the connection
     * before (then clean is false). upTo, clock, whole and ends describe what the socket returns.
     */
    method ReadLoop(recvs: seq<RecvResult>, app: ClientApp, random: nat, ghost upTo: (bytes, nat) -> bool,
                    ghost clock: nat -> int, ghost whole: bytes, ghost ends: bool)
      returns (ghost taken: bytes, ghost got: seq<bytes>, ghost clean: bool)
      requires Valid() && open && connected && app.Valid()
      requires stream + [] == stream && delivered + [] == delivered && AllDecode(decode, [])
      requires app.arrived + Decoded(decode, []) == app.arrived && Delivery(decode, delivered, [], stream + [], true)
      requires upTo([], 0) && ReadsOn(upTo, recvs, clock, whole, ends)
      modifies this, decoder, app
      ensures Valid() && app.Valid()
      ensures AllDecode(decode, got) && app.arrived == old(app.arrived) + Decoded(decode, got)
      ensures Delivery(decode, old(delivered), got, old(stream) + taken, clean)
      ensures open <==> clean && !ends
      ensures open ==> stream == old(stream) + taken && delivered == old(delivered) + got
      ensures taken <= whole && (clean ==> taken == whole)
      ensures byteCount == old(byteCount) + |taken|
      ensures open ==> deadline == old(deadline) && connected && attempts == if got == [] then old(attempts) else 0
      ensures open ==> FrameClocks(clock, |taken|, |decoder.got|, got, old(lastFrame), old(frameStarted), lastFrame,
                                   frameStarted)
    {
      taken, got, clean := [], [], true;
      ghost var s, d, a, l0, f0, a0 := stream, delivered, app.arrived, lastFrame, frameStarted, attempts;
      for turn := 0 to MAX_READS
        invariant Valid() && open && connected && app.Valid() && clean
        invariant AllDecode(decode, got) && app.arrived == a + Decoded(decode, got)
        invariant stream == s + taken && delivered == d + got && byteCount == old(byteCount) + |taken|
        invariant upTo(taken, turn) && Delivery(decode, d, got, s + taken, true)
        invariant deadline == old(deadline) && attempts == if got == [] then a0 else 0
        invariant FrameClocks(clock, |taken|, |decoder.got|, got, l0, f0, lastFrame, frameStarted)
      {
        var more;
        more, taken, got, clean := ReadTurn(recvs, turn, app, random, s, d, a, taken, got, l0, f0, a0, upTo, clock,
                                            whole, ends);
        if !more {
          return;
        }
      }
    }

    method ReadAll(recvs: seq<RecvResult>, app: ClientApp, random: nat)
      returns (ghost taken: bytes, ghost got: seq<bytes>, ghost clean: bool)
      requires Valid() && open && connected && app.Valid()
      modifies this, decoder, app
      ensures Valid() && app.Valid()
      ensures AllDecode(decode, got) && app.arrived == old(app.arrived) + Decoded(decode, got)
      ensures Delivery(decode, old(delivered), got, old(stream) + taken, clean)
      ensures open <==> clean && !Ends(recvs, 0)
      ensures open ==> stream == old(stream) + taken && delivered == old(delivered) + got
      ensures taken <= Intake(recvs, 0) && (clean ==> taken == Intake(recvs, 0))
      ensures byteCount == old(byteCount) + |taken|
      ensures open ==> deadline == old(deadline) && connected && attempts == if got == [] then old(attempts) else 0
      ensures open ==> FrameClocks(Clocks(recvs), |taken|, |decoder.got|, got, old(lastFrame), old(frameStarted),
                                   lastFrame, frameStarted)
    {
      ghost var upTo := Reader(recvs);
      NothingYet(decode, stream, delivered, app.arrived, decoder.got);
      taken, got, clean := ReadLoop(recvs, app, random, upTo, Clocks(recvs), Intake(recvs, 0), Ends(recvs, 0));
    }

    /**
     * The part of Handle before the read loop: connects tells whether a pending connect succeeded, and at is
     * the clock then. It goes on with a connection that is established.
     */
    method Ready(e: Poll, connects: bool, at: int, random: nat) returns (ready: bool)
      requires Valid() && open
      modifies this, decoder
      ensures Valid() && byteCount == old(byteCount)
      ensures ready <==> !e.invalid && (old(connected) || (connects && (e.writable || e.error || e.hangup)))
      ensures open <==> !e.invalid && (old(connected) || connects || !(e.writable || e.error || e.hangup))
      ensures open ==> (connected <==> ready) && stream == old(stream) && delivered == old(delivered)
                       && decoder.got == old(decoder.got) && attempts == old(attempts) && deadline == old(deadline)
                       && frameStarted == old(frameStarted)
                       && lastFrame == if connected && !old(connected) then at else old(lastFrame)
    {
      if e.invalid {
        Disconnect(at, random);
        return false;
      }
      if !connected {
        if !(e.writable || e.error || e.hangup) {
          return false;
        }
        if !connects {
          Disconnect(at, random);
          return false;
        }
        connected, lastFrame := true, at;
      }
      ready := true;
    }

    /** One poll event: a pending connect is finished, and then everything the socket returns is read. */
    method Handle(e: Poll, connects: bool, at: int, recvs: seq<RecvResult>, app: ClientApp, random: nat)
      returns (ghost taken: bytes, ghost got: seq<bytes>, ghost clean: bool)
      requires Valid() && app.Valid()
      modifies this, decoder, app
      ensures Valid() && app.Valid() && (old(!open) ==> !open && taken == [] && got == [])
      ensures AllDecode(decode, got) && app.arrived == old(app.arrived) + Decoded(decode, got)
      ensures Delivery(decode, old(delivered), got, old(stream) + taken, clean)
      ensures open ==> clean && stream == old(stream) + taken && delivered == old(delivered) + got
      ensures taken <= Intake(recvs, 0)
      ensures old(open && connected) && !e.invalid && (e.readable || e.hangup || e.error) ==>
                (open <==> clean && !Ends(recvs, 0)) && (clean ==> taken == Intake(recvs, 0))
      ensures byteCount == old(byteCount) + |taken|
      ensures old(open && connected) && !e.invalid && !(e.readable || e.hangup || e.error) ==>
                open && connected && taken == []
      ensures old(open && !connected) && !e.invalid && !(e.writable || e.error || e.hangup) ==>
                open && !connected && taken == [] && lastFrame == old(lastFrame)
      ensures old(open && !connected) && !e.invalid && (e.writable || e.error || e.hangup) && connects ==>
                if e.readable || e.hangup || e.error
                then
                  && (open <==> clean && !Ends(recvs, 0)) && (open ==> connected)
                  && (clean ==> taken == Intake(recvs, 0))
                else open && connected && taken == [] && lastFrame == at
      ensures open ==> attempts == (if got == [] then old(attempts) else 0) && deadline == old(deadline)
      ensures open ==> FrameClocks(Clocks(recvs), |taken|, |decoder.got|, got,
                                   if connected && !old(connected) then at else old(lastFrame), old(frameStarted),
                                   lastFrame, frameStarted)
      ensures old(open && !connected) && (e.invalid || (!connects && (e.writable || e.error || e.hangup))) ==> !open
    {
      taken, got, clean := [], [], true;
      NothingYet(decode, stream, delivered, app.arrived, decoder.got);
      if !open {
        return;
      }
      var ready := Ready(e, connects, at, random);
      if ready && (e.readable || e.hangup || e.error) {
        taken, got, clean := ReadAll(recvs, app, random);
      }
    }

    // ----- Runs over many connections -----

    /** The application has heard what the connections in past and the open one delivered, and nothing else. */
    ghost predicate Told(app: ClientApp, past: seq<Connection>)
      reads this, app
    {
      && AllDelivered(decode, past) && Delivery(decode, [], delivered, stream, true)
      && app.arrived == Heard(decode, past) + Decoded(decode, delivered)
    }

    /** A connection is over: what it delivered joins the past. */
    ghost method Close(app: ClientApp, past: seq<Connection>, c: Connection) returns (all: seq<Connection>)
      requires Valid() && !open && AllDelivered(decode, past)
      requires Delivery(decode, [], c.got, c.stream, c.clean)
      requires app.arrived == Heard(decode, past) + Decoded(decode, c.got)
      ensures Told(app, all) && all == past + [c]
    {
      all := past + [c];
      HeardSnoc(decode, past, c);
      assert Heard(decode, all) + [] == Heard(decode, all);
    }

    method TickOn(step: Step, app: ClientApp, ghost past: seq<Connection>) returns (ghost all: seq<Connection>)
      requires Valid() && app.Valid() && Told(app, past) && step.TickStep?
      modifies this, decoder
      ensures Valid() && app.Valid() && Told(app, all) && past <= all
    {
      ghost var s, d, was := stream, delivered, open;
      Tick(step.now, step.result, step.random);
      all := past;
      if was && !open {
        all := Close(app, past, Connection(s, d, true));
      }
    }

    method HandleOn(step: Step, app: ClientApp, ghost past: seq<Connection>) returns (ghost all: seq<Connection>)
      requires Valid() && app.Valid() && Told(app, past) && step.HandleStep?
      modifies this, decoder, app
      ensures Valid() && app.Valid() && Told(app, all) && past <= all
    {
      ghost var s, d, was := stream, delivered, open;
      ghost var taken, got, clean := Handle(step.poll, step.connects, step.at, step.recvs, app, step.random);
      DeliveredOn(decode, Heard(decode, past), d, s, got, taken, clean);
      all := past;
      if was && !open {
        all := Close(app, past, Connection(s + taken, d + got, clean));
      }
    }

    /**
     * Any number of ticks and polls, over any number of connections: the application hears what each of them
     * delivered, one connection after the other, and nothing of one gets into another.
     */
    method Run(steps: seq<Step>, app: ClientApp) returns (ghost past: seq<Connection>)
      requires Valid() && app.Valid() && !open && app.arrived == []
      modifies this, decoder, app
      ensures Valid() && app.Valid() && Told(app, past)
    {
      past := [];
      for i := 0 to |steps|
        invariant Valid() && app.Valid() && Told(app, past)
      {
        if steps[i].TickStep? {
          past := TickOn(steps[i], app, past);
        } else {
          past := HandleOn(steps[i], app, past);
        }
      }
    }
  }

  /** One more chunk after those taken so far. */
  lemma ReadMore(decode: bytes -> Option<Snapshot>, s: bytes, d: seq<bytes>, a: seq<Snapshot>, taken: bytes,
                 got: seq<bytes>,
                 chunk: bytes, more: seq<bytes>, ok: bool)
    requires AllDecode(decode, got) && Delivery(decode, d + got, more, s + taken + chunk, ok)
    ensures s + taken + chunk == s + (taken + chunk) && (d + got) + more == d + (got + more)
    ensures AllDecode(decode, got + more)
    ensures a + Decoded(decode, got) + Decoded(decode, more) == a + Decoded(decode, got + more)
    ensures Delivery(decode, d, got + more, s + (taken + chunk), ok)
  {
    Glue(s, taken, chunk);
    Glue(d, got, more);
    DecodedAppend(decode, got, more);
    Glue(a, Decoded(decode, got), Decoded(decode, more));
    DeliveryJoin(decode, d, got, more, s + taken + chunk, ok);
  }

  lemma Slices(s: bytes, chunk: bytes, i: nat, n: nat)
    requires i + n <= |chunk|
    ensures s + chunk[..i] + chunk[i..] == s + chunk
    ensures s + chunk[..i] + chunk[i..][..n] == s + chunk[..i + n]
  {
  }

  /** One more frame, or part of one, of a chunk. */
  lemma DrainMore(decode: bytes -> Option<Snapshot>, s: bytes, d: seq<bytes>, a: seq<Snapshot>, chunk: bytes, i: nat,
                  n: nat,
                  got: seq<bytes>, more: seq<bytes>, ok: bool)
    requires i + n <= |chunk| && AllDecode(decode, got) && AllDecode(decode, more)
    requires !ok ==> Delivery(decode, d + got, more, s + chunk[..i] + chunk[i..], false)
    ensures s + chunk[..i] + chunk[i..][..n] == s + chunk[..i + n] && (d + got) + more == d + (got + more)
    ensures AllDecode(decode, got + more)
    ensures a + Decoded(decode, got) + Decoded(decode, more) == a + Decoded(decode, got + more)
    ensures !ok ==> Delivery(decode, d, got + more, s + chunk, false)
  {
    Slices(s, chunk, i, n);
    Glue(d, got, more);
    DecodedAppend(decode, got, more);
    Glue(a, Decoded(decode, got), Decoded(decode, more));
    if !ok {
      DeliveryJoin(decode, d, got, more, s + chunk, false);
    }
  }
}
