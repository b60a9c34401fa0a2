/** The arithmetic on kernel counters: rates, and the busy share of a CPU. Doubles are modelled as reals. */
module Samples {
  import opened Bytes

  /** user, nice, system, idle, iowait, irq, softirq, steal. */
  type CpuTimes = s: seq<nat> | |s| == 8 witness [0, 0, 0, 0, 0, 0, 0, 0]

  /** A counter that went back, or an interval that is not positive, has no rate. */
  function CounterRate(now: nat, previous: nat, seconds: real): (r: Option<real>)
    ensures r.Some? <==> now >= previous && seconds > 0.0
    ensures r.Some? ==> r.value >= 0.0 && r.value * seconds == (now - previous) as real
  {
    if now < previous || seconds <= 0.0 then None else Some((now - previous) as real / seconds)
  }

  /** No counter of now is below its previous value. */
  predicate NoReset(now: CpuTimes, previous: CpuTimes) { forall i :: 0 <= i < 8 ==> now[i] >= previous[i] }

  function Delta(now: CpuTimes, previous: CpuTimes, i: nat): int
    requires i < 8
  {
    now[i] as int - previous[i]
  }

  function Elapsed(now: CpuTimes, previous: CpuTimes, n: nat): int
    requires n <= 8
  {
    if n == 0 then 0 else Elapsed(now, previous, n - 1) + Delta(now, previous, n - 1)
  }

  /** The time that was idle or waiting for I/O. */
  function IdleOf(now: CpuTimes, previous: CpuTimes): int {
    Delta(now, previous, 3) + Delta(now, previous, 4)
  }

  lemma {:induction false} ElapsedCovers(now: CpuTimes, previous: CpuTimes, n: nat)
    requires NoReset(now, previous) && n <= 8
    ensures Elapsed(now, previous, n) >= 0
    ensures n >= 5 ==> Elapsed(now, previous, n) >= IdleOf(now, previous) >= 0
  {
    if n > 0 {
      ElapsedCovers(now, previous, n - 1);
    }
    if n == 5 {
      ElapsedCovers(now, previous, 3);
    }
  }

  lemma ElapsedIsSum(now: CpuTimes, previous: CpuTimes)
    ensures Elapsed(now, previous, 8)
            == Delta(now, previous, 0) + Delta(now, previous, 1) + Delta(now, previous, 2) + Delta(now, previous, 3)
               + Delta(now, previous, 4) + Delta(now, previous, 5) + Delta(now, previous, 6) + Delta(now, previous, 7)
  {
    assert Elapsed(now, previous, 1) == Delta(now, previous, 0);
    assert Elapsed(now, previous, 2) == Elapsed(now, previous, 1) + Delta(now, previous, 1);
    assert Elapsed(now, previous, 4) == Elapsed(now, previous, 2) + Delta(now, previous, 2) + Delta(now, previous, 3);
    assert Elapsed(now, previous, 6) == Elapsed(now, previous, 4) + Delta(now, previous, 4) + Delta(now, previous, 5);
    assert Elapsed(now, previous, 8) == Elapsed(now, previous, 6) + Delta(now, previous, 6) + Delta(now, previous, 7);
  }

  function UsageOf(now: CpuTimes, previous: CpuTimes): Option<real> {
    var total := Elapsed(now, previous, 8);
    if NoReset(now, previous) && total > 0 then Some(100.0 * (total - IdleOf(now, previous)) as real / total as real)
    else None
  }

  lemma Cancel(x: real, y: real, t: real)
    requires t > 0.0
    ensures x * t <= y * t ==> x <= y
    ensures x * t == y * t ==> x == y
  {
    assert x * t / t == x && y * t / t == y;
  }

  lemma Share(part: real, whole: real)
    requires 0.0 <= part <= whole && whole > 0.0
    ensures 0.0 <= 100.0 * part / whole <= 100.0
    ensures 100.0 * part / whole * whole == 100.0 * part
  {
    var q := 100.0 * part / whole;
    assert q * whole == 100.0 * part;
    Cancel(q, 100.0, whole);
    Cancel(0.0, q, whole);
  }

  /**
   * The usage is the share of the elapsed time that was spent in user, nice, system, irq, softirq and steal,
   * in percent; it exists exactly when no counter went back and some time elapsed.
   */
  lemma UsageIsShare(now: CpuTimes, previous: CpuTimes)
    ensures var total, idle, r := Elapsed(now, previous, 8), IdleOf(now, previous), UsageOf(now, previous);
            && (r.Some? <==> NoReset(now, previous) && total > 0)
            && (r.Some? ==> 0.0 <= r.value <= 100.0 && r.value * total as real == 100.0 * (total - idle) as real)
            && (r == Some(0.0) <==> NoReset(now, previous) && total == idle > 0)
            && total - idle == Delta(now, previous, 0) + Delta(now, previous, 1) + Delta(now, previous, 2)
                               + Delta(now, previous, 5) + Delta(now, previous, 6) + Delta(now, previous, 7)
  {
    var total, idle := Elapsed(now, previous, 8), IdleOf(now, previous);
    ElapsedIsSum(now, previous);
    if NoReset(now, previous) && total > 0 {
      ElapsedCovers(now, previous, 8);
      Share((total - idle) as real, total as real);
      Cancel(UsageOf(now, previous).value, 0.0, total as real);
    }
  }

  method CpuUsage(now: CpuTimes, previous: CpuTimes) returns (r: Option<real>)
    ensures r == UsageOf(now, previous)
  {
    var total: int, idle: int := 0, 0;
    for i := 0 to 8
      invariant forall k :: 0 <= k < i ==> now[k] >= previous[k]
      invariant total == Elapsed(now, previous, i)
      invariant idle == (if i > 3 then now[3] as int - previous[3] else 0)
                        + (if i > 4 then now[4] as int - previous[4] else 0)
    {
      if now[i] < previous[i] {
        return None;
      }
      total := total + (now[i] as int - previous[i]);
      if i == 3 || i == 4 {
        idle := idle + (now[i] as int - previous[i]);
      }
    }
    if total <= 0 {
      return None;
    }
    r := Some(100.0 * (total - idle) as real / total as real);
  }
}
