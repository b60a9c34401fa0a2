/** The scheduler profiler: time from enqueue to switch-in, by task, in a histogram of powers of two. */
module RunQueue {
  import opened Bytes

  const BUCKETS: nat := 64

  function Pow2(n: nat): (r: nat)
    ensures r > 0
  {
    if n == 0 then 1 else 2 * Pow2(n - 1)
  }

  lemma {:induction false} Pow2Monotone(a: nat, b: nat)
    requires a <= b
    ensures Pow2(a) <= Pow2(b)
    decreases b
  {
    if a < b {
      Pow2Monotone(a, b - 1);
    }
  }

  /** The bucket of a duration: the position of its highest bit. */
  predicate InBucket(us: nat, b: nat) { if us == 0 then b == 0 else Pow2(b) <= us < Pow2(b + 1) }

  lemma BucketUnique(us: nat, a: nat, b: nat)
    requires InBucket(us, a) && InBucket(us, b)
    ensures a == b
  {
    if us > 0 && a < b {
      Pow2Monotone(a + 1, b);
    } else if us > 0 && b < a {
      Pow2Monotone(b + 1, a);
    }
  }

  lemma Pow2Of64()
    ensures Pow2(64) == 0x1_0000_0000_0000_0000
  {
    assert Pow2(4) == 16;
    Pow2Sum(4, 4);
    Pow2Sum(8, 8);
    Pow2Sum(16, 16);
    Pow2Sum(32, 32);
  }

  lemma {:induction false} Pow2Sum(a: nat, b: nat)
    ensures Pow2(a + b) == Pow2(a) * Pow2(b)
    decreases b
  {
    if b > 0 {
      Pow2Sum(a, b - 1);
      assert a + b - 1 == a + (b - 1);
    }
  }

  lemma ShiftedOut(us: nat, power: nat)
    requires power > 0
    ensures us / power != 0 <==> us >= power
  {
    var q := us / power;
    assert us == q * power + us % power;
    if q > 0 {
      assert q * power >= power;
    }
  }

  /** The unrolled loop of on_switch; a shift by bit is a division by 2^bit. */
  method BucketOf(us: nat) returns (bucket: nat)
    requires us < 0x1_0000_0000_0000_0000
    ensures bucket < BUCKETS && InBucket(us, bucket)
  {
    bucket := 0;
    assert us < Pow2(BUCKETS) by {
      Pow2Of64();
    }
    for bit := 1 to BUCKETS
      invariant bucket < bit
      invariant bucket == 0 || Pow2(bucket) <= us
      invariant us < Pow2(bucket + 1) || us >= Pow2(bit)
    {
      ShiftedOut(us, Pow2(bit));
      if us / Pow2(bit) != 0 {
        bucket := bit;
      }
    }
  }

  function Sum(s: seq<nat>): nat { if s == [] then 0 else Sum(s[..|s| - 1]) + s[|s| - 1] }

  lemma {:induction false} SumIncrement(s: seq<nat>, i: nat)
    requires i < |s|
    ensures Sum(s[i := s[i] + 1]) == Sum(s) + 1
  {
    var t := s[i := s[i] + 1];
    if i < |s| - 1 {
      SumIncrement(s[..|s| - 1], i);
      assert t[..|t| - 1] == s[..|s| - 1][i := s[i] + 1];
    } else {
      assert t[..|t| - 1] == s[..|s| - 1];
    }
  }

  lemma {:induction false} SumOfZeros(n: nat)
    ensures Sum(seq(n, _ => 0)) == 0
  {
    if n > 0 {
      SumOfZeros(n - 1);
      assert seq(n, _ => 0)[..n - 1] == seq(n - 1, _ => 0);
    }
  }

  /** What the kernel decides at an update of the LRU map: which entries go, and whether it fails. */
  datatype Update = Update(now: nat, evicted: set<nat>, fails: bool)

  /** One more sample in the bucket of us. */
  ghost predicate Recorded(before: seq<nat>, after: seq<nat>, us: nat) {
    |before| == BUCKETS && exists b :: 0 <= b < BUCKETS && InBucket(us, b) && after == before[b := before[b] + 1]
  }

  /** The LRU map after an update for a task; the idle task is never recorded. */
  function Updated(m: map<nat, nat>, tid: nat, u: Update): map<nat, nat> {
    if tid == 0 || u.fails then m else (m - u.evicted)[tid := u.now]
  }

  /**
   * The maps are shared by all CPUs; the per-CPU counters are added up. waiting is what was recorded for a
   * task since it last ran or ended, whether or not the LRU map still has it.
   */
  class Profiler {
    var enqueued: map<nat, nat>
    var histogram: seq<nat>
    var samples: nat
    var unmatched: nat
    var failures: nat
    ghost var waiting: map<nat, nat>
    ghost var switches: nat  // switches to a task other than the idle task

    ghost predicate Valid() reads this {
      && |histogram| == BUCKETS && Sum(histogram) == samples
      && samples + unmatched == switches
      && 0 !in enqueued
      && (forall t {:trigger enqueued[t]} :: t in enqueued ==> t in waiting && waiting[t] == enqueued[t] <= MAX64)
    }

    constructor ()
      ensures Valid() && switches == 0
    {
      enqueued, histogram := map[], seq(BUCKETS, _ => 0);
      samples, unmatched, failures := 0, 0, 0;
      waiting, switches := map[], 0;
      SumOfZeros(BUCKETS);
    }

    method Enqueue(tid: nat, u: Update)
      requires Valid() && u.now <= MAX64
      modifies `enqueued, `failures, `waiting
      ensures Valid()
      ensures enqueued == Updated(old(enqueued), tid, u)
      ensures failures == old(failures) + if tid != 0 && u.fails then 1 else 0
      ensures waiting == if tid != 0 && !u.fails then old(waiting)[tid := u.now] else old(waiting)
    {
      if tid == 0 {
        return;
      }
      if u.fails {
        failures := failures + 1;
        return;
      }
      enqueued := (enqueued - u.evicted)[tid := u.now];
      waiting := waiting[tid := u.now];
    }

    /** A switch that found no usable time stamp. */
    method CountUnmatched()
      requires |histogram| == BUCKETS && Sum(histogram) == samples && samples + unmatched + 1 == switches
      modifies `unmatched
      ensures unmatched == old(unmatched) + 1
    {
      unmatched := unmatched + 1;
    }

    /** One sample of us microseconds. */
    method Record(us: nat)
      requires us <= MAX64 && |histogram| == BUCKETS && Sum(histogram) == samples
      modifies `histogram, `samples
      ensures |histogram| == BUCKETS && Sum(histogram) == samples == old(samples) + 1
      ensures Recorded(old(histogram), histogram, us)
    {
      var bucket := BucketOf(us);
      SumIncrement(histogram, bucket);
      histogram := histogram[bucket := histogram[bucket] + 1];
      samples := samples + 1;
    }

    /** The task that gets the processor: its record is removed and the time since then is a sample. */
    method Arrive(next: nat, now: nat)
      requires Valid() && now <= MAX64
      modifies `switches, `enqueued, `waiting, `samples, `unmatched, `histogram
      ensures Valid() && switches == old(switches) + 1 && enqueued == old(enqueued) - {next}
      ensures if next in old(enqueued) && old(enqueued)[next] <= now then
                && samples == old(samples) + 1 && unmatched == old(unmatched)
                && Recorded(old(histogram), histogram, (now - old(enqueued)[next]) / 1000)
              else samples == old(samples) && unmatched == old(unmatched) + 1 && histogram == old(histogram)
    {
      switches := switches + 1;
      if next !in enqueued {
        assert enqueued - {next} == enqueued;
        CountUnmatched();
        return;
      }
      var begin := enqueued[next];
      enqueued, waiting := enqueued - {next}, waiting - {next};
      if now < begin {
        CountUnmatched();
      } else {
        Record((now - begin) / 1000);
      }
    }

    /**
     * A switch from prev to next: exactly one of samples and unmatched grows if next is not the idle task,
     * and a sample is the time since the last record of next.
     */
    method OnSwitch(preempt: bool, prev: nat, prevRunnable: bool, u: Update, next: nat, now: nat)
      requires Valid() && u.now <= MAX64 && now <= MAX64
      modifies this
      ensures Valid() && switches == old(switches) + if next != 0 then 1 else 0
      ensures next == 0 ==> samples == old(samples) && unmatched == old(unmatched)
      ensures var held := if preempt || prevRunnable then Updated(old(enqueued), prev, u) else old(enqueued);
              if next == 0 then enqueued == held
              else
                && enqueued == held - {next}
                && samples == old(samples) + (if next in held && held[next] <= now then 1 else 0)
                && unmatched == old(unmatched) + (if next in held && held[next] <= now then 0 else 1)
      ensures samples == old(samples) ==> histogram == old(histogram)
      ensures samples > old(samples) ==>
                var begin := if next == prev && (preempt || prevRunnable) && !u.fails then u.now
                             else Lookup(old(waiting), next);
                begin <= now && Recorded(old(histogram), histogram, (now - begin) / 1000)
    {
      if preempt || prevRunnable {
        Enqueue(prev, u);
      }
      if next != 0 {
        Arrive(next, now);
      }
    }

    method OnExit(tid: nat)
      requires Valid()
      modifies `enqueued, `waiting
      ensures Valid() && enqueued == old(enqueued) - {tid}
    {
      enqueued, waiting := enqueued - {tid}, waiting - {tid};
    }
  }

  function Lookup(m: map<nat, nat>, k: nat): nat { if k in m then m[k] else 0 }
}
