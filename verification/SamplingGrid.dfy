/** The sampling worker: one collection per tick of a fixed grid, with ticks skipped when it is late. */
module SamplingGrid {
  import opened Bytes
  import opened SharedState

  /**
   * One iteration of the worker. The wait before it ends late nanoseconds after its deadline, Collect and
   * the publication take duration; collected is the encoded snapshot, or None when Collect throws, and
   * stopping tells whether a stop was requested meanwhile.
   */
  datatype Turn = Turn(late: nat, duration: nat, collected: Option<bytes>, stopping: bool)

  /** Ticks that are due by now, the one at next included. */
  function Missed(now: int, next: int, interval: int): int
    requires interval > 0
  {
    if next <= now then (now - next) / interval + 1 else 0
  }

  /** Skipping the missed ticks ends at the first tick of the grid that is still to come. */
  lemma MissedReaches(now: int, next: int, interval: int)
    requires interval > 0 && now >= next - interval
    ensures Missed(now, next, interval) >= 0
    ensures 0 < next + Missed(now, next, interval) * interval - now <= interval
  {
    if next <= now {
      var d, q := now - next, (now - next) / interval;
      assert d == q * interval + d % interval;
      assert (q + 1) * interval == q * interval + interval;
    }
  }

  lemma GridStep(start: int, interval: int, n: nat, skipped: nat, missed: nat)
    ensures start + interval * (n + skipped) + interval + missed * interval
            == start + interval * (n + 1 + (skipped + missed))
  {
    assert interval * (n + skipped) + interval + missed * interval == interval * (n + 1 + skipped + missed);
  }

  class Worker {
    const start: int
    const interval: int
    const state: SharedState
    var next: int
    var skipped: nat
    ghost var turns: nat

    /** The next deadline lies on the grid: one tick per iteration, and one per skipped tick. */
    ghost predicate OnGrid()
      reads `next, `skipped, `turns
    {
      interval > 0 && next == start + interval * (turns + skipped)
    }

    ghost predicate Valid()
      reads this, state
    {
      OnGrid() && state.Valid() && |state.history| <= state.sequence <= turns
    }

    constructor (start: int, interval: int, state: SharedState)
      requires interval > 0 && state.Valid() && state.sequence == 0 && state.history == []
      ensures Valid() && next == start && skipped == 0 && turns == 0
      ensures this.start == start && this.interval == interval && this.state == state
    {
      this.start, this.interval, this.state := start, interval, state;
      next, skipped, turns := start, 0, 0;
    }

    /** The deadline after one iteration: on the grid, in the future, and not more than one tick away. */
    method Advance(now: int)
      requires OnGrid() && now >= next
      modifies `next, `skipped, `turns
      ensures OnGrid() && turns == old(turns) + 1
      ensures 0 < next - now <= interval
      ensures skipped == old(skipped) + Missed(now, old(next) + interval, interval)
    {
      next := next + interval;
      turns := turns + 1;
      MissedReaches(now, next, interval);
      GridStep(start, interval, old(turns), old(skipped), Missed(now, next, interval));
      if next <= now {
        var missed := (now - next) / interval + 1;
        skipped := skipped + missed;
        next := next + missed * interval;
      }
    }

    /** One iteration; done is the break on a stop request, in which nothing is published. */
    method Iterate(t: Turn) returns (done: bool)
      requires Valid()
      modifies `next, `skipped, `turns, state
      ensures Valid() && (done <==> t.collected.Some? && t.stopping)
      ensures done ==> next == old(next) && turns == old(turns) && state.history == old(state.history)
      ensures !done ==> turns == old(turns) + 1 && 0 < next - (old(next) + t.late + t.duration) <= interval
      ensures state.sequence == old(state.sequence) + if t.collected.Some? && !t.stopping then 1 else 0
      ensures old(state.history) <= state.history
    {
      done := false;
      if t.collected.Some? {
        if t.stopping {
          return true;
        }
        var ok := state.Publish(t.collected.value);
      }
      Advance(next + t.late + t.duration);
    }

    /** The whole run of the worker: after n iterations the deadline is tick n + skipped of the grid. */
    method Run(ts: seq<Turn>)
      requires Valid()
      modifies `next, `skipped, `turns, state
      ensures Valid() && turns <= old(turns) + |ts| && old(state.history) <= state.history
      ensures (forall i :: 0 <= i < |ts| ==> !ts[i].stopping) ==> turns == old(turns) + |ts|
    {
      for i := 0 to |ts|
        invariant Valid() && turns == old(turns) + i && old(state.history) <= state.history
      {
        var done := Iterate(ts[i]);
        if done {
          assert ts[i].stopping;
          return;
        }
      }
    }
  }
}
