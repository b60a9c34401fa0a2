/**
 * What the client keeps of the snapshots that arrive: the receive lambda of the client, its gap counter and
 * its histories.
 */
module SequenceFilter {
  import opened Bytes

  /** A decoded snapshot; reading stands for the values shown in the three histories. */
  datatype Snapshot = Snapshot(instance: bytes, sequence: nat, reading: Reading)

  datatype Reading = Reading(cpu: real, memory: real, rx: real)

  const HISTORY_LIMIT: nat := 120

  predicate SameRun(current: Option<Snapshot>, s: Snapshot) { current.Some? && current.value.instance == s.instance }

  predicate Accepts(current: Option<Snapshot>, s: Snapshot) {
    SameRun(current, s) ==> s.sequence > current.value.sequence
  }

  /** The snapshots accepted of those that arrived. */
  function Filter(arrived: seq<Snapshot>): seq<Snapshot> {
    if arrived == [] then []
    else
      var f, s := Filter(arrived[..|arrived| - 1]), arrived[|arrived| - 1];
      if Accepts(Last(f), s) then f + [s] else f
  }

  lemma FilterSnoc(arrived: seq<Snapshot>, s: Snapshot)
    ensures Filter(arrived + [s]) == if Accepts(Last(Filter(arrived)), s) then Filter(arrived) + [s]
                                     else Filter(arrived)
  {
    assert (arrived + [s])[..|arrived|] == arrived;
  }

  /** What one accepted snapshot adds to the gap counter. */
  function Gap(current: Option<Snapshot>, s: Snapshot): nat {
    if SameRun(current, s) && s.sequence > current.value.sequence then s.sequence - current.value.sequence - 1 else 0
  }

  function Gaps(accepted: seq<Snapshot>): nat {
    if accepted == [] then 0
    else Gaps(accepted[..|accepted| - 1]) + Gap(Last(accepted[..|accepted| - 1]), accepted[|accepted| - 1])
  }

  lemma GapsSnoc(accepted: seq<Snapshot>, s: Snapshot)
    ensures Gaps(accepted + [s]) == Gaps(accepted) + Gap(Last(accepted), s)
  {
    assert (accepted + [s])[..|accepted|] == accepted;
  }

  // ----- Sequence numbers within one run of an instance -----

  /** The snapshots from first to last are of one instance: a maximal run of it, or part of one. */
  predicate OneRun(s: seq<Snapshot>, first: nat, last: nat) {
    first <= last < |s| && forall i {:trigger s[i]} :: first <= i <= last ==> s[i].instance == s[first].instance
  }

  lemma {:induction false} NeighboursIncrease(arrived: seq<Snapshot>, i: nat)
    requires i + 1 < |Filter(arrived)| && Filter(arrived)[i].instance == Filter(arrived)[i + 1].instance
    ensures Filter(arrived)[i].sequence < Filter(arrived)[i + 1].sequence
    decreases |arrived|
  {
    var f := Filter(arrived[..|arrived| - 1]);
    if i + 1 < |f| {
      NeighboursIncrease(arrived[..|arrived| - 1], i);
    }
  }

  /** Within one run the accepted sequence numbers increase strictly, whatever arrived and in whatever order. */
  lemma {:induction false} RunIncreases(arrived: seq<Snapshot>, i: nat, j: nat)
    requires i < j && OneRun(Filter(arrived), i, j)
    ensures Filter(arrived)[i].sequence < Filter(arrived)[j].sequence
    decreases j - i
  {
    assert Filter(arrived)[j - 1].instance == Filter(arrived)[j].instance;
    NeighboursIncrease(arrived, j - 1);
    if i < j - 1 {
      RunIncreases(arrived, i, j - 1);
    }
  }

  /**
   * The gap counter telescopes: from first to last, a run adds the sequence numbers between the two that
   * were not accepted.
   */
  lemma {:induction false} GapsTelescope(arrived: seq<Snapshot>, first: nat, last: nat)
    requires OneRun(Filter(arrived), first, last)
    ensures var f := Filter(arrived);
            Gaps(f[..last + 1]) - Gaps(f[..first + 1]) == f[last].sequence - f[first].sequence + 1 - (last + 1 - first)
    decreases last - first
  {
    if first < last {
      var f := Filter(arrived);
      assert f[last - 1].instance == f[last].instance;
      NeighboursIncrease(arrived, last - 1);
      GapsTelescope(arrived, first, last - 1);
      GapsStep(f, last);
    }
  }

  /** What the counter gains at one accepted snapshot. */
  lemma GapsStep(f: seq<Snapshot>, i: nat)
    requires 0 < i < |f|
    ensures Gaps(f[..i + 1]) == Gaps(f[..i]) + Gap(Some(f[i - 1]), f[i])
  {
    assert f[..i + 1] == f[..i] + [f[i]];
    GapsSnoc(f[..i], f[i]);
  }

  /** The first snapshot of a run adds nothing to the counter: a restart of the server is not a gap. */
  lemma RestartIsNoGap(accepted: seq<Snapshot>, i: nat)
    requires i < |accepted| && (i > 0 ==> accepted[i - 1].instance != accepted[i].instance)
    ensures Gaps(accepted[..i + 1]) == Gaps(accepted[..i])
  {
    assert accepted[..i + 1] == accepted[..i] + [accepted[i]];
    GapsSnoc(accepted[..i], accepted[i]);
    if i > 0 {
      assert Last(accepted[..i]) == Some(accepted[i - 1]);
    }
  }

  // ----- Arrivals of one connection -----

  predicate Of(s: seq<Snapshot>, id: bytes) { forall i {:trigger s[i]} :: 0 <= i < |s| ==> s[i].instance == id }

  ghost predicate Increasing(s: seq<Snapshot>) {
    forall i, j {:trigger s[i].sequence, s[j].sequence} :: 0 <= i < j < |s| ==> s[i].sequence < s[j].sequence
  }

  /** What one connection to one server delivers: sequence numbers that never go back. */
  ghost predicate NonDecreasing(s: seq<Snapshot>, id: bytes) {
    && Of(s, id)
    && forall i, j {:trigger s[i].sequence, s[j].sequence} :: 0 <= i < j < |s| ==> s[i].sequence <= s[j].sequence
  }

  /** What is accepted of one connection, after all that arrived on the connections before it. */
  function Taken(before: seq<Snapshot>, arrived: seq<Snapshot>): seq<Snapshot> {
    if arrived == [] then []
    else
      var t, s := Taken(before, arrived[..|arrived| - 1]), arrived[|arrived| - 1];
      if Accepts(Last(Filter(before) + t), s) then t + [s] else t
  }

  lemma {:induction false} FilterContinues(before: seq<Snapshot>, arrived: seq<Snapshot>)
    ensures Filter(before + arrived) == Filter(before) + Taken(before, arrived)
    decreases |arrived|
  {
    if arrived == [] {
      assert before + arrived == before && Filter(before) + [] == Filter(before);
    } else {
      var front, s := arrived[..|arrived| - 1], arrived[|arrived| - 1];
      FilterContinues(before, front);
      assert before + arrived == (before + front) + [s];
      FilterSnoc(before + front, s);
      Glue(Filter(before), Taken(before, front), [s]);
    }
  }

  lemma {:induction false} FilterMember(arrived: seq<Snapshot>, i: nat)
    requires i < |Filter(arrived)|
    ensures Filter(arrived)[i] in arrived
    decreases |arrived|
  {
    var front := arrived[..|arrived| - 1];
    if i < |Filter(front)| {
      FilterMember(front, i);
    }
  }

  /** The last snapshot that the client accepted on this connection or before it. */
  function Current(before: seq<Snapshot>, arrived: seq<Snapshot>): Option<Snapshot> {
    Last(Filter(before) + Taken(before, arrived))
  }

  lemma CurrentIs(before: seq<Snapshot>, arrived: seq<Snapshot>)
    ensures var t := Taken(before, arrived);
            Current(before, arrived) == if t == [] then Last(Filter(before)) else Last(t)
  {
    assert Filter(before) + [] == Filter(before);
  }

  lemma IncreasingSnoc(t: seq<Snapshot>, s: Snapshot)
    requires Increasing(t) && (t != [] ==> t[|t| - 1].sequence < s.sequence)
    ensures Increasing(t + [s])
  {
    forall i, j | 0 <= i < j < |t + [s]| ensures (t + [s])[i].sequence < (t + [s])[j].sequence {
      assert j == |t| && i < |t| - 1 ==> t[i].sequence < t[|t| - 1].sequence;
    }
  }

  /** What is accepted arrived, and increases strictly, also over what the client held of this instance. */
  lemma {:induction false} TakenIncreases(before: seq<Snapshot>, arrived: seq<Snapshot>, id: bytes)
    requires Of(arrived, id)
    ensures var t := Taken(before, arrived);
            && Of(t, id) && Increasing(t) && (forall i {:trigger t[i]} :: 0 <= i < |t| ==> t[i] in arrived)
            && (t != [] ==> Accepts(Last(Filter(before)), t[0]))
    decreases |arrived|
  {
    if arrived != [] {
      var front, s := arrived[..|arrived| - 1], arrived[|arrived| - 1];
      assert Of(front, id) && s.instance == id;
      TakenIncreases(before, front, id);
      var t := Taken(before, front);
      assert Last(Filter(before) + t) == if t == [] then Last(Filter(before)) else Last(t) by {
        CurrentIs(before, front);
      }
      forall i | 0 <= i < |t| ensures t[i] in arrived {
        assert t[i] in front;
      }
      if Accepts(Last(Filter(before) + t), s) {
        IncreasingSnoc(t, s);
        assert s in arrived && Taken(before, arrived) == t + [s];
      } else {
        assert Taken(before, arrived) == t;
      }
    }
  }

  /** After any arrival the client holds this instance, and nothing that arrived is newer than what it holds. */
  lemma {:induction false} NothingNewer(before: seq<Snapshot>, arrived: seq<Snapshot>, id: bytes)
    requires Of(arrived, id) && arrived != []
    ensures var c := Current(before, arrived);
            && c.Some? && c.value.instance == id
            && forall i {:trigger arrived[i]} :: 0 <= i < |arrived| ==> arrived[i].sequence <= c.value.sequence
    decreases |arrived|
  {
    var front, s := arrived[..|arrived| - 1], arrived[|arrived| - 1];
    assert Of(front, id) && s.instance == id;
    CurrentIs(before, front);
    CurrentIs(before, arrived);
    if front != [] {
      NothingNewer(before, front, id);
    }
    forall i | 0 <= i < |arrived| ensures arrived[i].sequence <= Current(before, arrived).value.sequence {
      assert i < |front| ==> front[i] == arrived[i];
    }
  }

  /** Every sequence number that arrived and is newer than what the client held before is accepted. */
  lemma {:induction false} FilterRemovesRepetitions(before: seq<Snapshot>, arrived: seq<Snapshot>, id: bytes, i: nat)
    requires NonDecreasing(arrived, id) && i < |arrived| && Accepts(Last(Filter(before)), arrived[i])
    ensures exists k :: 0 <= k < |Taken(before, arrived)| && Taken(before, arrived)[k].sequence == arrived[i].sequence
    decreases |arrived|
  {
    var front, s := arrived[..|arrived| - 1], arrived[|arrived| - 1];
    var t := Taken(before, front);
    assert NonDecreasing(front, id);
    if i < |front| {
      FilterRemovesRepetitions(before, front, id, i);
      var k :| 0 <= k < |t| && t[k].sequence == front[i].sequence;
      assert Taken(before, arrived)[k] == t[k];
    } else if Accepts(Last(Filter(before) + t), s) {
      assert Taken(before, arrived)[|t|] == s;
    } else {
      CurrentIs(before, front);
      TakenIncreases(before, front, id);
      var m :| 0 <= m < |front| && front[m] == t[|t| - 1];
      assert arrived[m].sequence <= arrived[i].sequence;
      assert Taken(before, arrived)[|t| - 1] == t[|t| - 1];
    }
  }

  /** The sequence number behind which a gap is counted when a connection's first snapshot is accepted. */
  function Base(held: Option<Snapshot>, first: Snapshot): int {
    if SameRun(held, first) then held.value.sequence else first.sequence - 1
  }

  /** The sequence numbers that are missing in t, and before it if held is of the same run. */
  function Skipped(held: Option<Snapshot>, t: seq<Snapshot>): int {
    if t == [] then 0 else t[|t| - 1].sequence - Base(held, t[0]) - |t|
  }

  lemma SkippedSnoc(held: Option<Snapshot>, t: seq<Snapshot>, s: Snapshot)
    requires Accepts(if t == [] then held else Last(t), s)
    requires t != [] ==> t[|t| - 1].instance == s.instance
    ensures Skipped(held, t + [s]) == Skipped(held, t) + Gap(if t == [] then held else Last(t), s)
  {
  }

  /** One connection adds to the gap counter the sequence numbers that it skipped. */
  lemma {:induction false} ConnectionGaps(before: seq<Snapshot>, arrived: seq<Snapshot>, id: bytes)
    requires Of(arrived, id)
    ensures var f, t := Filter(before), Taken(before, arrived);
            Gaps(f + t) == Gaps(f) + Skipped(Last(f), t)
    decreases |arrived|
  {
    var f := Filter(before);
    if arrived == [] {
      assert f + [] == f;
    } else {
      var front, s := arrived[..|arrived| - 1], arrived[|arrived| - 1];
      var t := Taken(before, front);
      assert Of(front, id) && s.instance == id;
      ConnectionGaps(before, front, id);
      assert t != [] ==> t[|t| - 1].instance == id by {
        TakenIncreases(before, front, id);
      }
      CurrentIs(before, front);
      if Accepts(Last(f + t), s) {
        Glue(f, t, [s]);
        GapsSnoc(f + t, s);
        SkippedSnoc(Last(f), t, s);
      }
    }
  }

  /**
   * One connection to one server, after any other connections: what it adds to the accepted snapshots
   * increases strictly, also over what the client held of this server; nothing that arrived is newer than
   * what the client holds then; and the gap counter grows by the sequence numbers that were skipped.
   */
  lemma OneConnection(before: seq<Snapshot>, arrived: seq<Snapshot>, id: bytes)
    requires Of(arrived, id) && arrived != []
    ensures var held, t, c := Last(Filter(before)), Taken(before, arrived), Last(Filter(before + arrived));
            && Filter(before + arrived) == Filter(before) + t
            && Of(t, id) && Increasing(t) && (t != [] ==> Accepts(held, t[0]))
            && c.Some? && c.value.instance == id && (c.value in arrived || c == held)
            && (forall i {:trigger arrived[i]} :: 0 <= i < |arrived| ==> arrived[i].sequence <= c.value.sequence)
            && Gaps(Filter(before + arrived)) - Gaps(Filter(before)) == Skipped(held, t)
  {
    FilterContinues(before, arrived);
    TakenIncreases(before, arrived, id);
    NothingNewer(before, arrived, id);
    ConnectionGaps(before, arrived, id);
    CurrentIs(before, arrived);
  }

  /** When only the first arrival may be repeated, that repetition is all the filter drops. */
  lemma {:induction false} OnlyRepetitionDropped(arrived: seq<Snapshot>, id: bytes)
    requires NonDecreasing(arrived, id)
    requires forall i, j {:trigger arrived[i].sequence, arrived[j].sequence} ::
               0 < i < j < |arrived| ==> arrived[i].sequence < arrived[j].sequence
    ensures var repeated := |arrived| >= 2 && arrived[0].sequence == arrived[1].sequence;
            |Filter(arrived)| == |arrived| - if repeated then 1 else 0
    ensures arrived != [] ==> Filter(arrived) != [] && Last(Filter(arrived)).value.instance == id
                              && Last(Filter(arrived)).value.sequence == arrived[|arrived| - 1].sequence
    decreases |arrived|
  {
    if arrived != [] {
      var front, n := arrived[..|arrived| - 1], |arrived| - 1;
      assert NonDecreasing(front, id);
      OnlyRepetitionDropped(front, id);
      if n > 0 {
        assert front[n - 1] == arrived[n - 1] && arrived[n - 1].sequence <= arrived[n].sequence;
      }
    }
  }

  // ----- The receive lambda -----

  /** The last n elements. */
  function Tail<T>(s: seq<T>, n: nat): seq<T> { if |s| <= n then s else s[|s| - n..] }

  lemma TailSnoc<T>(s: seq<T>, x: T, n: nat)
    requires n > 0
    ensures Tail(s + [x], n) == Tail(Tail(s, n) + [x], n)
  {
  }

  datatype Gauge = Cpu | Memory | Rx

  function Value(g: Gauge, s: Snapshot): real {
    match g
    case Cpu => s.reading.cpu
    case Memory => s.reading.memory
    case Rx => s.reading.rx * 1024.0
  }

  function Column(g: Gauge, s: seq<Snapshot>): seq<real> {
    if s == [] then [] else Column(g, s[..|s| - 1]) + [Value(g, s[|s| - 1])]
  }

  /** What a history shows: the values of the newest snapshots, at most 120. */
  function Window(g: Gauge, shown: seq<Snapshot>): seq<real> { Tail(Column(g, shown), HISTORY_LIMIT) }

  lemma WindowSnoc(g: Gauge, shown: seq<Snapshot>, s: Snapshot)
    ensures Window(g, shown + [s]) == Tail(Window(g, shown) + [Value(g, s)], HISTORY_LIMIT)
  {
    assert (shown + [s])[..|shown|] == shown;
    TailSnoc(Column(g, shown), Value(g, s), HISTORY_LIMIT);
  }

  lemma {:induction false} ColumnAt(g: Gauge, s: seq<Snapshot>, i: nat)
    requires i < |s|
    ensures |Column(g, s)| == |s| && Column(g, s)[i] == Value(g, s[i])
  {
    var front := s[..|s| - 1];
    if i < |front| {
      ColumnAt(g, front, i);
    } else if front != [] {
      ColumnAt(g, front, 0);
    }
  }

  /** Position i of every history belongs to the same snapshot, one of the newest 120 that are shown. */
  lemma WindowAt(g: Gauge, shown: seq<Snapshot>, i: nat)
    requires i < Min(|shown|, 120)
    ensures |Window(g, shown)| == Min(|shown|, 120)
    ensures Window(g, shown)[i] == Value(g, shown[|shown| - Min(|shown|, 120) + i])
  {
    ColumnAt(g, shown, |shown| - Min(|shown|, 120) + i);
  }

  /** What the histories show after one more snapshot was accepted: another instance starts them again. */
  function ShownAfter(current: Option<Snapshot>, shown: seq<Snapshot>, paused: bool, s: Snapshot): seq<Snapshot> {
    (if SameRun(current, s) then shown else []) + if paused then [] else [s]
  }

  /** Where the last run of an instance begins. */
  function RunStart(accepted: seq<Snapshot>): (k: nat)
    ensures accepted != [] ==> k < |accepted|
  {
    var n := |accepted|;
    if n <= 1 then 0
    else if accepted[n - 2].instance == accepted[n - 1].instance then RunStart(accepted[..n - 1]) else n - 1
  }

  lemma {:induction false} RunStartIs(accepted: seq<Snapshot>)
    requires accepted != []
    ensures var k := RunStart(accepted);
            && OneRun(accepted, k, |accepted| - 1)
            && (k > 0 ==> accepted[k - 1].instance != accepted[k].instance)
    decreases |accepted|
  {
    var n := |accepted|;
    if n > 1 && accepted[n - 2].instance == accepted[n - 1].instance {
      var front, k := accepted[..n - 1], RunStart(accepted);
      RunStartIs(front);
      assert front[k] == accepted[k] && front[n - 2] == accepted[n - 2];
      forall i | k <= i <= n - 1 ensures accepted[i].instance == accepted[k].instance {
        assert i < n - 1 ==> front[i] == accepted[i];
      }
    }
  }

  /** The snapshots from k on that were accepted while the client was not paused. */
  function Unpaused(accepted: seq<Snapshot>, paused: seq<bool>, k: nat): seq<Snapshot>
    requires |paused| == |accepted|
  {
    var n := |accepted|;
    if n <= k then []
    else Unpaused(accepted[..n - 1], paused[..n - 1], k) + if paused[n - 1] then [] else [accepted[n - 1]]
  }

  /** shown is what is not paused of the last run. */
  ghost predicate ShowsRun(accepted: seq<Snapshot>, paused: seq<bool>, shown: seq<Snapshot>) {
    |paused| == |accepted| && shown == Unpaused(accepted, paused, RunStart(accepted))
  }

  /** And so it is after one more accepted snapshot. */
  lemma ShowsRunNext(accepted: seq<Snapshot>, were: seq<bool>, shown: seq<Snapshot>, s: Snapshot, paused: bool)
    requires ShowsRun(accepted, were, shown)
    ensures ShowsRun(accepted + [s], were + [paused], ShownAfter(Last(accepted), shown, paused, s))
    ensures Last(accepted + [s]) == Some(s) && Gaps(accepted + [s]) == Gaps(accepted) + Gap(Last(accepted), s)
  {
    var all, n := accepted + [s], |accepted|;
    GapsSnoc(accepted, s);
    assert all[..n] == accepted && (were + [paused])[..n] == were;
    if !SameRun(Last(accepted), s) {
      assert RunStart(all) == n;
    }
  }

  class ClientApp {
    const once: bool
    var current: Option<Snapshot>
    var visible: Option<Snapshot>
    var sequenceGaps: nat
    var cpuHistory: seq<real>
    var memoryHistory: seq<real>
    var rxHistory: seq<real>
    var paused: bool
    var quit: bool
    ghost var arrived: seq<Snapshot>  // everything passed to Receive
    ghost var heard: seq<Snapshot>    // what of it was not ignored because the client is done
    ghost var shown: seq<Snapshot>    // what the histories show
    ghost var were: seq<bool>         // for each snapshot accepted, whether the client was paused then

    ghost predicate Valid() reads this {
      heard <= arrived && (!(once && quit) ==> heard == arrived) && Keeps(Filter(heard))
    }

    /** Everything in the histories is of the instance of s. */
    ghost predicate ShownIn(s: Option<Snapshot>) reads `shown {
      forall i {:trigger shown[i]} :: 0 <= i < |shown| ==> SameRun(s, shown[i])
    }

    /** The fields are what the accepted snapshots make them. */
    ghost predicate Keeps(accepted: seq<Snapshot>)
      reads `current, `visible, `sequenceGaps, `cpuHistory, `memoryHistory, `rxHistory, `paused, `shown, `were
    {
      && current == Last(accepted) && sequenceGaps == Gaps(accepted)
      && ShowsRun(accepted, were, shown)
      && Histories(shown) && ShownIn(current)
      && (!paused ==> visible == current) && (current.None? ==> visible.None?)
    }

    /** The three histories are aligned: position i of each is a value of the same snapshot. */
    ghost predicate Histories(shown: seq<Snapshot>)
      reads `cpuHistory, `memoryHistory, `rxHistory
    {
      cpuHistory == Window(Cpu, shown) && memoryHistory == Window(Memory, shown) && rxHistory == Window(Rx, shown)
    }

    constructor (once: bool)
      ensures Valid() && arrived == [] && this.once == once
    {
      this.once := once;
      current, visible, sequenceGaps := None, None, 0;
      cpuHistory, memoryHistory, rxHistory := [], [], [];
      paused, quit := false, false;
      arrived, heard, shown, were := [], [], [], [];
    }

    /** One more value in every history; the oldest goes when there are more than 120. */
    method Show(s: Snapshot)
      requires Histories(shown)
      modifies `cpuHistory, `memoryHistory, `rxHistory, `shown
      ensures shown == old(shown) + [s] && Histories(shown)
    {
      WindowSnoc(Cpu, shown, s);
      WindowSnoc(Memory, shown, s);
      WindowSnoc(Rx, shown, s);
      shown := shown + [s];
      cpuHistory := cpuHistory + [s.reading.cpu];
      memoryHistory := memoryHistory + [s.reading.memory];
      rxHistory := rxHistory + [s.reading.rx * 1024.0];
      if |cpuHistory| > HISTORY_LIMIT {
        cpuHistory := cpuHistory[1..];
      }
      if |memoryHistory| > HISTORY_LIMIT {
        memoryHistory := memoryHistory[1..];
      }
      if |rxHistory| > HISTORY_LIMIT {
        rxHistory := rxHistory[1..];
      }
    }

    /** The same instance: count what is missing; another one: the histories start again. */
    method Count(s: Snapshot)
      requires Accepts(current, s) && Histories(shown) && ShownIn(current)
      modifies `sequenceGaps, `cpuHistory, `memoryHistory, `rxHistory, `shown
      ensures sequenceGaps == old(sequenceGaps) + Gap(current, s)
      ensures shown == if SameRun(current, s) then old(shown) else []
      ensures Histories(shown) && ShownIn(Some(s))
      ensures current == old(current) && visible == old(visible) && paused == old(paused)
      ensures heard == old(heard) && arrived == old(arrived) && quit == old(quit) && were == old(were)
    {
      if current.Some? && current.value.instance == s.instance {
        sequenceGaps := sequenceGaps + (s.sequence - current.value.sequence - 1);
      } else {
        cpuHistory, memoryHistory, rxHistory, shown := [], [], [], [];
      }
    }

    /** The new snapshot becomes the current one, and the visible one unless the client is paused. */
    method Take(s: Snapshot)
      requires Histories(shown) && ShownIn(Some(s))
      modifies `current, `visible, `cpuHistory, `memoryHistory, `rxHistory, `shown
      ensures current == Some(s) && visible == (if paused then old(visible) else Some(s))
      ensures sequenceGaps == old(sequenceGaps) && paused == old(paused)
      ensures heard == old(heard) && arrived == old(arrived) && quit == old(quit) && were == old(were)
      ensures shown == old(shown) + if paused then [] else [s]
      ensures Histories(shown) && ShownIn(current)
    {
      current := Some(s);
      if !paused {
        visible := current;
        Show(s);
      }
    }

    /** The part of Receive behind the sequence check. */
    method Advance(s: Snapshot, ghost accepted: seq<Snapshot>)
      requires Keeps(accepted) && Accepts(current, s)
      modifies `current, `visible, `sequenceGaps, `cpuHistory, `memoryHistory, `rxHistory, `shown, `were
      ensures Keeps(accepted + [s]) && were == old(were) + [paused]
      ensures heard == old(heard) && arrived == old(arrived) && paused == old(paused) && quit == old(quit)
      ensures visible == if paused then old(visible) else Some(s)
    {
      ShowsRunNext(accepted, were, shown, s, paused);
      ghost var c, sh := current, shown;
      Count(s);
      Take(s);
      assert shown == ShownAfter(c, sh, paused, s);
      were := were + [paused];
    }

    /** The sequence check: accepted is what the client has accepted so far. */
    method Weigh(s: Snapshot, ghost accepted: seq<Snapshot>)
      requires Keeps(accepted)
      modifies `quit, `current, `visible, `sequenceGaps, `cpuHistory, `memoryHistory, `rxHistory, `shown, `were
      ensures Accepts(Last(accepted), s) ==> Keeps(accepted + [s])
      ensures !Accepts(Last(accepted), s) ==> Keeps(accepted)
      ensures heard == old(heard) && arrived == old(arrived) && paused == old(paused)
      ensures quit == (old(quit) || (once && Accepts(Last(accepted), s)))
      ensures were == if Accepts(old(current), s) then old(were) + [paused] else old(were)
      ensures visible == if Accepts(old(current), s) && !paused then Some(s) else old(visible)
    {
      assert current == Last(accepted);
      if current.Some? && current.value.instance == s.instance && s.sequence <= current.value.sequence {
        return;
      }
      Advance(s, accepted);
      quit := quit || once;
    }

    /** Receive for a client that is not done. */
    method Hear(s: Snapshot)
      requires Keeps(Filter(heard))
      modifies `heard, `quit, `current, `visible, `sequenceGaps, `cpuHistory, `memoryHistory, `rxHistory, `shown, `were
      ensures heard == old(heard) + [s] && Keeps(Filter(heard))
      ensures arrived == old(arrived) && paused == old(paused)
      ensures quit == (old(quit) || (once && Accepts(Last(Filter(old(heard))), s)))
      ensures were == if Accepts(old(current), s) then old(were) + [paused] else old(were)
      ensures visible == if Accepts(old(current), s) && !paused then Some(s) else old(visible)
    {
      FilterSnoc(heard, s);
      Weigh(s, Filter(heard));
      heard := heard + [s];
    }

    /**
     * A snapshot arrives. What the client holds, counts and shows follows from what it heard (Keeps); a
     * snapshot that is not accepted changes nothing, and a paused client keeps what it shows.
     */
    method Receive(s: Snapshot)
      requires Valid()
      modifies this
      ensures Valid() && arrived == old(arrived) + [s] && paused == old(paused)
      ensures heard == if once && old(quit) then old(heard) else old(heard) + [s]
      ensures var accepted := !(once && old(quit)) && Accepts(old(current), s);
              && current == (if accepted then Some(s) else old(current))
              && were == (if accepted then old(were) + [paused] else old(were))
              && visible == (if accepted && !paused then Some(s) else old(visible))
              && quit == (old(quit) || (once && accepted))
    {
      if !(once && quit) {
        FilterSnoc(heard, s);
        Hear(s);
      }
      arrived := arrived + [s];
    }

    /** The space key: on pausing, what is visible stays; on resuming, the newest snapshot is shown. */
    method TogglePause()
      requires Valid()
      modifies `paused, `visible
      ensures Valid() && paused == !old(paused)
      ensures visible == if paused then old(visible) else current
    {
      paused := !paused;
      if !paused && current.Some? {
        visible := current;
      }
    }

    /** The q key. */
    method Quit()
      requires Valid()
      modifies `quit
      ensures Valid() && quit
    {
      quit := true;
    }
  }
}
