/** Which processes a snapshot shows: the first ones by CPU, then memory, then pid. */
module ProcessSelection {
  import opened Bytes

  datatype ProcessRow = ProcessRow(pid: int, starttime: nat, memoryBytes: nat, cpuPercent: real, cpuValid: bool)

  predicate Better(a: ProcessRow, b: ProcessRow) {
    if a.cpuPercent != b.cpuPercent then a.cpuPercent > b.cpuPercent
    else if a.memoryBytes != b.memoryBytes then a.memoryBytes > b.memoryBytes
    else a.pid < b.pid
  }

  predicate DistinctPids(rows: seq<ProcessRow>) { forall i, j :: 0 <= i < j < |rows| ==> rows[i].pid != rows[j].pid }

  lemma BetterIsOrder(a: ProcessRow, b: ProcessRow, c: ProcessRow)
    ensures !Better(a, a)
    ensures Better(a, b) && Better(b, c) ==> Better(a, c)
    ensures a.pid != b.pid ==> (Better(a, b) <==> !Better(b, a))
  {
  }

  ghost predicate Sorted(rows: seq<ProcessRow>) {
    forall i, j {:trigger rows[i], rows[j]} :: 0 <= i < j < |rows| ==> Better(rows[i], rows[j])
  }

  /** The first count rows are the best ones, in order; the others follow in any order. */
  ghost predicate Selected(rows: seq<ProcessRow>, count: nat) {
    && count <= |rows|
    && forall i, j {:trigger rows[i], rows[j]} :: 0 <= i < count && i < j < |rows| ==> Better(rows[i], rows[j])
  }

  lemma SwapKeepsRows(rows: seq<ProcessRow>, i: nat, j: nat)
    requires i < |rows| && j < |rows|
    ensures multiset(rows[i := rows[j]][j := rows[i]]) == multiset(rows)
  {
  }

  lemma {:induction false} SameRowsDistinct(a: seq<ProcessRow>, b: seq<ProcessRow>)
    requires multiset(a) == multiset(b) && DistinctPids(a)
    ensures DistinctPids(b)
  {
    forall i, j | 0 <= i < j < |b| ensures b[i].pid != b[j].pid {
      if b[i].pid == b[j].pid {
        assert b[i] in multiset(b) && b[j] in multiset(b);
        assert b[i] in a && b[j] in a;
        var m, n :| 0 <= m < |a| && 0 <= n < |a| && a[m] == b[i] && a[n] == b[j];
        assert m == n;
        TwiceInside(b, i, j);
        OnceInside(a, m);
      }
    }
  }

  lemma TwiceInside(s: seq<ProcessRow>, i: nat, j: nat)
    requires i < j < |s| && s[i] == s[j]
    ensures multiset(s)[s[i]] >= 2
  {
    assert s == s[..j] + [s[j]] + s[j + 1..];
    assert s[i] in s[..j];
  }

  lemma OnceInside(s: seq<ProcessRow>, m: nat)
    requires m < |s| && DistinctPids(s)
    ensures multiset(s)[s[m]] == 1
  {
    assert s == s[..m] + [s[m]] + s[m + 1..];
    assert s[m] !in s[..m] && s[m] !in s[m + 1..];
  }

  /** The index of the best of the rows from start on. */
  method FindBest(rows: seq<ProcessRow>, start: nat) returns (best: nat)
    requires start < |rows| && DistinctPids(rows)
    ensures start <= best < |rows|
    ensures forall j :: start <= j < |rows| && j != best ==> Better(rows[best], rows[j])
  {
    best := start;
    for j := start + 1 to |rows|
      invariant start <= best < j
      invariant forall k :: start <= k < j && k != best ==> Better(rows[best], rows[k])
    {
      if Better(rows[j], rows[best]) {
        best := j;
      }
    }
  }

  /** Stands for std::partial_sort: any algorithm with this contract gives the same first rows. */
  method PartialSort(rows: seq<ProcessRow>, count: nat) returns (r: seq<ProcessRow>)
    requires count <= |rows| && DistinctPids(rows)
    ensures multiset(r) == multiset(rows) && Selected(r, count) && DistinctPids(r)
  {
    r := rows;
    for i := 0 to count
      invariant |r| == |rows| && multiset(r) == multiset(rows) && DistinctPids(r) && Selected(r, i)
    {
      var best := FindBest(r, i);
      SwapKeepsRows(r, i, best);
      var swapped := r[i := r[best]][best := r[i]];
      SameRowsDistinct(r, swapped);
      r := swapped;
    }
  }

  lemma HeadIsFirst(a: seq<ProcessRow>, b: seq<ProcessRow>, count: nat)
    requires a != [] && b != [] && multiset(a) == multiset(b) && Selected(a, count) && Selected(b, count) && count > 0
    ensures a[0] == b[0]
  {
    assert a[0] in multiset(b) && b[0] in multiset(a);
    var i :| 0 <= i < |b| && b[i] == a[0];
    var j :| 0 <= j < |a| && a[j] == b[0];
    BetterIsOrder(a[0], b[0], a[0]);
  }

  lemma TailRows(a: seq<ProcessRow>)
    requires a != []
    ensures multiset(a[1..]) == multiset(a) - multiset{a[0]}
  {
    assert a == [a[0]] + a[1..];
  }

  /** Two ways to select agree on every row that is kept. */
  lemma {:induction false} SelectionUnique(a: seq<ProcessRow>, b: seq<ProcessRow>, count: nat)
    requires multiset(a) == multiset(b) && Selected(a, count) && Selected(b, count)
    ensures a[..count] == b[..count]
    decreases count
  {
    if count > 0 {
      HeadIsFirst(a, b, count);
      assert a[1..][..count - 1] == b[1..][..count - 1] by {
        TailRows(a);
        TailRows(b);
        SelectionTail(a, count);
        SelectionTail(b, count);
        SelectionUnique(a[1..], b[1..], count - 1);
      }
      assert a[..count] == [a[0]] + a[1..][..count - 1];
      assert b[..count] == [b[0]] + b[1..][..count - 1];
    }
  }

  lemma SelectionTail(a: seq<ProcessRow>, count: nat)
    requires Selected(a, count) && count > 0
    ensures Selected(a[1..], count - 1)
  {
    forall i, j | 0 <= i < count - 1 && i < j < |a| - 1 ensures Better(a[1..][i], a[1..][j]) {
      assert Better(a[i + 1], a[j + 1]);
    }
  }

  ghost predicate Beats(kept: seq<ProcessRow>, dropped: seq<ProcessRow>) {
    forall i, j {:trigger kept[i], dropped[j]} :: 0 <= i < |kept| && 0 <= j < |dropped| ==> Better(kept[i], dropped[j])
  }

  ghost predicate Splits(rows: seq<ProcessRow>, kept: seq<ProcessRow>, dropped: seq<ProcessRow>) {
    multiset(kept) + multiset(dropped) == multiset(rows) && Sorted(kept) && Beats(kept, dropped)
  }

  /**
   * At most limit rows are kept, in order; truncated tells whether any was dropped, and every row that is
   * kept beats every row that is not.
   */
  ghost predicate IsSelection(rows: seq<ProcessRow>, limit: nat, kept: seq<ProcessRow>, truncated: bool) {
    && |kept| == Min(limit, |rows|)
    && exists dropped :: Splits(rows, kept, dropped) && (truncated <==> dropped != [])
  }

  /** The end of Processes. */
  method Select(rows: seq<ProcessRow>, limit: nat) returns (kept: seq<ProcessRow>, truncated: bool)
    requires DistinctPids(rows)
    ensures IsSelection(rows, limit, kept, truncated)
  {
    var count := Min(limit, |rows|);
    var sorted := PartialSort(rows, count);
    assert |sorted| == |multiset(sorted)| == |multiset(rows)| == |rows|;
    truncated := count < |sorted|;
    kept := sorted[..count];
    ghost var dropped := sorted[count..];
    assert sorted == kept + dropped;
    assert Beats(kept, dropped) by {
      forall i, j | 0 <= i < count && 0 <= j < |dropped| ensures Better(kept[i], dropped[j]) {
        assert Better(sorted[i], sorted[count + j]);
      }
    }
    assert Splits(rows, kept, dropped);
  }

  /** What is kept does not depend on how the rows were sorted, and truncated means that rows are missing. */
  lemma SelectionDetermined(rows: seq<ProcessRow>, limit: nat, kept: seq<ProcessRow>, truncated: bool,
                            kept': seq<ProcessRow>, truncated': bool)
    requires IsSelection(rows, limit, kept, truncated) && IsSelection(rows, limit, kept', truncated')
    ensures kept == kept' && truncated == truncated' == (|rows| > limit)
  {
    var a :| Splits(rows, kept, a) && (truncated <==> a != []);
    var b :| Splits(rows, kept', b) && (truncated' <==> b != []);
    assert multiset(kept + a) == multiset(kept' + b);
    assert |multiset(kept + a)| == |kept| + |a| && |multiset(kept' + b)| == |kept'| + |b| && |multiset(rows)| == |rows|;
    SelectionUnique(kept + a, kept' + b, |kept|);
    assert (kept + a)[..|kept|] == kept && (kept' + b)[..|kept|] == kept';
  }
}
