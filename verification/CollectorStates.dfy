/**
 * What the states, the counters and the process rows of a report say about the two samples behind it, in terms
 * of those samples alone.
 */
module CollectorStates {
  import opened Bytes
  import opened Samples
  import opened ProcessSelection
  import opened Collector

  /** The CPU table could be read, and it has the aggregate line. */
  predicate CpuRead(s: Sources) { s.cpu.Some? && All in s.cpu.value }

  /** Both samples have the CPU, no counter of it went back, and it spent time. */
  predicate CpuComparable(last: Sources, s: Sources, id: CpuId)
    requires CpuRead(last) && CpuRead(s) && id in s.cpu.value
  {
    && id in last.cpu.value && NoReset(s.cpu.value[id], last.cpu.value[id])
    && Elapsed(s.cpu.value[id], last.cpu.value[id], 8) > 0
  }

  /**
   * The CPU section is warming up exactly when the sample just before has no CPU table, which includes the
   * first sample and the one after a failed read; it is fine exactly when every CPU has a usage.
   */
  lemma CpuStates(last: Option<Sources>, s: Sources)
    ensures var state := CpuReportOf(s.cpu, CpuMemory(last)).state;
            && (state == Unavailable <==> !CpuRead(s))
            && (state == WarmingUp <==> CpuRead(s) && !(last.Some? && CpuRead(last.value)))
            && (state == Fine <==> CpuRead(s) && last.Some? && CpuRead(last.value)
                                   && forall id {:trigger CpuComparable(last.value, s, id)} :: id in s.cpu.value ==>
                                        CpuComparable(last.value, s, id))
  {
    if CpuRead(s) {
      var now, before := s.cpu.value, CpuMemory(last);
      if last.Some? && CpuRead(last.value) {
        assert All in before;
        forall id | id in now ensures UsageIn(id, now[id], before).Some? <==> CpuComparable(last.value, s, id) {
          if id in before {
            UsageIsShare(now[id], before[id]);
          }
        }
      } else {
        assert UsageIn(All, now[All], before).None?;
      }
    }
  }

  /** Some line of the table of the sample just before was good. */
  ghost predicate HadLine<V>(read: Option<seq<Keyed<string, V>>>) {
    read.Some? && exists i :: 0 <= i < |read.value| && read.value[i].sample.Some?
  }

  lemma {:induction false} BaselineEmpty<K, V>(lines: seq<Keyed<K, V>>)
    ensures Baseline(lines) == map[] <==> forall i :: 0 <= i < |lines| ==> lines[i].sample.None?
  {
    if lines != [] {
      var front, n := lines[..|lines| - 1], |lines| - 1;
      BaselineEmpty(front);
      assert forall i :: 0 <= i < n ==> front[i] == lines[i];
      if lines[n].sample.Some? {
        assert lines[n].key in Baseline(lines);
      }
    }
  }

  /** A good line of this sample, and the newest good line of the same interface in the one just before. */
  ghost predicate NetComparable(last: Option<Sources>, now: NetSample, name: string, seconds: real) {
    seconds > 0.0 && exists i: nat ::
      NetBefore(last, name, now.identity, i) && last.value.net.value[i].sample.value.rx <= now.rx
      && last.value.net.value[i].sample.value.tx <= now.tx
  }

  lemma NetRowComplete(last: Option<Sources>, s: Sources, name: string, now: NetSample)
    ensures var seconds := SecondsSince(last, s.now);
            var row := NetRowOf(name, now, NetMemory(last), seconds);
            row.rxRate.Some? && row.txRate.Some? <==> NetComparable(last, now, name, seconds)
  {
    var seconds := SecondsSince(last, s.now);
    var row := NetRowOf(name, now, NetMemory(last), seconds);
    NetRateMeaning(last, s, name, now);
    if row.rxRate.Some? && row.txRate.Some? {
      var i: nat :| NetBefore(last, name, now.identity, i);
      assert NetRowIs(row, now, last.value.net.value[i].sample.value, seconds);
    }
    if NetComparable(last, now, name, seconds) {
      var i: nat :| NetBefore(last, name, now.identity, i) && last.value.net.value[i].sample.value.rx <= now.rx
                    && last.value.net.value[i].sample.value.tx <= now.tx;
      assert NetRowIs(row, now, last.value.net.value[i].sample.value, seconds);
    }
  }

  /** Every good line has its row, and every row has both rates if and only if every good line has. */
  lemma {:induction false} RowsComplete(lines: seq<Keyed<string, NetSample>>, previous: map<string, NetSample>,
                                        seconds: real)
    ensures NetComplete(lines, NetRows(lines, previous, seconds)) <==>
              forall i :: 0 <= i < |lines| ==>
                && lines[i].sample.Some?
                && NetRowOf(lines[i].key, lines[i].sample.value, previous, seconds).rxRate.Some?
                && NetRowOf(lines[i].key, lines[i].sample.value, previous, seconds).txRate.Some?
    decreases |lines|
  {
    if lines != [] {
      var front, last := lines[..|lines| - 1], lines[|lines| - 1];
      RowsComplete(front, previous, seconds);
      assert lines == front + [last];
      NetRowsSnoc(front, last, previous, seconds);
      NetCompleteSnoc(front, last, NetRows(front, previous, seconds), previous, seconds);
    }
  }

  /**
   * The network section is fine exactly when every line is good and has both rates. Otherwise it is warming up
   * if the sample just before had no good line, and partial if it had one.
   */
  lemma NetStates(last: Option<Sources>, s: Sources)
    ensures var state := NetReportOf(s.net, NetMemory(last), SecondsSince(last, s.now)).state;
            && (state == Unavailable <==> s.net.None?)
            && (state == Fine <==> s.net.Some? && forall i :: 0 <= i < |s.net.value| ==>
                  var line := s.net.value[i];
                  line.sample.Some? && NetComparable(last, line.sample.value, line.key, SecondsSince(last, s.now)))
            && (state == WarmingUp <==> s.net.Some? && state != Fine && !(last.Some? && HadLine(last.value.net)))
  {
    if s.net.Some? {
      var lines := s.net.value;
      RowsComplete(lines, NetMemory(last), SecondsSince(last, s.now));
      forall i | 0 <= i < |lines| && lines[i].sample.Some?
        ensures var row := NetRowOf(lines[i].key, lines[i].sample.value, NetMemory(last), SecondsSince(last, s.now));
                row.rxRate.Some? && row.txRate.Some? <==>
                  NetComparable(last, lines[i].sample.value, lines[i].key, SecondsSince(last, s.now))
      {
        NetRowComplete(last, s, lines[i].key, lines[i].sample.value);
      }
      if last.Some? && last.value.net.Some? {
        BaselineEmpty(last.value.net.value);
      }
    }
  }

  /** The disk section warms up when only this sample has a good line; it is fine when every line is good. */
  lemma DiskStates(last: Option<Sources>, s: Sources)
    ensures var state := DiskReportOf(s.disks, DiskMemory(last), SecondsSince(last, s.now)).state;
            && (state == Unavailable <==> s.disks.None?)
            && (state == WarmingUp <==> HadLine(s.disks) && !(last.Some? && HadLine(last.value.disks)))
            && (state == Fine <==> s.disks.Some? && state != WarmingUp
                                   && forall i :: 0 <= i < |s.disks.value| ==> s.disks.value[i].sample.Some?)
  {
    if s.disks.Some? {
      BaselineEmpty(s.disks.value);
    }
    if last.Some? && last.value.disks.Some? {
      BaselineEmpty(last.value.disks.value);
    }
  }

  // ----- Processes -----

  /** How many of the entries have the property. */
  ghost function CountOf(entries: seq<ProcessEntry>, p: ProcessEntry -> bool): nat {
    if entries == [] then 0
    else CountOf(entries[..|entries| - 1], p) + if p(entries[|entries| - 1]) then 1 else 0
  }

  /**
   * Each counter is the number of entries of its kind: those with a usable sample, those that may not be read,
   * those that are gone, and those whose file cannot be read or makes no sense.
   */
  lemma {:induction false} TallyCounts(entries: seq<ProcessEntry>, pageSize: nat)
    requires pageSize > 0
    ensures var t := TallyOf(entries, pageSize);
            && t.sampled == CountOf(entries, (e: ProcessEntry) => SampleOf(e, pageSize).Some?)
            && t.denied == CountOf(entries, (e: ProcessEntry) => e.read == Denied)
            && t.vanished == CountOf(entries, (e: ProcessEntry) => e.read == Vanished)
            && t.malformed == CountOf(entries, (e: ProcessEntry) =>
                 e.read == ReadFailed || (e.read.Parsed? && SampleOf(e, pageSize).None?))
  {
    if entries != [] {
      TallyCounts(entries[..|entries| - 1], pageSize);
    }
  }

  lemma {:induction false} NoneCounted(entries: seq<ProcessEntry>, p: ProcessEntry -> bool)
    ensures CountOf(entries, p) == 0 <==> forall i :: 0 <= i < |entries| ==> !p(entries[i])
  {
    if entries != [] {
      var front := entries[..|entries| - 1];
      NoneCounted(front, p);
      assert forall i :: 0 <= i < |front| ==> front[i] == entries[i];
    }
  }

  /**
   * The process section is fine exactly when all processes listed were visited and each one was sampled, or
   * was gone before it could be read.
   */
  lemma ProcessStates(s: Sources, previous: map<int, Ticks>, seconds: real, c: Config, r: ProcessReport)
    requires ConfigOk(c) && IsProcessReport(s, previous, seconds, c, r)
    ensures r.state == Unavailable <==> s.pids.None?
    ensures r.state == Fine <==>
              && s.pids.Some? && s.visited >= |s.pids.value|
              && forall i :: 0 <= i < |s.pids.value| ==>
                   SampleOf(s.pids.value[i], c.pageSize).Some? || s.pids.value[i].read == Vanished
  {
    if s.pids.Some? {
      var entries := Visited(s);
      var denied := (e: ProcessEntry) => e.read == Denied;
      var bad := (e: ProcessEntry) => e.read == ReadFailed || (e.read.Parsed? && SampleOf(e, c.pageSize).None?);
      TallyCounts(entries, c.pageSize);
      NoneCounted(entries, denied);
      NoneCounted(entries, bad);
      assert s.visited >= |s.pids.value| ==> entries == s.pids.value;
    }
  }

  /** Row k belongs to entry i: the same process, and its resident pages in bytes, which fit in 64 bits. */
  predicate RowOfEntry(row: ProcessRow, e: ProcessEntry, pageSize: nat)
    requires pageSize > 0
  {
    && e.read.Parsed? && e.read.sample.Some?
    && var p := e.read.sample.value;
       && e.pid == p.pid == row.pid && row.starttime == p.starttime
       && row.memoryBytes == p.rssPages * pageSize <= MAX64
  }

  lemma Multiply(a: nat, b: nat, size: nat)
    requires a <= b
    ensures a * size <= b * size
  {
  }

  lemma FitsIn(pages: nat, pageSize: nat, limit: nat)
    requires pageSize > 0
    ensures pages <= limit / pageSize <==> pages * pageSize <= limit
  {
    var q, r := limit / pageSize, limit % pageSize;
    assert limit == q * pageSize + r;
    assert (q + 1) * pageSize == q * pageSize + pageSize;
    if pages <= q {
      Multiply(pages, q, pageSize);
    } else {
      Multiply(q + 1, pages, pageSize);
    }
  }

  /** An entry is sampled exactly when it is of the process it names and its memory fits in 64 bits. */
  lemma SampledIff(e: ProcessEntry, pageSize: nat)
    requires pageSize > 0
    ensures SampleOf(e, pageSize).Some? <==>
              && e.read.Parsed? && e.read.sample.Some? && e.read.sample.value.pid == e.pid
              && e.read.sample.value.rssPages * pageSize <= MAX64
  {
    if e.read.Parsed? && e.read.sample.Some? {
      FitsIn(e.read.sample.value.rssPages, pageSize, MAX64);
    }
  }

  ghost predicate HasRow(rows: seq<ProcessRow>, e: ProcessEntry, pageSize: nat)
    requires pageSize > 0
  {
    exists k :: 0 <= k < |rows| && RowOfEntry(rows[k], e, pageSize)
  }

  ghost predicate HasEntry(entries: seq<ProcessEntry>, row: ProcessRow, pageSize: nat)
    requires pageSize > 0
  {
    exists i :: 0 <= i < |entries| && RowOfEntry(row, entries[i], pageSize)
  }

  lemma EntryStays(entries: seq<ProcessEntry>, row: ProcessRow, pageSize: nat)
    requires pageSize > 0 && entries != [] && HasEntry(entries[..|entries| - 1], row, pageSize)
    ensures HasEntry(entries, row, pageSize)
  {
    var front := entries[..|entries| - 1];
    var i :| 0 <= i < |front| && RowOfEntry(row, front[i], pageSize);
    assert RowOfEntry(row, entries[i], pageSize);
  }

  lemma RowStays(rows: seq<ProcessRow>, more: seq<ProcessRow>, e: ProcessEntry, pageSize: nat)
    requires pageSize > 0 && rows <= more && HasRow(rows, e, pageSize)
    ensures HasRow(more, e, pageSize)
  {
    var k :| 0 <= k < |rows| && RowOfEntry(rows[k], e, pageSize);
    assert RowOfEntry(more[k], e, pageSize);
  }

  ghost predicate RowsMatch(rows: seq<ProcessRow>, entries: seq<ProcessEntry>, pageSize: nat)
    requires pageSize > 0
  {
    && (forall k :: 0 <= k < |rows| ==> HasEntry(entries, rows[k], pageSize))
    && (forall i :: 0 <= i < |entries| && SampleOf(entries[i], pageSize).Some? ==> HasRow(rows, entries[i], pageSize))
  }

  /** Every row is of an entry, and every entry that was sampled has a row. */
  lemma {:induction false} RowsAreEntries(entries: seq<ProcessEntry>, previous: map<int, Ticks>, seconds: real,
                                          pageSize: nat, clockTicks: nat)
    requires pageSize > 0 && clockTicks > 0
    ensures RowsMatch(RowsOf(entries, previous, seconds, pageSize, clockTicks), entries, pageSize)
    decreases |entries|
  {
    if entries != [] {
      var front, n := entries[..|entries| - 1], |entries| - 1;
      var before := RowsOf(front, previous, seconds, pageSize, clockTicks);
      RowsAreEntries(front, previous, seconds, pageSize, clockTicks);
      assert RowsMatch(before, front, pageSize);
      SampledIff(entries[n], pageSize);
      var rows := RowsOf(entries, previous, seconds, pageSize, clockTicks);
      if SampleOf(entries[n], pageSize).Some? {
        var row := RowOf(SampleOf(entries[n], pageSize).value, previous, seconds, pageSize, clockTicks);
        assert rows == before + [row] && RowOfEntry(row, entries[n], pageSize);
      }
      forall k | 0 <= k < |rows| ensures HasEntry(entries, rows[k], pageSize) {
        if k < |before| {
          assert before[k] == rows[k] && HasEntry(front, before[k], pageSize);
          EntryStays(entries, before[k], pageSize);
        } else {
          assert k == |before| && RowOfEntry(rows[k], entries[n], pageSize);
        }
      }
      forall i | 0 <= i < |entries| && SampleOf(entries[i], pageSize).Some? ensures HasRow(rows, entries[i], pageSize) {
        if i < n {
          assert front[i] == entries[i];
          RowStays(before, rows, entries[i], pageSize);
        } else {
          assert RowOfEntry(rows[|before|], entries[n], pageSize);
        }
      }
    }
  }
}
