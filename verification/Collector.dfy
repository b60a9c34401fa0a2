/**
 * The sampling pipeline and its memory of the previous sample. What the kernel files say, and which reads
 * fail, is the input of a collection.
 */
module Collector {
  import opened Bytes
  import opened Samples
  import opened ProcessSelection

  // ----- Inputs -----

  /** A key of the CPU table: the aggregate line (-1 in the source), or a core. */
  datatype CpuId = All | Core(n: nat)

  /** A line of a kernel table: its key, and its counters unless the line is malformed. */
  datatype Keyed<K, V> = Keyed(key: K, sample: Option<V>)

  datatype ProcessSample = ProcessSample(pid: int, starttime: nat, ticks: nat, rssPages: nat)

  /** The stat file of a process: what ParseProcess makes of it, or why it cannot be read. */
  datatype ProcessRead = Parsed(sample: Option<ProcessSample>) | Denied | Vanished | ReadFailed

  datatype ProcessEntry = ProcessEntry(pid: int, read: ProcessRead)

  datatype Ticks = Ticks(starttime: nat, ticks: nat)

  datatype NetSample = NetSample(identity: string, rx: nat, tx: nat)

  /** Sectors read and written, reads, writes, milliseconds busy. */
  type DiskCounters = s: seq<nat> | |s| == 5 witness [0, 0, 0, 0, 0]

  datatype CgroupStat = CgroupStat(usage: Option<nat>, throttled: Option<nat>)

  /**
   * Everything one collection reads: None is a file that cannot be read. visited is the number of processes
   * looked at before a stop request, if any; an empty cgroup identity is a cgroup that is not there.
   */
  datatype Sources = Sources(
    now: real,
    cpu: Option<map<CpuId, CpuTimes>>,
    pids: Option<seq<ProcessEntry>>,
    visited: nat,
    net: Option<seq<Keyed<string, NetSample>>>,
    disks: Option<seq<Keyed<string, DiskCounters>>>,
    cgroupIdentity: string,
    cgroupStat: Option<CgroupStat>)

  // ----- Baselines -----

  /** What a table leaves behind for the next collection: the newest good line of every key. */
  function Baseline<K, V>(lines: seq<Keyed<K, V>>): map<K, V> {
    if lines == [] then map[]
    else
      var before, last := Baseline(lines[..|lines| - 1]), lines[|lines| - 1];
      if last.sample.Some? then before[last.key := last.sample.value] else before
  }

  lemma BaselineSnoc<K, V>(lines: seq<Keyed<K, V>>, line: Keyed<K, V>)
    ensures Baseline(lines + [line]) == if line.sample.Some? then Baseline(lines)[line.key := line.sample.value]
                                        else Baseline(lines)
  {
    assert (lines + [line])[..|lines|] == lines;
  }

  ghost predicate Good<K, V>(lines: seq<Keyed<K, V>>, k: K, i: nat) {
    i < |lines| && lines[i].key == k && lines[i].sample.Some?
  }

  ghost predicate Newest<K, V>(lines: seq<Keyed<K, V>>, k: K, i: nat) {
    Good(lines, k, i) && forall j: nat {:trigger Good(lines, k, j)} :: i < j < |lines| ==> !Good(lines, k, j)
  }

  lemma {:induction false} BaselineIsNewest<K, V>(lines: seq<Keyed<K, V>>, k: K)
    ensures k in Baseline(lines) <==> exists i: nat :: Newest(lines, k, i)
    ensures forall i: nat :: Newest(lines, k, i) ==> Baseline(lines)[k] == lines[i].sample.value
    decreases |lines|
  {
    if lines != [] {
      var front, n := lines[..|lines| - 1], |lines| - 1;
      BaselineIsNewest(front, k);
      if Good(lines, k, n) {
        assert Newest(lines, k, n);
        forall i: nat | Newest(lines, k, i) ensures i == n {
          assert i < n ==> !Newest(lines, k, i);
        }
      } else {
        forall i: nat ensures Newest(front, k, i) <==> Newest(lines, k, i) {
          NewestFront(lines, k, i);
        }
      }
    }
  }

  lemma NewestFront<K, V>(lines: seq<Keyed<K, V>>, k: K, i: nat)
    requires lines != [] && !Good(lines, k, |lines| - 1)
    ensures Newest(lines[..|lines| - 1], k, i) <==> Newest(lines, k, i)
  {
    var front := lines[..|lines| - 1];
    assert forall j: nat {:trigger Good(front, k, j)} {:trigger Good(lines, k, j)} ::
        j < |front| ==> (Good(front, k, j) <==> Good(lines, k, j));
  }

  // ----- Reports -----

  datatype State = Fine | WarmingUp | Partial | Unavailable

  datatype CpuReport = CpuReport(usage: map<CpuId, real>, state: State)

  function UsageIn(id: CpuId, now: CpuTimes, previous: map<CpuId, CpuTimes>): Option<real> {
    if id in previous then UsageOf(now, previous[id]) else None
  }

  function OrZero(r: Option<real>): real { if r.Some? then r.value else 0.0 }

  function CpuBaseline(read: Option<map<CpuId, CpuTimes>>): map<CpuId, CpuTimes> {
    if read.Some? && All in read.value then read.value else map[]
  }

  /** Usage of every CPU but those in todo, 0 where it is not known. */
  function Usages(now: map<CpuId, CpuTimes>, previous: map<CpuId, CpuTimes>, todo: set<CpuId>): map<CpuId, real> {
    map id | id in now && id !in todo :: OrZero(UsageIn(id, now[id], previous))
  }

  predicate Known(now: map<CpuId, CpuTimes>, previous: map<CpuId, CpuTimes>, todo: set<CpuId>) {
    forall id {:trigger now[id]} :: id in now && id !in todo ==> UsageIn(id, now[id], previous).Some?
  }

  function CpuReportOf(read: Option<map<CpuId, CpuTimes>>, previous: map<CpuId, CpuTimes>): CpuReport {
    if read.None? || All !in read.value then CpuReport(map[], Unavailable)
    else
      var now := read.value;
      CpuReport(Usages(now, previous, {}),
                if Known(now, previous, {}) then Fine else if previous == map[] then WarmingUp else Partial)
  }

  lemma UsagesMore(now: map<CpuId, CpuTimes>, previous: map<CpuId, CpuTimes>, todo: set<CpuId>, id: CpuId)
    requires id in now && id in todo
    ensures Usages(now, previous, todo - {id})
            == Usages(now, previous, todo)[id := OrZero(UsageIn(id, now[id], previous))]
    ensures Known(now, previous, todo - {id}) <==> Known(now, previous, todo) && UsageIn(id, now[id], previous).Some?
  {
    assert Known(now, previous, todo - {id}) ==> now[id] == now[id] && UsageIn(id, now[id], previous).Some?;
  }

  /** The rate of a counter against its baseline, if there is one. */
  function RateAgainst(now: nat, previous: Option<nat>, seconds: real): Option<real> {
    if previous.Some? then CounterRate(now, previous.value, seconds) else None
  }

  datatype NetRow = NetRow(name: string, rxBytes: nat, txBytes: nat, rxRate: Option<real>, txRate: Option<real>)

  datatype NetReport = NetReport(rows: seq<NetRow>, state: State)

  /** Counters are compared only with those of the same interface, told by its index. */
  function NetRowOf(name: string, s: NetSample, previous: map<string, NetSample>, seconds: real): NetRow {
    var same := name in previous && previous[name].identity == s.identity;
    NetRow(name, s.rx, s.tx,
           RateAgainst(s.rx, if same then Some(previous[name].rx) else None, seconds),
           RateAgainst(s.tx, if same then Some(previous[name].tx) else None, seconds))
  }

  function NetRows(lines: seq<Keyed<string, NetSample>>, previous: map<string, NetSample>, seconds: real): seq<NetRow> {
    if lines == [] then []
    else
      var before, last := NetRows(lines[..|lines| - 1], previous, seconds), lines[|lines| - 1];
      if last.sample.Some? then before + [NetRowOf(last.key, last.sample.value, previous, seconds)] else before
  }

  predicate NetComplete(lines: seq<Keyed<string, NetSample>>, rows: seq<NetRow>) {
    && (forall i {:trigger lines[i]} :: 0 <= i < |lines| ==> lines[i].sample.Some?)
    && (forall i {:trigger rows[i]} :: 0 <= i < |rows| ==> rows[i].rxRate.Some? && rows[i].txRate.Some?)
  }

  function NetReportOf(read: Option<seq<Keyed<string, NetSample>>>, previous: map<string, NetSample>,
                       seconds: real): NetReport
  {
    if read.None? then NetReport([], Unavailable)
    else
      var rows := NetRows(read.value, previous, seconds);
      NetReport(rows, if NetComplete(read.value, rows) then Fine else if previous == map[] then WarmingUp else Partial)
  }

  datatype DiskRow = DiskRow(key: string, read: Option<real>, write: Option<real>, iops: Option<real>,
                             busy: Option<real>)

  datatype DiskReport = DiskReport(rows: seq<DiskRow>, state: State)

  function Scaled(r: Option<real>, factor: real): Option<real> { if r.Some? then Some(r.value * factor) else None }

  /** Sectors are 512 bytes; a device is at most 100 percent busy. */
  function DiskRowOf(key: string, c: DiskCounters, previous: map<string, DiskCounters>, seconds: real): DiskRow {
    if key !in previous then DiskRow(key, None, None, None, None)
    else
      var prior := previous[key];
      var inputs, outputs := CounterRate(c[2], prior[2], seconds), CounterRate(c[3], prior[3], seconds);
      var busy := CounterRate(c[4], prior[4], seconds);
      DiskRow(key,
              Scaled(CounterRate(c[0], prior[0], seconds), 512.0),
              Scaled(CounterRate(c[1], prior[1], seconds), 512.0),
              if inputs.Some? && outputs.Some? then Some(inputs.value + outputs.value) else None,
              if busy.Some? then Some(if busy.value / 10.0 < 100.0 then busy.value / 10.0 else 100.0) else None)
  }

  function DiskRows(lines: seq<Keyed<string, DiskCounters>>, previous: map<string, DiskCounters>,
                    seconds: real): seq<DiskRow>
  {
    if lines == [] then []
    else
      var before, last := DiskRows(lines[..|lines| - 1], previous, seconds), lines[|lines| - 1];
      if last.sample.Some? then before + [DiskRowOf(last.key, last.sample.value, previous, seconds)] else before
  }

  predicate AllGood<K(==), V>(lines: seq<Keyed<K, V>>) {
    forall i {:trigger lines[i]} :: 0 <= i < |lines| ==> lines[i].sample.Some?
  }

  function DiskReportOf(read: Option<seq<Keyed<string, DiskCounters>>>, previous: map<string, DiskCounters>,
                        seconds: real): DiskReport
  {
    if read.None? then DiskReport([], Unavailable)
    else
      DiskReport(DiskRows(read.value, previous, seconds),
                 if previous == map[] && Baseline(read.value) != map[] then WarmingUp
                 else if AllGood(read.value) then Fine else Partial)
  }

  datatype CgroupMemory = CgroupMemory(identity: string, usage: Option<nat>, throttled: Option<nat>)

  datatype CgroupReport = CgroupReport(cpuPercent: Option<real>, throttledMs: Option<real>)

  function CgroupBaseline(identity: string, stat: Option<CgroupStat>): CgroupMemory {
    if identity == "" || stat.None? then CgroupMemory(identity, None, None)
    else CgroupMemory(identity, stat.value.usage, stat.value.throttled)
  }

  function CgroupReportOf(identity: string, stat: Option<CgroupStat>, previous: CgroupMemory,
                          seconds: real): CgroupReport
  {
    if identity == "" || stat.None? || identity != previous.identity then CgroupReport(None, None)
    else
      var usage, throttled := stat.value.usage, stat.value.throttled;
      CgroupReport(if usage.Some? then Scaled(RateAgainst(usage.value, previous.usage, seconds), 0.0001) else None,
                   if throttled.Some? then Scaled(RateAgainst(throttled.value, previous.throttled, seconds), 0.001)
                   else None)
  }

  /** The cgroup is only reported when it is configured. */
  function CgroupIf(configured: bool, s: Sources, previous: CgroupMemory, seconds: real): Option<CgroupReport> {
    if configured then Some(CgroupReportOf(s.cgroupIdentity, s.cgroupStat, previous, seconds)) else None
  }

  // ----- Processes -----

  /** The sample of an entry, if its file could be read and makes sense. */
  function SampleOf(e: ProcessEntry, pageSize: nat): Option<ProcessSample>
    requires pageSize > 0
  {
    if e.read.Parsed? && e.read.sample.Some? && e.read.sample.value.pid == e.pid &&
       e.read.sample.value.rssPages <= MAX64 / pageSize
    then e.read.sample else None
  }

  function Reading(e: ProcessEntry, pageSize: nat): Keyed<int, Ticks>
    requires pageSize > 0
  {
    var s := SampleOf(e, pageSize);
    Keyed(e.pid, if s.Some? then Some(Ticks(s.value.starttime, s.value.ticks)) else None)
  }

  function Readings(entries: seq<ProcessEntry>, pageSize: nat): (r: seq<Keyed<int, Ticks>>)
    requires pageSize > 0
    ensures |r| == |entries| && forall i :: 0 <= i < |entries| ==> r[i] == Reading(entries[i], pageSize)
  {
    if entries == [] then []
    else Readings(entries[..|entries| - 1], pageSize) + [Reading(entries[|entries| - 1], pageSize)]
  }

  /** CPU time is compared only with that of the same process, told by its pid and start time. */
  function RowOf(s: ProcessSample, previous: map<int, Ticks>, seconds: real, pageSize: nat, clockTicks: nat): ProcessRow
    requires clockTicks > 0
  {
    var same := s.pid in previous && previous[s.pid].starttime == s.starttime;
    var rate := RateAgainst(s.ticks, if same then Some(previous[s.pid].ticks) else None, seconds);
    ProcessRow(s.pid, s.starttime, s.rssPages * pageSize,
               if rate.Some? then rate.value * 100.0 / clockTicks as real else 0.0, rate.Some?)
  }

  function RowsOf(entries: seq<ProcessEntry>, previous: map<int, Ticks>, seconds: real, pageSize: nat,
                  clockTicks: nat): seq<ProcessRow>
    requires pageSize > 0 && clockTicks > 0
  {
    if entries == [] then []
    else
      var before := RowsOf(entries[..|entries| - 1], previous, seconds, pageSize, clockTicks);
      var s := SampleOf(entries[|entries| - 1], pageSize);
      if s.Some? then before + [RowOf(s.value, previous, seconds, pageSize, clockTicks)] else before
  }

  datatype Tally = Tally(sampled: nat, denied: nat, vanished: nat, malformed: nat)

  function Counted(t: Tally, e: ProcessEntry, pageSize: nat): Tally
    requires pageSize > 0
  {
    match e.read
    case Denied => t.(denied := t.denied + 1)
    case Vanished => t.(vanished := t.vanished + 1)
    case ReadFailed => t.(malformed := t.malformed + 1)
    case Parsed(_) => if SampleOf(e, pageSize).Some? then t.(sampled := t.sampled + 1)
                      else t.(malformed := t.malformed + 1)
  }

  function TallyOf(entries: seq<ProcessEntry>, pageSize: nat): Tally
    requires pageSize > 0
  {
    if entries == [] then Tally(0, 0, 0, 0)
    else Counted(TallyOf(entries[..|entries| - 1], pageSize), entries[|entries| - 1], pageSize)
  }

  /** Every process listed is counted exactly once, and every process sampled has a row. */
  lemma {:induction false} TallyCovers(entries: seq<ProcessEntry>, previous: map<int, Ticks>, seconds: real,
                                       pageSize: nat, clockTicks: nat)
    requires pageSize > 0 && clockTicks > 0
    ensures var t := TallyOf(entries, pageSize);
            && t.sampled + t.denied + t.vanished + t.malformed == |entries|
            && t.sampled == |RowsOf(entries, previous, seconds, pageSize, clockTicks)|
  {
    if entries != [] {
      TallyCovers(entries[..|entries| - 1], previous, seconds, pageSize, clockTicks);
    }
  }

  predicate DistinctEntries(entries: seq<ProcessEntry>) {
    forall i, j :: 0 <= i < j < |entries| ==> entries[i].pid != entries[j].pid
  }

  lemma {:induction false} RowFromEntry(entries: seq<ProcessEntry>, previous: map<int, Ticks>, seconds: real,
                                        pageSize: nat, clockTicks: nat, k: nat)
    requires pageSize > 0 && clockTicks > 0 && k < |RowsOf(entries, previous, seconds, pageSize, clockTicks)|
    ensures exists i :: 0 <= i < |entries| && SampleOf(entries[i], pageSize).Some?
                        && RowsOf(entries, previous, seconds, pageSize, clockTicks)[k]
                           == RowOf(SampleOf(entries[i], pageSize).value, previous, seconds, pageSize, clockTicks)
  {
    var front, n := entries[..|entries| - 1], |entries| - 1;
    if k < |RowsOf(front, previous, seconds, pageSize, clockTicks)| {
      RowFromEntry(front, previous, seconds, pageSize, clockTicks, k);
      var i :| 0 <= i < |front| && SampleOf(front[i], pageSize).Some?
               && RowsOf(front, previous, seconds, pageSize, clockTicks)[k]
                  == RowOf(SampleOf(front[i], pageSize).value, previous, seconds, pageSize, clockTicks);
      assert entries[i] == front[i];
    } else {
      assert SampleOf(entries[n], pageSize).Some?;
    }
  }

  lemma {:induction false} RowsDistinct(entries: seq<ProcessEntry>, previous: map<int, Ticks>, seconds: real,
                                        pageSize: nat, clockTicks: nat)
    requires pageSize > 0 && clockTicks > 0 && DistinctEntries(entries)
    ensures DistinctPids(RowsOf(entries, previous, seconds, pageSize, clockTicks))
  {
    if entries != [] {
      var front, n := entries[..|entries| - 1], |entries| - 1;
      RowsDistinct(front, previous, seconds, pageSize, clockTicks);
      var rows := RowsOf(front, previous, seconds, pageSize, clockTicks);
      forall k | 0 <= k < |rows| ensures rows[k].pid != entries[n].pid {
        RowFromEntry(front, previous, seconds, pageSize, clockTicks, k);
      }
    }
  }

  datatype ProcessReport = ProcessReport(rows: seq<ProcessRow>, tally: Tally, truncated: bool, state: State)

  function Visited(s: Sources): seq<ProcessEntry> {
    if s.pids.None? then [] else s.pids.value[..Min(s.visited, |s.pids.value|)]
  }

  /**
   * What Processes reports: the counters of the entries visited, and the best rows of those sampled, at
   * most limit of them.
   */
  ghost predicate IsProcessReport(s: Sources, previous: map<int, Ticks>, seconds: real, c: Config, r: ProcessReport)
    requires ConfigOk(c)
  {
    if s.pids.None? then r == ProcessReport([], Tally(0, 0, 0, 0), false, Unavailable)
    else
      var entries := Visited(s);
      && r.tally == TallyOf(entries, c.pageSize)
      && IsSelection(RowsOf(entries, previous, seconds, c.pageSize, c.clockTicks), c.maxProcesses, r.rows, r.truncated)
      && r.state == if s.visited < |s.pids.value| || r.tally.denied > 0 || r.tally.malformed > 0 then Partial else Fine
  }

  // ----- The collector -----

  datatype Config = Config(maxProcesses: nat, pageSize: nat, clockTicks: nat, cgroup: bool)

  predicate ConfigOk(c: Config) { c.pageSize > 0 && c.clockTicks > 0 }

  datatype Report = Report(cpu: CpuReport, processes: ProcessReport, net: NetReport, disks: DiskReport,
                           cgroup: Option<CgroupReport>)

  function SecondsSince(last: Option<Sources>, now: real): real { if last.Some? then now - last.value.now else 0.0 }

  function CpuMemory(last: Option<Sources>): map<CpuId, CpuTimes> {
    if last.Some? then CpuBaseline(last.value.cpu) else map[]
  }

  function ProcessMemory(last: Option<Sources>, c: Config): map<int, Ticks>
    requires ConfigOk(c)
  {
    if last.Some? then Baseline(Readings(Visited(last.value), c.pageSize)) else map[]
  }

  function TableMemory<V>(read: Option<seq<Keyed<string, V>>>): map<string, V> {
    if read.Some? then Baseline(read.value) else map[]
  }

  function NetMemory(last: Option<Sources>): map<string, NetSample> {
    if last.Some? then TableMemory(last.value.net) else map[]
  }

  function DiskMemory(last: Option<Sources>): map<string, DiskCounters> {
    if last.Some? then TableMemory(last.value.disks) else map[]
  }

  function CgroupMemoryOf(last: Option<Sources>, c: Config): CgroupMemory {
    if last.Some? && c.cgroup then CgroupBaseline(last.value.cgroupIdentity, last.value.cgroupStat)
    else CgroupMemory("", None, None)
  }

  /** A report is determined by the last two samples, whatever happened before. */
  ghost predicate IsReport(c: Config, last: Option<Sources>, s: Sources, r: Report)
    requires ConfigOk(c)
  {
    var seconds := SecondsSince(last, s.now);
    && r.cpu == CpuReportOf(s.cpu, CpuMemory(last))
    && IsProcessReport(s, ProcessMemory(last, c), seconds, c, r.processes)
    && r.net == NetReportOf(s.net, NetMemory(last), seconds)
    && r.disks == DiskReportOf(s.disks, DiskMemory(last), seconds)
    && r.cgroup == CgroupIf(c.cgroup, s, CgroupMemoryOf(last, c), seconds)
  }

  /** The sample just before sample i of a run. */
  function Before(samples: seq<Sources>, i: nat): Option<Sources>
    requires i <= |samples|
  {
    if i == 0 then None else Some(samples[i - 1])
  }

  ghost predicate AreReports(c: Config, samples: seq<Sources>, reports: seq<Report>)
    requires ConfigOk(c)
  {
    |reports| <= |samples|
    && forall i {:trigger reports[i]} :: 0 <= i < |reports| ==> IsReport(c, Before(samples, i), samples[i], reports[i])
  }

  lemma ReportsSnoc(c: Config, samples: seq<Sources>, reports: seq<Report>, r: Report)
    requires ConfigOk(c) && AreReports(c, samples, reports) && |reports| < |samples|
    requires IsReport(c, Before(samples, |reports|), samples[|reports|], r)
    ensures AreReports(c, samples, reports + [r])
  {
  }

  class Collector {
    const config: Config
    var cpuPrevious: map<CpuId, CpuTimes>
    var processesPrevious: map<int, Ticks>
    var networkPrevious: map<string, NetSample>
    var disksPrevious: map<string, DiskCounters>
    var cgUsage: Option<nat>
    var cgThrottled: Option<nat>
    var cgIdentity: string
    var previousTime: Option<real>
    var seconds: real
    ghost var last: Option<Sources>  // what the previous collection read

    /** Every baseline is that of the collection just before. */
    ghost predicate Valid() reads this {
      && ConfigOk(config)
      && previousTime == (if last.Some? then Some(last.value.now) else None)
      && cpuPrevious == CpuMemory(last)
      && processesPrevious == ProcessMemory(last, config)
      && networkPrevious == NetMemory(last)
      && disksPrevious == DiskMemory(last)
      && CgroupMemory(cgIdentity, cgUsage, cgThrottled) == CgroupMemoryOf(last, config)
    }

    constructor (config: Config)
      requires ConfigOk(config)
      ensures Valid() && this.config == config && last == None
    {
      this.config := config;
      cpuPrevious, processesPrevious, networkPrevious, disksPrevious := map[], map[], map[], map[];
      cgUsage, cgThrottled, cgIdentity, previousTime, seconds, last := None, None, "", None, 0.0, None;
    }

    method Cpu(read: Option<map<CpuId, CpuTimes>>) returns (r: CpuReport)
      modifies `cpuPrevious
      ensures r == CpuReportOf(read, old(cpuPrevious)) && cpuPrevious == CpuBaseline(read)
    {
      if read.None? || All !in read.value {
        cpuPrevious := map[];
        return CpuReport(map[], Unavailable);
      }
      var now := read.value;
      var usages: map<CpuId, real> := map[];
      var allValid := true;
      var todo := now.Keys;
      while todo != {}
        invariant todo <= now.Keys && cpuPrevious == old(cpuPrevious)
        invariant usages == Usages(now, cpuPrevious, todo) && (allValid <==> Known(now, cpuPrevious, todo))
      {
        var id :| id in todo;
        UsagesMore(now, cpuPrevious, todo, id);
        var usage := None;
        if id in cpuPrevious {
          usage := CpuUsage(now[id], cpuPrevious[id]);
        }
        allValid := allValid && usage.Some?;
        usages := usages[id := OrZero(usage)];
        todo := todo - {id};
      }
      r := CpuReport(usages, if allValid then Fine else if cpuPrevious == map[] then WarmingUp else Partial);
      cpuPrevious := now;
    }

    method Network(read: Option<seq<Keyed<string, NetSample>>>) returns (r: NetReport)
      modifies `networkPrevious
      ensures r == NetReportOf(read, old(networkPrevious), seconds) && networkPrevious == TableMemory(read)
    {
      if read.None? {
        networkPrevious := map[];
        return NetReport([], Unavailable);
      }
      var lines := read.value;
      var next: map<string, NetSample> := map[];
      var rows: seq<NetRow> := [];
      var valid := true;
      for i := 0 to |lines|
        invariant networkPrevious == old(networkPrevious)
        invariant next == Baseline(lines[..i]) && rows == NetRows(lines[..i], networkPrevious, seconds)
        invariant valid <==> NetComplete(lines[..i], rows)
      {
        var line := lines[i];
        assert lines[..i + 1] == lines[..i] + [line];
        BaselineSnoc(lines[..i], line);
        NetRowsSnoc(lines[..i], line, networkPrevious, seconds);
        NetCompleteSnoc(lines[..i], line, NetRows(lines[..i], networkPrevious, seconds), networkPrevious, seconds);
        if line.sample.None? {
          valid := false;
          continue;
        }
        var s := line.sample.value;
        var row := NetRow(line.key, s.rx, s.tx, None, None);
        if line.key in networkPrevious && networkPrevious[line.key].identity == s.identity {
          row := row.(rxRate := CounterRate(s.rx, networkPrevious[line.key].rx, seconds),
                      txRate := CounterRate(s.tx, networkPrevious[line.key].tx, seconds));
        }
        valid := valid && row.rxRate.Some? && row.txRate.Some?;
        next := next[line.key := s];
        rows := rows + [row];
      }
      assert lines[..|lines|] == lines;
      r := NetReport(rows, if valid then Fine else if networkPrevious == map[] then WarmingUp else Partial);
      networkPrevious := next;
    }

    method Disk(read: Option<seq<Keyed<string, DiskCounters>>>) returns (r: DiskReport)
      modifies `disksPrevious
      ensures r == DiskReportOf(read, old(disksPrevious), seconds) && disksPrevious == TableMemory(read)
    {
      if read.None? {
        disksPrevious := map[];
        return DiskReport([], Unavailable);
      }
      var lines := read.value;
      var next: map<string, DiskCounters> := map[];
      var rows: seq<DiskRow> := [];
      var state := Fine;
      for i := 0 to |lines|
        invariant disksPrevious == old(disksPrevious)
        invariant next == Baseline(lines[..i]) && rows == DiskRows(lines[..i], disksPrevious, seconds)
        invariant state == if AllGood(lines[..i]) then Fine else Partial
      {
        var line := lines[i];
        assert lines[..i + 1] == lines[..i] + [line];
        DiskStep(lines[..i], line, disksPrevious, seconds);
        if line.sample.None? {
          state := Partial;
          continue;
        }
        rows := rows + [DiskRowOf(line.key, line.sample.value, disksPrevious, seconds)];
        next := next[line.key := line.sample.value];
      }
      assert lines[..|lines|] == lines;
      if disksPrevious == map[] && next != map[] {
        state := WarmingUp;
      }
      r := DiskReport(rows, state);
      disksPrevious := next;
    }

    method Cgroup(identity: string, stat: Option<CgroupStat>) returns (r: CgroupReport)
      modifies `cgUsage, `cgThrottled, `cgIdentity
      ensures r == CgroupReportOf(identity, stat, CgroupMemory(old(cgIdentity), old(cgUsage), old(cgThrottled)),
                                  seconds)
      ensures CgroupMemory(cgIdentity, cgUsage, cgThrottled) == CgroupBaseline(identity, stat)
    {
      if identity == "" || identity != cgIdentity {
        cgUsage, cgThrottled := None, None;
      }
      cgIdentity := identity;
      r := CgroupReport(None, None);
      if identity == "" {
        return;
      }
      if stat.None? {
        cgUsage, cgThrottled := None, None;
        return;
      }
      if stat.value.usage.Some? {
        if cgUsage.Some? {
          var rate := CounterRate(stat.value.usage.value, cgUsage.value, seconds);
          r := r.(cpuPercent := Scaled(rate, 0.0001));
        }
        cgUsage := stat.value.usage;
      } else {
        cgUsage := None;
      }
      if stat.value.throttled.Some? {
        if cgThrottled.Some? {
          var rate := CounterRate(stat.value.throttled.value, cgThrottled.value, seconds);
          r := r.(throttledMs := Scaled(rate, 0.001));
        }
        cgThrottled := stat.value.throttled;
      } else {
        cgThrottled := None;
      }
    }

    method CgroupIfConfigured(s: Sources) returns (r: Option<CgroupReport>)
      requires CgroupMemory(cgIdentity, cgUsage, cgThrottled) == CgroupMemoryOf(last, config)
      modifies `cgUsage, `cgThrottled, `cgIdentity
      ensures r == CgroupIf(config.cgroup, s, CgroupMemoryOf(last, config), seconds)
      ensures CgroupMemory(cgIdentity, cgUsage, cgThrottled) == CgroupMemoryOf(Some(s), config)
    {
      r := None;
      if config.cgroup {
        var c := Cgroup(s.cgroupIdentity, s.cgroupStat);
        r := Some(c);
      }
    }

    /** The sections that follow the processes. */
    method Devices(s: Sources) returns (net: NetReport, disks: DiskReport, cgroup: Option<CgroupReport>)
      requires networkPrevious == NetMemory(last) && disksPrevious == DiskMemory(last)
      requires CgroupMemory(cgIdentity, cgUsage, cgThrottled) == CgroupMemoryOf(last, config)
      modifies `networkPrevious, `disksPrevious, `cgUsage, `cgThrottled, `cgIdentity
      ensures net == NetReportOf(s.net, NetMemory(last), seconds) && networkPrevious == NetMemory(Some(s))
      ensures disks == DiskReportOf(s.disks, DiskMemory(last), seconds) && disksPrevious == DiskMemory(Some(s))
      ensures cgroup == CgroupIf(config.cgroup, s, CgroupMemoryOf(last, config), seconds)
      ensures CgroupMemory(cgIdentity, cgUsage, cgThrottled) == CgroupMemoryOf(Some(s), config)
    {
      net := Network(s.net);
      disks := Disk(s.disks);
      cgroup := CgroupIfConfigured(s);
    }

    /** The row of one process; it has a CPU share if the sample before was of the same process. */
    method Row(p: ProcessSample) returns (row: ProcessRow)
      requires ConfigOk(config)
      ensures row == RowOf(p, processesPrevious, seconds, config.pageSize, config.clockTicks)
    {
      row := ProcessRow(p.pid, p.starttime, p.rssPages * config.pageSize, 0.0, false);
      if p.pid in processesPrevious && processesPrevious[p.pid].starttime == p.starttime {
        var rate := CounterRate(p.ticks, processesPrevious[p.pid].ticks, seconds);
        if rate.Some? {
          row := row.(cpuPercent := rate.value * 100.0 / config.clockTicks as real, cpuValid := true);
        }
      }
    }

    /** One process: it is counted, and it has a row if it was sampled. */
    method Visit(e: ProcessEntry, before: seq<ProcessRow>, t: Tally, m: map<int, Ticks>)
      returns (rows: seq<ProcessRow>, tally: Tally, next: map<int, Ticks>)
      requires ConfigOk(config)
      ensures tally == Counted(t, e, config.pageSize)
      ensures var s := SampleOf(e, config.pageSize);
              if s.Some? then
                && rows == before + [RowOf(s.value, processesPrevious, seconds, config.pageSize, config.clockTicks)]
                && next == m[s.value.pid := Ticks(s.value.starttime, s.value.ticks)]
              else rows == before && next == m
    {
      rows, tally, next := before, t, m;
      match e.read {
        case Denied => tally := tally.(denied := tally.denied + 1);
        case Vanished => tally := tally.(vanished := tally.vanished + 1);
        case ReadFailed => tally := tally.(malformed := tally.malformed + 1);
        case Parsed(sample) =>
          if sample.None? || sample.value.pid != e.pid || sample.value.rssPages > MAX64 / config.pageSize {
            tally := tally.(malformed := tally.malformed + 1);
          } else {
            var p := sample.value;
            var row := Row(p);
            next := next[p.pid := Ticks(p.starttime, p.ticks)];
            tally := tally.(sampled := tally.sampled + 1);
            rows := rows + [row];
          }
      }
    }

    /** The loop over the processes, up to the selection. */
    method Scan(entries: seq<ProcessEntry>) returns (rows: seq<ProcessRow>, tally: Tally, next: map<int, Ticks>)
      requires ConfigOk(config)
      ensures rows == RowsOf(entries, processesPrevious, seconds, config.pageSize, config.clockTicks)
      ensures tally == TallyOf(entries, config.pageSize) && next == Baseline(Readings(entries, config.pageSize))
    {
      rows, tally, next := [], Tally(0, 0, 0, 0), map[];
      for i := 0 to |entries|
        invariant rows == RowsOf(entries[..i], processesPrevious, seconds, config.pageSize, config.clockTicks)
        invariant tally == TallyOf(entries[..i], config.pageSize)
        invariant next == Baseline(Readings(entries[..i], config.pageSize))
      {
        assert entries[..i + 1][..i] == entries[..i] && entries[..i + 1][i] == entries[i];
        BaselineSnoc(Readings(entries[..i], config.pageSize), Reading(entries[i], config.pageSize));
        rows, tally, next := Visit(entries[i], rows, tally, next);
      }
      assert entries[..|entries|] == entries;
    }

    method Processes(s: Sources) returns (r: ProcessReport)
      requires ConfigOk(config) && DistinctEntries(Visited(s))
      modifies `processesPrevious
      ensures IsProcessReport(s, old(processesPrevious), seconds, config, r)
      ensures processesPrevious == Baseline(Readings(Visited(s), config.pageSize))
    {
      if s.pids.None? {
        processesPrevious := map[];
        return ProcessReport([], Tally(0, 0, 0, 0), false, Unavailable);
      }
      var rows, tally, next := Scan(s.pids.value[..Min(s.visited, |s.pids.value|)]);
      RowsDistinct(Visited(s), processesPrevious, seconds, config.pageSize, config.clockTicks);
      processesPrevious := next;
      var kept, truncated := Select(rows, config.maxProcesses);
      var partial := s.visited < |s.pids.value| || tally.denied > 0 || tally.malformed > 0;
      r := ProcessReport(kept, tally, truncated, if partial then Partial else Fine);
    }

    /** One collection. Its report depends on nothing but the last two samples. */
    method Collect(s: Sources) returns (r: Report)
      requires Valid() && DistinctEntries(Visited(s))
      modifies this
      ensures Valid() && last == Some(s) && IsReport(config, old(last), s, r)
    {
      ghost var l := last;
      seconds := if previousTime.Some? then s.now - previousTime.value else 0.0;
      assert seconds == SecondsSince(l, s.now);
      var cpu := Cpu(s.cpu);
      assert cpu == CpuReportOf(s.cpu, CpuMemory(l));
      var processes := Processes(s);
      assert IsProcessReport(s, ProcessMemory(l, config), seconds, config, processes);
      var net, disks, cgroup := Devices(s);
      r := Report(cpu, processes, net, disks, cgroup);
      previousTime, last := Some(s.now), Some(s);
    }

    /** Any number of collections: every report comes from its own sample and the one before it. */
    method CollectAll(samples: seq<Sources>) returns (reports: seq<Report>)
      requires Valid() && last == None
      requires forall i :: 0 <= i < |samples| ==> DistinctEntries(Visited(samples[i]))
      modifies this
      ensures |reports| == |samples| && AreReports(config, samples, reports)
    {
      reports := [];
      for n := 0 to |samples|
        invariant Valid() && last == Before(samples, n) && |reports| == n && AreReports(config, samples, reports)
      {
        var r := Collect(samples[n]);
        ReportsSnoc(config, samples, reports, r);
        reports := reports + [r];
      }
    }
  }

  // ----- What a published rate means -----

  /**
   * The usage of a CPU is its busy share since the collection just before if that one read the same CPU, no
   * counter went back and time went by; otherwise it is 0, and the state says that it is not known.
   */
  lemma CpuUsageMeaning(last: Option<Sources>, s: Sources, id: CpuId)
    requires s.cpu.Some? && All in s.cpu.value && id in s.cpu.value
    ensures var r, now := CpuReportOf(s.cpu, CpuMemory(last)), s.cpu.value[id];
            id in r.usage &&
            if last.Some? && last.value.cpu.Some? && All in last.value.cpu.value && id in last.value.cpu.value
               && NoReset(now, last.value.cpu.value[id]) && Elapsed(now, last.value.cpu.value[id], 8) > 0
            then
              var before := last.value.cpu.value[id];
              && 0.0 <= r.usage[id] <= 100.0
              && r.usage[id] * Elapsed(now, before, 8) as real
                 == 100.0 * (Elapsed(now, before, 8) - IdleOf(now, before)) as real
            else r.usage[id] == 0.0 && r.state != Fine
  {
    if id in CpuMemory(last) {
      UsageIsShare(s.cpu.value[id], CpuMemory(last)[id]);
    }
  }

  /** Line i is the newest good one of the interface in the sample just before, and it has the same index. */
  ghost predicate NetBefore(last: Option<Sources>, name: string, identity: string, i: nat) {
    && last.Some? && last.value.net.Some? && Newest(last.value.net.value, name, i)
    && last.value.net.value[i].sample.value.identity == identity
  }

  /** A rate is the difference over exactly the interval since the sample just before. */
  predicate RateIs(r: Option<real>, now: nat, before: nat, seconds: real, unit: real) {
    && (r.Some? <==> before <= now && seconds > 0.0)
    && (r.Some? ==> r.value * seconds == unit * (now - before) as real)
  }

  predicate NetRowIs(row: NetRow, now: NetSample, before: NetSample, seconds: real) {
    RateIs(row.rxRate, now.rx, before.rx, seconds, 1.0) && RateIs(row.txRate, now.tx, before.tx, seconds, 1.0)
  }

  /**
   * An interface has rates exactly when the sample just before read the same interface (the same name and
   * index), a counter did not go back, and time went by; a rate is the difference over that interval.
   */
  lemma NetRateMeaning(last: Option<Sources>, s: Sources, name: string, n: NetSample)
    ensures var seconds := if last.Some? then s.now - last.value.now else 0.0;
            var row := NetRowOf(name, n, NetMemory(last), seconds);
            && (forall i: nat {:trigger NetBefore(last, name, n.identity, i)} ::
                  NetBefore(last, name, n.identity, i) ==>
                    NetRowIs(row, n, last.value.net.value[i].sample.value, seconds))
            && ((exists i: nat :: NetBefore(last, name, n.identity, i)) || (row.rxRate == None && row.txRate == None))
            && row.name == name && row.rxBytes == n.rx && row.txBytes == n.tx
  {
    if last.Some? && last.value.net.Some? {
      BaselineIsNewest(last.value.net.value, name);
      if name in NetMemory(last) && NetMemory(last)[name].identity == n.identity {
        var i: nat :| Newest(last.value.net.value, name, i);
        assert NetBefore(last, name, n.identity, i);
      }
    }
  }

  /** Process i is the newest one of the pid in the sample just before, and b is what was read of it. */
  ghost predicate ProcessBefore(last: Option<Sources>, c: Config, pid: int, i: nat, b: ProcessSample)
    requires ConfigOk(c)
  {
    && last.Some? && Newest(Readings(Visited(last.value), c.pageSize), pid, i)
    && SampleOf(Visited(last.value)[i], c.pageSize) == Some(b)
  }

  /**
   * A process has a CPU share exactly when the collection just before sampled the same process (pid and
   * start time), its CPU time did not go back, and time went by.
   */
  lemma ProcessRateMeaning(last: Option<Sources>, s: Sources, c: Config, p: ProcessSample)
    requires ConfigOk(c)
    ensures var seconds := if last.Some? then s.now - last.value.now else 0.0;
            var row := RowOf(p, ProcessMemory(last, c), seconds, c.pageSize, c.clockTicks);
            && (row.cpuValid <==> seconds > 0.0 && exists i: nat, b ::
                  ProcessBefore(last, c, p.pid, i, b) && b.starttime == p.starttime && b.ticks <= p.ticks)
            && (forall i: nat, b :: row.cpuValid && ProcessBefore(last, c, p.pid, i, b) ==>
                  row.cpuPercent * c.clockTicks as real * seconds == 100.0 * (p.ticks - b.ticks) as real)
            && (!row.cpuValid ==> row.cpuPercent == 0.0)
  {
    if last.Some? {
      var lines := Readings(Visited(last.value), c.pageSize);
      BaselineIsNewest(lines, p.pid);
      if p.pid in ProcessMemory(last, c) {
        var i: nat :| Newest(lines, p.pid, i);
        assert Good(lines, p.pid, i);
        var b := SampleOf(Visited(last.value)[i], c.pageSize).value;
        assert ProcessBefore(last, c, p.pid, i, b);
      }
    }
  }

  /** Line i is the newest good one of the device in the sample just before. */
  ghost predicate DiskBefore(last: Option<Sources>, key: string, i: nat) {
    last.Some? && last.value.disks.Some? && Newest(last.value.disks.value, key, i)
  }

  /** The requests of a device: reads and writes together, if both have a rate. */
  predicate IopsIs(iops: Option<real>, now: DiskCounters, before: DiskCounters, seconds: real) {
    && (iops.Some? <==> before[2] <= now[2] && before[3] <= now[3] && seconds > 0.0)
    && (iops.Some? ==> iops.value * seconds == ((now[2] - before[2]) + (now[3] - before[3])) as real)
  }

  /** Milliseconds busy as a share of the interval, in percent, cut at 100. */
  predicate BusyIs(busy: Option<real>, now: nat, before: nat, seconds: real) {
    && (busy.Some? <==> before <= now && seconds > 0.0)
    && (busy.Some? ==> 0.0 <= busy.value <= 100.0
                       && (busy.value < 100.0 ==> busy.value * seconds * 10.0 == (now - before) as real)
                       && (busy.value == 100.0 ==> (now - before) as real >= 1000.0 * seconds))
  }

  lemma RatesAdd(a: real, b: real, seconds: real)
    ensures (a + b) * seconds == a * seconds + b * seconds
  {
  }

  lemma BusyShare(now: nat, before: nat, seconds: real)
    ensures var busy := CounterRate(now, before, seconds);
            BusyIs(if busy.Some? then Some(if busy.value / 10.0 < 100.0 then busy.value / 10.0 else 100.0) else None,
                   now, before, seconds)
  {
    var busy := CounterRate(now, before, seconds);
    if busy.Some? {
      assert busy.value / 10.0 * seconds * 10.0 == busy.value * seconds;
      if busy.value >= 1000.0 {
        assert (busy.value - 1000.0) * seconds >= 0.0;
      }
    }
  }

  lemma ScaledRate(now: nat, before: nat, seconds: real, unit: real)
    ensures RateIs(Scaled(CounterRate(now, before, seconds), unit), now, before, seconds, unit)
  {
    var r := CounterRate(now, before, seconds);
    if r.Some? {
      assert r.value * unit * seconds == r.value * seconds * unit;
    }
  }

  lemma RequestRate(now: DiskCounters, before: DiskCounters, seconds: real)
    ensures var a, b := CounterRate(now[2], before[2], seconds), CounterRate(now[3], before[3], seconds);
            IopsIs(if a.Some? && b.Some? then Some(a.value + b.value) else None, now, before, seconds)
  {
    var a, b := CounterRate(now[2], before[2], seconds), CounterRate(now[3], before[3], seconds);
    if a.Some? && b.Some? {
      RatesAdd(a.value, b.value, seconds);
    }
  }

  /** What a row says of a device, given its counters before: bytes (a sector is 512), requests, busy share. */
  predicate DiskRowIs(row: DiskRow, now: DiskCounters, before: DiskCounters, seconds: real) {
    && RateIs(row.read, now[0], before[0], seconds, 512.0) && RateIs(row.write, now[1], before[1], seconds, 512.0)
    && IopsIs(row.iops, now, before, seconds) && BusyIs(row.busy, now[4], before[4], seconds)
  }

  lemma DiskRowAgainst(key: string, d: DiskCounters, memory: map<string, DiskCounters>, seconds: real)
    requires key in memory
    ensures DiskRowIs(DiskRowOf(key, d, memory, seconds), d, memory[key], seconds)
  {
    var before := memory[key];
    ScaledRate(d[0], before[0], seconds, 512.0);
    ScaledRate(d[1], before[1], seconds, 512.0);
    RequestRate(d, before, seconds);
    BusyShare(d[4], before[4], seconds);
  }

  /** The same for a device: bytes read and written, requests, and the busy share. */
  lemma DiskRateMeaning(last: Option<Sources>, s: Sources, key: string, d: DiskCounters)
    ensures var seconds := if last.Some? then s.now - last.value.now else 0.0;
            var row := DiskRowOf(key, d, DiskMemory(last), seconds);
            && (forall i: nat {:trigger DiskBefore(last, key, i)} :: DiskBefore(last, key, i) ==>
                  DiskRowIs(row, d, last.value.disks.value[i].sample.value, seconds))
            && ((exists i: nat :: DiskBefore(last, key, i)) || row == DiskRow(key, None, None, None, None))
  {
    if last.Some? && last.value.disks.Some? {
      BaselineIsNewest(last.value.disks.value, key);
      if key in DiskMemory(last) {
        DiskRowAgainst(key, d, DiskMemory(last), SecondsSince(last, s.now));
        var i: nat :| Newest(last.value.disks.value, key, i);
        assert DiskBefore(last, key, i);
      }
    }
  }

  /** Both samples read the statistics of the same cgroup. */
  predicate SameCgroup(last: Option<Sources>, s: Sources) {
    && last.Some? && s.cgroupIdentity != "" && last.value.cgroupIdentity == s.cgroupIdentity
    && last.value.cgroupStat.Some? && s.cgroupStat.Some?
  }

  predicate FieldRateIs(r: Option<real>, now: Option<nat>, before: Option<nat>, seconds: real, unit: real) {
    if now.Some? && before.Some? then RateIs(r, now.value, before.value, seconds, unit) else r == None
  }

  /** The same for the CPU time and the throttled time of the cgroup, from microseconds to percent and milliseconds. */
  lemma CgroupRateMeaning(last: Option<Sources>, s: Sources, c: Config)
    requires c.cgroup
    ensures var seconds := if last.Some? then s.now - last.value.now else 0.0;
            var r := CgroupReportOf(s.cgroupIdentity, s.cgroupStat, CgroupMemoryOf(last, c), seconds);
            if SameCgroup(last, s) then
              var now, before := s.cgroupStat.value, last.value.cgroupStat.value;
              && FieldRateIs(r.cpuPercent, now.usage, before.usage, seconds, 0.0001)
              && FieldRateIs(r.throttledMs, now.throttled, before.throttled, seconds, 0.001)
            else r == CgroupReport(None, None)
  {
  }

  lemma NetRowsSnoc(lines: seq<Keyed<string, NetSample>>, line: Keyed<string, NetSample>,
                    previous: map<string, NetSample>, seconds: real)
    ensures NetRows(lines + [line], previous, seconds) ==
            NetRows(lines, previous, seconds)
            + if line.sample.Some? then [NetRowOf(line.key, line.sample.value, previous, seconds)] else []
  {
    assert (lines + [line])[..|lines|] == lines;
  }

  lemma NetCompleteSnoc(lines: seq<Keyed<string, NetSample>>, line: Keyed<string, NetSample>, rows: seq<NetRow>,
                        previous: map<string, NetSample>, seconds: real)
    ensures line.sample.None? ==> !NetComplete(lines + [line], rows)
    ensures line.sample.Some? ==>
              var row := NetRowOf(line.key, line.sample.value, previous, seconds);
              NetComplete(lines + [line], rows + [row]) <==>
                NetComplete(lines, rows) && row.rxRate.Some? && row.txRate.Some?
  {
    assert (lines + [line])[|lines|] == line;
    assert forall i :: 0 <= i < |lines| ==> (lines + [line])[i] == lines[i];
    if line.sample.Some? {
      var row := NetRowOf(line.key, line.sample.value, previous, seconds);
      assert (rows + [row])[|rows|] == row;
      assert forall i :: 0 <= i < |rows| ==> (rows + [row])[i] == rows[i];
    }
  }

  /** One more line of the disk table. */
  lemma DiskStep(lines: seq<Keyed<string, DiskCounters>>, line: Keyed<string, DiskCounters>,
                 previous: map<string, DiskCounters>, seconds: real)
    ensures Baseline(lines + [line]) == if line.sample.Some? then Baseline(lines)[line.key := line.sample.value]
                                        else Baseline(lines)
    ensures DiskRows(lines + [line], previous, seconds) ==
            if line.sample.Some?
            then DiskRows(lines, previous, seconds) + [DiskRowOf(line.key, line.sample.value, previous, seconds)]
            else DiskRows(lines, previous, seconds)
    ensures AllGood(lines + [line]) <==> AllGood(lines) && line.sample.Some?
  {
    assert (lines + [line])[..|lines|] == lines && (lines + [line])[|lines|] == line;
    assert forall i :: 0 <= i < |lines| ==> (lines + [line])[i] == lines[i];
  }
}
