/** The sampling state of the dashboard (src/app/data_collection.rs): one
    `DataState` holds everything collected so far and, once per tick, merges
    the outcome of every provider read into it, throws the whole dataset away
    on the very first tick, and every so often evicts stale history entries
    and stale per-process counters.

    Instants are milliseconds of the monotonic clock. The provider reads are
    inputs: each is an `Ok` value or an `Err`, and the counters the rate
    computations leave behind are given as they are after the read. */
module DataCollection {

  type Instant = nat

  /** `later.duration_since(earlier).as_secs()`: whole seconds, saturating at
      zero should `earlier` be the later instant. */
  function SecondsSince(later: Instant, earlier: Instant): nat
  {
    if earlier <= later then (later - earlier) / 1000 else 0
  }

  datatype Option<T> = None | Some(value: T)

  datatype Error = Error(message: string)

  datatype Result<T> = Ok(value: T) | Err(error: Error)

  // ---------------------------------------------------------------------------
  // What one tick collects

  /** A time-series entry: a payload and the instant it was taken at. */
  datatype Sample<P> = Sample(payload: P, instant: Instant)

  datatype CpuData = CpuData(cpuName: string, cpuUsage: real)
  datatype MemData = MemData(memUsedInMb: nat, memTotalInMb: nat)
  datatype NetworkData = NetworkData(rx: nat, tx: nat)
  datatype IoData = IoData(mountPoint: string, readBytes: nat, writeBytes: nat)
  datatype TempData = TempData(componentName: string, temperature: real)
  datatype ProcessData = ProcessData(pid: nat, name: string, cpuUsagePercent: real, memUsagePercent: real)
  datatype DiskData = DiskData(name: string, mountPoint: string, freeSpace: nat, usedSpace: nat, totalSpace: nat)

  type CpuPackage = Sample<seq<CpuData>>
  type MemSample = Sample<MemData>
  type NetworkSample = Sample<NetworkData>
  type IoPackage = Sample<seq<IoData>>

  datatype TemperatureType = Celsius | Kelvin | Fahrenheit

  /** The last cumulative CPU time of a process and when it was read. */
  type PidStat = (real, Instant)

  /** Everything collected: five time series, the physical-I/O series, and
      the snapshot lists. */
  datatype Data = Data(
    listOfCpuPackages: seq<CpuPackage>,
    listOfIo: seq<IoPackage>,
    listOfPhysicalIo: seq<IoPackage>,
    memory: seq<MemSample>,
    swap: seq<MemSample>,
    listOfTemperatureSensor: seq<TempData>,
    network: seq<NetworkSample>,
    listOfProcesses: seq<ProcessData>,
    groupedListOfProcesses: Option<seq<ProcessData>>,
    listOfDisks: seq<DiskData>)

  /** `Data::default()`: nothing collected. */
  const EmptyData: Data := Data([], [], [], [], [], [], [], [], None, [])

  /** The counters the network read leaves in prev_net_*. */
  datatype NetworkCounters = NetworkCounters(rxBytes: nat, txBytes: nat, accessTime: Instant)

  /** The counters the process read leaves in prev_idle, prev_non_idle and
      prev_pid_stats. */
  datatype ProcessCounters = ProcessCounters(idle: real, nonIdle: real, pidStats: map<string, PidStat>)

  /** The outcome of every provider read of one tick. */
  datatype Readings = Readings(
    network: Result<NetworkSample>,
    networkCounters: NetworkCounters,
    cpu: Result<CpuPackage>,
    memory: Result<MemSample>,
    swap: Result<MemSample>,
    processes: Result<seq<ProcessData>>,
    processCounters: ProcessCounters,
    disks: Result<seq<DiskData>>,
    io: Result<IoPackage>,
    temperatures: Result<seq<TempData>>)

  // ---------------------------------------------------------------------------
  // Merging one read

  /** set_if_valid: a successful read replaces the value whole, a failed one
      leaves it as it was. */
  function SetIfValid<T>(result: Result<T>, valueToSet: T): (r: T)
    ensures result.Ok? ==> r == result.value
    ensures result.Err? ==> r == valueToSet
  {
    match result
    case Ok(v) => v
    case Err(_) => valueToSet
  }

  /** push_if_valid: a successful read is appended after the entries already
      there, a failed one appends nothing. */
  function PushIfValid<T>(result: Result<T>, vectorToPush: seq<T>): (r: seq<T>)
    ensures |r| == |vectorToPush| + (if result.Ok? then 1 else 0)
    ensures r[..|vectorToPush|] == vectorToPush
    ensures result.Ok? ==> r[|vectorToPush|] == result.value
  {
    match result
    case Ok(v) => vectorToPush + [v]
    case Err(_) => vectorToPush
  }

  /** The merge step of update_data: every category takes its own read, in
      the order the source performs them. */
  function Merge(data: Data, readings: Readings): Data
  {
    data.(
      network := PushIfValid(readings.network, data.network),
      listOfCpuPackages := PushIfValid(readings.cpu, data.listOfCpuPackages),
      memory := PushIfValid(readings.memory, data.memory),
      swap := PushIfValid(readings.swap, data.swap),
      listOfProcesses := SetIfValid(readings.processes, data.listOfProcesses),
      listOfDisks := SetIfValid(readings.disks, data.listOfDisks),
      listOfIo := PushIfValid(readings.io, data.listOfIo),
      listOfTemperatureSensor := SetIfValid(readings.temperatures, data.listOfTemperatureSensor))
  }

  /** A failed read changes nothing of its category and a successful one
      changes only its own category; the physical-I/O series and the grouped
      process list are never touched. */
  lemma MergeIsolatesReads(data: Data, readings: Readings)
    ensures var m := Merge(data, readings);
      && (readings.disks.Err? ==> m.listOfDisks == data.listOfDisks)
      && (readings.processes.Err? ==> m.listOfProcesses == data.listOfProcesses)
      && (readings.temperatures.Err? ==> m.listOfTemperatureSensor == data.listOfTemperatureSensor)
      && (readings.cpu.Err? ==> m.listOfCpuPackages == data.listOfCpuPackages)
      && (readings.memory.Err? ==> m.memory == data.memory)
      && (readings.swap.Err? ==> m.swap == data.swap)
      && (readings.network.Err? ==> m.network == data.network)
      && (readings.io.Err? ==> m.listOfIo == data.listOfIo)
      && (readings.disks.Ok? ==> m.listOfDisks == readings.disks.value)
      && (readings.processes.Ok? ==> m.listOfProcesses == readings.processes.value)
      && (readings.temperatures.Ok? ==> m.listOfTemperatureSensor == readings.temperatures.value)
      && (readings.cpu.Ok? ==> m.listOfCpuPackages == data.listOfCpuPackages + [readings.cpu.value])
      && (readings.memory.Ok? ==> m.memory == data.memory + [readings.memory.value])
      && (readings.swap.Ok? ==> m.swap == data.swap + [readings.swap.value])
      && (readings.network.Ok? ==> m.network == data.network + [readings.network.value])
      && (readings.io.Ok? ==> m.listOfIo == data.listOfIo + [readings.io.value])
      && m.listOfPhysicalIo == data.listOfPhysicalIo
      && m.groupedListOfProcesses == data.groupedListOfProcesses
  {
  }

  // ---------------------------------------------------------------------------
  // Eviction

  predicate IsFresh(instant: Instant, cleanInstant: Instant, staleMaxSeconds: nat)
  {
    SecondsSince(cleanInstant, instant) <= staleMaxSeconds
  }

  /** `a` is `b` with some entries left out, the others kept in order. */
  predicate IsSubsequence<T(==)>(a: seq<T>, b: seq<T>)
    decreases |b|
  {
    if a == [] then true
    else if b == [] then false
    else if a[0] == b[0] then IsSubsequence(a[1..], b[1..])
    else IsSubsequence(a, b[1..])
  }

  /** One history filter of the sweep: the entries no more than
      `staleMaxSeconds` whole seconds old at `cleanInstant`, in their order. */
  function KeepFresh<P(==,!new)>(history: seq<Sample<P>>, cleanInstant: Instant, staleMaxSeconds: nat): (kept: seq<Sample<P>>)
    ensures IsSubsequence(kept, history)
    ensures forall e :: e in kept <==> e in history && IsFresh(e.instant, cleanInstant, staleMaxSeconds)
  {
    if history == [] then []
    else
      var rest := KeepFresh(history[1..], cleanInstant, staleMaxSeconds);
      assert history == [history[0]] + history[1..];
      if IsFresh(history[0].instant, cleanInstant, staleMaxSeconds) then
        assert ([history[0]] + rest)[1..] == rest;
        [history[0]] + rest
      else
        rest
  }

  /** The filter keeps every fresh entry as many times as it occurs and
      drops every stale one. */
  lemma {:induction false} KeepFreshCounts<P(!new)>(history: seq<Sample<P>>, cleanInstant: Instant, staleMaxSeconds: nat)
    ensures var kept := KeepFresh(history, cleanInstant, staleMaxSeconds);
      forall e :: multiset(kept)[e] == if IsFresh(e.instant, cleanInstant, staleMaxSeconds) then multiset(history)[e] else 0
    decreases |history|
  {
    if history != [] {
      KeepFreshCounts(history[1..], cleanInstant, staleMaxSeconds);
      assert history == [history[0]] + history[1..];
      assert multiset(history) == multiset{history[0]} + multiset(history[1..]);
    }
  }

  /** Filtering twice keeps what filtering once keeps. */
  lemma {:induction false} KeepFreshIdempotent<P(!new)>(history: seq<Sample<P>>, cleanInstant: Instant, staleMaxSeconds: nat)
    ensures var kept := KeepFresh(history, cleanInstant, staleMaxSeconds);
      KeepFresh(kept, cleanInstant, staleMaxSeconds) == kept
    decreases |history|
  {
    if history != [] {
      KeepFreshIdempotent(history[1..], cleanInstant, staleMaxSeconds);
      var rest := KeepFresh(history[1..], cleanInstant, staleMaxSeconds);
      if IsFresh(history[0].instant, cleanInstant, staleMaxSeconds) {
        assert ([history[0]] + rest)[1..] == rest;
      }
    }
  }

  /** The filter of a history with one more sample at its end is the filter
      of the history, followed by that sample when it is fresh. */
  lemma {:induction false} KeepFreshAppend<P(!new)>(history: seq<Sample<P>>, sample: Sample<P>, cleanInstant: Instant, staleMaxSeconds: nat)
    ensures KeepFresh(history + [sample], cleanInstant, staleMaxSeconds)
      == KeepFresh(history, cleanInstant, staleMaxSeconds) + (if IsFresh(sample.instant, cleanInstant, staleMaxSeconds) then [sample] else [])
    decreases |history|
  {
    if history == [] {
      assert [] + [sample] == [sample];
      assert [sample][1..] == [];
    } else {
      assert (history + [sample])[0] == history[0];
      assert (history + [sample])[1..] == history[1..] + [sample];
      KeepFreshAppend(history[1..], sample, cleanInstant, staleMaxSeconds);
    }
  }

  /** The five history filters of the sweep; the snapshot lists and the
      physical-I/O series are left alone. */
  function EvictStale(data: Data, cleanInstant: Instant, staleMaxSeconds: nat): (evicted: Data)
  {
    data.(
      listOfCpuPackages := KeepFresh(data.listOfCpuPackages, cleanInstant, staleMaxSeconds),
      memory := KeepFresh(data.memory, cleanInstant, staleMaxSeconds),
      swap := KeepFresh(data.swap, cleanInstant, staleMaxSeconds),
      network := KeepFresh(data.network, cleanInstant, staleMaxSeconds),
      listOfIo := KeepFresh(data.listOfIo, cleanInstant, staleMaxSeconds))
  }

  /** The per-process counters a sweep keeps: those read no more than
      `staleMaxSeconds` whole seconds before `cleanInstant`. */
  function FreshPidStats(stats: map<string, PidStat>, cleanInstant: Instant, staleMaxSeconds: nat): (kept: map<string, PidStat>)
    ensures forall pid :: pid in kept <==> pid in stats && IsFresh(stats[pid].1, cleanInstant, staleMaxSeconds)
    ensures forall pid :: pid in kept ==> kept[pid] == stats[pid]
  {
    map pid | pid in stats && IsFresh(stats[pid].1, cleanInstant, staleMaxSeconds) :: stats[pid]
  }

  /** The removal loop of the sweep: every key of `staleList` is removed
      from the map, the others keep their values. */
  method RemoveKeys(stats: map<string, PidStat>, staleList: set<string>) returns (remaining: map<string, PidStat>)
    ensures remaining.Keys == stats.Keys - staleList
    ensures forall pid :: pid in remaining ==> remaining[pid] == stats[pid]
  {
    remaining := stats;
    var toRemove := staleList;
    while toRemove != {}
      invariant toRemove <= staleList
      invariant remaining.Keys == stats.Keys - (staleList - toRemove)
      invariant forall pid :: pid in remaining ==> remaining[pid] == stats[pid]
      decreases toRemove
    {
      var stale :| stale in toRemove;
      remaining := remaining - {stale};
      toRemove := toRemove - {stale};
    }
  }

  /** Whether the sweep runs: more whole seconds than `staleMaxSeconds` since
      the last one. */
  predicate SweepDue(lastClean: Instant, cleanInstant: Instant, staleMaxSeconds: nat)
  {
    SecondsSince(cleanInstant, lastClean) > staleMaxSeconds
  }

  /** The dataset after one update_data call: the reads merged, everything
      discarded on the first run, then the sweep when it is due. */
  function NextData(firstRun: bool, data: Data, readings: Readings, lastClean: Instant,
                    cleanInstant: Instant, staleMaxSeconds: nat): Data
  {
    var merged := Merge(data, readings);
    var reset := if firstRun then EmptyData else merged;
    if SweepDue(lastClean, cleanInstant, staleMaxSeconds) then EvictStale(reset, cleanInstant, staleMaxSeconds)
    else reset
  }

  /** Every entry of the five histories is fresh at `cleanInstant`. */
  predicate AllFresh(data: Data, cleanInstant: Instant, staleMaxSeconds: nat)
  {
    && (forall e :: e in data.listOfCpuPackages ==> IsFresh(e.instant, cleanInstant, staleMaxSeconds))
    && (forall e :: e in data.memory ==> IsFresh(e.instant, cleanInstant, staleMaxSeconds))
    && (forall e :: e in data.swap ==> IsFresh(e.instant, cleanInstant, staleMaxSeconds))
    && (forall e :: e in data.network ==> IsFresh(e.instant, cleanInstant, staleMaxSeconds))
    && (forall e :: e in data.listOfIo ==> IsFresh(e.instant, cleanInstant, staleMaxSeconds))
  }

  // ---------------------------------------------------------------------------
  // Properties of one tick

  /** The first call leaves nothing collected, whatever was there before and
      whatever was read. */
  lemma FirstRunResets(data: Data, readings: Readings, lastClean: Instant, cleanInstant: Instant, staleMaxSeconds: nat)
    ensures NextData(true, data, readings, lastClean, cleanInstant, staleMaxSeconds) == EmptyData
  {
  }

  /** Without a sweep, a later call is exactly the merge of the reads. */
  lemma NoSweepOnlyMerges(data: Data, readings: Readings, lastClean: Instant, cleanInstant: Instant, staleMaxSeconds: nat)
    requires !SweepDue(lastClean, cleanInstant, staleMaxSeconds)
    ensures NextData(false, data, readings, lastClean, cleanInstant, staleMaxSeconds) == Merge(data, readings)
  {
  }

  /** After a sweep, every history entry is at most `staleMaxSeconds` whole
      seconds old at the clean instant, and each of the five histories is
      exactly the filter of the merged one: the fresh entries, in their
      order (see KeepFresh and KeepFreshCounts). */
  lemma SweepKeepsExactlyFresh(firstRun: bool, data: Data, readings: Readings, lastClean: Instant,
                               cleanInstant: Instant, staleMaxSeconds: nat)
    requires SweepDue(lastClean, cleanInstant, staleMaxSeconds)
    ensures var next := NextData(firstRun, data, readings, lastClean, cleanInstant, staleMaxSeconds);
      var merged := if firstRun then EmptyData else Merge(data, readings);
      && AllFresh(next, cleanInstant, staleMaxSeconds)
      && next.listOfCpuPackages == KeepFresh(merged.listOfCpuPackages, cleanInstant, staleMaxSeconds)
      && next.memory == KeepFresh(merged.memory, cleanInstant, staleMaxSeconds)
      && next.swap == KeepFresh(merged.swap, cleanInstant, staleMaxSeconds)
      && next.network == KeepFresh(merged.network, cleanInstant, staleMaxSeconds)
      && next.listOfIo == KeepFresh(merged.listOfIo, cleanInstant, staleMaxSeconds)
  {
  }

  /** The sweep never changes the snapshot lists, the grouped process list or
      the physical-I/O series, and update_data never appends to the
      physical-I/O series. */
  lemma SweepLeavesSnapshots(data: Data, readings: Readings, lastClean: Instant,
                             cleanInstant: Instant, staleMaxSeconds: nat)
    ensures var next := NextData(false, data, readings, lastClean, cleanInstant, staleMaxSeconds);
      var merged := Merge(data, readings);
      && next.listOfDisks == merged.listOfDisks
      && next.listOfProcesses == merged.listOfProcesses
      && next.listOfTemperatureSensor == merged.listOfTemperatureSensor
      && next.groupedListOfProcesses == data.groupedListOfProcesses
      && next.listOfPhysicalIo == data.listOfPhysicalIo
  {
  }

  /** A failed disk read after the first run keeps the disk list of the
      previous tick exactly. */
  lemma FailedDiskReadKeepsSnapshot(data: Data, readings: Readings, lastClean: Instant,
                                    cleanInstant: Instant, staleMaxSeconds: nat)
    requires readings.disks.Err?
    ensures NextData(false, data, readings, lastClean, cleanInstant, staleMaxSeconds).listOfDisks == data.listOfDisks
  {
  }

  /** After the first run, without a sweep, a successful CPU read is appended
      to the CPU history and a failed one leaves it as it was. */
  lemma CpuReadAppends(data: Data, readings: Readings, lastClean: Instant,
                       cleanInstant: Instant, staleMaxSeconds: nat)
    requires !SweepDue(lastClean, cleanInstant, staleMaxSeconds)
    ensures var next := NextData(false, data, readings, lastClean, cleanInstant, staleMaxSeconds);
      && (readings.cpu.Ok? ==> next.listOfCpuPackages == data.listOfCpuPackages + [readings.cpu.value])
      && (readings.cpu.Err? ==> next.listOfCpuPackages == data.listOfCpuPackages)
  {
  }

  /** A second sweep at the same instant removes nothing more. */
  lemma SweepIsIdempotent(data: Data, cleanInstant: Instant, staleMaxSeconds: nat)
    ensures var once := EvictStale(data, cleanInstant, staleMaxSeconds);
      EvictStale(once, cleanInstant, staleMaxSeconds) == once
  {
    KeepFreshIdempotent(data.listOfCpuPackages, cleanInstant, staleMaxSeconds);
    KeepFreshIdempotent(data.memory, cleanInstant, staleMaxSeconds);
    KeepFreshIdempotent(data.swap, cleanInstant, staleMaxSeconds);
    KeepFreshIdempotent(data.network, cleanInstant, staleMaxSeconds);
    KeepFreshIdempotent(data.listOfIo, cleanInstant, staleMaxSeconds);
  }

  /** After the first run, a CPU read taken no more than `staleMaxSeconds`
      whole seconds before the clean instant is the newest CPU entry after a
      sweep, behind the fresh part of the earlier history. */
  lemma FreshCpuReadSurvivesSweep(data: Data, readings: Readings, lastClean: Instant,
                                  cleanInstant: Instant, staleMaxSeconds: nat)
    requires SweepDue(lastClean, cleanInstant, staleMaxSeconds)
    requires readings.cpu.Ok? && IsFresh(readings.cpu.value.instant, cleanInstant, staleMaxSeconds)
    ensures NextData(false, data, readings, lastClean, cleanInstant, staleMaxSeconds).listOfCpuPackages
      == KeepFresh(data.listOfCpuPackages, cleanInstant, staleMaxSeconds) + [readings.cpu.value]
  {
    KeepFreshAppend(data.listOfCpuPackages, readings.cpu.value, cleanInstant, staleMaxSeconds);
  }

  // ---------------------------------------------------------------------------
  // The state

  class DataState {
    var data: Data
    var firstRun: bool
    var staleMaxSeconds: nat
    var prevPidStats: map<string, PidStat>
    var prevIdle: real
    var prevNonIdle: real
    var prevNetRxBytes: nat
    var prevNetTxBytes: nat
    var prevNetAccessTime: Instant
    var temperatureType: TemperatureType
    var lastClean: Instant
    var useCurrentCpuTotal: bool

    /** `DataState::default()`, with the clock reading `now` and the
        retention window given in milliseconds. */
    constructor (staleMaxMilliseconds: nat, now: Instant)
      ensures data == EmptyData && firstRun
      ensures staleMaxSeconds == staleMaxMilliseconds / 1000
      ensures prevPidStats == map[] && prevIdle == 0.0 && prevNonIdle == 0.0
      ensures prevNetRxBytes == 0 && prevNetTxBytes == 0 && prevNetAccessTime == now
      ensures temperatureType == Celsius && lastClean == now && !useCurrentCpuTotal
    {
      data := EmptyData;
      firstRun := true;
      staleMaxSeconds := staleMaxMilliseconds / 1000;
      prevPidStats := map[];
      prevIdle := 0.0;
      prevNonIdle := 0.0;
      prevNetRxBytes := 0;
      prevNetTxBytes := 0;
      prevNetAccessTime := now;
      temperatureType := Celsius;
      lastClean := now;
      useCurrentCpuTotal := false;
    }

    method SetTemperatureType(temperatureType: TemperatureType)
      modifies this`temperatureType
      ensures this.temperatureType == temperatureType
    {
      this.temperatureType := temperatureType;
    }

    method SetUseCurrentCpuTotal(useCurrentCpuTotal: bool)
      modifies this`useCurrentCpuTotal
      ensures this.useCurrentCpuTotal == useCurrentCpuTotal
    {
      this.useCurrentCpuTotal := useCurrentCpuTotal;
    }

    /** update_data: merge the reads, reset on the first run, then sweep
        stale entries when the last sweep is long enough ago. */
    method UpdateData(readings: Readings, cleanInstant: Instant)
      modifies this
      ensures data == NextData(old(firstRun), old(data), readings, old(lastClean), cleanInstant, staleMaxSeconds)
      ensures !firstRun
      ensures prevPidStats == if SweepDue(old(lastClean), cleanInstant, staleMaxSeconds)
        then FreshPidStats(readings.processCounters.pidStats, cleanInstant, staleMaxSeconds)
        else readings.processCounters.pidStats
      ensures lastClean == if SweepDue(old(lastClean), cleanInstant, staleMaxSeconds) then cleanInstant else old(lastClean)
      ensures prevIdle == readings.processCounters.idle && prevNonIdle == readings.processCounters.nonIdle
      ensures prevNetRxBytes == readings.networkCounters.rxBytes && prevNetTxBytes == readings.networkCounters.txBytes
      ensures prevNetAccessTime == readings.networkCounters.accessTime
      ensures staleMaxSeconds == old(staleMaxSeconds)
      ensures temperatureType == old(temperatureType) && useCurrentCpuTotal == old(useCurrentCpuTotal)
    {
      MergeReadings(readings);
      if firstRun {
        data := EmptyData;
        firstRun := false;
      }

      if SecondsSince(cleanInstant, lastClean) > staleMaxSeconds {
        CleanStale(cleanInstant);
      }
    }

    /** The merge step of update_data, with the counters each read leaves
        behind. */
    method MergeReadings(readings: Readings)
      modifies this`data, this`prevNetRxBytes, this`prevNetTxBytes, this`prevNetAccessTime,
        this`prevIdle, this`prevNonIdle, this`prevPidStats
      ensures data == Merge(old(data), readings)
      ensures prevIdle == readings.processCounters.idle && prevNonIdle == readings.processCounters.nonIdle
      ensures prevPidStats == readings.processCounters.pidStats
      ensures prevNetRxBytes == readings.networkCounters.rxBytes && prevNetTxBytes == readings.networkCounters.txBytes
      ensures prevNetAccessTime == readings.networkCounters.accessTime
    {
      prevNetRxBytes, prevNetTxBytes, prevNetAccessTime :=
        readings.networkCounters.rxBytes, readings.networkCounters.txBytes, readings.networkCounters.accessTime;
      data := data.(network := PushIfValid(readings.network, data.network));
      data := data.(listOfCpuPackages := PushIfValid(readings.cpu, data.listOfCpuPackages));
      data := data.(memory := PushIfValid(readings.memory, data.memory));
      data := data.(swap := PushIfValid(readings.swap, data.swap));
      prevIdle, prevNonIdle, prevPidStats :=
        readings.processCounters.idle, readings.processCounters.nonIdle, readings.processCounters.pidStats;
      data := data.(listOfProcesses := SetIfValid(readings.processes, data.listOfProcesses));
      data := data.(listOfDisks := SetIfValid(readings.disks, data.listOfDisks));
      data := data.(listOfIo := PushIfValid(readings.io, data.listOfIo));
      data := data.(listOfTemperatureSensor := SetIfValid(readings.temperatures, data.listOfTemperatureSensor));

    }

    /** The sweep of update_data: the stale per-process counters are removed,
        the five histories filtered, and the clean instant remembered. */
    method CleanStale(cleanInstant: Instant)
      modifies this`data, this`prevPidStats, this`lastClean
      ensures data == EvictStale(old(data), cleanInstant, staleMaxSeconds)
      ensures prevPidStats == FreshPidStats(old(prevPidStats), cleanInstant, staleMaxSeconds)
      ensures lastClean == cleanInstant
    {
      var staleList := set pid | pid in prevPidStats && SecondsSince(cleanInstant, prevPidStats[pid].1) > staleMaxSeconds;
      prevPidStats := RemoveKeys(prevPidStats, staleList);

      data := data.(listOfCpuPackages := KeepFresh(data.listOfCpuPackages, cleanInstant, staleMaxSeconds));
      data := data.(memory := KeepFresh(data.memory, cleanInstant, staleMaxSeconds));
      data := data.(swap := KeepFresh(data.swap, cleanInstant, staleMaxSeconds));
      data := data.(network := KeepFresh(data.network, cleanInstant, staleMaxSeconds));
      data := data.(listOfIo := KeepFresh(data.listOfIo, cleanInstant, staleMaxSeconds));

      lastClean := cleanInstant;
    }
  }
}
