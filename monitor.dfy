/**
 * Sampling, buffering and alerting of the system monitor (core/monitor.py).
 *
 * The operating-system reads (per-core CPU percentages, memory and disk
 * usage, cumulative network byte counters) and the wall clock are inputs:
 * a read that raises is `None`. Instants are seconds as `real`; rates and
 * percentages are `real`.
 */
module Monitor {
  import opened Common
  import Fifo

  // ---------------------------------------------------------------------
  // SystemMetrics and to_dict
  // ---------------------------------------------------------------------

  /** One immutable sample. */
  datatype SystemMetrics = SystemMetrics(
    timestamp: real,
    cpuPercent: real,
    memoryPercent: real,
    diskPercent: real,
    networkSent: real,
    networkRecv: real)

  /** A value of the flat record: the ISO-formatted instant or a number. */
  datatype Field = Timestamp(instant: real) | Number(value: real)

  /** The keys of the record `to_dict` builds. */
  const MetricsFields: set<string> :=
    {"timestamp", "cpu_percent", "memory_percent", "disk_percent", "network_sent", "network_recv"}

  /** `SystemMetrics.to_dict`: the flat record handed to the repository. */
  function ToDict(m: SystemMetrics): (d: map<string, Field>)
    ensures d.Keys == MetricsFields
    ensures FromDict(d) == Some(m)
  {
    map["timestamp" := Timestamp(m.timestamp),
        "cpu_percent" := Number(m.cpuPercent),
        "memory_percent" := Number(m.memoryPercent),
        "disk_percent" := Number(m.diskPercent),
        "network_sent" := Number(m.networkSent),
        "network_recv" := Number(m.networkRecv)]
  }

  /** Reads a record back into a sample; None when a key is missing or holds the wrong kind of value. */
  function FromDict(d: map<string, Field>): (r: Option<SystemMetrics>)
    ensures r.Some? ==> MetricsFields <= d.Keys
  {
    if MetricsFields <= d.Keys
       && d["timestamp"].Timestamp? && d["cpu_percent"].Number? && d["memory_percent"].Number?
       && d["disk_percent"].Number? && d["network_sent"].Number? && d["network_recv"].Number?
    then Some(SystemMetrics(d["timestamp"].instant, d["cpu_percent"].value, d["memory_percent"].value,
                            d["disk_percent"].value, d["network_sent"].value, d["network_recv"].value))
    else None
  }

  // ---------------------------------------------------------------------
  // CPU aggregation (_get_cpu_usage)
  // ---------------------------------------------------------------------

  /** Python's `max(xs)` on a non-empty list. */
  function Peak(xs: seq<real>): (r: real)
    requires xs != []
    ensures r in xs
    ensures forall i :: 0 <= i < |xs| ==> xs[i] <= r
  {
    if |xs| == 1 then xs[0]
    else
      var rest := Peak(xs[..|xs| - 1]);
      if xs[|xs| - 1] > rest then xs[|xs| - 1] else rest
  }

  /**
   * `max(sum / len, max)` over the per-core percentages, 0.0 for an empty
   * list. The mean never exceeds the peak, so the result is the busiest core.
   */
  function CpuAggregate(cores: seq<real>): (r: real)
    ensures cores == [] ==> r == 0.0
    ensures cores != [] ==> r in cores
    ensures forall i :: 0 <= i < |cores| ==> cores[i] <= r
    ensures cores != [] ==> Sum(cores) / |cores| as real <= r
  {
    if cores == [] then 0.0
    else
      var peak := Peak(cores);
      SumAtMost(cores, peak);
      Max(Sum(cores) / |cores| as real, peak)
  }

  /** `_get_cpu_usage`: a failed per-core read is logged and reported as 0.0. */
  function CpuUsage(read: Option<seq<real>>): (r: real)
    ensures read.None? ==> r == 0.0
    ensures read.Some? ==> r == CpuAggregate(read.value)
  {
    match read
    case None => 0.0
    case Some(cores) => CpuAggregate(cores)
  }

  // ---------------------------------------------------------------------
  // Network rate (_get_network_usage)
  // ---------------------------------------------------------------------

  const BytesPerMiB: real := 1048576.0
  /** The clamp applied to each direction, in MB/s. */
  const RateCeiling: real := 100.0

  /** `_last_network` (bytes sent, bytes received) and `_last_network_time`. */
  datatype NetBaseline = NetBaseline(lastSent: nat, lastRecv: nat, lastTime: real)

  /** One direction: `min(max(0, (current - last) / dt / 1024 / 1024), 100)`. */
  function ClampedRate(current: nat, last: nat, dt: real): (r: real)
    requires dt > 0.0
    ensures 0.0 <= r <= RateCeiling
  {
    var speed := (current - last) as real / dt / BytesPerMiB;
    Min(Max(0.0, speed), RateCeiling)
  }

  /**
   * What the clamped rate means: no growth (or a counter reset) reads as 0;
   * below the ceiling the rate times the elapsed time is exactly the bytes
   * moved, in MiB; the ceiling is reached exactly when 100 MiB per second
   * or more were moved.
   */
  lemma ClampedRateMeaning(current: nat, last: nat, dt: real)
    requires dt > 0.0
    ensures current <= last ==> ClampedRate(current, last, dt) == 0.0
    ensures var r := ClampedRate(current, last, dt);
            r < RateCeiling && current > last ==> r * dt * BytesPerMiB == (current - last) as real
    ensures ClampedRate(current, last, dt) == RateCeiling
            <==> (current - last) as real >= RateCeiling * dt * BytesPerMiB
  {
    ScaledRate((current - last) as real, dt);
  }

  /** Dividing by the elapsed time and by 2^20 is undone by multiplying back. */
  lemma ScaledRate(delta: real, dt: real)
    requires dt > 0.0
    ensures delta / dt / BytesPerMiB * dt * BytesPerMiB == delta
    ensures delta / dt / BytesPerMiB >= RateCeiling <==> delta >= RateCeiling * dt * BytesPerMiB
    ensures delta / dt / BytesPerMiB > 0.0 <==> delta > 0.0
  {
    var speed := delta / dt / BytesPerMiB;
    assert speed * BytesPerMiB == delta / dt;
    assert speed * BytesPerMiB * dt == delta;
    if speed >= RateCeiling {
      assert speed * (dt * BytesPerMiB) >= RateCeiling * (dt * BytesPerMiB);
    }
    if delta >= RateCeiling * dt * BytesPerMiB {
      assert speed * (dt * BytesPerMiB) >= RateCeiling * (dt * BytesPerMiB);
    }
  }

  /**
   * `_get_network_usage` given the counters read (None when
   * `net_io_counters` raised) and the clock: the two rates and the new
   * baseline. A failed read reports (0, 0) and leaves the baseline alone;
   * otherwise the baseline becomes the current counters and instant, and a
   * non-positive elapsed time reports (0, 0).
   */
  function NetworkRates(b: NetBaseline, counters: Option<(nat, nat)>, now: real): (r: (real, real, NetBaseline))
    ensures 0.0 <= r.0 <= RateCeiling && 0.0 <= r.1 <= RateCeiling
    ensures counters.None? ==> r == (0.0, 0.0, b)
    ensures counters.Some? ==> r.2 == NetBaseline(counters.value.0, counters.value.1, now)
    ensures counters.Some? && now - b.lastTime <= 0.0 ==> r.0 == 0.0 && r.1 == 0.0
    ensures counters.Some? && now - b.lastTime > 0.0 ==>
              r.0 == ClampedRate(counters.value.0, b.lastSent, now - b.lastTime)
              && r.1 == ClampedRate(counters.value.1, b.lastRecv, now - b.lastTime)
  {
    match counters
    case None => (0.0, 0.0, b)
    case Some((sent, recv)) =>
      var dt := now - b.lastTime;
      var next := NetBaseline(sent, recv, now);
      if dt > 0.0 then (ClampedRate(sent, b.lastSent, dt), ClampedRate(recv, b.lastRecv, dt), next)
      else (0.0, 0.0, next)
  }

  /**
   * Two calls one second apart, the first at the construction instant:
   * 2 MiB then 4 MiB sent and 1 MiB then 2 MiB received give 2.0 and 1.0 MB/s
   * on the second call.
   */
  lemma TwoReadingsExample(t0: real)
    ensures var first := NetworkRates(NetBaseline(0, 0, t0), Some((2097152, 1048576)), t0);
            first.0 == 0.0 && first.1 == 0.0
            && var second := NetworkRates(first.2, Some((4194304, 2097152)), t0 + 1.0);
               second.0 == 2.0 && second.1 == 1.0
  {
    var first := NetworkRates(NetBaseline(0, 0, t0), Some((2097152, 1048576)), t0);
    assert first.2 == NetBaseline(2097152, 1048576, t0);
    assert ClampedRate(4194304, 2097152, 1.0) == 2.0 by {
      assert (4194304 - 2097152) as real / 1.0 / BytesPerMiB == 2.0;
    }
    assert ClampedRate(2097152, 1048576, 1.0) == 1.0 by {
      assert (2097152 - 1048576) as real / 1.0 / BytesPerMiB == 1.0;
    }
  }

  /**
   * The baseline at construction is (0, 0) bytes, so the first successful
   * read after a positive delay reports the whole cumulative counter over
   * that delay; any host that has moved 100 MiB per elapsed second since boot
   * reports the ceiling, not a rate near zero.
   */
  lemma ColdStartReportsCumulativeCounters(t0: real, now: real, sent: nat, recv: nat)
    requires now > t0
    requires sent as real >= RateCeiling * (now - t0) * BytesPerMiB
    ensures NetworkRates(NetBaseline(0, 0, t0), Some((sent, recv)), now).0 == RateCeiling
  {
    ClampedRateMeaning(sent, 0, now - t0);
  }

  // ---------------------------------------------------------------------
  // collect
  // ---------------------------------------------------------------------

  /**
   * What the operating system and the clock answer during one `collect`:
   * the per-core CPU list, memory and disk percentages and network counters
   * (each None when that read raised), the instant read inside
   * `_get_network_usage`, and the instant stamped on the sample.
   */
  datatype Readings = Readings(
    cpu: Option<seq<real>>,
    memory: Option<real>,
    disk: Option<real>,
    network: Option<(nat, nat)>,
    networkClock: real,
    clock: real)

  /**
   * `collect`: reads CPU, memory, disk and network in that order. CPU and
   * network failures are replaced by zeros; a memory or disk failure
   * propagates (None), and then the network was never read, so the baseline
   * is untouched.
   */
  function Collected(b: NetBaseline, r: Readings): (res: (Option<SystemMetrics>, NetBaseline))
    ensures res.0.None? <==> r.memory.None? || r.disk.None?
    ensures res.0.None? ==> res.1 == b
    ensures res.0.Some? ==>
              var m := res.0.value;
              && m.timestamp == r.clock
              && m.cpuPercent == CpuUsage(r.cpu)
              && m.memoryPercent == r.memory.value
              && m.diskPercent == r.disk.value
              && 0.0 <= m.networkSent <= RateCeiling
              && 0.0 <= m.networkRecv <= RateCeiling
              && (m.networkSent, m.networkRecv, res.1) == NetworkRates(b, r.network, r.networkClock)
  {
    var cpu := CpuUsage(r.cpu);
    match (r.memory, r.disk)
    case (Some(memory), Some(disk)) =>
      var (sent, recv, next) := NetworkRates(b, r.network, r.networkClock);
      (Some(SystemMetrics(r.clock, cpu, memory, disk, sent, recv)), next)
    case _ => (None, b)
  }

  /** A raising disk read ends `collect` before the network is read: the sample is lost and the baseline stays. */
  lemma DiskFailureLosesSample(b: NetBaseline, r: Readings)
    requires r.disk.None?
    ensures Collected(b, r) == (None, b)
  {
  }

  /** A raising per-core read still produces a sample, with 0.0 for the CPU and the other reads as they came. */
  lemma CpuFailureIsIsolated(b: NetBaseline, r: Readings)
    requires r.memory.Some? && r.disk.Some? && r.cpu.None?
    ensures var (sample, next) := Collected(b, r);
            var (sent, recv, rated) := NetworkRates(b, r.network, r.networkClock);
            sample == Some(SystemMetrics(r.clock, 0.0, r.memory.value, r.disk.value, sent, recv)) && next == rated
  {
  }

  /** A raising counter read still produces a sample, with (0, 0) for the network and the baseline kept. */
  lemma NetworkFailureIsIsolated(b: NetBaseline, r: Readings)
    requires r.memory.Some? && r.disk.Some? && r.network.None?
    ensures Collected(b, r).0 == Some(SystemMetrics(r.clock, CpuUsage(r.cpu), r.memory.value, r.disk.value, 0.0, 0.0))
    ensures Collected(b, r).1 == b
  {
  }

  /** `MetricsCollector`: owns the network baseline. */
  class MetricsCollector {
    var lastNetwork: (nat, nat)
    var lastNetworkTime: real

    function Baseline(): NetBaseline
      reads this
    {
      NetBaseline(lastNetwork.0, lastNetwork.1, lastNetworkTime)
    }

    /** The baseline starts at (0, 0) bytes and the construction instant. */
    constructor (now: real)
      ensures Baseline() == NetBaseline(0, 0, now)
    {
      lastNetwork := (0, 0);
      lastNetworkTime := now;
    }

    /** `_get_network_usage`; the locked read-modify-write is one step. */
    method GetNetworkUsage(counters: Option<(nat, nat)>, now: real) returns (sent: real, recv: real)
      modifies this
      ensures (sent, recv, Baseline()) == NetworkRates(old(Baseline()), counters, now)
    {
      if counters.None? {
        return 0.0, 0.0;
      }
      var (currentSent, currentRecv) := counters.value;
      var timeDelta := now - lastNetworkTime;
      if timeDelta > 0.0 {
        sent := ClampedRate(currentSent, lastNetwork.0, timeDelta);
        recv := ClampedRate(currentRecv, lastNetwork.1, timeDelta);
      } else {
        sent, recv := 0.0, 0.0;
      }
      lastNetwork := (currentSent, currentRecv);
      lastNetworkTime := now;
    }

    /** `collect`: None when the memory or disk read raised. */
    method Collect(r: Readings) returns (m: Option<SystemMetrics>)
      modifies this
      ensures (m, Baseline()) == Collected(old(Baseline()), r)
    {
      var cpu := CpuUsage(r.cpu);
      if r.memory.None? || r.disk.None? {
        return None;
      }
      var sent, recv := GetNetworkUsage(r.network, r.networkClock);
      m := Some(SystemMetrics(r.clock, cpu, r.memory.value, r.disk.value, sent, recv));
    }
  }

  // ---------------------------------------------------------------------
  // MetricsBuffer
  // ---------------------------------------------------------------------

  /** One hour of samples at one per second. */
  const DefaultBufferSize: int := 3600

  class MetricsBuffer {
    const maxSize: int
    var buffer: seq<SystemMetrics>

    ghost predicate Valid()
      reads this
    {
      |buffer| <= Fifo.Capacity(maxSize)
    }

    constructor (maxSize: int := DefaultBufferSize)
      ensures Valid() && this.maxSize == maxSize && buffer == []
    {
      this.maxSize := maxSize;
      buffer := [];
    }

    /** `add`: append, then drop the oldest sample when over `maxSize`. */
    method Add(m: SystemMetrics)
      requires Valid()
      modifies this
      ensures Valid()
      ensures buffer == Fifo.Append(old(buffer), m, maxSize)
      ensures buffer == Fifo.Last(old(buffer) + [m], Fifo.Capacity(maxSize))
    {
      buffer := buffer + [m];
      if |buffer| > maxSize {
        buffer := buffer[1..];
      }
    }

    /** `get_last_n`, Python's `buffer[-n:]`; the buffer is not changed. */
    function GetLastN(n: int): (r: seq<SystemMetrics>)
      reads this
      ensures n >= 1 ==> |r| == (if n < |buffer| then n else |buffer|)
      ensures n >= 1 ==> r == buffer[|buffer| - |r|..]
      ensures n == 0 ==> r == buffer
      ensures n < 0 ==> r == (if -n < |buffer| then buffer[-n..] else [])
    {
      Fifo.LastN(buffer, n)
    }
  }

  // ---------------------------------------------------------------------
  // Alerts
  // ---------------------------------------------------------------------

  const DefaultCpuThreshold: real := 80.0

  /** The alert rules; `HighCPUAlert` is the one the source defines. */
  datatype AlertRule = HighCpuAlert(threshold: real := DefaultCpuThreshold)

  /** The message text `High CPU usage: <cpu>%`, kept as the value it shows. */
  datatype AlertMessage = HighCpuUsage(cpuPercent: real)

  /** One queued `(datetime.now(), message)` pair. */
  datatype AlertEvent = AlertEvent(time: real, message: AlertMessage)

  /** `Alert.check`: a message exactly when the CPU percentage is strictly above the threshold. */
  function Check(rule: AlertRule, m: SystemMetrics): (r: Option<AlertMessage>)
    ensures r.Some? <==> m.cpuPercent > rule.threshold
    ensures r.Some? ==> r.value == HighCpuUsage(m.cpuPercent)
  {
    match rule
    case HighCpuAlert(threshold) =>
      if m.cpuPercent > threshold then Some(HighCpuUsage(m.cpuPercent)) else None
  }

  /** The events `check_alerts` enqueues for one sample: one per matching rule, in rule order. */
  function Fired(rules: seq<AlertRule>, m: SystemMetrics, now: real): (r: seq<AlertEvent>)
    ensures |r| <= |rules|
    ensures forall i :: 0 <= i < |r| ==> r[i] == AlertEvent(now, HighCpuUsage(m.cpuPercent))
    decreases |rules|
  {
    if rules == [] then []
    else
      var earlier := Fired(rules[..|rules| - 1], m, now);
      match Check(rules[|rules| - 1], m)
      case Some(message) => earlier + [AlertEvent(now, message)]
      case None => earlier
  }

  /** A single rule fires once or not at all, on the strict threshold. */
  lemma FiredSingle(rule: AlertRule, m: SystemMetrics, now: real)
    ensures Fired([rule], m, now) ==
            if m.cpuPercent > rule.threshold then [AlertEvent(now, HighCpuUsage(m.cpuPercent))] else []
  {
    assert [rule][..0] == [];
  }

  /** Evaluation follows registration order: the rules of `a` fire before those of `b`. */
  lemma {:induction false} FiredConcat(a: seq<AlertRule>, b: seq<AlertRule>, m: SystemMetrics, now: real)
    ensures Fired(a + b, m, now) == Fired(a, m, now) + Fired(b, m, now)
    decreases |b|
  {
    if b == [] {
      assert a + b == a;
    } else {
      var init := b[..|b| - 1];
      assert (a + b)[..|a + b| - 1] == a + init;
      assert (a + b)[|a + b| - 1] == b[|b| - 1];
      FiredConcat(a, init, m, now);
    }
  }

  /** Every rule matches: exactly one event per rule. */
  lemma {:induction false} FiredAllMatch(rules: seq<AlertRule>, m: SystemMetrics, now: real)
    requires forall i :: 0 <= i < |rules| ==> m.cpuPercent > rules[i].threshold
    ensures |Fired(rules, m, now)| == |rules|
    decreases |rules|
  {
    if rules != [] {
      FiredAllMatch(rules[..|rules| - 1], m, now);
    }
  }

  /** No rule matches: nothing is enqueued. */
  lemma {:induction false} FiredNoneMatch(rules: seq<AlertRule>, m: SystemMetrics, now: real)
    requires forall i :: 0 <= i < |rules| ==> m.cpuPercent <= rules[i].threshold
    ensures Fired(rules, m, now) == []
    decreases |rules|
  {
    if rules != [] {
      FiredNoneMatch(rules[..|rules| - 1], m, now);
    }
  }

  /** The default rule list: 85.0 queues one event, 79.9 none. */
  lemma DefaultRuleExamples(m: SystemMetrics, now: real)
    ensures m.cpuPercent == 85.0 ==> Fired([HighCpuAlert(DefaultCpuThreshold)], m, now) == [AlertEvent(now, HighCpuUsage(85.0))]
    ensures m.cpuPercent == 79.9 ==> Fired([HighCpuAlert(DefaultCpuThreshold)], m, now) == []
  {
    FiredSingle(HighCpuAlert(DefaultCpuThreshold), m, now);
  }

  /** `AlertManager`: the registered rules and the FIFO queue of events. */
  class AlertManager {
    var alerts: seq<AlertRule>
    var alertQueue: seq<AlertEvent>

    /** A fresh manager holds one rule, `HighCPUAlert(80.0)`, and an empty queue. */
    constructor ()
      ensures alerts == [HighCpuAlert(DefaultCpuThreshold)] && alertQueue == []
    {
      alerts := [];
      alertQueue := [];
      new;
      AddAlert(HighCpuAlert());
    }

    method AddAlert(alert: AlertRule)
      modifies this
      ensures alerts == old(alerts) + [alert] && alertQueue == old(alertQueue)
    {
      alerts := alerts + [alert];
    }

    /** `check_alerts`: each matching rule enqueues one event, after the existing ones. */
    method CheckAlerts(m: SystemMetrics, now: real)
      modifies this
      ensures alerts == old(alerts)
      ensures alertQueue == old(alertQueue) + Fired(alerts, m, now)
    {
      var i := 0;
      while i < |alerts|
        invariant 0 <= i <= |alerts| && alerts == old(alerts)
        invariant alertQueue == old(alertQueue) + Fired(alerts[..i], m, now)
      {
        assert alerts[..i + 1][..i] == alerts[..i];
        var message := Check(alerts[i], m);
        if message.Some? {
          alertQueue := alertQueue + [AlertEvent(now, message.value)];
        }
        i := i + 1;
      }
      assert alerts[..i] == alerts;
    }
  }

  // ---------------------------------------------------------------------
  // SystemMonitor: one tick of start, and the loop
  // ---------------------------------------------------------------------

  /** The state one tick reads and writes. */
  datatype MonitorState = MonitorState(
    baseline: NetBaseline,
    history: seq<SystemMetrics>,
    rules: seq<AlertRule>,
    queue: seq<AlertEvent>)

  /**
   * Everything from outside that one tick sees: the readings of `collect`,
   * the instant `check_alerts` stamps, whether `save_metrics` returns or
   * raises, how many `save_alert` calls return before one raises, and
   * whether `stop()` is called while the tick is in flight.
   */
  datatype TickInput = TickInput(
    readings: Readings,
    alertClock: real,
    saveMetricsOk: bool,
    alertSaves: nat,
    stopRequested: bool)

  /** The pause after the tick (1 s, or 5 s after an exception), the record saved and the alerts forwarded. */
  datatype TickOutcome = TickOutcome(pause: nat, saved: Option<map<string, Field>>, forwarded: seq<AlertEvent>)

  const TickPause: nat := 1
  const RetryPause: nat := 5

  /**
   * One pass of the body of `start`'s loop: collect, add to the history,
   * check alerts and, when a repository is set, save the record and drain
   * and forward the alerts. Any exception ends the pass with the 5-second
   * pause.
   */
  function TickStep(s: MonitorState, maxSize: int, hasRepository: bool, t: TickInput): (r: (MonitorState, TickOutcome))
    ensures r.0.rules == s.rules
    ensures r.1.pause == TickPause || r.1.pause == RetryPause
    ensures |s.history| <= Fifo.Capacity(maxSize) ==> |r.0.history| <= Fifo.Capacity(maxSize)
  {
    var (sample, baseline) := Collected(s.baseline, t.readings);
    match sample
    case None => (s, TickOutcome(RetryPause, None, []))
    case Some(m) =>
      var history := Fifo.Append(s.history, m, maxSize);
      var queue := s.queue + Fired(s.rules, m, t.alertClock);
      if !hasRepository then
        (MonitorState(baseline, history, s.rules, queue), TickOutcome(TickPause, None, []))
      else if !t.saveMetricsOk then
        (MonitorState(baseline, history, s.rules, queue), TickOutcome(RetryPause, None, []))
      else if t.alertSaves < |queue| then
        (MonitorState(baseline, history, s.rules, []), TickOutcome(RetryPause, Some(ToDict(m)), queue[..t.alertSaves]))
      else
        (MonitorState(baseline, history, s.rules, []), TickOutcome(TickPause, Some(ToDict(m)), queue))
  }

  /** `collect` raised: nothing changes, nothing is saved, and the loop goes on after the retry pause. */
  lemma TickAfterFailedCollect(s: MonitorState, maxSize: int, hasRepository: bool, t: TickInput)
    requires Collected(s.baseline, t.readings).0.None?
    ensures TickStep(s, maxSize, hasRepository, t) == (s, TickOutcome(RetryPause, None, []))
  {
  }

  /** A collected sample is in the history and the baseline has moved on, whatever happens after the append. */
  lemma TickKeepsSample(s: MonitorState, maxSize: int, hasRepository: bool, t: TickInput)
    requires Collected(s.baseline, t.readings).0.Some?
    ensures TickStep(s, maxSize, hasRepository, t).0.history
            == Fifo.Append(s.history, Collected(s.baseline, t.readings).0.value, maxSize)
    ensures TickStep(s, maxSize, hasRepository, t).0.baseline == Collected(s.baseline, t.readings).1
  {
  }

  /**
   * Without a repository, or when `save_metrics` raises, the new events stay
   * queued after the old ones and nothing is forwarded; only the failed save
   * leads to the retry pause.
   */
  lemma TickKeepsAlertsQueued(s: MonitorState, maxSize: int, hasRepository: bool, t: TickInput)
    requires Collected(s.baseline, t.readings).0.Some?
    requires !hasRepository || !t.saveMetricsOk
    ensures var m := Collected(s.baseline, t.readings).0.value;
            var (after, outcome) := TickStep(s, maxSize, hasRepository, t);
            && after.queue == s.queue + Fired(s.rules, m, t.alertClock)
            && outcome.saved.None? && outcome.forwarded == []
            && (outcome.pause == TickPause <==> !hasRepository)
  {
  }

  /**
   * When the record is saved, the queue is drained completely: the events
   * forwarded are a prefix of the old queue followed by the new events, all
   * of them unless a `save_alert` raised, which leads to the retry pause and
   * loses the rest.
   */
  lemma TickDrainsQueue(s: MonitorState, maxSize: int, t: TickInput)
    requires Collected(s.baseline, t.readings).0.Some?
    requires t.saveMetricsOk
    ensures var m := Collected(s.baseline, t.readings).0.value;
            var queue := s.queue + Fired(s.rules, m, t.alertClock);
            var (after, outcome) := TickStep(s, maxSize, true, t);
            && after.queue == []
            && outcome.saved == Some(ToDict(m))
            && outcome.forwarded <= queue
            && |outcome.forwarded| == (if t.alertSaves < |queue| then t.alertSaves else |queue|)
            && (outcome.pause == TickPause <==> outcome.forwarded == queue)
  {
  }

  /**
   * As shipped, the repository has no `save_alert`, so the first call raises
   * (`alertSaves == 0`): once the record is saved, any queued event is
   * drained and then lost, nothing is forwarded, and the tick ends in the
   * retry pause.
   */
  lemma TickWithMissingSaveAlert(s: MonitorState, maxSize: int, t: TickInput)
    requires Collected(s.baseline, t.readings).0.Some?
    requires t.saveMetricsOk && t.alertSaves == 0
    requires s.queue + Fired(s.rules, Collected(s.baseline, t.readings).0.value, t.alertClock) != []
    ensures var (after, outcome) := TickStep(s, maxSize, true, t);
            after.queue == [] && outcome.forwarded == [] && outcome.pause == RetryPause
  {
  }

  /** A fresh monitor whose first sample reads 85% CPU loses its one high-CPU event this way. */
  lemma MissingSaveAlertLosesFirstEvent(now: real, r: Readings, t: TickInput)
    requires r.memory.Some? && r.disk.Some? && r.cpu == Some([85.0])
    requires t.readings == r && t.saveMetricsOk && t.alertSaves == 0
    ensures var s := MonitorState(NetBaseline(0, 0, now), [], [HighCpuAlert(DefaultCpuThreshold)], []);
            var (after, outcome) := TickStep(s, DefaultBufferSize, true, t);
            after.queue == [] && outcome.forwarded == [] && outcome.pause == RetryPause
  {
    var s := MonitorState(NetBaseline(0, 0, now), [], [HighCpuAlert(DefaultCpuThreshold)], []);
    var m := Collected(s.baseline, r).0.value;
    assert CpuAggregate([85.0]) == 85.0;
    FiredSingle(HighCpuAlert(DefaultCpuThreshold), m, t.alertClock);
    TickWithMissingSaveAlert(s, DefaultBufferSize, t);
  }

  /**
   * With a `save_alert` that returns, every event queued before and during
   * the tick is forwarded, in queue order, the queue is left empty and the
   * tick ends in the normal pause.
   */
  lemma TickWithSaveAlert(s: MonitorState, maxSize: int, t: TickInput)
    requires Collected(s.baseline, t.readings).0.Some?
    requires t.saveMetricsOk
    requires t.alertSaves >= |s.queue + Fired(s.rules, Collected(s.baseline, t.readings).0.value, t.alertClock)|
    ensures var (after, outcome) := TickStep(s, maxSize, true, t);
            && after.queue == []
            && outcome.forwarded == s.queue + Fired(s.rules, Collected(s.baseline, t.readings).0.value, t.alertClock)
            && outcome.pause == TickPause
  {
  }

  /** The sample `collect` produces in a tick, as a list of zero or one. */
  function NewSamples(b: NetBaseline, r: Readings): seq<SystemMetrics>
  {
    match Collected(b, r).0
    case Some(m) => [m]
    case None => []
  }

  /** The state after running the ticks `ts` in order, and the samples collected on the way. */
  function RunTicks(s: MonitorState, maxSize: int, hasRepository: bool, ts: seq<TickInput>): (r: (MonitorState, seq<SystemMetrics>))
    decreases |ts|
  {
    if ts == [] then (s, [])
    else
      var (before, collected) := RunTicks(s, maxSize, hasRepository, ts[..|ts| - 1]);
      var t := ts[|ts| - 1];
      (TickStep(before, maxSize, hasRepository, t).0, collected + NewSamples(before.baseline, t.readings))
  }

  /** Each tick collects at most one sample, and a tick whose memory read raises collects none. */
  lemma {:induction false} RunTicksSamples(s: MonitorState, maxSize: int, hasRepository: bool, ts: seq<TickInput>)
    ensures |RunTicks(s, maxSize, hasRepository, ts).1| <= |ts|
    ensures ts != [] && ts[|ts| - 1].readings.memory.None? ==>
              RunTicks(s, maxSize, hasRepository, ts).1 == RunTicks(s, maxSize, hasRepository, ts[..|ts| - 1]).1
    decreases |ts|
  {
    if ts != [] {
      RunTicksSamples(s, maxSize, hasRepository, ts[..|ts| - 1]);
    }
  }

  /** The state after the first `k` ticks of `ts`, stepping from the front. */
  function StateAfter(s: MonitorState, maxSize: int, hasRepository: bool, ts: seq<TickInput>, k: nat): (r: MonitorState)
    requires k <= |ts|
    ensures r == RunTicks(s, maxSize, hasRepository, ts[..k]).0
    decreases k
  {
    if k == 0 then s
    else
      var r := TickStep(StateAfter(s, maxSize, hasRepository, ts, k - 1), maxSize, hasRepository, ts[k - 1]).0;
      assert ts[..k][..k - 1] == ts[..k - 1];
      r
  }

  /** One tick extends the window of newest samples by the sample it collects, if any. */
  lemma TickHistory(before: MonitorState, maxSize: int, hasRepository: bool, t: TickInput, h: seq<SystemMetrics>)
    requires before.history == Fifo.Last(h, Fifo.Capacity(maxSize))
    ensures TickStep(before, maxSize, hasRepository, t).0.history
            == Fifo.Last(h + NewSamples(before.baseline, t.readings), Fifo.Capacity(maxSize))
  {
    var c := Collected(before.baseline, t.readings).0;
    if c.Some? {
      TickKeepsSample(before, maxSize, hasRepository, t);
      Fifo.LastOfAppended(h, c.value, Fifo.Capacity(maxSize));
    } else {
      TickAfterFailedCollect(before, maxSize, hasRepository, t);
      assert h + NewSamples(before.baseline, t.readings) == h;
    }
  }

  /**
   * Across ticks the history holds the newest samples collected, in
   * collection order, never more than the capacity; failed ticks add nothing.
   */
  lemma {:induction false} RunTicksHistory(s: MonitorState, maxSize: int, hasRepository: bool, ts: seq<TickInput>)
    requires |s.history| <= Fifo.Capacity(maxSize)
    ensures RunTicks(s, maxSize, hasRepository, ts).0.history
            == Fifo.Last(s.history + RunTicks(s, maxSize, hasRepository, ts).1, Fifo.Capacity(maxSize))
    ensures |RunTicks(s, maxSize, hasRepository, ts).0.history| <= Fifo.Capacity(maxSize)
    decreases |ts|
  {
    if ts == [] {
      assert s.history + [] == s.history;
    } else {
      var init := ts[..|ts| - 1];
      RunTicksHistory(s, maxSize, hasRepository, init);
      var r := RunTicks(s, maxSize, hasRepository, init);
      var t := ts[|ts| - 1];
      TickHistory(r.0, maxSize, hasRepository, t, s.history + r.1);
      assert s.history + r.1 + NewSamples(r.0.baseline, t.readings)
             == s.history + (r.1 + NewSamples(r.0.baseline, t.readings));
    }
  }

  /** No tick changes the rule list. */
  lemma {:induction false} RunTicksKeepsRules(s: MonitorState, maxSize: int, hasRepository: bool, ts: seq<TickInput>)
    ensures RunTicks(s, maxSize, hasRepository, ts).0.rules == s.rules
    decreases |ts|
  {
    if ts != [] {
      RunTicksKeepsRules(s, maxSize, hasRepository, ts[..|ts| - 1]);
    }
  }

  /** How many ticks `start` runs on `ts`: up to and including the first tick during which `stop()` is called. */
  function TicksBeforeStop(ts: seq<TickInput>): (n: nat)
    ensures n <= |ts|
    ensures forall i :: 0 <= i < n - 1 ==> !ts[i].stopRequested
    ensures n < |ts| ==> n > 0 && ts[n - 1].stopRequested
    ensures n == |ts| && n > 0 && !ts[n - 1].stopRequested ==> forall i :: 0 <= i < |ts| ==> !ts[i].stopRequested
    decreases |ts|
  {
    if ts == [] then 0
    else if ts[0].stopRequested then 1
    else 1 + TicksBeforeStop(ts[1..])
  }

  /** A tick count that ends at the first stop request, or at the end of the inputs, is `TicksBeforeStop`. */
  lemma {:induction false} TicksBeforeStopIs(ts: seq<TickInput>, k: nat)
    requires k <= |ts|
    requires forall i :: 0 <= i < k - 1 ==> !ts[i].stopRequested
    requires (k > 0 && ts[k - 1].stopRequested) || k == |ts|
    ensures TicksBeforeStop(ts) == k
    decreases |ts|
  {
    if ts != [] && !ts[0].stopRequested {
      assert k > 1 || (k == 1 && |ts| == 1) || k == 0;
      if k > 0 {
        TicksBeforeStopIs(ts[1..], k - 1);
      }
    }
  }

  /**
   * The `for` loop handing each drained event to `save_alert`, when the
   * first `saves` calls return and the next one raises: the events handed
   * over, and whether a call raised.
   */
  method ForwardAlerts(alerts: seq<AlertEvent>, saves: nat) returns (forwarded: seq<AlertEvent>, failed: bool)
    ensures failed <==> saves < |alerts|
    ensures forwarded == if failed then alerts[..saves] else alerts
  {
    forwarded := [];
    var i := 0;
    while i < |alerts| && i < saves
      invariant 0 <= i <= |alerts| && i <= saves && forwarded == alerts[..i]
    {
      forwarded := forwarded + [alerts[i]];
      i := i + 1;
    }
    failed := i < |alerts|;
  }

  /** `SystemMonitor`: collector, buffer and alert manager, the optional repository and the `running` flag. */
  class SystemMonitor {
    const collector: MetricsCollector
    const buffer: MetricsBuffer
    const alertManager: AlertManager
    const hasRepository: bool
    var running: bool

    ghost predicate Valid()
      reads buffer
    {
      buffer.Valid()
    }

    function State(): MonitorState
      reads collector, buffer, alertManager
    {
      MonitorState(collector.Baseline(), buffer.buffer, alertManager.alerts, alertManager.alertQueue)
    }

    /** A monitor built at instant `now`, with or without a repository. */
    constructor (now: real, hasRepository: bool := false)
      ensures Valid() && !running && this.hasRepository == hasRepository
      ensures fresh(collector) && fresh(buffer) && fresh(alertManager)
      ensures buffer.maxSize == DefaultBufferSize
      ensures State() == MonitorState(NetBaseline(0, 0, now), [], [HighCpuAlert(DefaultCpuThreshold)], [])
    {
      collector := new MetricsCollector(now);
      buffer := new MetricsBuffer();
      alertManager := new AlertManager();
      this.hasRepository := hasRepository;
      running := false;
    }

    /** `stop`: clears the flag; the loop sees it at its next head. */
    method Stop()
      modifies this
      ensures !running
    {
      running := false;
    }

    /** `get_current_metrics`: None on an empty buffer, otherwise the newest sample. */
    function GetCurrentMetrics(): (m: Option<SystemMetrics>)
      reads buffer
      ensures m.None? <==> buffer.buffer == []
      ensures m.Some? ==> m.value == buffer.buffer[|buffer.buffer| - 1]
    {
      var last := buffer.GetLastN(1);
      if last != [] then Some(last[0]) else None
    }

    /** `get_metrics_history`: the newest `min(seconds, len)` samples, oldest first (all of them for 0). */
    function GetMetricsHistory(seconds: int): (h: seq<SystemMetrics>)
      reads buffer
      ensures seconds >= 1 ==> |h| == (if seconds < |buffer.buffer| then seconds else |buffer.buffer|)
      ensures seconds >= 1 ==> h == buffer.buffer[|buffer.buffer| - |h|..]
      ensures seconds == 0 ==> h == buffer.buffer
      ensures seconds < 0 ==> h == (if -seconds < |buffer.buffer| then buffer.buffer[-seconds..] else [])
    {
      buffer.GetLastN(seconds)
    }

    /** `get_alerts`: removes every queued event and returns them in FIFO order. */
    method GetAlerts() returns (events: seq<AlertEvent>)
      modifies alertManager
      ensures events == old(alertManager.alertQueue)
      ensures alertManager.alertQueue == []
      ensures alertManager.alerts == old(alertManager.alerts)
    {
      events := [];
      while alertManager.alertQueue != []
        invariant events + alertManager.alertQueue == old(alertManager.alertQueue)
        invariant alertManager.alerts == old(alertManager.alerts)
        decreases |alertManager.alertQueue|
      {
        events := events + [alertManager.alertQueue[0]];
        alertManager.alertQueue := alertManager.alertQueue[1..];
      }
    }

    /** One pass of the body of `start`'s loop. */
    method Tick(t: TickInput) returns (outcome: TickOutcome)
      requires Valid()
      modifies collector, buffer, alertManager
      ensures Valid()
      ensures State() == TickStep(old(State()), buffer.maxSize, hasRepository, t).0
      ensures outcome == TickStep(old(State()), buffer.maxSize, hasRepository, t).1
    {
      ghost var before := State();
      var sample := collector.Collect(t.readings);
      if sample.None? {
        assert State() == before;
        return TickOutcome(RetryPause, None, []);
      }
      var m := sample.value;
      buffer.Add(m);
      alertManager.CheckAlerts(m, t.alertClock);
      ghost var queue := before.queue + Fired(before.rules, m, t.alertClock);
      assert State() == MonitorState(Collected(before.baseline, t.readings).1,
                                     Fifo.Append(before.history, m, buffer.maxSize), before.rules, queue);
      if !hasRepository {
        return TickOutcome(TickPause, None, []);
      }
      if !t.saveMetricsOk {
        return TickOutcome(RetryPause, None, []);
      }
      var record := ToDict(m);
      var alerts := GetAlerts();
      assert alerts == queue;
      var forwarded, failed := ForwardAlerts(alerts, t.alertSaves);
      outcome := TickOutcome(if failed then RetryPause else TickPause, Some(record), forwarded);
      assert State() == MonitorState(Collected(before.baseline, t.readings).1,
                                     Fifo.Append(before.history, m, buffer.maxSize), before.rules, []);
    }

    /**
     * `start`: sets `running` and runs ticks while it holds. The tick inputs
     * stand for the unbounded future; `stop()` during a tick takes effect at
     * the next loop head.
     */
    method Start(ts: seq<TickInput>) returns (ticks: nat)
      requires Valid()
      modifies this, collector, buffer, alertManager
      ensures Valid()
      ensures ticks == TicksBeforeStop(ts)
      ensures State() == RunTicks(old(State()), buffer.maxSize, hasRepository, ts[..ticks]).0
      ensures !running <==> ticks > 0 && ts[ticks - 1].stopRequested
    {
      running := true;
      ticks := 0;
      while running && ticks < |ts|
        invariant 0 <= ticks <= |ts| && Valid()
        invariant forall i :: 0 <= i < ticks - 1 ==> !ts[i].stopRequested
        invariant running <==> !(ticks > 0 && ts[ticks - 1].stopRequested)
        invariant State() == StateAfter(old(State()), buffer.maxSize, hasRepository, ts, ticks)
      {
        assert forall i :: 0 <= i < ticks ==> !ts[i].stopRequested;
        var _ := Tick(ts[ticks]);
        if ts[ticks].stopRequested {
          Stop();
        }
        ticks := ticks + 1;
      }
      TicksBeforeStopIs(ts, ticks);
    }
  }

  /** Two qualifying samples, then two drains: both events in tick order, then nothing. */
  method AlertQueueScenario(m1: SystemMetrics, m2: SystemMetrics, t1: real, t2: real)
    returns (first: seq<AlertEvent>, second: seq<AlertEvent>)
    requires m1.cpuPercent > DefaultCpuThreshold && m2.cpuPercent > DefaultCpuThreshold
    ensures first == [AlertEvent(t1, HighCpuUsage(m1.cpuPercent)), AlertEvent(t2, HighCpuUsage(m2.cpuPercent))]
    ensures second == []
  {
    var monitor := new SystemMonitor(0.0);
    monitor.alertManager.CheckAlerts(m1, t1);
    monitor.alertManager.CheckAlerts(m2, t2);
    FiredSingle(HighCpuAlert(DefaultCpuThreshold), m1, t1);
    FiredSingle(HighCpuAlert(DefaultCpuThreshold), m2, t2);
    first := monitor.GetAlerts();
    second := monitor.GetAlerts();
  }
}
