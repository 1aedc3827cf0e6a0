/** The health check, the monitoring switch and the process ranking of
    backend/services/system_monitor.py. Sampling the machine (psutil) is not modelled:
    a sample arrives as a `Reading`, and the process table as a sequence. */
module SystemMonitor {
  import opened Outcomes
  import opened Text
  import opened Models
  import opened Store
  import opened Sorting

  // ---------------------------------------------------------------------------
  // Rendering a value the way "{x:.1f}" does

  /** The integer nearest to y, ties going to the even neighbour (Python's rounding of a
      value that lies exactly halfway). */
  function RoundHalfEven(y: real): (q: int)
    ensures q as real - 0.5 <= y <= q as real + 0.5
    ensures y == y.Floor as real ==> q == y.Floor
  {
    var f := y.Floor;
    var frac := y - f as real;
    if frac > 0.5 then f + 1
    else if frac < 0.5 then f
    else if f % 2 == 0 then f else f + 1
  }

  /** A count of tenths written out: integer part, '.', one digit. */
  function TenthsText(q: nat): string
  {
    NatToString(q / 10) + "." + [DigitChar(q % 10)]
  }

  /** A non-negative value rounded to one decimal place. */
  function Magnitude1(y: real): string
    requires y >= 0.0
  {
    TenthsText(RoundHalfEven(y * 10.0))
  }

  /** A value rendered with one decimal place; a negative value keeps its minus sign. */
  function Fixed1(x: real): (s: string)
    ensures x >= 0.0 ==> s == Magnitude1(x)
    ensures x < 0.0 ==> s == "-" + Magnitude1(-x)
  {
    if x < 0.0 then "-" + Magnitude1(-x) else Magnitude1(x)
  }

  lemma TenthsScale(n: nat, d: nat)
    ensures (n as real + d as real / 10.0) * 10.0 == (10 * n + d) as real
  {
  }

  lemma RoundWhole(q: nat)
    ensures RoundHalfEven(q as real) == q
  {
    assert (q as real).Floor == q;
  }

  /** n + d/10 is exactly 10n + d tenths. */
  lemma TenthsRound(n: nat, d: nat)
    ensures RoundHalfEven((n as real + d as real / 10.0) * 10.0) == 10 * n + d
  {
    TenthsScale(n, d);
    RoundWhole(10 * n + d);
  }

  lemma TenthsTextDigits(n: nat, d: nat)
    requires d < 10
    ensures TenthsText(10 * n + d) == NatToString(n) + "." + [DigitChar(d)]
  {
    assert (10 * n + d) / 10 == n && (10 * n + d) % 10 == d;
  }

  /** A value that already has one decimal digit is rendered exactly. */
  lemma Fixed1Exact(n: nat, d: nat)
    requires d < 10
    ensures Fixed1(n as real + d as real / 10.0) == NatToString(n) + "." + [DigitChar(d)]
  {
    var y := n as real + d as real / 10.0;
    var q := 10 * n + d;
    assert Fixed1(y) == TenthsText(RoundHalfEven(y * 10.0));
    TenthsRound(n, d);
    TenthsTextDigits(n, d);
    assert TenthsText(RoundHalfEven(y * 10.0)) == TenthsText(q);
  }

  // ---------------------------------------------------------------------------
  // Alerts

  datatype AlertType = CriticalAlert | WarningAlert | ErrorAlert

  /** One entry of the "alerts" list; the error alert carries no threshold. */
  datatype Alert = Alert(alertType: AlertType, message: string, threshold: Option<int>)

  datatype HealthStatus = Healthy | WarningStatus | CriticalStatus | ErrorStatus

  datatype HealthReport = HealthReport(
    status: HealthStatus,
    alerts: seq<Alert>,
    metrics: Option<SystemMetrics>,
    timestamp: int)

  /** The outcome of sampling the machine: a metrics record, or the text of the exception
      the sampling raised. */
  datatype Reading = Read(metrics: SystemMetrics) | ReadFailed(reason: string)

  const CPU_USAGE := "High CPU usage"
  const MEMORY_USAGE := "High memory usage"
  const DISK_USAGE := "High disk usage"
  const CPU_TEMPERATURE := "High CPU temperature"

  function AlertMessage(subject: string, value: real, unit: string): string
  {
    subject + ": " + Fixed1(value) + unit
  }

  /** Used over total as a percentage (Python's true division; zero totals raise). */
  function Percent(used: int, total: int): real
    requires total != 0
  {
    (used as real / total as real) * 100.0
  }

  /** The if/elif pair every metric goes through: above `critical` a critical alert,
      otherwise above `warning` a warning, otherwise nothing. */
  function MetricAlert(subject: string, value: real, critical: int, warning: int,
                       unit: string): (r: Option<Alert>)
    ensures r.Some? ==> r.value.message == AlertMessage(subject, value, unit)
    ensures r.Some? ==> r.value.alertType != ErrorAlert
  {
    if value > critical as real then
      Some(Alert(CriticalAlert, AlertMessage(subject, value, unit), Some(critical)))
    else if value > warning as real then
      Some(Alert(WarningAlert, AlertMessage(subject, value, unit), Some(warning)))
    else None
  }

  function Present(o: Option<Alert>): (r: seq<Alert>)
  {
    if o.Some? then [o.value] else []
  }

  /** Both divisions of the check can be carried out. */
  predicate Divisible(m: SystemMetrics)
  {
    m.memoryTotal != 0 && m.diskTotal != 0
  }

  function CpuAlert(m: SystemMetrics): Option<Alert>
  {
    MetricAlert(CPU_USAGE, m.cpuUsage, 90, 80, "%")
  }

  function MemoryAlert(m: SystemMetrics): Option<Alert>
    requires m.memoryTotal != 0
  {
    MetricAlert(MEMORY_USAGE, Percent(m.memoryUsed, m.memoryTotal), 90, 80, "%")
  }

  function DiskAlert(m: SystemMetrics): Option<Alert>
    requires m.diskTotal != 0
  {
    MetricAlert(DISK_USAGE, Percent(m.diskUsed, m.diskTotal), 95, 85, "%")
  }

  /** A missing temperature and a reading of exactly zero are both skipped. */
  function TemperatureAlert(m: SystemMetrics): Option<Alert>
  {
    if m.cpuTemperature.Some? && m.cpuTemperature.value != 0.0 then
      MetricAlert(CPU_TEMPERATURE, m.cpuTemperature.value, 80, 70, "°C")
    else None
  }

  /** The alerts of one healthy sample, metric by metric. */
  function Alerts(m: SystemMetrics): seq<Alert>
    requires Divisible(m)
  {
    Present(CpuAlert(m)) + Present(MemoryAlert(m)) + Present(DiskAlert(m))
      + Present(TemperatureAlert(m))
  }

  predicate HasCritical(alerts: seq<Alert>)
  {
    exists i :: 0 <= i < |alerts| && alerts[i].alertType == CriticalAlert
  }

  /** The status a list of alerts calls for: the worst alert wins. */
  function StatusOf(alerts: seq<Alert>): HealthStatus
  {
    if HasCritical(alerts) then CriticalStatus
    else if alerts == [] then Healthy
    else WarningStatus
  }

  /** The status of a sample in terms of the thresholds alone. */
  lemma StatusThresholds(m: SystemMetrics)
    requires Divisible(m)
    ensures StatusOf(Alerts(m)) == CriticalStatus <==>
      m.cpuUsage > 90.0 || Percent(m.memoryUsed, m.memoryTotal) > 90.0
      || Percent(m.diskUsed, m.diskTotal) > 95.0
      || (m.cpuTemperature.Some? && m.cpuTemperature.value > 80.0)
    ensures StatusOf(Alerts(m)) == Healthy <==>
      m.cpuUsage <= 80.0 && Percent(m.memoryUsed, m.memoryTotal) <= 80.0
      && Percent(m.diskUsed, m.diskTotal) <= 85.0
      && (m.cpuTemperature.None? || m.cpuTemperature.value <= 70.0)
    ensures StatusOf(Alerts(m)) != ErrorStatus
  {
    var p0, p1, p2, p3 := Present(CpuAlert(m)), Present(MemoryAlert(m)),
                          Present(DiskAlert(m)), Present(TemperatureAlert(m));
    var all := Alerts(m);
    assert all == p0 + p1 + p2 + p3;
    var crit := m.cpuUsage > 90.0 || Percent(m.memoryUsed, m.memoryTotal) > 90.0
      || Percent(m.diskUsed, m.diskTotal) > 95.0
      || (m.cpuTemperature.Some? && m.cpuTemperature.value > 80.0);
    if crit {
      var k: int;
      if m.cpuUsage > 90.0 {
        k := 0;
      } else if Percent(m.memoryUsed, m.memoryTotal) > 90.0 {
        k := |p0|;
      } else if Percent(m.diskUsed, m.diskTotal) > 95.0 {
        k := |p0| + |p1|;
      } else {
        k := |p0| + |p1| + |p2|;
      }
      assert all[k].alertType == CriticalAlert;
    } else {
      forall i | 0 <= i < |all| ensures all[i].alertType != CriticalAlert {
        if i < |p0| {
          assert all[i] == p0[i];
        } else if i < |p0| + |p1| {
          assert all[i] == p1[i - |p0|];
        } else if i < |p0| + |p1| + |p2| {
          assert all[i] == p2[i - |p0| - |p1|];
        } else {
          assert all[i] == p3[i - |p0| - |p1| - |p2|];
        }
      }
    }
  }

  /** A temperature of exactly zero raises no alert, the same as a missing one. */
  lemma ZeroTemperatureIgnored(m: SystemMetrics)
    requires Divisible(m) && m.cpuTemperature == Some(0.0)
    ensures Alerts(m) == Alerts(m.(cpuTemperature := None))
  {
  }

  /** The part of a message before the first ':' names the metric. */
  function Subject(a: Alert): string
  {
    BeforeFirst(a.message, ':')
  }

  /** The position of each metric in the check, CPU first and temperature last. */
  function Rank(subject: string): (r: nat)
    ensures r <= 4
  {
    if subject == CPU_USAGE then 0
    else if subject == MEMORY_USAGE then 1
    else if subject == DISK_USAGE then 2
    else if subject == CPU_TEMPERATURE then 3
    else 4
  }

  predicate Ranked(alerts: seq<Alert>)
  {
    forall i, j :: 0 <= i < j < |alerts| ==> Rank(Subject(alerts[i])) < Rank(Subject(alerts[j]))
  }

  lemma MetricAlertSubject(subject: string, value: real, critical: int, warning: int,
                           unit: string)
    requires ':' !in subject
    ensures var o := MetricAlert(subject, value, critical, warning, unit);
            o.Some? ==> Subject(o.value) == subject
  {
    var rest := ": " + Fixed1(value) + unit;
    assert AlertMessage(subject, value, unit) == subject + rest;
    BeforeFirstStopsAtSeparator(subject, rest, ':');
  }

  /** Appending an alert of a later metric keeps a ranked list ranked. */
  lemma RankedAppend(alerts: seq<Alert>, o: Option<Alert>, r: nat)
    requires Ranked(alerts)
    requires forall i :: 0 <= i < |alerts| ==> Rank(Subject(alerts[i])) < r
    requires o.Some? ==> Rank(Subject(o.value)) == r
    ensures Ranked(alerts + Present(o))
    ensures forall i :: 0 <= i < |alerts + Present(o)| ==>
      Rank(Subject((alerts + Present(o))[i])) <= r
  {
  }

  lemma SubjectRanks()
    ensures ':' !in CPU_USAGE && ':' !in MEMORY_USAGE && ':' !in DISK_USAGE
    ensures ':' !in CPU_TEMPERATURE
    ensures Rank(CPU_USAGE) == 0 && Rank(MEMORY_USAGE) == 1 && Rank(DISK_USAGE) == 2
    ensures Rank(CPU_TEMPERATURE) == 3
  {
    assert CPU_USAGE[5] == 'C' && MEMORY_USAGE[5] == 'm' && DISK_USAGE[5] == 'd';
    assert |CPU_USAGE| != |CPU_TEMPERATURE|;
  }

  /** Each metric's alert is ranked by its position in the check. */
  lemma AlertRanks(m: SystemMetrics)
    requires Divisible(m)
    ensures CpuAlert(m).Some? ==> Rank(Subject(CpuAlert(m).value)) == 0
    ensures MemoryAlert(m).Some? ==> Rank(Subject(MemoryAlert(m).value)) == 1
    ensures DiskAlert(m).Some? ==> Rank(Subject(DiskAlert(m).value)) == 2
    ensures TemperatureAlert(m).Some? ==> Rank(Subject(TemperatureAlert(m).value)) == 3
  {
    SubjectRanks();
    MetricAlertSubject(CPU_USAGE, m.cpuUsage, 90, 80, "%");
    MetricAlertSubject(MEMORY_USAGE, Percent(m.memoryUsed, m.memoryTotal), 90, 80, "%");
    MetricAlertSubject(DISK_USAGE, Percent(m.diskUsed, m.diskTotal), 95, 85, "%");
    if m.cpuTemperature.Some? {
      MetricAlertSubject(CPU_TEMPERATURE, m.cpuTemperature.value, 80, 70, "°C");
    }
  }

  lemma {:induction false} AlertsRanked(m: SystemMetrics)
    requires Divisible(m)
    ensures Ranked(Alerts(m))
    ensures forall i :: 0 <= i < |Alerts(m)| ==> Rank(Subject(Alerts(m)[i])) <= 3
  {
    AlertRanks(m);
    var a0 := Present(CpuAlert(m));
    RankedAppend([], CpuAlert(m), 0);
    assert [] + a0 == a0;
    RankedAppend(a0, MemoryAlert(m), 1);
    var a1 := a0 + Present(MemoryAlert(m));
    RankedAppend(a1, DiskAlert(m), 2);
    var a2 := a1 + Present(DiskAlert(m));
    RankedAppend(a2, TemperatureAlert(m), 3);
    assert Alerts(m) == a2 + Present(TemperatureAlert(m));
  }

  /** Alerts come in the order CPU, memory, disk, temperature, and no metric appears twice. */
  lemma AlertsInMetricOrder(m: SystemMetrics)
    requires Divisible(m)
    ensures forall i, j :: 0 <= i < j < |Alerts(m)| ==>
      Rank(Subject(Alerts(m)[i])) < Rank(Subject(Alerts(m)[j])) <= 3
    ensures forall i, j :: 0 <= i < j < |Alerts(m)| ==> Subject(Alerts(m)[i]) != Subject(Alerts(m)[j])
    ensures |Alerts(m)| <= 4
  {
    AlertsRanked(m);
  }

  // ---------------------------------------------------------------------------
  // Log entries written by the monitor

  function SystemLog(level: LogLevel, message: string, now: int): (e: LogEntry)
    ensures e.source == SYSTEM && e.level == level && e.message == message
    ensures e.details == None && e.userId == None && e.ipAddress == None
  {
    LogEntry(now, level, SYSTEM, message, None, None, None)
  }

  function SystemAlertLog(a: Alert, now: int): (e: LogEntry)
    ensures e.level == CRITICAL && e.message == "SYSTEM ALERT: " + a.message
  {
    SystemLog(CRITICAL, "SYSTEM ALERT: " + a.message, now)
  }

  /** One CRITICAL entry per critical alert, in alert order. */
  function CriticalAlertLogs(alerts: seq<Alert>, now: int): (r: seq<LogEntry>)
    ensures |r| <= |alerts|
  {
    if alerts == [] then []
    else
      var last := alerts[|alerts| - 1];
      CriticalAlertLogs(alerts[..|alerts| - 1], now)
        + (if last.alertType == CriticalAlert then [SystemAlertLog(last, now)] else [])
  }

  /** Every entry written stands for a critical alert. */
  lemma {:induction false} LogsComeFromCriticals(alerts: seq<Alert>, now: int)
    ensures forall e :: e in CriticalAlertLogs(alerts, now) ==>
      exists i :: 0 <= i < |alerts| && alerts[i].alertType == CriticalAlert
                  && e == SystemAlertLog(alerts[i], now)
    decreases |alerts|
  {
    if alerts != [] {
      var init := alerts[..|alerts| - 1];
      LogsComeFromCriticals(init, now);
      assert forall i :: 0 <= i < |init| ==> init[i] == alerts[i];
    }
  }

  /** Every critical alert is written. */
  lemma {:induction false} CriticalsAreLogged(alerts: seq<Alert>, now: int)
    ensures forall i :: 0 <= i < |alerts| && alerts[i].alertType == CriticalAlert ==>
      SystemAlertLog(alerts[i], now) in CriticalAlertLogs(alerts, now)
    decreases |alerts|
  {
    if alerts != [] {
      var init := alerts[..|alerts| - 1];
      CriticalsAreLogged(init, now);
      assert forall i :: 0 <= i < |init| ==> init[i] == alerts[i];
    }
  }

  /** Something is written exactly when some alert is critical. */
  lemma CriticalAlertLogsContents(alerts: seq<Alert>, now: int)
    ensures |CriticalAlertLogs(alerts, now)| > 0 <==> HasCritical(alerts)
  {
    var r := CriticalAlertLogs(alerts, now);
    if |r| > 0 {
      LogsComeFromCriticals(alerts, now);
      assert r[0] in r;
    }
    if HasCritical(alerts) {
      CriticalsAreLogged(alerts, now);
      var i :| 0 <= i < |alerts| && alerts[i].alertType == CriticalAlert;
      assert SystemAlertLog(alerts[i], now) in r;
    }
  }

  /** A sample logs an alert exactly when it is in critical state. */
  lemma LoggedIffCritical(m: SystemMetrics, now: int)
    requires Divisible(m)
    ensures |CriticalAlertLogs(Alerts(m), now)| > 0 <==> StatusOf(Alerts(m)) == CriticalStatus
  {
    CriticalAlertLogsContents(Alerts(m), now);
  }

  function ErrorReport(now: int): (r: HealthReport)
    ensures r.status == ErrorStatus && r.metrics.None? && |r.alerts| == 1
  {
    HealthReport(ErrorStatus, [Alert(ErrorAlert, "Unable to check system health", None)], None, now)
  }

  // ---------------------------------------------------------------------------
  // Process ranking

  datatype ProcessInfo = ProcessInfo(
    pid: int,
    name: string,
    cpuPercent: Option<real>,
    memoryPercent: Option<real>)

  function CpuOf(p: ProcessInfo): real
  {
    if p.cpuPercent.Some? then p.cpuPercent.value else 0.0
  }

  /** The sort order: higher CPU first. */
  predicate CpuAtLeast(a: ProcessInfo, b: ProcessInfo)
  {
    CpuOf(a) >= CpuOf(b)
  }

  /** The processes that report a CPU value, in table order. */
  function WithCpu(procs: seq<ProcessInfo>): (r: seq<ProcessInfo>)
    ensures |r| <= |procs|
    ensures forall p :: p in r ==> p in procs && p.cpuPercent.Some?
    ensures forall p :: p in procs && p.cpuPercent.Some? ==> p in r
    ensures multiset(r) <= multiset(procs)
  {
    if procs == [] then []
    else
      var init := procs[..|procs| - 1];
      var last := procs[|procs| - 1];
      assert procs == init + [last];
      WithCpu(init) + (if last.cpuPercent.Some? then [last] else [])
  }

  lemma CpuOrderIsTotal()
    ensures TotalPreorder(CpuAtLeast)
  {
  }

  /** Whatever a sorted list's prefix leaves out uses no more CPU than anything it keeps. */
  lemma PrefixIsTop(sorted: seq<ProcessInfo>, k: nat)
    requires Sorted(sorted, CpuAtLeast) && k <= |sorted|
    ensures forall x, y :: x in sorted[..k] && y in multiset(sorted) - multiset(sorted[..k]) ==>
      CpuOf(y) <= CpuOf(x)
  {
    var top, rest := sorted[..k], sorted[k..];
    assert sorted == top + rest;
    assert multiset(sorted) == multiset(top) + multiset(rest);
    forall x, y | x in top && y in multiset(sorted) - multiset(top)
      ensures CpuOf(y) <= CpuOf(x)
    {
      assert y in rest;
      var a :| 0 <= a < k && top[a] == x;
      var b :| 0 <= b < |rest| && rest[b] == y;
      assert sorted[a] == x && sorted[k + b] == y;
    }
  }

  /** How many elements Python's s[:k] keeps. */
  lemma SliceToLength<T>(s: seq<T>, k: int)
    ensures k >= 0 ==> |SliceTo(s, k)| == if k <= |s| then k else |s|
    ensures k < 0 ==> |SliceTo(s, k)| == if |s| + k >= 0 then |s| + k else 0
    ensures SliceTo(s, k) == s[..|SliceTo(s, k)|]
  {
  }

  lemma PrefixMultiset<T>(s: seq<T>, k: nat)
    requires k <= |s|
    ensures multiset(s[..k]) <= multiset(s)
  {
    assert s == s[..k] + s[k..];
  }

  lemma SubBagReportsCpu(top: seq<ProcessInfo>, kept: seq<ProcessInfo>)
    requires multiset(top) <= multiset(kept)
    requires forall p :: p in kept ==> p.cpuPercent.Some?
    ensures forall p :: p in top ==> p.cpuPercent.Some?
  {
    forall p | p in top ensures p.cpuPercent.Some? {
      assert p in multiset(top);
    }
  }

  /** The collecting loop: every process that reports a CPU value, in table order. */
  method CollectWithCpu(procs: seq<ProcessInfo>) returns (kept: seq<ProcessInfo>)
    ensures kept == WithCpu(procs)
  {
    kept := [];
    var i := 0;
    while i < |procs|
      invariant 0 <= i <= |procs|
      invariant kept == WithCpu(procs[..i])
    {
      assert procs[..i + 1][..i] == procs[..i];
      if procs[i].cpuPercent.Some? {
        kept := kept + [procs[i]];
      }
      i := i + 1;
    }
    assert procs[..i] == procs;
  }

  /** The top `limit` processes by CPU (Python slicing for a negative limit). */
  method RunningProcesses(procs: seq<ProcessInfo>, limit: int) returns (top: seq<ProcessInfo>)
    ensures forall p :: p in top ==> p.cpuPercent.Some?
    ensures Sorted(top, CpuAtLeast)
    ensures multiset(top) <= multiset(WithCpu(procs))
    ensures limit >= 0 ==> |top| == if limit <= |WithCpu(procs)| then limit else |WithCpu(procs)|
    ensures limit < 0 ==> |top| == if |WithCpu(procs)| + limit >= 0 then |WithCpu(procs)| + limit else 0
    ensures forall x, y :: x in top && y in multiset(WithCpu(procs)) - multiset(top) ==>
      CpuOf(y) <= CpuOf(x)
  {
    var kept := CollectWithCpu(procs);
    CpuOrderIsTotal();
    var sorted := InsertionSort(kept, CpuAtLeast);
    assert |sorted| == |multiset(sorted)| == |multiset(kept)| == |kept|;
    top := SliceTo(sorted, limit);
    SliceToLength(sorted, limit);
    PrefixIsTop(sorted, |top|);
    PrefixMultiset(sorted, |top|);
    assert multiset(top) <= multiset(kept);
    SubBagReportsCpu(top, kept);
    assert Sorted(top, CpuAtLeast) by {
      assert forall i :: 0 <= i < |top| ==> top[i] == sorted[i];
    }
  }

  // ---------------------------------------------------------------------------
  // The service

  /** The monitoring task: never created, running with its interval, or cancelled. */
  datatype MonitorTask = NoTask | Running(interval: int) | Cancelled(interval: int)

  class SystemMonitorService {
    var monitoring: bool
    var monitorTask: MonitorTask

    /** The flag is set exactly while a monitoring task runs. */
    predicate Valid()
      reads this
    {
      monitoring <==> monitorTask.Running?
    }

    constructor()
      ensures !monitoring && monitorTask == NoTask && Valid()
    {
      monitoring := false;
      monitorTask := NoTask;
    }

    /** A second start is ignored; otherwise the flag is raised, a task is started and an
        INFO entry is written. */
    method StartMonitoring(db: Db, interval: int, now: int)
      modifies this, db
      ensures old(monitoring) ==> monitoring && monitorTask == old(monitorTask)
                                  && db.logs == old(db.logs)
      ensures !old(monitoring) ==>
        && monitoring && monitorTask == Running(interval)
        && db.logs == old(db.logs) + [SystemLog(INFO, "System monitoring started", now)]
      ensures old(Valid()) ==> Valid()
      ensures db.users == old(db.users) && db.sessions == old(db.sessions)
      ensures db.rdpConnections == old(db.rdpConnections)
    {
      if monitoring {
        return;
      }
      monitoring := true;
      monitorTask := Running(interval);
      db.logs := db.logs + [SystemLog(INFO, "System monitoring started", now)];
    }

    /** A stop while not monitoring is ignored; otherwise the flag is lowered, any task is
        cancelled and an INFO entry is written. */
    method StopMonitoring(db: Db, now: int)
      modifies this, db
      ensures !old(monitoring) ==> !monitoring && monitorTask == old(monitorTask)
                                   && db.logs == old(db.logs)
      ensures old(monitoring) ==>
        && !monitoring
        && monitorTask == (if old(monitorTask).NoTask? then NoTask
                           else Cancelled(old(monitorTask).interval))
        && db.logs == old(db.logs) + [SystemLog(INFO, "System monitoring stopped", now)]
      ensures old(Valid()) ==> Valid()
      ensures db.users == old(db.users) && db.sessions == old(db.sessions)
      ensures db.rdpConnections == old(db.rdpConnections)
    {
      if !monitoring {
        return;
      }
      monitoring := false;
      if monitorTask != NoTask {
        monitorTask := Cancelled(monitorTask.interval);
      }
      db.logs := db.logs + [SystemLog(INFO, "System monitoring stopped", now)];
    }

    /** One health check. A failed sample or a zero total ends in the error report; otherwise
        alerts are collected metric by metric while the status is raised step by step, and
        the critical alerts are then logged. */
    method CheckSystemHealth(db: Db, reading: Reading, now: int) returns (report: HealthReport)
      modifies db
      ensures reading.ReadFailed? ==>
        && report == ErrorReport(now)
        && db.logs == old(db.logs)
             + [SystemLog(ERROR, "Error getting system metrics: " + reading.reason, now),
                SystemLog(ERROR, "Error checking system health: " + reading.reason, now)]
      ensures reading.Read? && !Divisible(reading.metrics) ==>
        && report == ErrorReport(now)
        && db.logs == old(db.logs)
             + [SystemLog(ERROR, "Error checking system health: division by zero", now)]
      ensures reading.Read? && Divisible(reading.metrics) ==>
        var m := reading.metrics;
        && report == HealthReport(StatusOf(Alerts(m)), Alerts(m), Some(m), now)
        && db.logs == old(db.logs) + CriticalAlertLogs(Alerts(m), now)
      ensures db.users == old(db.users) && db.sessions == old(db.sessions)
      ensures db.rdpConnections == old(db.rdpConnections)
    {
      if reading.ReadFailed? {
        db.logs := db.logs
          + [SystemLog(ERROR, "Error getting system metrics: " + reading.reason, now),
             SystemLog(ERROR, "Error checking system health: " + reading.reason, now)];
        return ErrorReport(now);
      }
      var m := reading.metrics;
      var alerts, status := RecordAlert([], Healthy, CpuAlert(m));
      if m.memoryTotal == 0 {
        db.logs := db.logs + [SystemLog(ERROR, "Error checking system health: division by zero", now)];
        return ErrorReport(now);
      }
      alerts, status := RecordAlert(alerts, status, MemoryAlert(m));
      if m.diskTotal == 0 {
        db.logs := db.logs + [SystemLog(ERROR, "Error checking system health: division by zero", now)];
        return ErrorReport(now);
      }
      alerts, status := RecordAlert(alerts, status, DiskAlert(m));
      alerts, status := RecordAlert(alerts, status, TemperatureAlert(m));
      assert [] + Present(CpuAlert(m)) == Present(CpuAlert(m));
      assert alerts == Alerts(m);
      LogCriticalAlerts(db, alerts, now);
      report := HealthReport(status, alerts, Some(m), now);
    }
  }

  /** One if/elif block of the check: append the metric's alert, if any, and raise the
      status to critical, or from healthy to warning. */
  method RecordAlert(alerts: seq<Alert>, status: HealthStatus, o: Option<Alert>)
    returns (alerts': seq<Alert>, status': HealthStatus)
    requires status == StatusOf(alerts)
    requires o.Some? ==> o.value.alertType != ErrorAlert
    ensures alerts' == alerts + Present(o)
    ensures status' == StatusOf(alerts')
  {
    alerts', status' := alerts, status;
    if o.Some? {
      alerts' := alerts + [o.value];
      if o.value.alertType == CriticalAlert {
        status' := CriticalStatus;
      } else if status' == Healthy {
        status' := WarningStatus;
      }
    }
    StatusStep(alerts, o);
  }

  /** The closing loop of the check: one SYSTEM ALERT entry per critical alert. */
  method LogCriticalAlerts(db: Db, alerts: seq<Alert>, now: int)
    modifies db
    ensures db.logs == old(db.logs) + CriticalAlertLogs(alerts, now)
    ensures db.users == old(db.users) && db.sessions == old(db.sessions)
    ensures db.rdpConnections == old(db.rdpConnections)
  {
    var i := 0;
    while i < |alerts|
      invariant 0 <= i <= |alerts|
      invariant db.logs == old(db.logs) + CriticalAlertLogs(alerts[..i], now)
      invariant db.users == old(db.users) && db.sessions == old(db.sessions)
      invariant db.rdpConnections == old(db.rdpConnections)
    {
      assert alerts[..i + 1][..i] == alerts[..i];
      if alerts[i].alertType == CriticalAlert {
        db.logs := db.logs + [SystemAlertLog(alerts[i], now)];
      }
      i := i + 1;
    }
    assert alerts[..i] == alerts;
  }

  /** The step of the check that appends one metric's alert and raises the status. */
  lemma StatusStep(before: seq<Alert>, o: Option<Alert>)
    requires o.Some? ==> o.value.alertType != ErrorAlert
    ensures StatusOf(before + Present(o)) ==
      if o.None? then StatusOf(before)
      else if o.value.alertType == CriticalAlert then CriticalStatus
      else if StatusOf(before) == Healthy then WarningStatus
      else StatusOf(before)
  {
    var after := before + Present(o);
    if o.Some? {
      assert after[|before|] == o.value;
      if HasCritical(before) {
        var i :| 0 <= i < |before| && before[i].alertType == CriticalAlert;
        assert after[i] == before[i];
      }
      if HasCritical(after) && o.value.alertType != CriticalAlert {
        var i :| 0 <= i < |after| && after[i].alertType == CriticalAlert;
        assert before[i] == after[i];
      }
    } else {
      assert after == before;
    }
  }
}
