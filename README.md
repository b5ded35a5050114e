# CPU-Memory Monitor, modelled in Dafny

This project models the sampling core of a desktop system monitor (core/monitor.py) and its helper library (utils/helpers.py).

The monitor runs a loop. Each tick it collects one sample: CPU, memory, disk and network rates. It appends the sample to a bounded history buffer and runs the alert rules on it, queuing an event for each rule that fires. When a repository is attached, it then saves the sample record and forwards every queued alert. Any exception in a tick makes the loop wait 5 seconds instead of 1.

The helpers cover:
- choosing a unit for byte counts;
- rate of change;
- moving averages;
- checking the shape of a metrics record;
- duration buckets;
- threshold colours;
- a bounded data buffer;
- parsing time ranges such as `24h` or `7d`.

Modules:
- `Common`: `Option`, `Min`/`Max`, and `Sum`/`Mean` with their bounds.
- `Fifo`: the bounded append and Python's `s[-n:]` slice. `MetricsBuffer` and `DataBuffer` share them.
- `Monitor`: core/monitor.py.
  - Each mutable class of the source is a Dafny `class`: `MetricsCollector`, `MetricsBuffer`, `AlertManager`, `SystemMonitor`.
  - The state that one tick of `start` reads and writes is mirrored as a value, `MonitorState`, with a pure step function `TickStep`.
  - `SystemMonitor.Tick` and `SystemMonitor.Start` are proved equal to `TickStep` and to its iteration over several ticks.
- `Helpers`: utils/helpers.py.
- `Consistency`: the record `to_dict` builds is what `validate_metrics_data` accepts.

Conventions:
- Operating-system reads and the wall clock are parameters. A read that raises is `None`.
- Instants are seconds, as `real`.
- Byte counters are `nat`.
- Percentages and rates are `real`.

Behaviour of the code worth knowing, all of it modelled as written:
- The first network rate after construction is not near zero. The baseline starts at (0, 0) bytes (core/monitor.py:37), so the first rate is the whole cumulative counter divided by the delay, which is often the 100 MB/s ceiling (`Monitor.ColdStartReportsCumulativeCounters`).
- The baseline instant can move backwards. core/monitor.py:115 overwrites it with whatever the clock returns; a non-positive elapsed time then reads as (0, 0) (`Monitor.NetworkRates`).
- Only the CPU and network reads are caught (core/monitor.py:77-79, 118-120). A memory or disk failure propagates out of `collect` before the network is read: the tick is lost, the baseline is kept and the loop retries after 5 seconds (`Monitor.Collected`, `Monitor.TickAfterFailedCollect`).
- storage/repository.py defines only `save_metrics` and `get_latest_metrics`, no `save_alert`, so the first alert `start` forwards raises. `TickInput.alertSaves` is how many `save_alert` calls return before one raises; the shipped code is `alertSaves == 0` (see "## Findings").

## Model

| member | source | states |
|---|---|---|
| Monitor.ToDict | core/monitor.py:23-31 | The record has exactly the six field names, and reading it back gives the original sample. |
| Monitor.FromDict | core/monitor.py:23-31 | The model's own inverse of `to_dict` (the source has no reader): a record can only be read back when all six field names are present. |
| Monitor.Peak | core/monitor.py:75 | `max(xs)` is an element of `xs` and at least every element. |
| Monitor.CpuAggregate | core/monitor.py:70-76 | An empty per-core list gives 0.0. Otherwise the result is one of the core values, at least every core and at least the mean, i.e. the busiest core. |
| Monitor.CpuUsage | core/monitor.py:61-79 | A failed per-core read gives 0.0; otherwise the aggregate of the cores. |
| Monitor.ClampedRate | core/monitor.py:106-110 | Each direction's rate lies in [0, 100] MB/s. |
| Monitor.ClampedRateMeaning | core/monitor.py:106-110 | No growth or a counter reset gives 0. Below the ceiling, rate times elapsed time times 2^20 is exactly the bytes moved. The rate is 100 exactly when at least 100 MiB per elapsed second moved. |
| Monitor.NetworkRates | core/monitor.py:97-120 | A failed counter read gives (0, 0) and leaves the baseline alone. Otherwise the baseline becomes the new counters and instant; a non-positive elapsed time gives (0, 0); a positive one gives the clamped rates. |
| Monitor.TwoReadingsExample | core/monitor.py:104-117 | Counters growing by 2 MiB and 1 MiB over one second read 2.0 and 1.0 MB/s. The first call, at the construction instant, reads (0, 0). |
| Monitor.ColdStartReportsCumulativeCounters | core/monitor.py:37-38 | From the (0, 0) baseline, enough cumulative traffic since boot makes the first rate hit the ceiling. |
| Monitor.Collected | core/monitor.py:41-59 | No sample exactly when the memory or disk read raised, and then the network baseline is untouched. Otherwise the sample carries the clock, the CPU aggregate, memory, disk and the network rates, and the baseline moves on. |
| Monitor.DiskFailureLosesSample | core/monitor.py:46 | A raising disk read loses the sample and leaves the baseline. |
| Monitor.CpuFailureIsIsolated | core/monitor.py:77-79 | A raising per-core read still gives a sample, with 0.0 for the CPU and the memory, disk and network values as read. |
| Monitor.NetworkFailureIsIsolated | core/monitor.py:118-120 | A raising counter read still gives a sample, with (0, 0) for the network, and the baseline is kept. |
| Monitor.MetricsCollector.constructor | core/monitor.py:35-38 | The baseline starts at (0, 0) bytes and the construction instant. |
| Monitor.MetricsCollector.GetNetworkUsage | core/monitor.py:97-120 | The rates returned and the new baseline are `NetworkRates` of the old baseline. |
| Monitor.MetricsCollector.Collect | core/monitor.py:41-59 | The sample returned and the new baseline are `Collected` of the old baseline. |
| Monitor.MetricsBuffer.constructor | core/monitor.py:124-126 | An empty buffer with the given size limit, 3600 when none is given. |
| Monitor.MetricsBuffer.Add | core/monitor.py:129-134 | The buffer becomes the newest `max(maxSize, 0)` elements of the old buffer plus the new sample, and stays within that bound. |
| Monitor.MetricsBuffer.GetLastN | core/monitor.py:136-139 | `buffer[-n:]`: the newest `min(n, len)` samples for n >= 1, the whole buffer for n == 0, the buffer without its first `-n` samples for n < 0. |
| Monitor.Check | core/monitor.py:151-154 | A message exactly when the CPU percentage is strictly above the threshold, and the message shows that percentage. |
| Monitor.Fired | core/monitor.py:169-173 | The events of one `check_alerts`: at most one per rule, each stamped with the given instant and the sample's CPU percentage. |
| Monitor.FiredSingle | core/monitor.py:152 | One rule fires once or not at all, on the strict threshold. |
| Monitor.FiredConcat | core/monitor.py:170 | Rules fire in registration order: the events for `a + b` are those of `a`, then those of `b`. |
| Monitor.FiredAllMatch | core/monitor.py:169-173 | When every rule matches, there is one event per rule. |
| Monitor.FiredNoneMatch | core/monitor.py:169-173 | When no rule matches, nothing is queued. |
| Monitor.DefaultRuleExamples | core/monitor.py:148-154 | With the default 80.0 threshold, 85.0 fires and 79.9 does not. |
| Monitor.AlertManager.constructor | core/monitor.py:158-164 | A new manager holds the single default high-CPU rule and an empty queue. |
| Monitor.AlertManager.AddAlert | core/monitor.py:166-167 | The rule is appended to the list. |
| Monitor.AlertManager.CheckAlerts | core/monitor.py:169-173 | The queue grows by exactly `Fired` of the rules, at its tail, and the rules are unchanged. |
| Monitor.TickStep | core/monitor.py:190-218 | One tick leaves the rules unchanged, pauses 1 or 5 seconds, and keeps the history within capacity. |
| Monitor.TickAfterFailedCollect | core/monitor.py:193 | When `collect` raises, nothing changes, nothing is saved and the retry pause follows. |
| Monitor.TickKeepsSample | core/monitor.py:193-196 | A collected sample is appended to the history, and the baseline moves on, whatever fails later in the tick. |
| Monitor.TickKeepsAlertsQueued | core/monitor.py:199-203 | With no repository, or when `save_metrics` raises, new events stay queued after old ones and nothing is forwarded. Only the failed save gives the retry pause. |
| Monitor.TickDrainsQueue | core/monitor.py:202-214 | After a saved record the queue is empty. The events forwarded are a prefix of old-then-new events, all of them exactly when no `save_alert` raised. |
| Monitor.TickWithMissingSaveAlert | core/monitor.py:202-218 | As shipped (the first `save_alert` raises), once the record is saved every queued event is drained and lost, nothing is forwarded, and the tick ends in the retry pause. |
| Monitor.MissingSaveAlertLosesFirstEvent | core/monitor.py:202-218 | A fresh monitor whose first sample reads 85% CPU loses its one high-CPU event that way. |
| Monitor.TickWithSaveAlert | core/monitor.py:202-214 | When `save_alert` returns, every event queued before and during the tick is forwarded in queue order, the queue is left empty and the pause is 1 second. |
| Monitor.RunTicks | core/monitor.py:190-218 | The `while self.running` loop run over a finite sequence of ticks: the state after each tick body in turn, and the samples collected. What it means is stated by RunTicksSamples, StateAfter, RunTicksHistory and RunTicksKeepsRules. |
| Monitor.RunTicksSamples | core/monitor.py:190-196 | Over `RunTicks`, each tick collects at most one sample, and a tick whose memory read raises collects none. |
| Monitor.StateAfter | core/monitor.py:190-218 | Stepping the first k ticks from the front agrees with `RunTicks` on the first k inputs. |
| Monitor.TickHistory | core/monitor.py:193-196 | One tick extends the window of newest samples by the sample it collected, if any. |
| Monitor.RunTicksHistory | core/monitor.py:190-196 | Across any run of ticks, the history holds the newest samples collected, in order, never more than the capacity; failed ticks add nothing. |
| Monitor.RunTicksKeepsRules | core/monitor.py:190-218 | No tick changes the rule list. |
| Monitor.TicksBeforeStop | core/monitor.py:190 | The loop runs up to and including the first tick during which `stop()` is called, or to the end of the inputs. |
| Monitor.TicksBeforeStopIs | core/monitor.py:190 | Any tick count that ends at the first stop request, or at the end of the inputs, is exactly that count. |
| Monitor.ForwardAlerts | core/monitor.py:207-212 | Events are handed to `save_alert` in order. The loop fails exactly when fewer calls succeed than there are events; it then forwards exactly the prefix before the failing call, otherwise all events. |
| Monitor.SystemMonitor.constructor | core/monitor.py:177-184 | A fresh collector, buffer of 3600 and manager with the default rule, no repository unless one is given, and not running. |
| Monitor.SystemMonitor.Stop | core/monitor.py:220-222 | `running` becomes false. |
| Monitor.SystemMonitor.GetCurrentMetrics | core/monitor.py:225-228 | None exactly on an empty buffer, otherwise the newest sample. |
| Monitor.SystemMonitor.GetMetricsHistory | core/monitor.py:230-232 | The newest `min(seconds, len)` samples, oldest first, for seconds >= 1; the whole buffer for 0; the buffer without its first `-seconds` samples for a negative count. |
| Monitor.SystemMonitor.GetAlerts | core/monitor.py:234-239 | Returns every queued event in FIFO order and leaves the queue empty. |
| Monitor.SystemMonitor.Tick | core/monitor.py:191-218 | The new state and the outcome (pause, saved record, forwarded events) are `TickStep` of the old state. |
| Monitor.SystemMonitor.Start | core/monitor.py:186-218 | Runs exactly `TicksBeforeStop` ticks and ends in the state `RunTicks` gives for them. `running` is false exactly when a stop was requested. |
| Monitor.AlertQueueScenario | core/monitor.py:234-239 | Two qualifying samples queue two events; the first `get_alerts` returns both in tick order, and a second `get_alerts` returns []. |
| Fifo.Append | core/monitor.py:129-134 | A buffer within capacity stays within it, becomes the newest capacity elements of old plus new, and ends with the new element. |
| Fifo.AppendAllKeepsNewest | core/monitor.py:129-134 | After any number of adds, the buffer holds exactly the newest capacity elements of its old contents followed by the items added. |
| Fifo.AddsToEmpty | utils/helpers.py:97-101 | After M adds to an empty buffer, it has length `min(M, capacity)` and holds the newest items in insertion order. |
| Fifo.LastN | utils/helpers.py:107-109 | `s[-n:]`: the newest `min(n, len)` for n >= 1; all of `s` for n == 0; `s` without its first `-n` items for n < 0. |
| Helpers.FormatBytes | utils/helpers.py:7-13 | The unit is the first among B..TB at which the repeatedly divided value is below 1024, else PB. The value times that power of 1024 is the input, and a unit beyond B shows at least 1. |
| Helpers.CalculateRate | utils/helpers.py:19-23 | A zero interval gives 0.0. Otherwise rate times interval is the change, with no clamp; over a positive interval the rate is negative exactly when the value fell. |
| Helpers.FallingValueGivesNegativeRate | utils/helpers.py:23 | The rate of a falling value is negative. |
| Helpers.WindowOneIsIdentity | utils/helpers.py:32-35 | With a window of 1, the averages are the data. |
| Helpers.WindowMeansBounded | utils/helpers.py:32-35 | Window means never leave any range that holds all the data. |
| Helpers.MovingAverage | utils/helpers.py:25-36 | The window is 5 when none is given. Empty data gives []. A window below 1 on non-empty data raises. Otherwise element i is the mean of the window ending at i. Window 1 returns the data, and the averages stay in the data's range. |
| Helpers.ValidateMetricsData | utils/helpers.py:56-67 | True exactly when every required field name is a key, whatever the values. |
| Helpers.MissingFieldFails | utils/helpers.py:67 | Removing any required key makes a record invalid. |
| Helpers.FormatDuration | utils/helpers.py:69-81 | Seconds under 60, minutes under 3600, hours under 86400, days otherwise, each exactly on its bucket. The amount is the floor of the input in that unit. |
| Helpers.GetThresholdColor | utils/helpers.py:83-89 | Red exactly when at or above critical. Orange exactly when at or above warning but below critical. Green otherwise. |
| Helpers.DataBuffer.constructor | utils/helpers.py:93-95 | An empty buffer with the given size limit, 3600 when none is given. |
| Helpers.DataBuffer.Add | utils/helpers.py:97-101 | The buffer becomes the newest capacity elements of the old buffer plus the item, and stays within that bound. |
| Helpers.DataBuffer.GetAll | utils/helpers.py:103-105 | A copy with the same length and the same elements. |
| Helpers.DataBuffer.GetLastN | utils/helpers.py:107-109 | `buffer[-n:]` for every integer n, including n <= 0. |
| Helpers.DataBuffer.Clear | utils/helpers.py:111-113 | The buffer becomes empty. |
| Helpers.StripLeft | utils/helpers.py:118 | A suffix of the input that does not start with whitespace; everything cut off in front is whitespace. |
| Helpers.StripRight | utils/helpers.py:118 | A prefix of the input that does not end with whitespace; everything cut off behind is whitespace. |
| Helpers.Strip | utils/helpers.py:118 | The whitespace `int()` ignores is gone from both ends, and nothing is added. |
| Helpers.StripRemovesOnlySpace | utils/helpers.py:118 | What `strip()` keeps is a contiguous slice of the input, and everything it cuts from either end is whitespace. |
| Helpers.ParseInt | utils/helpers.py:118 | `int()` only succeeds on a string that is not blank once stripped. |
| Helpers.ShowNatValue | utils/helpers.py:118 | The decimal digits of n denote n. |
| Helpers.ParseShowNat | utils/helpers.py:118 | `int(str(n)) == n` for every integer n >= 0. |
| Helpers.ParseShowNegative | utils/helpers.py:118 | `int(str(n)) == n` for every integer n < 0, whose text is a minus sign and the digits of -n. |
| Helpers.ParseShow | utils/helpers.py:118 | `int(str(n)) == n` for every integer n (no digit-count limit; see Left out). |
| Helpers.Lower | utils/helpers.py:119 | `str.lower()` on one character: capital A-Z move to the small letters, anything else is kept, and no capital letter remains. |
| Helpers.UnitSeconds | utils/helpers.py:121-128 | `h` is 3600 seconds, `d` is 86400 and `w` is 604800. Every other letter is the ValueError case. |
| Helpers.UnitLetter | utils/helpers.py:119-126 | After lower-casing, `h` or `H` is 3600 seconds, `d` or `D` is 86400 and `w` or `W` is 604800. |
| Helpers.ParseTimeRange | utils/helpers.py:115-131 | An unparsable number or an unknown unit gives the default hour. When the number parses to n and the unit to k seconds, the result is n * k if that `timedelta` exists and the default hour when it overflows. The result is always a representable `timedelta`. |
| Helpers.NoNumberGivesDefault | utils/helpers.py:117-131 | The empty string and a bare unit letter give the default hour. |
| Helpers.UnitMultipleInRange | utils/helpers.py:121-126 | Up to 142857142 hours, days or weeks, of either sign, fit in a `timedelta`. |
| Helpers.ParseTimeRangeOf | utils/helpers.py:115-131 | `str(n)` followed by a unit letter in either case is n hours, days or weeks when that `timedelta` exists, and the default hour when it overflows, for every integer n. |
| Helpers.ParseTimeRangeInRange | utils/helpers.py:115-126 | Within 142857142 units of either sign, `str(n)` plus a unit letter is exactly n units. |
| Helpers.WeeksOutOfRange | utils/helpers.py:126 | More than 142857142 weeks is past `timedelta.max`. |
| Helpers.ParseTimeRangeOverflow | utils/helpers.py:126-131 | More than 142857142 weeks (`"1000000000w"`, say) overflows and gives the default hour. |
| Consistency.ToDictValidates | utils/helpers.py:56-67 | Every record `to_dict` builds passes `validate_metrics_data`. |
| Consistency.ReadableRecordValidates | utils/helpers.py:56-67 | Any record that FromDict, the model's inverse of `to_dict`, can read back passes `validate_metrics_data`. |

## Left out

- OS reads (`psutil.cpu_percent`, `virtual_memory`, `disk_usage`, `net_io_counters`) and `datetime.now()` are parameters. The 0.5-second CPU sampling interval is left out.
- Threads, the asyncio event loop, the executors and the locks are left out. Each locked read-modify-write is one atomic step; `stop()` running while a tick is in flight is a per-tick flag, seen at the next loop head.
- `asyncio.sleep` is left out. Each tick reports the pause it would take (1 or 5 seconds).
- Monitor.SystemMonitor.Stop: the executor shutdown (`shutdown(wait=True)`) is not modelled.
- Monitor.SystemMonitor.Start: the loop in the source is unbounded. The model runs it over a finite sequence of tick inputs.
- The repository is left out. `save_metrics` is modelled as returning or raising, and `save_alert` by the count of calls that return before one raises. The storage layer itself (SQLite) is not part of this model.
- Monitor.AlertManager.CheckAlerts: every event of one call is stamped with one instant. The source reads the clock once per queued event.
- Monitor.Check: the message is kept as the CPU value it shows. The `:.1f` rendering is not modelled.
- Monitor.ToDict: `isoformat()` is not modelled. The timestamp field holds the instant itself.
- The abstract `Alert` base class is not modelled. `AlertRule` has the one rule kind the source defines.
- Floating point is modelled as exact reals, with no rounding, infinities or NaN. This covers the rates, means and divisions.
- Helpers.FormatBytes, Helpers.FormatDuration: they return the value and unit they would print; the f-string text and `decimal_places` are not modelled.
- `format_timestamp`, `save_json_data` and `load_json_data` are left out: they are date formatting and file I/O.
- Helpers.ParseInt: only ASCII digits and ASCII whitespace are modelled, and only single underscores between digits. Python's `int()` also accepts other Unicode digits and spaces.
- Helpers.ParseInt: the limit on integer string conversion (4300 digits by default since Python 3.11) is not modelled. Past it `str()` and `int()` raise ValueError, so Helpers.ParseShow holds only below it. The limit counts every digit of the literal, leading zeros included. So a zero-padded number longer than the limit whose value fits in a `timedelta`, such as 4300 zeros then `1d`, gives the default hour in `parse_time_range` but one day in Helpers.ParseTimeRange.
- Helpers.Lower: only ASCII A-Z are lowered. Python's `str.lower()` also lowers other capitals (`É`, `Σ`), and `İ` becomes two characters. This does not change `parse_time_range`: no other character lowers to `h`, `d` or `w`.
- Helpers.ParseTimeRange: the result is the `timedelta` as whole seconds. Errors give the default; the log call at utils/helpers.py:130 is left out.
- The `logging.error` calls at core/monitor.py:58, 78, 119 and 217 are left out. They write to the log and change no state the model keeps; each caught or re-raised error is modelled without them.
- main.py, monitor.py at the top level, the UI and the storage layer are not part of this model.

## Findings

| source | as written | input that shows it | evidently intended | confidence | as-written member | corrected member |
|---|---|---|---|---|---|---|
| core/monitor.py:206-212 | `start` calls `self.repository.save_alert(...)`, but storage/repository.py defines no `save_alert`, so the call raises AttributeError after `get_alerts` has already drained the queue. Every alert is lost, and the tick ends in the 5-second retry pause. | A monitor with a repository whose first sample reads 85% CPU: the one high-CPU event is drained, nothing is saved, and the loop waits 5 seconds. | Each drained event is saved, and the tick ends in the normal 1-second pause. | not executed | Monitor.TickWithMissingSaveAlert, Monitor.MissingSaveAlertLosesFirstEvent | Monitor.TickWithSaveAlert |
