/**
 * The helper functions of the monitor (utils/helpers.py): unit choice for
 * byte counts, rate of change, moving average, record validation, duration
 * buckets, threshold colours, a bounded data buffer and time-range parsing.
 * Text rendering (`f"{x:.2f}"`, `strftime`) is not modelled: a helper that
 * builds a string returns the value and the unit it would print.
 */
module Helpers {
  import opened Common
  import Fifo

  // ---------------------------------------------------------------------
  // format_bytes
  // ---------------------------------------------------------------------

  datatype ByteUnit = B | KB | MB | GB | TB | PB

  /** The power of 1024 a unit stands for. */
  function Exponent(u: ByteUnit): nat
  {
    match u
    case B => 0
    case KB => 1
    case MB => 2
    case GB => 3
    case TB => 4
    case PB => 5
  }

  function Pow1024(k: nat): (r: real)
    ensures r >= 1.0
  {
    if k == 0 then 1.0 else 1024.0 * Pow1024(k - 1)
  }

  /** Dividing by 1024 once more moves to the next power. */
  lemma DivideAgain(x: real, k: nat)
    ensures x / Pow1024(k) / 1024.0 == x / Pow1024(k + 1)
  {
    var p := Pow1024(k);
    assert Pow1024(k + 1) == 1024.0 * p;
    assert x / p / 1024.0 * (1024.0 * p) == x;
  }

  /**
   * `format_bytes`: the first unit among B, KB, MB, GB, TB at which the
   * repeatedly divided value is below 1024, else PB, and the value shown in
   * that unit.
   */
  method FormatBytes(bytes: real) returns (value: real, unit: ByteUnit)
    ensures value == bytes / Pow1024(Exponent(unit))
    ensures value * Pow1024(Exponent(unit)) == bytes
    ensures unit != PB ==> value < 1024.0
    ensures forall j :: 0 <= j < Exponent(unit) ==> bytes / Pow1024(j) >= 1024.0
    ensures unit != B ==> value >= 1.0
  {
    var units := [B, KB, MB, GB, TB];
    value := bytes;
    var k := 0;
    while k < |units|
      invariant 0 <= k <= |units|
      invariant value == bytes / Pow1024(k)
      invariant forall j :: 0 <= j < k ==> bytes / Pow1024(j) >= 1024.0
      invariant k > 0 ==> value >= 1.0
    {
      if value < 1024.0 {
        assert Exponent(units[k]) == k;
        return value, units[k];
      }
      DivideAgain(bytes, k);
      value := value / 1024.0;
      k := k + 1;
    }
    unit := PB;
  }

  // ---------------------------------------------------------------------
  // calculate_rate
  // ---------------------------------------------------------------------

  /**
   * `calculate_rate` over `time_delta.total_seconds()`: 0.0 for a zero
   * interval, otherwise the change per second, with no clamp.
   */
  function CalculateRate(current: real, previous: real, seconds: real): (r: real)
    ensures seconds == 0.0 ==> r == 0.0
    ensures seconds != 0.0 ==> r * seconds == current - previous
    ensures seconds > 0.0 ==> (r < 0.0 <==> current < previous)
  {
    if seconds == 0.0 then 0.0 else (current - previous) / seconds
  }

  /** Unlike the network rate, a falling value gives a negative rate. */
  lemma FallingValueGivesNegativeRate()
    ensures CalculateRate(1.0, 3.0, 2.0) == -1.0
  {
  }

  // ---------------------------------------------------------------------
  // moving_average
  // ---------------------------------------------------------------------

  /** `max(0, i - window + 1)`, the first index of the window ending at `i`. */
  function WindowStart(i: nat, window: int): nat
  {
    if i - window + 1 > 0 then i - window + 1 else 0
  }

  /** Every element of `xs` lies in [lo, hi]. */
  predicate Bounded(xs: seq<real>, lo: real, hi: real)
  {
    forall i :: 0 <= i < |xs| ==> lo <= xs[i] <= hi
  }

  /** The window `moving_average` uses when none is given. */
  const DefaultWindow: int := 5

  /** `result` holds, at each index i, the mean of the window of `data` ending at i. */
  predicate WindowMeans(data: seq<real>, window: int, result: seq<real>)
  {
    && window >= 1
    && |result| == |data|
    && forall i :: 0 <= i < |data| ==> result[i] == Mean(data[WindowStart(i, window)..i + 1])
  }

  /** With a window of 1 every mean is the element itself. */
  lemma WindowOneIsIdentity(data: seq<real>, result: seq<real>)
    requires WindowMeans(data, 1, result)
    ensures result == data
  {
    forall j | 0 <= j < |data| ensures result[j] == data[j] {
      assert data[WindowStart(j, 1)..j + 1] == [data[j]];
      assert Sum([data[j]]) == Sum([data[j]][..0]) + data[j];
    }
  }

  /** Window means never leave the range of the data. */
  lemma WindowMeansBounded(data: seq<real>, window: int, result: seq<real>, lo: real, hi: real)
    requires WindowMeans(data, window, result) && Bounded(data, lo, hi)
    ensures Bounded(result, lo, hi)
  {
    forall j | 0 <= j < |result|
      ensures lo <= result[j] <= hi
    {
      var w := data[WindowStart(j, window)..j + 1];
      assert forall k :: 0 <= k < |w| ==> w[k] == data[WindowStart(j, window) + k];
      MeanBetween(w, lo, hi);
    }
  }

  /**
   * `moving_average`: element i is the mean of `data[max(0, i - window + 1) .. i]`.
   * An empty list gives []; a window below 1 on a non-empty list makes the
   * first slice empty and the division raise (None).
   */
  method MovingAverage(data: seq<real>, window: int := DefaultWindow) returns (r: Option<seq<real>>)
    ensures data == [] ==> r == Some([])
    ensures data != [] && window < 1 ==> r.None?
    ensures data != [] && window >= 1 ==> r.Some? && WindowMeans(data, window, r.value)
    ensures window == 1 ==> r == Some(data)
    ensures forall lo: real, hi: real :: r.Some? && Bounded(data, lo, hi) ==> Bounded(r.value, lo, hi)
  {
    if data == [] {
      return Some([]);
    }
    var result := [];
    var i := 0;
    while i < |data|
      invariant 0 <= i <= |data| && |result| == i
      invariant i > 0 ==> window >= 1
      invariant forall j :: 0 <= j < i ==> result[j] == Mean(data[WindowStart(j, window)..j + 1])
    {
      var startIdx := if i - window + 1 > 0 then i - window + 1 else 0;
      if startIdx > i {
        return None;
      }
      var windowData := data[startIdx..i + 1];
      result := result + [Sum(windowData) / |windowData| as real];
      i := i + 1;
    }
    assert WindowMeans(data, window, result);
    r := Some(result);
    if window == 1 {
      WindowOneIsIdentity(data, result);
    }
    forall lo: real, hi: real | Bounded(data, lo, hi)
      ensures Bounded(result, lo, hi)
    {
      WindowMeansBounded(data, window, result, lo, hi);
    }
  }

  // ---------------------------------------------------------------------
  // validate_metrics_data
  // ---------------------------------------------------------------------

  const RequiredFields: set<string> :=
    {"timestamp", "cpu_percent", "memory_percent", "disk_percent", "network_sent", "network_recv"}

  /** `validate_metrics_data`: every required key is present, whatever the values. */
  function ValidateMetricsData<V>(data: map<string, V>): (ok: bool)
    ensures ok <==> RequiredFields <= data.Keys
  {
    forall field | field in RequiredFields :: field in data
  }

  /** Dropping any one required key makes a record invalid. */
  lemma MissingFieldFails<V>(data: map<string, V>, field: string)
    requires field in RequiredFields
    ensures !ValidateMetricsData(data - {field})
  {
    assert field !in (data - {field}).Keys;
  }

  // ---------------------------------------------------------------------
  // format_duration
  // ---------------------------------------------------------------------

  datatype DurationUnit = Seconds | Minutes | Hours | Days

  /** The amount and unit `format_duration` prints. */
  datatype Duration = Duration(amount: int, unit: DurationUnit)

  function UnitLength(u: DurationUnit): nat
  {
    match u
    case Seconds => 1
    case Minutes => 60
    case Hours => 3600
    case Days => 86400
  }

  /**
   * `format_duration`: the largest of seconds, minutes, hours and days whose
   * bucket holds the input, and the floor of the input in that unit.
   */
  function FormatDuration(seconds: int): (d: Duration)
    ensures d.unit == Seconds <==> seconds < 60
    ensures d.unit == Minutes <==> 60 <= seconds < 3600
    ensures d.unit == Hours <==> 3600 <= seconds < 86400
    ensures d.unit == Days <==> 86400 <= seconds
    ensures d.amount * UnitLength(d.unit) <= seconds < (d.amount + 1) * UnitLength(d.unit)
    ensures d.unit == Minutes ==> 1 <= d.amount < 60
    ensures d.unit == Hours ==> 1 <= d.amount < 24
    ensures d.unit == Days ==> 1 <= d.amount
  {
    if seconds < 60 then Duration(seconds, Seconds)
    else if seconds < 3600 then Duration(seconds / 60, Minutes)
    else if seconds < 86400 then Duration(seconds / 3600, Hours)
    else Duration(seconds / 86400, Days)
  }

  // ---------------------------------------------------------------------
  // get_threshold_color
  // ---------------------------------------------------------------------

  const Red: string := "#FF4444"
  const Orange: string := "#FFAA00"
  const Green: string := "#44FF44"

  /** `get_threshold_color`: the critical test comes first, then the warning test. */
  function GetThresholdColor(value: real, warning: real, critical: real): (c: string)
    ensures c == Red <==> value >= critical
    ensures c == Orange <==> warning <= value < critical
    ensures c == Green <==> value < warning && value < critical
  {
    if value >= critical then Red
    else if value >= warning then Orange
    else Green
  }

  // ---------------------------------------------------------------------
  // DataBuffer
  // ---------------------------------------------------------------------

  const DefaultDataBufferSize: int := 3600

  /** `DataBuffer`: a list trimmed to `maxSize` by evicting index 0. */
  class DataBuffer<T> {
    const maxSize: int
    var buffer: seq<T>

    ghost predicate Valid()
      reads this
    {
      |buffer| <= Fifo.Capacity(maxSize)
    }

    constructor (maxSize: int := DefaultDataBufferSize)
      ensures Valid() && this.maxSize == maxSize && buffer == []
    {
      this.maxSize := maxSize;
      buffer := [];
    }

    /** `add`: append, then evict the oldest item when over `maxSize`. */
    method Add(item: T)
      requires Valid()
      modifies this
      ensures Valid()
      ensures buffer == Fifo.Append(old(buffer), item, maxSize)
      ensures buffer == Fifo.Last(old(buffer) + [item], Fifo.Capacity(maxSize))
    {
      buffer := buffer + [item];
      if |buffer| > maxSize {
        buffer := buffer[1..];
      }
    }

    /** `get_all`: a copy of the contents, oldest first. */
    function GetAll(): (r: seq<T>)
      reads this
      ensures |r| == |buffer| && forall i :: 0 <= i < |r| ==> r[i] == buffer[i]
    {
      buffer
    }

    /** `get_last_n`, Python's `buffer[-n:]`. */
    function GetLastN(n: int): (r: seq<T>)
      reads this
      ensures n >= 1 ==> |r| == (if n < |buffer| then n else |buffer|)
      ensures n >= 1 ==> r == buffer[|buffer| - |r|..]
      ensures n == 0 ==> r == buffer
      ensures n < 0 ==> r == (if -n < |buffer| then buffer[-n..] else [])
    {
      Fifo.LastN(buffer, n)
    }

    /** `clear`: the buffer becomes empty and keeps its size limit. */
    method Clear()
      modifies this
      ensures Valid() && buffer == []
    {
      buffer := [];
    }
  }

  // ---------------------------------------------------------------------
  // parse_time_range
  // ---------------------------------------------------------------------

  /** The ASCII characters Python's `str.strip()` and `int()` treat as whitespace. */
  predicate IsSpace(c: char)
  {
    var n := c as int;
    n == 32 || 9 <= n <= 13 || 28 <= n <= 31
  }

  predicate IsDigit(c: char)
  {
    '0' <= c <= '9'
  }

  function DigitValue(c: char): nat
  {
    if IsDigit(c) then (c as int - '0' as int) else 0
  }

  function StripLeft(s: string): (r: string)
    ensures r == [] || !IsSpace(r[0])
    ensures |r| <= |s| && r == s[|s| - |r|..]
    ensures forall i :: 0 <= i < |s| - |r| ==> IsSpace(s[i])
  {
    if s != [] && IsSpace(s[0]) then StripLeft(s[1..]) else s
  }

  function StripRight(s: string): (r: string)
    ensures r == [] || !IsSpace(r[|r| - 1])
    ensures |r| <= |s| && r == s[..|r|]
    ensures forall i :: |r| <= i < |s| ==> IsSpace(s[i])
  {
    if s != [] && IsSpace(s[|s| - 1]) then StripRight(s[..|s| - 1]) else s
  }

  /** The whitespace `int()` ignores around the number. */
  function Strip(s: string): (r: string)
    ensures r == [] || (!IsSpace(r[0]) && !IsSpace(r[|r| - 1]))
    ensures |r| <= |s|
  {
    StripRight(StripLeft(s))
  }

  /** `Strip` removes whitespace, and only whitespace, from both ends: what is left is a slice of `s`. */
  lemma StripRemovesOnlySpace(s: string)
    ensures var k := |s| - |StripLeft(s)|;
            && k + |Strip(s)| <= |s|
            && Strip(s) == s[k..k + |Strip(s)|]
            && (forall i :: 0 <= i < k ==> IsSpace(s[i]))
            && (forall i :: k + |Strip(s)| <= i < |s| ==> IsSpace(s[i]))
  {
  }

  /** A decimal literal as `int()` accepts it: digits, with single underscores only between digits. */
  predicate IsDecimal(s: string)
  {
    && s != []
    && IsDigit(s[0]) && IsDigit(s[|s| - 1])
    && (forall i :: 0 <= i < |s| ==> IsDigit(s[i]) || s[i] == '_')
    && (forall i :: 0 <= i < |s| - 1 ==> s[i] == '_' ==> s[i + 1] != '_')
  }

  /** The value of the digits of `s`, underscores skipped. */
  function DecimalValue(s: string): nat
  {
    if s == [] then 0
    else if s[|s| - 1] == '_' then DecimalValue(s[..|s| - 1])
    else DecimalValue(s[..|s| - 1]) * 10 + DigitValue(s[|s| - 1])
  }

  /** Python's `int(s)` in base 10: None where it raises ValueError. */
  function ParseInt(s: string): (r: Option<int>)
    ensures r.Some? ==> Strip(s) != []
  {
    var t := Strip(s);
    if t != [] && (t[0] == '+' || t[0] == '-') then
      var body := t[1..];
      var magnitude: int := DecimalValue(body);
      if IsDecimal(body) then Some(if t[0] == '-' then -magnitude else magnitude)
      else None
    else if IsDecimal(t) then Some(DecimalValue(t))
    else None
  }

  function DigitChar(d: nat): char
    requires d < 10
  {
    ('0' as int + d) as char
  }

  /** `str(n)` for a natural number. */
  function ShowNat(n: nat): (s: string)
    ensures s != [] && IsDigit(s[0]) && IsDigit(s[|s| - 1])
    ensures forall i :: 0 <= i < |s| ==> IsDigit(s[i])
  {
    if n < 10 then [DigitChar(n)] else ShowNat(n / 10) + [DigitChar(n % 10)]
  }

  /** `str(n)`. */
  function Show(n: int): string
  {
    if n < 0 then "-" + ShowNat(-n) else ShowNat(n)
  }

  lemma {:induction false} ShowNatValue(n: nat)
    ensures DecimalValue(ShowNat(n)) == n
    decreases n
  {
    var s := ShowNat(n);
    if n >= 10 {
      ShowNatValue(n / 10);
      assert s[..|s| - 1] == ShowNat(n / 10);
    }
  }

  /** A string that starts and ends with a non-space is its own strip. */
  lemma StripKeeps(s: string)
    requires s != [] && !IsSpace(s[0]) && !IsSpace(s[|s| - 1])
    ensures Strip(s) == s
  {
  }

  /** The decimal digits of `n` form a literal `int()` accepts and that denotes `n`. */
  lemma ShowNatIsDecimal(n: nat)
    ensures IsDecimal(ShowNat(n)) && DecimalValue(ShowNat(n)) == n
  {
    ShowNatValue(n);
  }

  /** `int()` of an unsigned literal with nothing to strip. */
  lemma ParseUnsigned(t: string)
    requires Strip(t) == t && IsDecimal(t)
    ensures ParseInt(t) == Some(DecimalValue(t))
  {
    assert IsDigit(Strip(t)[0]);
  }

  /** `int()` of a negative literal with nothing to strip. */
  lemma ParseNegative(t: string)
    requires Strip(t) == t && t != [] && t[0] == '-' && IsDecimal(t[1..])
    ensures ParseInt(t) == Some(0 - DecimalValue(t[1..]))
  {
    assert Strip(t)[0] == '-' && Strip(t)[1..] == t[1..];
  }

  /** `str(n)` starts and ends with a non-space. */
  lemma StripShow(n: int)
    ensures Strip(Show(n)) == Show(n)
  {
    var digits := ShowNat(if n < 0 then -n else n);
    var s := Show(n);
    assert s[|s| - 1] == digits[|digits| - 1];
    StripKeeps(s);
  }

  /** `int(str(n)) == n` for a natural number. */
  lemma ParseShowNat(n: nat)
    ensures ParseInt(Show(n)) == Some(n)
  {
    StripShow(n);
    ShowNatIsDecimal(n);
    ParseUnsigned(Show(n));
  }

  /** `int(str(n)) == n` for a negative number: the sign, then the digits of `-n`. */
  lemma ParseShowNegative(n: int)
    requires n < 0
    ensures ParseInt(Show(n)) == Some(n)
  {
    var t := Show(n);
    assert t != [] && t[0] == '-' && t[1..] == ShowNat(-n) by {
      assert t == "-" + ShowNat(-n);
    }
    StripShow(n);
    ShowNatIsDecimal(-n);
    assert DecimalValue(t[1..]) == -n;
    ParseNegative(t);
    assert ParseInt(t) == Some(0 - (-n));
  }

  /** `int(str(n)) == n`. */
  lemma ParseShow(n: int)
    ensures ParseInt(Show(n)) == Some(n)
  {
    if n < 0 {
      ParseShowNegative(n);
    } else {
      ParseShowNat(n);
    }
  }

  const SecondsPerHour: int := 3600
  const SecondsPerDay: int := 86400
  const SecondsPerWeek: int := 604800
  /** `timedelta.max.days`; a larger day count raises OverflowError. */
  const MaxDays: int := 999999999
  /** What `parse_time_range` falls back to: one hour. */
  const DefaultRange: int := 3600

  /** A `timedelta` of this many seconds exists: its normalised day count is within bounds. */
  predicate InTimedeltaRange(seconds: int)
  {
    -MaxDays <= seconds / SecondsPerDay <= MaxDays
  }

  /** `str.lower()` on one character, for the letters it can matter for. */
  function Lower(c: char): (r: char)
    ensures 'A' <= c <= 'Z' ==> r as int == c as int + 32
    ensures !('A' <= c <= 'Z') ==> r == c
    ensures !('A' <= r <= 'Z')
  {
    if 'A' <= c <= 'Z' then (c as int - 'A' as int + 'a' as int) as char else c
  }

  /** Seconds per unit letter; None for a letter that is not a unit. */
  function UnitSeconds(u: char): (r: Option<int>)
    ensures r.Some? <==> u in "hdw"
    ensures u == 'h' ==> r == Some(SecondsPerHour)
    ensures u == 'd' ==> r == Some(SecondsPerDay)
    ensures u == 'w' ==> r == Some(SecondsPerWeek)
  {
    if u == 'h' then Some(SecondsPerHour)
    else if u == 'd' then Some(SecondsPerDay)
    else if u == 'w' then Some(SecondsPerWeek)
    else None
  }

  /**
   * `parse_time_range`, as a `timedelta` in seconds: the integer before the
   * last character times the unit the last character names,
   * case-insensitively. An unparsable number, an unknown unit or a
   * `timedelta` out of range falls back to one hour.
   */
  function ParseTimeRange(s: string): (r: int)
    ensures ParseInt(if s == [] then [] else s[..|s| - 1]).None? ==> r == DefaultRange
    ensures s != [] && UnitSeconds(Lower(s[|s| - 1])).None? ==> r == DefaultRange
    ensures InTimedeltaRange(r)
    ensures s != [] && ParseInt(s[..|s| - 1]).Some? && UnitSeconds(Lower(s[|s| - 1])).Some? ==>
              var n := ParseInt(s[..|s| - 1]).value;
              var k := UnitSeconds(Lower(s[|s| - 1])).value;
              r == if InTimedeltaRange(n * k) then n * k else DefaultRange
  {
    var value := ParseInt(if s == [] then [] else s[..|s| - 1]);
    if value.None? || s == [] then DefaultRange
    else
      match UnitSeconds(Lower(s[|s| - 1]))
      case None => DefaultRange
      case Some(unit) =>
        if InTimedeltaRange(value.value * unit) then value.value * unit else DefaultRange
  }

  /** The empty string and a bare unit letter have no number and give the default. */
  lemma NoNumberGivesDefault(u: char)
    ensures ParseTimeRange("") == DefaultRange
    ensures ParseTimeRange([u]) == DefaultRange
  {
    assert [u][..0] == [];
  }

  /** Up to 142857142 weeks, in either direction, fits in a `timedelta`. */
  lemma UnitMultipleInRange(n: int, k: int)
    requires k == SecondsPerHour || k == SecondsPerDay || k == SecondsPerWeek
    requires -142857142 <= n <= 142857142
    ensures InTimedeltaRange(n * k)
  {
    if k == SecondsPerWeek {
      assert n * k == (7 * n) * SecondsPerDay;
    } else if k == SecondsPerHour {
      assert -MaxDays * SecondsPerDay <= n * k <= MaxDays * SecondsPerDay;
    }
  }

  /** A unit letter in either case names hours, days or weeks. */
  lemma UnitLetter(u: char)
    requires u in "hHdDwW"
    ensures UnitSeconds(Lower(u)).Some?
    ensures u in "hH" ==> UnitSeconds(Lower(u)) == Some(SecondsPerHour)
    ensures u in "dD" ==> UnitSeconds(Lower(u)) == Some(SecondsPerDay)
    ensures u in "wW" ==> UnitSeconds(Lower(u)) == Some(SecondsPerWeek)
    ensures var k := UnitSeconds(Lower(u)).value; k == SecondsPerHour || k == SecondsPerDay || k == SecondsPerWeek
  {
  }

  /**
   * `parse_time_range(str(n) + u)` for a unit letter in either case: n hours,
   * days or weeks when that `timedelta` exists, otherwise the OverflowError is
   * caught and the default hour comes back.
   */
  lemma ParseTimeRangeOf(n: int, u: char)
    requires u in "hHdDwW"
    ensures var k := UnitSeconds(Lower(u)).value;
            ParseTimeRange(Show(n) + [u]) == if InTimedeltaRange(n * k) then n * k else DefaultRange
  {
    var s := Show(n) + [u];
    assert s[..|s| - 1] == Show(n) && s[|s| - 1] == u;
    ParseShow(n);
    UnitLetter(u);
  }

  /** Within 142857142 units, `str(n) + u` is always exactly n units. */
  lemma ParseTimeRangeInRange(n: int, u: char)
    requires u in "hHdDwW"
    requires -142857142 <= n <= 142857142
    ensures ParseTimeRange(Show(n) + [u]) == n * UnitSeconds(Lower(u)).value
  {
    ParseTimeRangeOf(n, u);
    UnitLetter(u);
    UnitMultipleInRange(n, UnitSeconds(Lower(u)).value);
  }

  /** More than 142857142 weeks is more than `timedelta.max.days` days. */
  lemma WeeksOutOfRange(n: int)
    requires n > 142857142
    ensures !InTimedeltaRange(n * SecondsPerWeek)
  {
    assert n * SecondsPerWeek == (7 * n) * SecondsPerDay;
    assert ((7 * n) * SecondsPerDay) / SecondsPerDay == 7 * n;
  }

  /** More than 142857142 weeks (`"1000000000w"`, say) is past `timedelta.max` and gives the default hour. */
  lemma ParseTimeRangeOverflow(n: int)
    requires n > 142857142
    ensures ParseTimeRange(Show(n) + ['w']) == DefaultRange
  {
    assert UnitSeconds(Lower('w')) == Some(SecondsPerWeek);
    ParseTimeRangeOf(n, 'w');
    WeeksOutOfRange(n);
  }
}
