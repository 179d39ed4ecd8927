/** Bounded duration parsing and countdown text (crates/app-core/src/duration.rs). */
module DurationText {
  import opened Wrappers
  import opened Text

  const MIN_DURATION_VALUE: nat := 1
  const SECONDS_PER_MINUTE: nat := 60
  const SECONDS_PER_HOUR: nat := 3600
  const SECONDS_PER_DAY: nat := 86400
  const MAX_FINITE_DURATION_SECONDS: nat := 31_536_000
  const MINUTES_PER_DAY: nat := 1440
  const MINUTES_PER_HOUR: nat := 60
  const HOURS_PER_DAY: nat := 24
  const NANOS_PER_SECOND: nat := 1_000_000_000

  /** `std::time::Duration`: a u64 of seconds and the nanoseconds below one second. */
  datatype RawDuration = Duration(secs: nat, nanos: nat) {
    predicate Valid() {
      secs <= U64_MAX && nanos < NANOS_PER_SECOND
    }

    /** The exact length, in unbounded nanoseconds. */
    function Nanos(): nat {
      secs * NANOS_PER_SECOND + nanos
    }
  }

  type Duration = d: RawDuration | d.Valid() witness RawDuration.Duration(0, 0)

  datatype DurationUnit = Seconds | Minutes | Hours | Days

  function Multiplier(unit: DurationUnit): nat {
    match unit
    case Seconds => 1
    case Minutes => SECONDS_PER_MINUTE
    case Hours => SECONDS_PER_HOUR
    case Days => SECONDS_PER_DAY
  }

  // ----- Parsing -----

  /** The whole-second duration that `n` units denote, if a finite session may last that long. */
  predicate InRange(seconds: nat) {
    1 <= seconds <= MAX_FINITE_DURATION_SECONDS
  }

  /** Overflow in the u64 parse or in the u64 product never rejects a value that is in range:
      the answer is the one unbounded arithmetic gives. */
  function ParseDuration(input: string, unit: DurationUnit): (r: Option<Duration>)
    ensures r.Some? <==>
            input != [] && AllDigits(input) && InRange(Value(input) * Multiplier(unit))
    ensures r.Some? ==> r.value == RawDuration.Duration(Value(input) * Multiplier(unit), 0)
  {
    if input == [] || !AllDigits(input) then None
    else
      match CheckedU64(input)
      case None => None
      case Some(value) =>
        if value < MIN_DURATION_VALUE then None
        else if value * Multiplier(unit) > U64_MAX then None
        else if value * Multiplier(unit) > MAX_FINITE_DURATION_SECONDS then None
        else Some(RawDuration.Duration(value * Multiplier(unit), 0))
  }

  /** The unit a last character selects, and `None` where the text carries no suffix. */
  function SuffixUnit(c: char): Option<DurationUnit> {
    if c == 's' || c == 'S' then Some(Seconds)
    else if c == 'm' || c == 'M' then Some(Minutes)
    else if c == 'h' || c == 'H' then Some(Hours)
    else if c == 'd' || c == 'D' then Some(Days)
    else None
  }

  function ParseDurationSpec(spec: string): (r: Option<Duration>)
    ensures r.Some? ==> r.value.nanos == 0 && InRange(r.value.secs)
  {
    var trimmed := Trim(spec);
    if trimmed == [] then None
    else
      match SuffixUnit(trimmed[|trimmed| - 1])
      case Some(unit) => ParseDuration(trimmed[..|trimmed| - 1], unit)
      case None => ParseDuration(trimmed, Minutes)
  }

  /** The documented grammar: blank, digits, an optional unit letter, blank. */
  ghost predicate SpecDenotes(spec: string, lead: string, num: string, suffix: string, trail: string, seconds: nat) {
    && spec == lead + num + suffix + trail
    && Blank(lead) && Blank(trail)
    && num != [] && AllDigits(num)
    && (suffix == [] || (|suffix| == 1 && SuffixUnit(suffix[0]).Some?))
    && var unit := if suffix == [] then Minutes else SuffixUnit(suffix[0]).value;
    && seconds == Value(num) * Multiplier(unit)
    && InRange(seconds)
  }

  lemma SuffixIsTight(num: string, suffix: string)
    requires num != [] && AllDigits(num)
    requires suffix == [] || (|suffix| == 1 && SuffixUnit(suffix[0]).Some?)
    ensures Tight(num + suffix)
  {
    NotWhitespace((num + suffix)[0]);
    NotWhitespace((num + suffix)[|num + suffix| - 1]);
  }

  /** Everything the grammar denotes is accepted, with the denoted length. */
  lemma SpecAccepts(spec: string, lead: string, num: string, suffix: string, trail: string, seconds: nat)
    requires SpecDenotes(spec, lead, num, suffix, trail, seconds)
    ensures ParseDurationSpec(spec) == Some(RawDuration.Duration(seconds, 0))
  {
    SuffixIsTight(num, suffix);
    hide Value, Trim, IsWhitespace, ParseDuration;
    var core := num + suffix;
    assert spec == lead + core + trail;
    TrimUnique(lead, core, trail);
    if suffix == [] {
      assert core == num;
    } else {
      assert core[|core| - 1] == suffix[0] && core[..|core| - 1] == num;
    }
    if suffix == [] {
      assert SuffixUnit(core[|core| - 1]) == None;
    }
  }

  /** The units: their letters, or none for minutes, with the seconds they stand for. */
  const UNITS: map<string, nat> :=
    map["" := 60, "m" := 60, "M" := 60, "s" := 1, "S" := 1, "h" := 3600, "H" := 3600, "d" := 86400, "D" := 86400]

  /** What every well-formed text denotes, in numbers: "2h" is 7200 seconds, and anything from one
      second to 365 days is accepted. */
  lemma SpecMeans(lead: string, num: string, suffix: string, trail: string)
    requires Blank(lead) && Blank(trail) && num != [] && AllDigits(num) && suffix in UNITS
    ensures ParseDurationSpec(lead + num + suffix + trail)
         == if 1 <= Value(num) * UNITS[suffix] <= 31_536_000
            then Some(RawDuration.Duration(Value(num) * UNITS[suffix], 0)) else None
  {
    hide Value, Trim, IsWhitespace;
    SuffixIsTight(num, suffix);
    var core := num + suffix;
    assert lead + num + suffix + trail == lead + core + trail;
    TrimUnique(lead, core, trail);
    if suffix == [] {
      assert core == num && SuffixUnit(core[|core| - 1]) == None;
    } else {
      assert core[|core| - 1] == suffix[0] && core[..|core| - 1] == num;
    }
  }

  /** Everything accepted is denoted by the grammar; with `SpecAccepts`, an equivalence. */
  lemma SpecOnlyAccepts(spec: string)
    requires ParseDurationSpec(spec).Some?
    ensures exists lead, num, suffix, trail ::
              SpecDenotes(spec, lead, num, suffix, trail, ParseDurationSpec(spec).value.secs)
  {
    var core := Trim(spec);
    var lead, trail := TrimParts(spec);
    var n := if SuffixUnit(core[|core| - 1]).Some? then |core| - 1 else |core|;
    var num, suffix := core[..n], core[n..];
    assert suffix == [] ==> num == core;
    assert core == num + suffix;
    assert spec == lead + num + suffix + trail;
    assert SpecDenotes(spec, lead, num, suffix, trail, ParseDurationSpec(spec).value.secs);
  }

  // ----- Countdown text -----

  /** `as_secs().saturating_add(subsec_nanos != 0).div_ceil(60)`. */
  function CountdownMinutes(remaining: Duration): nat {
    var up := remaining.secs + (if remaining.nanos != 0 then 1 else 0);
    var seconds := if up > U64_MAX then U64_MAX else up;
    if seconds % SECONDS_PER_MINUTE == 0 then seconds / SECONDS_PER_MINUTE
    else seconds / SECONDS_PER_MINUTE + 1
  }

  function FormatCompactDuration(remaining: Duration): string {
    var minutes := CountdownMinutes(remaining);
    if minutes == 0 then "<1m"
    else
      var days := minutes / MINUTES_PER_DAY;
      if days > 0 then
        Decimal(days) + "d " + Decimal((minutes / MINUTES_PER_HOUR) % HOURS_PER_DAY) + "h"
      else
        var hours := minutes / MINUTES_PER_HOUR;
        if hours > 0 then
          Decimal(hours) + "h " + Decimal(minutes % MINUTES_PER_HOUR) + "m"
        else
          Decimal(minutes) + "m"
  }

  const NANOS_PER_MINUTE: nat := 60 * NANOS_PER_SECOND

  /** The saturating addition never shows: the count is the unbounded ceiling, even at the
      longest Duration there is. */
  lemma CountdownMinutesIsCeiling(d: Duration)
    ensures CountdownMinutes(d) * NANOS_PER_MINUTE >= d.Nanos()
    ensures CountdownMinutes(d) > 0 ==> (CountdownMinutes(d) - 1) * NANOS_PER_MINUTE < d.Nanos()
  {
    var up := d.secs + (if d.nanos != 0 then 1 else 0);
    if up > U64_MAX {
      assert U64_MAX == 307445734561825860 * 60 + 15;
      assert CountdownMinutes(d) == 307445734561825861;
    }
  }

  /** What the text means, read as a reader would: the number of whole minutes it shows. */
  datatype Reading =
    | UnderOne
    | MinutesOnly(m: nat)
    | HoursMinutes(h: nat, m: nat)
    | DaysHours(d: nat, h: nat)
  {
    /** Components stay below the next unit and the leading one is not zero. */
    predicate Proper() {
      match this
      case UnderOne => true
      case MinutesOnly(m) => 1 <= m < 60
      case HoursMinutes(h, m) => 1 <= h < 24 && m < 60
      case DaysHours(d, h) => 1 <= d && h < 24
    }

    function Text(): string {
      match this
      case UnderOne => "<1m"
      case MinutesOnly(m) => Decimal(m) + "m"
      case HoursMinutes(h, m) => Decimal(h) + "h " + Decimal(m) + "m"
      case DaysHours(d, h) => Decimal(d) + "d " + Decimal(h) + "h"
    }

    function TotalMinutes(): nat {
      match this
      case UnderOne => 0
      case MinutesOnly(m) => m
      case HoursMinutes(h, m) => 60 * h + m
      case DaysHours(d, h) => 60 * (24 * d + h)
    }
  }

  /** Exact below one day, whole hours from one day on. */
  function Shown(minutes: nat): nat {
    if minutes < MINUTES_PER_DAY then minutes else 60 * (minutes / 60)
  }

  /** The countdown is a proper reading of exactly the shown number of minutes. */
  lemma CountdownReads(d: Duration) returns (r: Reading)
    ensures r.Proper() && r.Text() == FormatCompactDuration(d)
    ensures r.TotalMinutes() == Shown(CountdownMinutes(d))
  {
    var m := CountdownMinutes(d);
    if m == 0 {
      r := UnderOne;
    } else if m < 60 {
      r := MinutesOnly(m);
    } else if m < MINUTES_PER_DAY {
      r := HoursMinutes(m / 60, m % 60);
    } else {
      assert m / 60 == 24 * (m / 1440) + (m / 60) % 24;
      r := DaysHours(m / MINUTES_PER_DAY, (m / 60) % 24);
    }
  }

  /** The text shows this many minutes, or from a day on the whole hours in them. */
  ghost predicate ShowsMinutes(text: string, minutes: nat) {
    exists r: Reading ::
      r.Proper() && r.Text() == text && r.TotalMinutes() == if minutes < 1440 then minutes else 60 * (minutes / 60)
  }

  /** The text shows so many nanoseconds, rounded up to the minute; none, once they are over. */
  ghost predicate ShowsLeft(text: string, left: int) {
    exists m: nat ::
      && ShowsMinutes(text, m) && m * 60_000_000_000 >= left && (m > 0 ==> (m - 1) * 60_000_000_000 < left)
  }

  lemma CountdownShows(d: Duration, left: int)
    requires d.secs * 1_000_000_000 + d.nanos == if left > 0 then left else 0
    ensures ShowsLeft(FormatCompactDuration(d), left)
  {
    hide FormatCompactDuration, CountdownMinutes, Reading.Text;
    var r := CountdownReads(d);
    CountdownMinutesIsCeiling(d);
    assert ShowsMinutes(FormatCompactDuration(d), CountdownMinutes(d));
  }

  /** The number a reading starts with and what follows it; "<1m" starts with none. */
  lemma ReadingSplit(r: Reading) returns (n: nat, rest: string)
    requires !r.UnderOne?
    ensures r.Text() == Decimal(n) + rest && rest != [] && !IsDigit(rest[0])
    ensures r.MinutesOnly? ==> n == r.m && rest == "m"
    ensures r.HoursMinutes? ==> n == r.h && rest == "h " + (Decimal(r.m) + "m")
    ensures r.DaysHours? ==> n == r.d && rest == "d " + (Decimal(r.h) + "h")
  {
    hide Decimal;
    match r
    case MinutesOnly(m) =>
      n, rest := m, "m";
    case HoursMinutes(h, m) =>
      n, rest := h, "h " + (Decimal(m) + "m");
      assert r.Text() == Decimal(n) + rest;
    case DaysHours(d, h) =>
      n, rest := d, "d " + (Decimal(h) + "h");
      assert r.Text() == Decimal(n) + rest;
  }

  /** No text has two readings. */
  lemma ReadingUnique(a: Reading, b: Reading)
    requires a.Text() == b.Text()
    ensures a == b
  {
    assert !a.UnderOne? ==> IsDigit(a.Text()[0]);
    assert !b.UnderOne? ==> IsDigit(b.Text()[0]);
    if !a.UnderOne? && !b.UnderOne? {
      var n, x := ReadingSplit(a);
      var k, y := ReadingSplit(b);
      NumeralPrefix(n, x, k, y);
      assert x[0] == y[0];
      if !a.MinutesOnly? {
        var u, v := x[2..], y[2..];
        if a.HoursMinutes? {
          assert u == Decimal(a.m) + "m" && v == Decimal(b.m) + "m";
          NumeralPrefix(a.m, "m", b.m, "m");
        } else {
          assert u == Decimal(a.h) + "h" && v == Decimal(b.h) + "h";
          NumeralPrefix(a.h, "h", b.h, "h");
        }
      }
    }
  }

  /** Two durations print alike exactly when they show the same number of minutes. */
  lemma CountdownEqualIff(a: Duration, b: Duration)
    ensures FormatCompactDuration(a) == FormatCompactDuration(b)
       <==> Shown(CountdownMinutes(a)) == Shown(CountdownMinutes(b))
  {
    var r := CountdownReads(a);
    var q := CountdownReads(b);
    if FormatCompactDuration(a) == FormatCompactDuration(b) {
      ReadingUnique(r, q);
    }
    if Shown(CountdownMinutes(a)) == Shown(CountdownMinutes(b)) {
      ProperReadingDetermined(r, q);
    }
  }

  /** A number of minutes has at most one proper reading, below a day and from a day on. */
  lemma ProperReadingDetermined(a: Reading, b: Reading)
    requires a.Proper() && b.Proper() && a.TotalMinutes() == b.TotalMinutes()
    ensures a == b
  {
    match a
    case UnderOne =>
    case MinutesOnly(_) =>
    case HoursMinutes(h, m) =>
      assert (60 * h + m) / 60 == h;
    case DaysHours(d, h) =>
      assert (24 * d + h) / 24 == d;
  }

  /** A longer remaining time never shows fewer minutes. */
  lemma CountdownMonotone(a: Duration, b: Duration)
    requires a.Nanos() <= b.Nanos()
    ensures Shown(CountdownMinutes(a)) <= Shown(CountdownMinutes(b))
  {
    CountdownMinutesIsCeiling(a);
    CountdownMinutesIsCeiling(b);
    var m, n := CountdownMinutes(a), CountdownMinutes(b);
    assert m > n ==> (m - 1) * NANOS_PER_MINUTE >= n * NANOS_PER_MINUTE;
    assert m / 60 <= n / 60;
  }
}
