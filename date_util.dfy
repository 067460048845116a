/** `DateUtil`, with a `Date` modelled as whole milliseconds since the Unix epoch
    (UTC), and the runtime's `Date.prototype.toISOString` that the kernel's
    serialisers call. */
module DateUtil {

  const MsPerDay: int := 86_400_000

  predicate IsBefore(a: int, b: int)
  {
    a < b
  }

  predicate IsAfter(a: int, b: int)
  {
    a > b
  }

  /** `isAfter` is `isBefore` with its arguments swapped; both are strict
      (irreflexive) and never hold together. */
  lemma OrderLaws(a: int, b: int)
    ensures IsAfter(a, b) == IsBefore(b, a)
    ensures !IsBefore(a, a) && !IsAfter(a, a)
    ensures !(IsBefore(a, b) && IsAfter(a, b))
    ensures a != b ==> IsBefore(a, b) || IsAfter(a, b)
  {
  }

  /** `startOfUTCDay`: midnight UTC of the day containing `t`. The argument is not
      touched (the source works on a copy). */
  function StartOfUtcDay(t: int): (r: int)
    ensures r % MsPerDay == 0
    ensures r <= t < r + MsPerDay
  {
    t - t % MsPerDay
  }

  /** The start of the day is the only multiple of a day in `(t - day, t]`; hence
      `startOfUTCDay` is idempotent and constant over a day. */
  lemma StartOfUtcDayUnique(t: int, m: int)
    requires m % MsPerDay == 0 && m <= t < m + MsPerDay
    ensures m == StartOfUtcDay(t)
  {
    var r := StartOfUtcDay(t);
    assert (m - r) % MsPerDay == 0;
    assert -MsPerDay < m - r < MsPerDay;
  }

  lemma StartOfUtcDayIdempotent(t: int)
    ensures StartOfUtcDay(StartOfUtcDay(t)) == StartOfUtcDay(t)
  {
    StartOfUtcDayUnique(StartOfUtcDay(t), StartOfUtcDay(t));
  }

  // ---------------------------------------------------------------------------
  // Date.prototype.toISOString

  /** Proleptic Gregorian (year, month, day) of a day number counted from
      1970-01-01 (the civil-from-days algorithm). */
  function CivilFromDays(days: int): (int, int, int)
  {
    var z := days + 719468;
    var era := z / 146097;
    var doe := z - era * 146097;
    var yoe := (doe - doe / 1460 + doe / 36524 - doe / 146096) / 365;
    var doy := doe - (365 * yoe + yoe / 4 - yoe / 100);
    var mp := (5 * doy + 2) / 153;
    var d := doy - (153 * mp + 2) / 5 + 1;
    var m := if mp < 10 then mp + 3 else mp - 9;
    var y := yoe + era * 400;
    (if m <= 2 then y + 1 else y, m, d)
  }

  function Digit(n: int): char
  {
    ('0' as int + n % 10) as char
  }

  /** The last `width` decimal digits of `n`, zero-padded. */
  function Pad(n: int, width: nat): (s: string)
    ensures |s| == width
    decreases width
  {
    if width == 0 then [] else Pad(n / 10, width - 1) + [Digit(n)]
  }

  function YearString(y: int): string
  {
    if 0 <= y <= 9999 then Pad(y, 4)
    else if y < 0 then "-" + Pad(-y, 6)
    else "+" + Pad(y, 6)
  }

  function DatePart(days: int): string
  {
    var (y, m, d) := CivilFromDays(days);
    YearString(y) + "-" + Pad(m, 2) + "-" + Pad(d, 2)
  }

  /** `THH:mm:ss.sssZ` from its fields. */
  function Clock(h: int, mi: int, sec: int, milli: int): (s: string)
    ensures |s| == 14
  {
    "T" + Pad(h, 2) + ":" + Pad(mi, 2) + ":" + Pad(sec, 2) + "." + Pad(milli, 3) + "Z"
  }

  /** The clock time of a millisecond offset into a day. */
  function TimePart(ms: int): (s: string)
    ensures |s| == 14
  {
    Clock(ms / 3_600_000, ms / 60_000 % 60, ms / 1000 % 60, ms % 1000)
  }

  function ToIsoString(t: int): (s: string)
  {
    DatePart(t / MsPerDay) + TimePart(t % MsPerDay)
  }

  lemma TimePartMidnight()
    ensures TimePart(0) == "T00:00:00.000Z"
  {
  }

  /** The ISO string of the start of a UTC day keeps the date of `t` and reads
      `T00:00:00.000Z` as its time. */
  lemma IsoOfStartOfUtcDay(t: int)
    ensures var iso := ToIsoString(t);
            ToIsoString(StartOfUtcDay(t)) == iso[..|iso| - 14] + "T00:00:00.000Z"
  {
    var r := StartOfUtcDay(t);
    var day := t / MsPerDay;
    assert r / MsPerDay == day && r % MsPerDay == 0;
    TimePartMidnight();
    var iso := ToIsoString(t);
    assert iso == DatePart(day) + TimePart(t % MsPerDay);
    assert iso[..|iso| - 14] == DatePart(day);
  }

  lemma CivilExample()
    ensures CivilFromDays(18263) == (2020, 1, 2)
  {
    var z := 18263 + 719468;
    assert z / 146097 == 5;
    var doe := z - 5 * 146097;
    assert doe == 7246;
    assert (doe - doe / 1460 + doe / 36524 - doe / 146096) / 365 == 19;
    assert 7246 - (365 * 19 + 19 / 4 - 19 / 100) == 307;
    assert (5 * 307 + 2) / 153 == 10;
    assert 307 - (153 * 10 + 2) / 5 + 1 == 2;
  }

  lemma PadDigits(n: int)
    ensures Pad(n, 1) == [Digit(n)]
    ensures Pad(n, 2) == [Digit(n / 10), Digit(n)]
    ensures Pad(n, 3) == [Digit(n / 10 / 10), Digit(n / 10), Digit(n)]
  {
    assert Pad(n / 10 / 10 / 10, 0) == [];
  }

  lemma ClockPads()
    ensures Pad(15, 2) == "15" && Pad(45, 2) == "45" && Pad(30, 2) == "30"
    ensures Pad(500, 3) == "500"
  {
    PadDigits(15);
    assert Digit(1) == '1' && Digit(15) == '5';
    PadDigits(45);
    assert Digit(4) == '4' && Digit(45) == '5';
    PadDigits(30);
    assert Digit(3) == '3' && Digit(30) == '0';
    PadDigits(500);
    assert Digit(5) == '5' && Digit(50) == '0' && Digit(500) == '0';
  }

  lemma ClockExample()
    ensures Clock(15, 45, 30, 500) == "T15:45:30.500Z"
  {
    ClockPads();
    assert "T" + "15" + ":" + "45" + ":" + "30" + "." + "500" + "Z" == "T15:45:30.500Z";
  }

  lemma TimePartExample()
    ensures TimePart(56_730_500) == "T15:45:30.500Z"
  {
    assert 56_730_500 / 3_600_000 == 15 && 56_730_500 / 60_000 % 60 == 45;
    assert 56_730_500 / 1000 % 60 == 30 && 56_730_500 % 1000 == 500;
    ClockExample();
  }

  lemma YearPad()
    ensures Pad(2020, 4) == "2020"
  {
    PadDigits(202);
    assert Pad(202, 3) == "202" by {
      assert Digit(2) == '2' && Digit(20) == '0' && Digit(202) == '2';
    }
    assert Pad(2020, 4) == Pad(202, 3) + [Digit(2020)];
    assert Digit(2020) == '0';
  }

  lemma DatePads()
    ensures Pad(2020, 4) == "2020" && Pad(1, 2) == "01" && Pad(2, 2) == "02"
  {
    PadDigits(1);
    PadDigits(2);
    YearPad();
  }

  lemma DatePartExample()
    ensures DatePart(18263) == "2020-01-02"
  {
    CivilExample();
    DatePads();
    assert "2020" + "-" + "01" + "-" + "02" == "2020-01-02";
  }

  lemma IsoOfParts(t: int, day: int, ms: int)
    requires t == day * MsPerDay + ms && 0 <= ms < MsPerDay
    ensures ToIsoString(t) == DatePart(day) + TimePart(ms)
  {
    assert t / MsPerDay == day && t % MsPerDay == ms by {
      StartOfUtcDayUnique(t, day * MsPerDay);
    }
  }

  lemma IsoLiteral()
    ensures "2020-01-02" + "T15:45:30.500Z" == "2020-01-02T15:45:30.500Z"
  {
  }

  /** The instant of the date utility's own test, 2020-01-02T15:45:30.500Z. */
  lemma IsoExample()
    ensures ToIsoString(1_577_979_930_500) == "2020-01-02T15:45:30.500Z"
  {
    IsoOfParts(1_577_979_930_500, 18263, 56_730_500);
    DatePartExample();
    TimePartExample();
    IsoLiteral();
  }

  // Reading the clock back

  function Pow10(n: nat): (p: nat)
    ensures p >= 1
  {
    if n == 0 then 1 else 10 * Pow10(n - 1)
  }

  /** The number a string of decimal digits spells, most significant digit first. */
  function ReadDigits(s: string): int
  {
    if s == [] then 0 else 10 * ReadDigits(s[..|s| - 1]) + (s[|s| - 1] as int - '0' as int)
  }

  /** The milliseconds into the day that a `THH:mm:ss.sssZ` string reads. */
  function ReadClock(s: string): int
    requires |s| == 14
  {
    ReadDigits(s[1..3]) * 3_600_000 + ReadDigits(s[4..6]) * 60_000
      + ReadDigits(s[7..9]) * 1000 + ReadDigits(s[10..13])
  }

  /** Padding loses nothing when the number has at most `width` digits. */
  lemma {:induction false} ReadPad(n: int, width: nat)
    requires 0 <= n < Pow10(width)
    ensures ReadDigits(Pad(n, width)) == n
    decreases width
  {
    if width > 0 {
      var s := Pad(n, width);
      assert s[..|s| - 1] == Pad(n / 10, width - 1);
      assert n / 10 < Pow10(width - 1);
      ReadPad(n / 10, width - 1);
      assert s[|s| - 1] as int - '0' as int == n % 10;
    }
  }

  /** A clock string reads back as the time its fields spell. */
  lemma ClockRoundTrip(h: int, mi: int, sec: int, milli: int)
    requires 0 <= h < 100 && 0 <= mi < 100 && 0 <= sec < 100 && 0 <= milli < 1000
    ensures ReadClock(Clock(h, mi, sec, milli)) == h * 3_600_000 + mi * 60_000 + sec * 1000 + milli
  {
    var s := Clock(h, mi, sec, milli);
    assert s[1..3] == Pad(h, 2) && s[4..6] == Pad(mi, 2);
    assert s[7..9] == Pad(sec, 2) && s[10..13] == Pad(milli, 3);
    assert Pow10(2) == 100 && Pow10(3) == 1000;
    ReadPad(h, 2);
    ReadPad(mi, 2);
    ReadPad(sec, 2);
    ReadPad(milli, 3);
  }

  lemma SplitTimeOfDay(ms: int)
    requires 0 <= ms < MsPerDay
    ensures 0 <= ms / 3_600_000 < 24
    ensures ms == ms / 3_600_000 * 3_600_000 + ms / 60_000 % 60 * 60_000 + ms / 1000 % 60 * 1000 + ms % 1000
  {
    assert ms / 60_000 == ms / 3_600_000 * 60 + ms / 60_000 % 60;
    assert ms / 1000 == ms / 60_000 * 60 + ms / 1000 % 60;
  }

  /** Every `THH:mm:ss.sssZ` that `TimePart` writes for a time of day reads back as it. */
  lemma TimePartRoundTrip(ms: int)
    requires 0 <= ms < MsPerDay
    ensures ReadClock(TimePart(ms)) == ms
  {
    SplitTimeOfDay(ms);
    ClockRoundTrip(ms / 3_600_000, ms / 60_000 % 60, ms / 1000 % 60, ms % 1000);
  }

  /** The last 14 characters of `toISOString` are the clock time, and they read back as
      the milliseconds of `t` into its UTC day. */
  lemma IsoTimeRoundTrip(t: int)
    ensures var iso := ToIsoString(t);
            |iso| >= 14 && iso[|iso| - 14] == 'T' && iso[|iso| - 1] == 'Z' &&
            ReadClock(iso[|iso| - 14..]) == t % MsPerDay
  {
    var iso := ToIsoString(t);
    assert iso[|iso| - 14..] == TimePart(t % MsPerDay);
    TimePartRoundTrip(t % MsPerDay);
  }

  /** Two instants of one UTC day have the same ISO string only if they are the same
      instant. */
  lemma IsoDistinguishesTimesOfDay(a: int, b: int)
    requires StartOfUtcDay(a) == StartOfUtcDay(b) && ToIsoString(a) == ToIsoString(b)
    ensures a == b
  {
    IsoTimeRoundTrip(a);
    IsoTimeRoundTrip(b);
  }
}
