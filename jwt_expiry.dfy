/** The expiry arithmetic of `JwtTokenService`: `parseDuration`, which reads
    `"<digits><unit>"` strings such as `15m`, and `getUnixExpiration`, which adds a
    duration to the current time in whole seconds. The clock (`Date.now()`) is the
    parameter `nowMs`. */
module JwtExpiry {
  import opened Options

  /** The default of `JWT_EXP`, the access-token lifetime. */
  const AccessTokenExp: string := "15m"
  /** The default of `JWT_REFRESH_EXP`. */
  const RefreshTokenExp: string := "7d"
  /** What `parseDuration` returns for anything it cannot read: 15 minutes. */
  const FallbackSeconds: nat := 15 * 60

  /** `\d` without the `u` flag: an ASCII digit. */
  predicate IsDigit(c: char)
  {
    '0' <= c <= '9'
  }

  predicate AllDigits(s: string)
  {
    forall i :: 0 <= i < |s| ==> IsDigit(s[i])
  }

  /** `[smhd]`. */
  predicate IsUnit(c: char)
  {
    c == 's' || c == 'm' || c == 'h' || c == 'd'
  }

  /** The strings `^(\d+)([smhd])$` matches: one or more ASCII digits and then exactly
      one unit letter, with nothing before or after. */
  predicate IsDuration(s: string)
  {
    |s| >= 2 && (forall i :: 0 <= i < |s| - 1 ==> IsDigit(s[i])) && IsUnit(s[|s| - 1])
  }

  /** The length of the leading run of digits, which the greedy `\d+` consumes. */
  function DigitRun(s: string): (n: nat)
    ensures n <= |s|
    ensures forall i :: 0 <= i < n ==> IsDigit(s[i])
    ensures n < |s| ==> !IsDigit(s[n])
  {
    if s == [] || !IsDigit(s[0]) then 0 else 1 + DigitRun(s[1..])
  }

  /** The two capture groups of a successful match. */
  datatype DurationMatch = DurationMatch(digits: string, unit: char)

  /** `duration.match(/^(\d+)([smhd])$/)`: the digit run, then one unit letter that must
      be the last character. */
  function Match(s: string): (m: Option<DurationMatch>)
    ensures m.Some? <==> IsDuration(s)
    ensures m.Some? ==> s == m.value.digits + [m.value.unit] && m.value.digits != []
                        && AllDigits(m.value.digits) && IsUnit(m.value.unit)
  {
    var n := DigitRun(s);
    DurationDigitRun(s);
    if 1 <= n && n + 1 == |s| && IsUnit(s[n]) then
      assert s == s[..n] + [s[n]];
      assert s[..|s| - 1] == s[..n];
      Some(DurationMatch(s[..n], s[n]))
    else None
  }

  /** On a duration string the digit run stops right before the unit letter. */
  lemma DurationDigitRun(s: string)
    ensures IsDuration(s) ==> DigitRun(s) == |s| - 1
  {
  }

  function DigitValue(c: char): (d: nat)
    requires IsDigit(c)
    ensures d < 10
  {
    c as int - '0' as int
  }

  function Pow10(k: nat): (p: nat)
    ensures p >= 1
  {
    if k == 0 then 1 else 10 * Pow10(k - 1)
  }

  /** `Number(digits)` on a run of ASCII digits: its decimal value (leading zeros are
      allowed); it has fewer digits than its length allows. */
  function Number(ds: string): (v: nat)
    requires AllDigits(ds)
    ensures v < Pow10(|ds|)
  {
    if ds == [] then 0
    else
      assert AllDigits(ds[..|ds| - 1]);
      Number(ds[..|ds| - 1]) * 10 + DigitValue(ds[|ds| - 1])
  }

  /** Seconds per unit, as the `switch` multiplies them. */
  function UnitSeconds(u: char): (k: nat)
    requires IsUnit(u)
    ensures k >= 1
  {
    match u
    case 's' => 1
    case 'm' => 60
    case 'h' => 3600
    case 'd' => 86400
  }

  /** `parseDuration`: a matching string is its number times its unit; anything else is
      15 minutes. The result is never negative. */
  function ParseDuration(duration: string): (r: nat)
    ensures !IsDuration(duration) ==> r == FallbackSeconds
    ensures IsDuration(duration) ==>
              r == Number(duration[..|duration| - 1]) * UnitSeconds(duration[|duration| - 1])
  {
    match Match(duration)
    case None => FallbackSeconds
    case Some(m) =>
      var value := Number(m.digits);
      assert duration[..|duration| - 1] == m.digits;
      if m.unit == 's' then value
      else if m.unit == 'm' then value * 60
      else if m.unit == 'h' then value * 3600
      else if m.unit == 'd' then value * 86400
      else FallbackSeconds
  }

  // ---------------------------------------------------------------------------
  // Decimal strings

  function DigitChar(d: nat): (c: char)
    requires d < 10
    ensures IsDigit(c) && DigitValue(c) == d
  {
    ('0' as int + d) as char
  }

  /** The decimal representation of `n`, without leading zeros. */
  function DecimalString(n: nat): (s: string)
    ensures s != [] && AllDigits(s)
  {
    if n < 10 then [DigitChar(n)] else DecimalString(n / 10) + [DigitChar(n % 10)]
  }

  /** Reading a decimal representation gives the number back. */
  lemma {:induction false} NumberOfDecimalString(n: nat)
    ensures Number(DecimalString(n)) == n
  {
    var s := DecimalString(n);
    if n < 10 {
      assert s[..0] == [];
    } else {
      NumberOfDecimalString(n / 10);
      assert s[..|s| - 1] == DecimalString(n / 10);
    }
  }

  /** Digits followed by one unit letter read as the digits' value times the unit. */
  lemma ParseWithUnit(ds: string, u: char)
    requires ds != [] && AllDigits(ds) && IsUnit(u)
    ensures ParseDuration(ds + [u]) == Number(ds) * UnitSeconds(u)
  {
    var s := ds + [u];
    assert s[..|s| - 1] == ds;
    assert IsDuration(s);
  }

  /** `"<n>s"`, `"<n>m"`, `"<n>h"` and `"<n>d"` are read as `n`, `60n`, `3600n` and
      `86400n` seconds. */
  lemma ParseFormatted(n: nat)
    ensures ParseDuration(DecimalString(n) + "s") == n
    ensures ParseDuration(DecimalString(n) + "m") == 60 * n
    ensures ParseDuration(DecimalString(n) + "h") == 3600 * n
    ensures ParseDuration(DecimalString(n) + "d") == 86400 * n
  {
    NumberOfDecimalString(n);
    var ds := DecimalString(n);
    ParseWithUnit(ds, 's');
    ParseWithUnit(ds, 'm');
    ParseWithUnit(ds, 'h');
    ParseWithUnit(ds, 'd');
  }

  /** The configured defaults: the access token lives 900 seconds, exactly the
      fallback, and the refresh token a week. */
  lemma DefaultDurations()
    ensures ParseDuration(AccessTokenExp) == 900 == FallbackSeconds
    ensures ParseDuration(RefreshTokenExp) == 604800
  {
    AccessTokenDefault();
    RefreshTokenDefault();
  }

  lemma AccessTokenDefault()
    ensures ParseDuration(AccessTokenExp) == 900
  {
    assert AccessTokenExp == "15" + ['m'];
    ParseWithUnit("15", 'm');
    assert "15"[..1] == "1" && "1"[..0] == "";
  }

  lemma RefreshTokenDefault()
    ensures ParseDuration(RefreshTokenExp) == 604800
  {
    assert RefreshTokenExp == "7" + ['d'];
    ParseWithUnit("7", 'd');
    assert "7"[..0] == "";
  }

  /** Strings that are not exactly digits and one unit letter fall back to 15 minutes:
      no unit, no digits, a fraction, a sign, an upper-case unit, surrounding white
      space, an unknown unit. Leading zeros are read. */
  lemma ParseExamples()
    ensures ParseDuration("15") == FallbackSeconds
    ensures ParseDuration("m") == FallbackSeconds
    ensures ParseDuration("1.5h") == FallbackSeconds
    ensures ParseDuration("-5m") == FallbackSeconds
    ensures ParseDuration("15M") == FallbackSeconds
    ensures ParseDuration(" 15m") == FallbackSeconds
    ensures ParseDuration("15m\n") == FallbackSeconds
    ensures ParseDuration("2w") == FallbackSeconds
    ensures ParseDuration("007s") == 7
  {
    MissingPartsFallBack();
    StrayCharactersFallBack();
    LeadingZerosAreRead();
  }

  lemma MissingPartsFallBack()
    ensures ParseDuration("15") == FallbackSeconds
    ensures ParseDuration("m") == FallbackSeconds
    ensures ParseDuration("15M") == FallbackSeconds
    ensures ParseDuration("2w") == FallbackSeconds
  {
  }

  lemma StrayCharactersFallBack()
    ensures ParseDuration("1.5h") == FallbackSeconds
    ensures ParseDuration("-5m") == FallbackSeconds
    ensures ParseDuration(" 15m") == FallbackSeconds
    ensures ParseDuration("15m\n") == FallbackSeconds
  {
    assert !IsDigit("1.5h"[1]);
    assert !IsDigit("-5m"[0]);
    assert !IsDigit(" 15m"[0]);
    assert !IsDigit("15m\n"[2]);
  }

  lemma LeadingZerosAreRead()
    ensures ParseDuration("007s") == 7
  {
    ParseWithUnit("007", 's');
    assert "007" + ['s'] == "007s";
    assert "007"[..2] == "00" && "00"[..1] == "0" && "0"[..0] == "";
  }

  // ---------------------------------------------------------------------------
  // getUnixExpiration

  /** The `string | number` argument. */
  datatype ExpiresIn = Seconds(n: int) | Text(s: string)

  function DurationOf(e: ExpiresIn): int
  {
    match e
    case Seconds(n) => n
    case Text(s) => ParseDuration(s)
  }

  /** `getUnixExpiration`: the current Unix time in whole seconds (`Math.floor` of the
      milliseconds over 1000) plus the duration, so the result minus the duration is
      the second `nowMs` falls in. */
  function GetUnixExpiration(nowMs: int, expiresIn: ExpiresIn): (r: int)
    ensures (r - DurationOf(expiresIn)) * 1000 <= nowMs < (r - DurationOf(expiresIn)) * 1000 + 1000
  {
    var now := nowMs / 1000;
    match expiresIn
    case Seconds(n) => now + n
    case Text(s) => now + ParseDuration(s)
  }

  /** With the default lifetime an access token expires 900 whole seconds after the
      current second, never before `nowMs`; a string lifetime never lies in the past. */
  lemma AccessTokenExpiry(nowMs: int, s: string)
    ensures GetUnixExpiration(nowMs, Text(AccessTokenExp)) == nowMs / 1000 + 900
    ensures GetUnixExpiration(nowMs, Text(AccessTokenExp)) * 1000 > nowMs
    ensures GetUnixExpiration(nowMs, Text(s)) * 1000 + 1000 > nowMs
  {
    DefaultDurations();
  }
}
