/**
 * Astral time keys and the per-hour cache of astral times.
 *
 * A key names a sun event: one of the predefined names ("sunrise",
 * "dusk_civil", ...) or "dawnN"/"duskN" for a sun depression of N degrees.
 * Times are wall-clock microseconds; the sun calculation of the astral
 * library is a function the manager is given.
 */
module Astral {
  import opened Wrappers
  import opened PyStrings

  datatype AstralTime =
    | DawnAstro | DawnNautical | DawnCivil
    | Sunrise | Noon | Sunset
    | DuskCivil | DuskNautical | DuskAstro
    | Midnight

  /** The enum values. */
  function Value(a: AstralTime): string {
    match a
    case DawnAstro => "dawn_astro"
    case DawnNautical => "dawn_nautical"
    case DawnCivil => "dawn_civil"
    case Sunrise => "sunrise"
    case Noon => "noon"
    case Sunset => "sunset"
    case DuskCivil => "dusk_civil"
    case DuskNautical => "dusk_nautical"
    case DuskAstro => "dusk_astro"
    case Midnight => "midnight"
  }

  /** The members of the enum in declaration order, the order iterating over it follows. */
  const AstralTimes: seq<AstralTime> :=
    [DawnAstro, DawnNautical, DawnCivil, Sunrise, Noon, Sunset, DuskCivil, DuskNautical, DuskAstro, Midnight]

  /** The parse result; a field that is not set is None. */
  datatype AstralParsed = AstralParsed(
    predefined: Option<AstralTime>,
    isDawn: Option<bool>,
    isDusk: Option<bool>,
    depression: Option<int>)

  function Predefined(a: AstralTime): AstralParsed {
    AstralParsed(Some(a), None, None, None)
  }

  /** The truthiness of an optional flag. */
  predicate IsSet(b: Option<bool>) {
    b == Some(true)
  }

  /** `mode_counter`: how many of predefined, is_dawn and is_dusk are truthy. */
  function ModeCount(p: AstralParsed): (n: nat)
    ensures n <= 3
  {
    (if p.predefined.Some? then 1 else 0) + (if IsSet(p.isDawn) then 1 else 0) + (if IsSet(p.isDusk) then 1 else 0)
  }

  /**
   * `is_valid` as written: the depression test is the chained comparison
   * `1 > depression < 18`, which only rejects depressions below 1.
   */
  predicate IsValidAsWritten(p: AstralParsed) {
    if ModeCount(p) != 1 then false
    else if p.predefined.Some? then true
    else if IsSet(p.isDawn) || IsSet(p.isDusk) then
      !(p.depression.None? || (1 > p.depression.value && p.depression.value < 18))
    else true
  }

  /** `is_valid` as intended: a dawn or dusk needs a depression from 1 to 18 degrees, the range parsing admits. */
  predicate IsValid(p: AstralParsed) {
    if ModeCount(p) != 1 then false
    else if p.predefined.Some? then true
    else if IsSet(p.isDawn) || IsSet(p.isDusk) then
      p.depression.Some? && 1 <= p.depression.value <= 18
    else true
  }

  /** Python reads `1 > d < 18` as `1 > d and d < 18`, which is just `d < 1`. */
  lemma ChainedComparison(d: int)
    ensures (1 > d && d < 18) <==> d < 1
  {
  }

  /** A dawn at a depression of 22 degrees passes `is_valid` as written, but is outside the range parsing admits. */
  lemma AsWrittenAcceptsDepression22()
    ensures var p := AstralParsed(None, Some(true), None, Some(22));
      IsValidAsWritten(p) && !IsValid(p)
  {
  }

  /**
   * What the corrected check promises: exactly one mode is set; a predefined
   * time is always valid; a dawn or dusk is valid exactly when its depression
   * is from 1 to 18.
   */
  lemma IsValidMeans(p: AstralParsed)
    ensures IsValid(p) ==> ModeCount(p) == 1
    ensures ModeCount(p) == 1 && p.predefined.Some? ==> IsValid(p)
    ensures ModeCount(p) == 1 && p.predefined.None? ==>
      (IsValid(p) <==> p.depression.Some? && 1 <= p.depression.value <= 18)
    ensures IsValid(p) ==> IsValidAsWritten(p)
  {
  }

  /** The first member of `names` whose lower-cased value is `v`. */
  function FindAstralTime(names: seq<AstralTime>, v: string): Option<AstralTime> {
    if names == [] then None
    else if Lower(Value(names[0])) == v then Some(names[0])
    else FindAstralTime(names[1..], v)
  }

  datatype AstralError = ValueError | ConfigException

  /** `value[4:]`. */
  function AfterPrefix(v: string): string {
    if |v| < 4 then [] else v[4..]
  }

  /** `parse_astral_time_key`, with Err where it raises ValueError. */
  function ParseAstralTimeKey(value: string): Result<AstralParsed, AstralError> {
    ParseLowered(Lower(Strip(value)))
  }

  /** The parse of the stripped, lower-cased key: enum values first. */
  function ParseLowered(v: string): Result<AstralParsed, AstralError> {
    match FindAstralTime(AstralTimes, v)
    case Some(a) => Ok(Predefined(a))
    case None => ParseTwilight(v)
  }

  /** A key that is no enum value: "dawn" or "dusk" and a number from 1 to 18. */
  function ParseTwilight(v: string): Result<AstralParsed, AstralError> {
    var isDawn := StartsWith(v, "dawn");
    var isDusk := StartsWith(v, "dusk");
    var depression := ParseInt(AfterPrefix(v));
    if depression.Some? && depression.value != 0 && 1 <= depression.value <= 18 then
      if isDawn then Ok(AstralParsed(None, Some(true), None, depression))
      else if isDusk then Ok(AstralParsed(None, None, Some(true), depression))
      else Err(ValueError)
    else Err(ValueError)
  }

  /** `is_valid_astral_time_key`: never raises. */
  predicate IsValidAstralTimeKey(value: string) {
    match ParseAstralTimeKey(value)
    case Ok(p) => IsValid(p)
    case Err(_) => false
  }

  lemma LowerKeeps(s: string)
    requires forall i :: 0 <= i < |s| ==> !('A' <= s[i] <= 'Z')
    ensures Lower(s) == s
  {
  }

  lemma ValueLower(a: AstralTime)
    ensures Lower(Value(a)) == Value(a) && Strip(Value(a)) == Value(a)
  {
    LowerKeeps(Value(a));
    StripKeeps(Value(a));
  }

  /** The enum values are distinct. */
  lemma ValueInjective(a: AstralTime, b: AstralTime)
    requires Value(a) == Value(b)
    ensures a == b
  {
    assert |Value(a)| == |Value(b)|;
    if |Value(a)| >= 6 {
      assert Value(a)[1] == Value(b)[1] && Value(a)[5] == Value(b)[5];
    }
  }

  /** Where a member stands in the enum. */
  function IndexOf(a: AstralTime): (i: nat)
    ensures i < |AstralTimes| && AstralTimes[i] == a
    ensures forall j :: 0 <= j < i ==> AstralTimes[j] != a
  {
    match a
    case DawnAstro => 0
    case DawnNautical => 1
    case DawnCivil => 2
    case Sunrise => 3
    case Noon => 4
    case Sunset => 5
    case DuskCivil => 6
    case DuskNautical => 7
    case DuskAstro => 8
    case Midnight => 9
  }

  lemma {:induction false} FindNone(names: seq<AstralTime>, v: string)
    requires forall i :: 0 <= i < |names| ==> Lower(Value(names[i])) != v
    ensures FindAstralTime(names, v) == None
  {
    if names != [] {
      var t := names[1..];
      assert forall i :: 0 <= i < |t| ==> t[i] == names[i + 1];
      FindNone(t, v);
    }
  }

  lemma {:induction false} FindFirst(names: seq<AstralTime>, v: string, i: nat)
    requires i < |names| && Lower(Value(names[i])) == v
    requires forall j :: 0 <= j < i ==> Lower(Value(names[j])) != v
    ensures FindAstralTime(names, v) == Some(names[i])
  {
    if i > 0 {
      var t := names[1..];
      assert forall j :: 0 <= j < |t| ==> t[j] == names[j + 1];
      FindFirst(t, v, i - 1);
    }
  }

  /** Every enum value finds its own member. */
  lemma FindValue(a: AstralTime)
    ensures FindAstralTime(AstralTimes, Value(a)) == Some(a)
  {
    var i := IndexOf(a);
    forall j | 0 <= j < i ensures Lower(Value(AstralTimes[j])) != Value(a) {
      ValueLower(AstralTimes[j]);
      if Value(AstralTimes[j]) == Value(a) {
        ValueInjective(AstralTimes[j], a);
      }
    }
    ValueLower(a);
    FindFirst(AstralTimes, Value(a), i);
  }

  /** A key no enum value equals finds none. */
  lemma FindNoValue(v: string)
    requires forall b :: Value(b) != v
    ensures FindAstralTime(AstralTimes, v) == None
  {
    forall i | 0 <= i < |AstralTimes| ensures Lower(Value(AstralTimes[i])) != v {
      ValueLower(AstralTimes[i]);
    }
    FindNone(AstralTimes, v);
  }

  /** Every enum value parses to that predefined time. */
  lemma ParseValue(a: AstralTime)
    ensures ParseAstralTimeKey(Value(a)) == Ok(Predefined(a))
  {
    ValueLower(a);
    FindValue(a);
  }

  /** Parsing depends only on the stripped, lower-cased key. */
  lemma ParseNormalises(value: string)
    ensures ParseAstralTimeKey(value) == ParseAstralTimeKey(Lower(Strip(value)))
  {
    var s := Strip(value);
    StripLower(s);
    StripIdempotent(value);
    LowerIdempotent(s);
  }

  /** What parsing accepts is valid, by either check, with a depression from 1 to 18. */
  lemma ParsedIsValid(value: string)
    requires ParseAstralTimeKey(value).Ok?
    ensures var p := ParseAstralTimeKey(value).value;
      IsValid(p) && IsValidAsWritten(p)
      && (p.predefined.None? ==> p.depression.Some? && 1 <= p.depression.value <= 18)
  {
  }

  /** A key is valid exactly when it parses. */
  lemma ValidKeyIffParses(value: string)
    ensures IsValidAstralTimeKey(value) <==> ParseAstralTimeKey(value).Ok?
  {
    if ParseAstralTimeKey(value).Ok? {
      ParsedIsValid(value);
    }
  }

  /** A string of ASCII digits. */
  predicate AllDigits(s: string) {
    s != [] && forall i :: 0 <= i < |s| ==> IsDigit(s[i])
  }

  /** `int()` reads a string of digits as its value, leading zeros included. */
  lemma ParseDigits(s: string)
    requires AllDigits(s)
    ensures ParseInt(s) == Some(DigitsValue(s))
  {
    StripKeeps(s);
  }

  /** No enum value holds a digit. */
  lemma ValueHasNoDigit(a: AstralTime, i: int)
    requires 0 <= i < |Value(a)|
    ensures !IsDigit(Value(a)[i])
  {
  }

  /** "dawn" or "dusk" and digits is already stripped and lower-case, and is no enum value. */
  lemma TwilightKeyShape(prefix: string, digits: string)
    requires prefix == "dawn" || prefix == "dusk"
    requires AllDigits(digits)
    ensures Lower(Strip(prefix + digits)) == prefix + digits
    ensures FindAstralTime(AstralTimes, prefix + digits) == None
    ensures AfterPrefix(prefix + digits) == digits
    ensures StartsWith(prefix + digits, prefix)
  {
    var key := prefix + digits;
    assert key[0] == prefix[0] && key[|key| - 1] == digits[|digits| - 1];
    StripKeeps(key);
    LowerKeeps(key);
    assert IsDigit(key[4]);
    forall b ensures Value(b) != key {
      if Value(b) == key {
        ValueHasNoDigit(b, 4);
      }
    }
    FindNoValue(key);
    assert key[..4] == prefix;
  }

  /**
   * "dawn" or "dusk" followed by digits: a dawn or dusk at that many degrees
   * when the number is from 1 to 18, and ValueError otherwise.
   */
  lemma ParseTwilightKey(dawn: bool, digits: string)
    requires AllDigits(digits)
    ensures var n := DigitsValue(digits);
      ParseAstralTimeKey((if dawn then "dawn" else "dusk") + digits) ==
        if !(1 <= n <= 18) then Err(ValueError)
        else if dawn then Ok(AstralParsed(None, Some(true), None, Some(n)))
        else Ok(AstralParsed(None, None, Some(true), Some(n)))
  {
    var prefix := if dawn then "dawn" else "dusk";
    var key := prefix + digits;
    TwilightKeyShape(prefix, digits);
    assert ParseAstralTimeKey(key) == ParseTwilight(key);
    ParseDigits(digits);
    assert !dawn ==> !StartsWith(key, "dawn") by {
      if !dawn { assert key[0] == 'd' && key[1] == 'u'; }
    }
  }

  /** "dawnN" and "duskN" parse to a dawn or dusk of N degrees for every N from 1 to 18. */
  lemma ParseDawnDusk(n: nat, dawn: bool)
    requires 1 <= n <= 18
    ensures var key := (if dawn then "dawn" else "dusk") + FormatNat(n);
      ParseAstralTimeKey(key) ==
        if dawn then Ok(AstralParsed(None, Some(true), None, Some(n)))
        else Ok(AstralParsed(None, None, Some(true), Some(n)))
  {
    FormatNatValue(n);
    ParseTwilightKey(dawn, FormatNat(n));
  }

  /** Bare "dawn" has no number and is refused. */
  lemma ParseBareDawn()
    ensures ParseAstralTimeKey("dawn").Err?
  {
    StripKeeps("dawn");
    LowerKeeps("dawn");
    forall b ensures Value(b) != "dawn" {
      assert |Value(b)| != 4 || Value(b)[0] != 'd';
    }
    FindNoValue("dawn");
    assert ParseInt([]) == None;
  }

  /**
   * `int()` does not skip the separators U+001C to U+001F, although
   * `str.isspace()` accepts them: "dawn" followed by U+001C and "5" is refused.
   */
  lemma ParseSeparatorRefused()
    ensures ParseAstralTimeKey("dawn\U{1C}5").Err?
  {
    var key := "dawn\U{1C}5";
    assert Lower(Strip(key)) == key by {
      StripKeeps(key);
      LowerKeeps(key);
    }
    assert FindAstralTime(AstralTimes, key) == None by {
      forall b ensures Value(b) != key {
        match b
        case DawnAstro => case DawnNautical => case DawnCivil => case Sunrise => case Noon =>
        case Sunset => case DuskCivil => case DuskNautical => case DuskAstro => case Midnight =>
      }
      FindNoValue(key);
    }
    assert ParseInt(AfterPrefix(key)) == None by {
      assert AfterPrefix(key) == "\U{1C}5";
      assert TrimRight("\U{1C}5", IsIntSpace) == "\U{1C}5";
      assert StripBy("\U{1C}5", IsIntSpace) == "\U{1C}5";
    }
  }

  /** The parser examples: 22 and 0 degrees are refused, "dusk02" is a dusk at 2 degrees. */
  lemma ParseNumberExamples()
    ensures ParseAstralTimeKey("dawn" + "22").Err?
    ensures ParseAstralTimeKey("dawn" + "0").Err?
    ensures ParseAstralTimeKey("dusk" + "02") == Ok(AstralParsed(None, None, Some(true), Some(2)))
  {
    assert "22"[..1] == "2" && "2"[..0] == [] && DigitsValue("22") == 22;
    assert "0"[..0] == [] && DigitsValue("0") == 0;
    assert "02"[..1] == "0" && DigitsValue("02") == 2;
    ParseTwilightKey(true, "22");
    ParseTwilightKey(true, "0");
    ParseTwilightKey(false, "02");
  }

  /** A predefined name in any case, padded with white space, parses to that time. */
  lemma ParsePaddedName(a: AstralTime, left: string, name: string, right: string)
    requires Lower(name) == Value(a)
    requires forall i :: 0 <= i < |left| ==> IsSpace(left[i])
    requires forall i :: 0 <= i < |right| ==> IsSpace(right[i])
    ensures ParseAstralTimeKey(left + name + right) == Ok(Predefined(a))
  {
    ValueLower(a);
    var v := Value(a);
    assert LowerChar(name[0]) == v[0] && LowerChar(name[|name| - 1]) == v[|v| - 1];
    StripPadded(left, name, right);
    FindValue(a);
  }

  /** The padded example: "  Sunrise " is the sunrise. */
  lemma ParsePadded()
    ensures ParseAstralTimeKey("  " + "Sunrise" + " ") == Ok(Predefined(Sunrise))
  {
    assert Lower("Sunrise") == "sunrise";
    ParsePaddedName(Sunrise, "  ", "Sunrise", " ");
  }

  // ---- rounding wall-clock times ----

  const Second: int := 1_000_000
  const Minute: int := 60 * Second
  const Hour: int := 60 * Minute
  const Day: int := 24 * Hour

  /** `round_time_to_minute`: add 30 seconds, then zero the seconds and microseconds. */
  function RoundToMinute(t: int): int {
    var u := t + 30 * Second;
    u - u % Minute
  }

  /** `round_time_to_hour`: round to the minute, then zero the minutes. */
  function RoundToHour(t: int): int {
    var m := RoundToMinute(t);
    m - m % Hour
  }

  /** The wall-clock time `h:m:s.us` on day `day`. */
  function WallClock(day: int, h: int, m: int, s: int, us: int): int {
    day * Day + h * Hour + m * Minute + s * Second + us
  }

  /** A rounded time is a whole minute, less than 30 seconds before the time or at most 30 seconds after it. */
  lemma RoundToMinuteBounds(t: int)
    ensures RoundToMinute(t) % Minute == 0
    ensures t - 30 * Second < RoundToMinute(t) <= t + 30 * Second
  {
  }

  lemma WholeMinutes(k: int, c: int)
    requires 0 <= c < Minute
    ensures (k * Minute + c) % Minute == c
  {
  }

  /** Rounding a rounded time changes nothing. */
  lemma RoundToMinuteIdempotent(t: int)
    ensures RoundToMinute(RoundToMinute(t)) == RoundToMinute(t)
  {
    var r := RoundToMinute(t);
    RoundToMinuteBounds(t);
    WholeMinutes(r / Minute, 30 * Second);
    assert r == r / Minute * Minute;
  }

  /** A time at half past a minute rounds up to the next minute. */
  lemma HalfMinuteRoundsUp(t: int)
    requires t % Minute == 30 * Second
    ensures RoundToMinute(t) == t + 30 * Second
  {
    var k := t / Minute;
    assert t == k * Minute + 30 * Second;
    WholeMinutes(k + 1, 0);
    assert t + 30 * Second == (k + 1) * Minute;
  }

  /** Whole minutes added to a time pass through rounding. */
  lemma RoundToMinuteShift(k: int, c: int)
    ensures RoundToMinute(k * Minute + c) == k * Minute + RoundToMinute(c)
  {
    var u := c + 30 * Second;
    var q, r := u / Minute, u % Minute;
    assert u == q * Minute + r && 0 <= r < Minute;
    assert k * Minute + u == (k + q) * Minute + r;
    WholeMinutes(k + q, r);
  }

  /** The rounding examples, on any day: 9:55:15 to 9:55, 9:55:31.012345 to 9:56, 23:59:31 and 23:59:30 to midnight of the next day. */
  lemma RoundingExamples(day: int)
    ensures RoundToMinute(WallClock(day, 9, 55, 15, 0)) == WallClock(day, 9, 55, 0, 0)
    ensures RoundToMinute(WallClock(day, 9, 55, 31, 12345)) == WallClock(day, 9, 56, 0, 0)
    ensures RoundToMinute(WallClock(day, 23, 59, 31, 0)) == WallClock(day + 1, 0, 0, 0, 0)
    ensures RoundToMinute(WallClock(day, 23, 59, 30, 0)) == WallClock(day + 1, 0, 0, 0, 0)
  {
    var k := day * 1440;
    assert day * Day == k * Minute;
    RoundToMinuteShift(k, WallClock(0, 9, 55, 15, 0));
    RoundToMinuteShift(k, WallClock(0, 9, 55, 31, 12345));
    RoundToMinuteShift(k, WallClock(0, 23, 59, 31, 0));
    RoundToMinuteShift(k, WallClock(0, 23, 59, 30, 0));
  }

  /** An hour-rounded time is a whole hour within the hour before the minute-rounded time. */
  lemma RoundToHourBounds(t: int)
    ensures RoundToHour(t) % Hour == 0
    ensures RoundToHour(t) <= RoundToMinute(t) < RoundToHour(t) + Hour
  {
  }

  lemma WholeHours(k: int, c: int)
    requires 0 <= c < Hour
    ensures (k * Hour + c) % Hour == c && (k * Hour + c) / Hour == k
  {
  }

  /** Rounding a whole hour to the hour changes nothing. */
  lemma RoundToHourOfHour(t: int)
    requires t % Hour == 0
    ensures RoundToMinute(t) == t && RoundToHour(t) == t
  {
    var k := t / Hour;
    assert t == (k * 60) * Minute;
    WholeMinutes(k * 60, 30 * Second);
  }

  lemma RoundToHourIdempotent(t: int)
    ensures RoundToHour(RoundToHour(t)) == RoundToHour(t)
  {
    RoundToHourBounds(t);
    RoundToHourOfHour(RoundToHour(t));
  }

  /** `pivot_time.date()`. */
  function DateOf(t: int): int {
    t / Day
  }

  /** A whole minute and its hour fall on the same day. */
  lemma HourOfMinuteSameDay(t: int)
    requires t % Minute == 0
    ensures RoundToMinute(t) == t && DateOf(RoundToHour(t)) == DateOf(t)
  {
    var k := t / Minute;
    assert t == k * Minute;
    WholeMinutes(k, 30 * Second);
    var d, rest := t / Day, t % Day;
    assert t == d * Day + rest && 0 <= rest < Day;
    var h := rest / Hour;
    assert rest == h * Hour + rest % Hour;
    assert t == (d * 24 + h) * Hour + rest % Hour;
    WholeHours(d * 24 + h, rest % Hour);
    assert RoundToHour(t) == d * Day + h * Hour;
    assert 0 <= h * Hour < Day;
  }

  // ---- the astral calculation ----

  /** The call into the astral library a parse result makes. */
  datatype SunEvent = SunriseOn | NoonOn | SunsetOn | MidnightOn | DawnOn(depression: int) | DuskOn(depression: int)

  /**
   * The event `calc_astral_time` asks for. The predefined twilights carry
   * fixed depressions: 6 for civil, 12 for the ones named astro and 18 for
   * the ones named nautical.
   */
  function Recipe(p: AstralParsed): (e: SunEvent)
    requires IsValid(p)
    ensures p.predefined.None? && IsSet(p.isDawn) ==> e == DawnOn(p.depression.value)
    ensures p.predefined.None? && IsSet(p.isDusk) ==> e == DuskOn(p.depression.value)
  {
    match p.predefined
    case Some(Sunrise) => SunriseOn
    case Some(Noon) => NoonOn
    case Some(Sunset) => SunsetOn
    case Some(Midnight) => MidnightOn
    case Some(DawnCivil) => DawnOn(6)
    case Some(DawnAstro) => DawnOn(12)
    case Some(DawnNautical) => DawnOn(18)
    case Some(DuskCivil) => DuskOn(6)
    case Some(DuskAstro) => DuskOn(12)
    case Some(DuskNautical) => DuskOn(18)
    case None => if IsSet(p.isDawn) then DawnOn(p.depression.value) else DuskOn(p.depression.value)
  }

  /**
   * `calc_astral_time`: refuses an invalid parse result; otherwise the sun
   * event on the pivot's date, rounded to the minute, or None where the sun
   * never gets there. The check is the intended `IsValid`, not
   * `IsValidAsWritten`; the two agree on every parse result (`ParsedIsValid`).
   */
  function CalcAstralTime(sun: (SunEvent, int) -> Option<int>, p: AstralParsed, pivot: int): Result<Option<int>, AstralError> {
    if !IsValid(p) then Err(ValueError)
    else match sun(Recipe(p), DateOf(pivot))
      case None => Ok(None)
      case Some(t) => Ok(Some(RoundToMinute(t)))
  }

  /** The calculation depends on the pivot only through its date, and yields whole minutes. */
  lemma CalcAstralTimeByDate(sun: (SunEvent, int) -> Option<int>, p: AstralParsed, a: int, b: int)
    requires DateOf(a) == DateOf(b)
    ensures CalcAstralTime(sun, p, a) == CalcAstralTime(sun, p, b)
    ensures CalcAstralTime(sun, p, a).Ok? && CalcAstralTime(sun, p, a).value.Some? ==>
      CalcAstralTime(sun, p, a).value.value % Minute == 0
  {
    var c := CalcAstralTime(sun, p, a);
    if c.Ok? && c.value.Some? {
      RoundToMinuteBounds(sun(Recipe(p), DateOf(a)).value);
    }
  }

  /** What the cached calculation for `key` is, at the given pivot. */
  function Lookup(sun: (SunEvent, int) -> Option<int>, key: string, pivot: int): Result<Option<int>, AstralError> {
    match ParseAstralTimeKey(key)
    case Err(e) => Err(e)
    case Ok(p) => CalcAstralTime(sun, p, pivot)
  }

  /** A geographic location. */
  datatype Location = Location(latitude: real, longitude: real, elevation: real)

  class AstralTimesManager {
    const observer: Option<Location>
    /** The astral library's answers for the observer: the time of an event on a date, or None. */
    const sun: (SunEvent, int) -> Option<int>
    var cacheTime: int
    var cachedValues: map<string, Option<int>>

    /** The cache holds, for the hour it is kept for, what the calculation gives for each key. */
    ghost predicate Valid()
      reads this
    {
      && cacheTime % Hour == 0
      && forall k :: k in cachedValues ==> Lookup(sun, k, cacheTime) == Ok(cachedValues[k])
    }

    constructor(observer: Option<Location>, sun: (SunEvent, int) -> Option<int>, now: int)
      ensures Valid() && this.observer == observer && this.sun == sun
      ensures cachedValues == map[] && cacheTime == RoundToHour(now)
    {
      this.observer := observer;
      this.sun := sun;
      cachedValues := map[];
      cacheTime := RoundToHour(now);
      new;
      RoundToHourBounds(now);
    }

    /** `_reset_cache`. */
    method ResetCache(time: int)
      modifies this`cachedValues, this`cacheTime
      ensures cachedValues == map[] && cacheTime == RoundToHour(time) && Valid()
    {
      cachedValues := map[];
      cacheTime := RoundToHour(time);
      RoundToHourBounds(time);
    }

    /**
     * `_get_or_calc_astral_time`, for the whole-minute pivots its callers pass:
     * the cache is emptied when the pivot's hour is not the cache's; a key
     * found with a time is answered from the cache; otherwise the time is
     * calculated, which needs an observer and a key that parses, and stored
     * under the key as given.
     */
    method GetOrCalc(key: string, pivot: int) returns (r: Result<Option<int>, AstralError>)
      requires Valid() && pivot % Minute == 0
      modifies this`cachedValues, this`cacheTime
      ensures Valid() && cacheTime == RoundToHour(pivot)
      ensures var base := if old(cacheTime) == RoundToHour(pivot) then old(cachedValues) else map[];
        if key in base && base[key].Some? then r == Ok(base[key]) && cachedValues == base
        else if observer.None? then r == Err(ConfigException) && cachedValues == base
        else if ParseAstralTimeKey(key).Err? then r == Err(ValueError) && cachedValues == base
        else r.Ok? && cachedValues == base[key := r.value]
      ensures r.Ok? ==> r == Lookup(sun, key, pivot)
    {
      HourOfMinuteSameDay(pivot);
      if cacheTime != RoundToHour(pivot) {
        ResetCache(pivot);
      }
      var cached := if key in cachedValues then cachedValues[key] else None;
      if cached.Some? {
        assert Lookup(sun, key, cacheTime) == Ok(cached);
        LookupByDate(key, cacheTime, pivot);
        return Ok(cached);
      }
      if observer.None? {
        return Err(ConfigException);
      }
      var parsed := ParseAstralTimeKey(key);
      if parsed.Err? {
        return Err(ValueError);
      }
      ParsedIsValid(key);
      r := CalcAstralTime(sun, parsed.value, pivot);
      LookupByDate(key, cacheTime, pivot);
      cachedValues := cachedValues[key := r.value];
    }

    lemma LookupByDate(key: string, a: int, b: int)
      requires DateOf(a) == DateOf(b)
      ensures Lookup(sun, key, a) == Lookup(sun, key, b)
    {
      if ParseAstralTimeKey(key).Ok? {
        CalcAstralTimeByDate(sun, ParseAstralTimeKey(key).value, a, b);
      }
    }

    /**
     * `hits`: whether the key's astral time is the pivot rounded to the
     * minute. The cache never changes the answer: it is the calculation's.
     */
    method Hits(key: string, pivot: int) returns (r: Result<bool, AstralError>)
      requires Valid()
      modifies this`cachedValues, this`cacheTime
      ensures Valid() && cacheTime == RoundToHour(RoundToMinute(pivot))
      ensures var p := RoundToMinute(pivot);
        var base := if old(cacheTime) == RoundToHour(p) then old(cachedValues) else map[];
        if (key in base && base[key].Some?) || observer.None? || ParseAstralTimeKey(key).Err? then cachedValues == base
        else Lookup(sun, key, p).Ok? && cachedValues == base[key := Lookup(sun, key, p).value]
      ensures r.Ok? ==> r.value == (Lookup(sun, key, RoundToMinute(pivot)) == Ok(Some(RoundToMinute(pivot))))
      ensures r.Err? ==> r.error == ConfigException || ParseAstralTimeKey(key).Err?
      ensures observer.Some? && ParseAstralTimeKey(key).Ok? ==> r.Ok?
    {
      var p := RoundToMinute(pivot);
      RoundToMinuteBounds(pivot);
      var t := GetOrCalc(key, p);
      if t.Err? {
        return Err(t.error);
      }
      r := Ok(t.value == Some(p));
    }
  }
}
