// The application logic of the current firmware's main loop
// (src/main.cpp): the UTC-offset menu (stepping with wrap-around and the
// offset text), the night-time test used for dimming, the mapping between
// the MQTT state value and the clock-face index, the geolocation offset
// acceptance rule with its weekly window and daily retry budget, and the
// unique device name. The display, the RTC, random() and the geolocation
// HTTP query are left to their callers: their results are parameters.

module Main {
  import opened Wrappers
  import opened FixedWidth
  import opened Ascii

  // ---- UTC offset menu -------------------------------------------------------------

  /** Twelve hours, in seconds: the largest offset the menu offers either way. */
  const MAX_OFFSET: int := 43200

  /**
   * The offset after one menu step of `change` units of `unit` seconds
   * (3600 or 900): past +12 h it wraps to -12 h, past -12 h to +12 h.
   */
  function SteppedOffset(cur: int, change: int, unit: int): (r: int)
    ensures -MAX_OFFSET <= r <= MAX_OFFSET
    ensures -MAX_OFFSET <= cur + change * unit <= MAX_OFFSET ==> r == cur + change * unit
  {
    var n := cur + change * unit;
    if n > MAX_OFFSET then -MAX_OFFSET else if n < -MAX_OFFSET then MAX_OFFSET else n
  }

  /** The menu code, with its `offsetWrapAround` flag keeping the second test from undoing the first. */
  method StepOffset(cur: int, change: int, unit: int) returns (newOffset: int)
    ensures newOffset == SteppedOffset(cur, change, unit)
  {
    newOffset := cur + change * unit;
    var offsetWrapAround := false;
    if newOffset > 43200 {
      newOffset := -43200;
      offsetWrapAround := true;
    }
    if newOffset < -43200 && !offsetWrapAround {
      newOffset := 43200;
    }
  }

  /** One step forward and one back return to the start, away from the ends of the range. */
  lemma StepUndone(cur: int, unit: int)
    requires unit > 0 && -MAX_OFFSET <= cur && cur + unit <= MAX_OFFSET
    ensures SteppedOffset(SteppedOffset(cur, 1, unit), -1, unit) == cur
    ensures SteppedOffset(SteppedOffset(cur + unit, -1, unit), 1, unit) == cur + unit
  {
  }

  /** Stepping past either end lands on the other, which shows the same time of day. */
  lemma StepWraps(unit: int)
    requires unit > 0
    ensures SteppedOffset(MAX_OFFSET, 1, unit) == -MAX_OFFSET
    ensures SteppedOffset(-MAX_OFFSET, -1, unit) == MAX_OFFSET
    ensures (MAX_OFFSET - -MAX_OFFSET) % 86400 == 0
  {
  }

  /**
   * The menu's offset text: hours and minutes from C division, "-h:mm" when
   * both are at most zero, "+h:mm" when both are at least zero, "0:00" for
   * zero. The hours are an int8_t, hence the bound. Put in terms of the
   * offset itself: no sign under a minute, otherwise the offset's own sign,
   * then its whole hours and the whole minutes left over.
   */
  function OffsetText(o: int): (s: string)
    requires Abs(o) < 128 * 3600
    ensures |s| >= 4
    ensures s == (if Abs(o) < 60 then "" else if o < 0 then "-" else "+")
                 + Decimal(Abs(o) / 3600) + ":" + TwoDigits(Abs(o) % 3600 / 60)
  {
    var h := CDiv(o, 3600);
    var m := CDiv(CMod(o, 3600), 60);
    assert Abs(h) == Abs(o) / 3600 && Abs(m) == Abs(o) % 3600 / 60;
    assert (m == 0 && h == 0) <==> Abs(o) < 60;
    if m == 0 && h == 0 then Decimal(0) + ":" + TwoDigits(0)
    else if m <= 0 && h <= 0 then "-" + Decimal(-h) + ":" + TwoDigits(-m)
    else if m >= 0 && h >= 0 then "+" + Decimal(h) + ":" + TwoDigits(m)
    else assert false; ""
  }

  /** Reads an offset text back: optional sign, hours, ':', two minute digits. */
  function OffsetValue(s: string): int
  {
    var body := if |s| > 0 && (s[0] == '-' || s[0] == '+') then s[1..] else s;
    var sign := if |s| > 0 && s[0] == '-' then -1 else 1;
    if |body| < 3 then 0
    else sign * (DecimalValue(body[..|body| - 3]) * 3600 + DecimalValue(body[|body| - 2..]) * 60)
  }

  lemma TwoDigitsValue(n: nat)
    requires n < 100
    ensures DecimalValue(TwoDigits(n)) == n
  {
    var s := TwoDigits(n);
    assert s[..1][..0] == [];
    assert DecimalValue(s[..1]) == DigitValue(s[0]) % 10;
  }

  /** Whole hours and the minutes left over make up the whole minutes of a non-negative offset. */
  lemma MinutesRecompose(a: nat)
    ensures a / 3600 * 3600 + (a % 3600) / 60 * 60 == a / 60 * 60
  {
    var q, r := a / 3600, a % 3600;
    assert a == q * 3600 + r;
    assert a / 60 == q * 60 + r / 60;
  }

  /** Reading back a text built from a sign, the hours and two minute digits. */
  lemma ReadBack(sign: string, h: nat, m: nat)
    requires m < 100 && (sign == "" || sign == "+" || sign == "-")
    ensures OffsetValue(sign + Decimal(h) + ":" + TwoDigits(m)) == (if sign == "-" then -1 else 1) * (h * 3600 + m * 60)
  {
    var s := sign + Decimal(h) + ":" + TwoDigits(m);
    var body := s[|sign|..];
    assert body == Decimal(h) + ":" + TwoDigits(m);
    assert body[..|body| - 3] == Decimal(h);
    assert body[|body| - 2..] == TwoDigits(m);
    if sign == "" {
      assert s[0] == Decimal(h)[0] && IsDigit(s[0]);
    }
    TwoDigitsValue(m);
    DecimalRoundTrip(h);
  }

  /** The offset text gives back the offset, cut to whole minutes toward zero. */
  lemma OffsetTextRoundTrip(o: int)
    requires Abs(o) < 128 * 3600
    ensures OffsetValue(OffsetText(o)) == CDiv(o, 60) * 60
  {
    var a := Abs(o);
    var h, m := a / 3600, (a % 3600) / 60;
    var whole := a / 60 * 60;
    MinutesRecompose(a);
    assert h * 3600 + m * 60 == whole;
    if o >= 0 {
      assert CDiv(o, 3600) == h && CDiv(CMod(o, 3600), 60) == m;
      assert CDiv(o, 60) == a / 60;
      if m == 0 && h == 0 {
        assert OffsetText(o) == "" + Decimal(0) + ":" + TwoDigits(0);
        ReadBack("", 0, 0);
      } else {
        assert OffsetText(o) == "+" + Decimal(h) + ":" + TwoDigits(m);
        ReadBack("+", h, m);
      }
    } else {
      assert CDiv(o, 3600) + h == 0 && CDiv(CMod(o, 3600), 60) + m == 0;
      assert CDiv(o, 60) + a / 60 == 0;
      if m == 0 && h == 0 {
        assert OffsetText(o) == "" + Decimal(0) + ":" + TwoDigits(0);
        ReadBack("", 0, 0);
      } else {
        assert OffsetText(o) == "-" + Decimal(h) + ":" + TwoDigits(m);
        ReadBack("-", h, m);
      }
    }
  }

  // ---- dimming -----------------------------------------------------------------------

  /**
   * `isNightTime`: with DAY_TIME before NIGHT_TIME the night wraps past
   * midnight; otherwise it lies within the day.
   */
  function IsNightTime(hour: nat, dayTime: nat, nightTime: nat): bool
  {
    if dayTime < nightTime then hour < dayTime || hour >= nightTime
    else hour >= nightTime && hour < dayTime
  }

  /**
   * Both branches say the same thing: night is the hours from NIGHT_TIME
   * going clockwise up to, and not including, DAY_TIME.
   */
  lemma NightIsClockwiseSpan(hour: nat, dayTime: nat, nightTime: nat)
    requires hour < 24 && dayTime < 24 && nightTime < 24
    ensures IsNightTime(hour, dayTime, nightTime) <==> (hour - nightTime) % 24 < (dayTime - nightTime) % 24
  {
    if dayTime < nightTime {
      if hour >= nightTime {
        assert (hour - nightTime) % 24 == hour - nightTime;
      } else {
        assert (hour - nightTime) % 24 == hour - nightTime + 24;
      }
      assert (dayTime - nightTime) % 24 == dayTime - nightTime + 24;
    } else {
      if hour >= nightTime {
        assert (hour - nightTime) % 24 == hour - nightTime;
      } else {
        assert (hour - nightTime) % 24 == hour - nightTime + 24;
      }
      assert (dayTime - nightTime) % 24 == dayTime - nightTime;
    }
  }

  // ---- MQTT state and clock face ---------------------------------------------------

  /**
   * The face index a received state value selects (an uint8_t): a random
   * face from 90 on, otherwise state / 5 - 1 in C division.
   */
  function GraphicForState(state: int, randomFace: nat): (idx: nat)
    ensures idx < BYTE || state >= 90
  {
    if state >= 90 then randomFace else U8(CDiv(state, 5) - 1)
  }

  /** The state value reported for the active face. */
  function StateForGraphic(idx: nat): (state: nat)
    ensures state % 5 == 0
  {
    (idx + 1) * 5
  }

  /** A face index up to 16 survives being reported and sent back. */
  lemma GraphicRoundTrip(idx: nat, randomFace: nat)
    requires idx <= 16
    ensures GraphicForState(StateForGraphic(idx), randomFace) == idx
  {
    assert StateForGraphic(idx) / 5 == idx + 1;
  }

  /** A state value from 5 to 89 comes back rounded down to a multiple of five. */
  lemma StateRoundTrip(state: int, randomFace: nat)
    requires 5 <= state < 90
    ensures StateForGraphic(GraphicForState(state, randomFace)) == state - state % 5
  {
    assert CDiv(state, 5) - 1 == state / 5 - 1 >= 0;
  }

  // ---- geolocation -----------------------------------------------------------------

  /** The offset CET, which a fresh config carries. */
  const DEFAULT_OFFSET: int := 1 * 3600

  /**
   * `GetGeoLocationTimeZoneOffset`, after the query: `query` is the offset
   * in whole seconds, or `None` when the query failed. An offset off the
   * 15-minute grid is refused, and so is one more than two hours away from a
   * stored offset that is valid and neither 0 nor the default.
   */
  function AcceptGeoOffset(query: Option<int>, storedValid: bool, previous: int): (r: Option<int>)
    ensures r.Some? ==> query.Some? && r.value == query.value && CMod(r.value, 900) == 0
    ensures r.Some? && storedValid && previous != 0 && previous != DEFAULT_OFFSET ==> Abs(r.value - previous) <= 7200
    ensures query.Some? && CMod(query.value, 900) == 0
            && (!storedValid || previous == 0 || previous == DEFAULT_OFFSET || Abs(query.value - previous) <= 7200)
            ==> r.Some?
  {
    match query
    case None => None
    case Some(offset) =>
      if CMod(offset, 15 * 60) != 0 then None
      else if storedValid && previous != 0 && previous != DEFAULT_OFFSET && Abs(offset - previous) > 2 * 3600 then None
      else Some(offset)
  }

  /** GEOLOC_MAX_FAILURES_PER_DAY and GEOLOC_RETRY_BACKOFF_MS. */
  const GEOLOC_MAX_FAILURES: nat := 4
  const GEOLOC_RETRY_BACKOFF: nat := 5 * 60 * 1000

  /** The geolocation update state: pending flag, failures today, next retry, day of the attempts, last day done. */
  class GeoLoc {
    var needsUpdate: bool
    var failedAttempts: nat
    var nextRetryMillis: nat
    var attemptDay: nat
    var yesterday: nat

    constructor ()
      ensures !needsUpdate && failedAttempts == 0 && nextRetryMillis == 0 && attemptDay == 0 && yesterday == 0
    {
      needsUpdate := false;
      failedAttempts := 0;
      nextRetryMillis := 0;
      attemptDay := 0;
      yesterday := 0;
    }

    /**
     * `checkUpdateGeoLocNeeded`: the window is Sunday (TimeLib weekday 1),
     * a day not yet done, 03:00 with the seconds past 5; opening it starts a
     * fresh budget for the day.
     */
    method CheckUpdateNeeded(day: nat, weekday: nat, hour: nat, minute: nat, second: nat)
      modifies this
      ensures var window := weekday == 1 && day != old(yesterday) && hour == 3 && minute == 0 && second > 5;
        if !old(needsUpdate) && window then
          needsUpdate && failedAttempts == 0 && nextRetryMillis == 0 && attemptDay == day
        else
          needsUpdate == old(needsUpdate) && failedAttempts == old(failedAttempts)
          && nextRetryMillis == old(nextRetryMillis) && attemptDay == old(attemptDay)
      ensures yesterday == old(yesterday)
    {
      var isSunday := weekday == 1;
      var isGeoLocWindow := isSunday && day != yesterday && hour == 3 && minute == 0 && second > 5;
      if !needsUpdate && isGeoLocWindow {
        needsUpdate := true;
        failedAttempts := 0;
        nextRetryMillis := 0;
        attemptDay := day;
      }
    }

    /**
     * `processGeoLocUpdate`: `query` is whether the geolocation query (with
     * its acceptance rule) succeeds, asked only when `queried` is returned.
     * After any call, a pending update has fewer than four failures behind it.
     */
    method ProcessUpdate(now: nat, today: nat, query: bool) returns (queried: bool)
      requires now < WORD32
      modifies this
      ensures needsUpdate ==> failedAttempts < GEOLOC_MAX_FAILURES
      ensures !old(needsUpdate) ==>
        !queried && !needsUpdate && failedAttempts == old(failedAttempts)
        && nextRetryMillis == old(nextRetryMillis) && attemptDay == old(attemptDay) && yesterday == old(yesterday)
      ensures old(needsUpdate) ==> attemptDay == today
      ensures var fails := if old(attemptDay) != today then 0 else old(failedAttempts);
              var retry := if old(attemptDay) != today then 0 else old(nextRetryMillis);
        old(needsUpdate) ==>
          (queried <==> fails < GEOLOC_MAX_FAILURES && now >= retry)
          && (fails >= GEOLOC_MAX_FAILURES ==> !needsUpdate && failedAttempts == fails && yesterday == old(yesterday))
          && (fails < GEOLOC_MAX_FAILURES && now < retry ==>
                needsUpdate && failedAttempts == fails && nextRetryMillis == retry && yesterday == old(yesterday))
          && (queried && query ==>
                !needsUpdate && failedAttempts == 0 && nextRetryMillis == 0 && yesterday == today)
          && (queried && !query ==>
                failedAttempts == fails + 1 && yesterday == old(yesterday)
                && needsUpdate == (fails + 1 < GEOLOC_MAX_FAILURES)
                && (needsUpdate ==> nextRetryMillis == U32(now + GEOLOC_RETRY_BACKOFF)))
    {
      queried := false;
      if !needsUpdate {
        return;
      }
      if attemptDay != today {
        failedAttempts := 0;
        nextRetryMillis := 0;
        attemptDay := today;
      }
      if failedAttempts >= GEOLOC_MAX_FAILURES {
        needsUpdate := false;
        return;
      }
      if now < nextRetryMillis {
        return;
      }
      queried := true;
      if query {
        needsUpdate := false;
        failedAttempts := 0;
        nextRetryMillis := 0;
        yesterday := today;
        return;
      }
      failedAttempts := failedAttempts + 1;
      if failedAttempts >= GEOLOC_MAX_FAILURES {
        needsUpdate := false;
        return;
      }
      nextRetryMillis := U32(now + GEOLOC_RETRY_BACKOFF);
    }
  }

  // ---- device name -----------------------------------------------------------------

  /**
   * MAC byte `i` (0..5) of `ESP.getEfuseMac()`, taken least significant
   * first from its low 48 bits.
   */
  function MacByte(efuse: nat, i: nat): (b: nat)
    requires i < 6
    ensures b < 256
  {
    var raw := efuse % 0x1_0000_0000_0000;
    if i == 0 then raw % 256
    else if i == 1 then raw / 0x100 % 256
    else if i == 2 then raw / 0x1_0000 % 256
    else if i == 3 then raw / 0x100_0000 % 256
    else if i == 4 then raw / 0x1_0000_0000 % 256
    else raw / 0x100_0000_0000 % 256
  }

  /** `snprintf` into a 32-byte buffer keeps at most 31 characters. */
  function Truncated31(s: string): (r: string)
    ensures |r| <= 31 && |r| <= |s| && r == s[..|r|]
    ensures |s| <= 31 ==> r == s
  {
    if |s| <= 31 then s else s[..31]
  }

  /**
   * `UniqueDeviceName`: DEVICE_NAME, '-', then MAC bytes 3, 4 and 5 as
   * two upper-case hex digits each.
   */
  function DeviceName(deviceName: string, efuse: nat): (r: string)
    ensures |deviceName| <= 24 ==>
      |r| == |deviceName| + 7 && r[..|deviceName|] == deviceName && r[|deviceName|] == '-'
      && UpperHexOf(r[|deviceName| + 1..|deviceName| + 3], MacByte(efuse, 3))
      && UpperHexOf(r[|deviceName| + 3..|deviceName| + 5], MacByte(efuse, 4))
      && UpperHexOf(r[|deviceName| + 5..], MacByte(efuse, 5))
  {
    Truncated31(deviceName + "-" + Hex2Upper(MacByte(efuse, 3)) + Hex2Upper(MacByte(efuse, 4)) + Hex2Upper(MacByte(efuse, 5)))
  }

  /**
   * `UniqueDeviceNameLower`: every character of the name up to and
   * including its terminating NUL goes through `tolower`; the rest of the
   * buffer is left as it was.
   */
  method LowerName(name: array<char>, lower: array<char>)
    requires name.Length == lower.Length && name != lower
    modifies lower
    ensures forall i :: 0 <= i < lower.Length && i <= FirstNul(name[..]) ==> lower[i] == ToLower(name[i])
    ensures forall i :: 0 <= i < lower.Length && i > FirstNul(name[..]) ==> lower[i] == old(lower[i])
  {
    var k := FirstNul(name[..]);
    var i := 0;
    while i < name.Length
      invariant 0 <= i <= name.Length && i <= k
      invariant forall j :: 0 <= j < i ==> lower[j] == ToLower(name[j])
      invariant forall j :: i <= j < lower.Length ==> lower[j] == old(lower[j])
    {
      var c := name[i];
      assert name[..][i] == c;
      lower[i] := ToLower(c);
      if c == '\0' {
        assert i == k;
        return;
      }
      i := i + 1;
    }
  }
}
