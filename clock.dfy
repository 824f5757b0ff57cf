// The clock of the current firmware (src/Clock.cpp): the adaptive NTP
// interval kept by success and failure counters, TimeLib's sync provider
// choosing between NTP and RTC time, the hours-tens digit, the stored-config
// defaults and the per-loop local time. The NTP client, the RTC chip, WiFi
// and millis() are oracles passed in as parameters; the interval constants
// come from a header that is not part of this model.

module Clock {
  import opened FixedWidth

  // ---- configuration -----------------------------------------------------------------

  /** `StoredConfig::Config::Clock`. */
  datatype ClockConfig = ClockConfig(
    twelveHour: bool, blankHoursZero: bool, timeZoneOffset: int, activeGraphicIdx: int, isValid: bool)

  /**
   * `begin`: a config never written gets 24-hour display, no blanking,
   * offset 3600 s (CET) and graphic 1, and is then marked valid; a valid
   * config is kept as it is.
   */
  function WithDefaults(c: ClockConfig): (r: ClockConfig)
    ensures r.isValid
    ensures c.isValid ==> r == c
    ensures !c.isValid ==> !r.twelveHour && !r.blankHoursZero && r.timeZoneOffset == 3600 && r.activeGraphicIdx == 1
  {
    if c.isValid then c else ClockConfig(false, false, 1 * 3600, 1, true)
  }

  /** Loading the defaults once is enough. */
  lemma DefaultsIdempotent(c: ClockConfig)
    ensures WithDefaults(WithDefaults(c)) == WithDefaults(c)
  {
  }

  /**
   * `getHoursTens`: the tens digit of the hour, or the blank glyph when
   * leading zeros are to be blanked and the digit is zero.
   */
  function HoursTens(hour: nat, blankHoursZero: bool, blanked: nat): (d: nat)
  {
    if blankHoursZero && hour / 10 == 0 then blanked else hour / 10
  }

  /** For an hour of the day the digit is 0, 1 or 2, or the blank glyph exactly when the hour is below ten and blanking is on. */
  lemma HoursTensRange(hour: nat, blankHoursZero: bool, blanked: nat)
    requires hour < 24 && blanked > 2
    ensures HoursTens(hour, blankHoursZero, blanked) == blanked <==> blankHoursZero && hour < 10
    ensures HoursTens(hour, blankHoursZero, blanked) != blanked ==> HoursTens(hour, blankHoursZero, blanked) == hour / 10 <= 2
  {
  }

  // ---- adaptive interval -------------------------------------------------------------

  /** The five `ntp_interval_*_ms` constants. */
  datatype Intervals = Intervals(initial: nat, normal: nat, stable: nat, error: nat, max: nat)

  function Pow2(n: nat): (p: nat)
    ensures p >= 1
  {
    if n == 0 then 1 else 2 * Pow2(n - 1)
  }

  lemma {:induction false} Pow2Monotone(m: nat, n: nat)
    requires m <= n
    ensures Pow2(m) <= Pow2(n)
    decreases n
  {
    if m < n {
      Pow2Monotone(m, n - 1);
    }
  }

  function Min(a: nat, b: nat): nat { if a <= b then a else b }

  lemma {:induction false} Pow2Add(a: nat, b: nat)
    ensures Pow2(a + b) == Pow2(a) * Pow2(b)
    decreases a
  {
    if a > 0 {
      Pow2Add(a - 1, b);
    }
  }

  /**
   * `updateNtpInterval` as written: the interval chosen from the counters.
   * One failure gives the error interval, two keep the current one, more
   * double the error interval per failure, capped at the maximum; without
   * failures, six successes give the stable interval, three the normal one,
   * fewer the initial one. The doubling `error * (1 << (failures - 1))` is
   * uint32_t arithmetic, so it wraps before the cap is applied; a shift by
   * 32 or more is undefined in C++, and the model takes the count's low
   * five bits, as the ESP32's shift instruction does.
   */
  function NextInterval(iv: Intervals, failures: nat, successes: nat, current: nat): (r: nat)
    ensures failures >= 3 ==> r <= iv.max && r < WORD32
  {
    if failures > 0 then
      if failures == 1 then iv.error
      else if failures >= 3 then Min(U32(iv.error * Pow2((failures - 1) % 32)), iv.max)
      else current
    else if successes >= 6 then iv.stable
    else if successes >= 3 then iv.normal
    else iv.initial
  }

  /** The intended interval: the doubling stops at the maximum instead of wrapping. */
  function NextIntervalFixed(iv: Intervals, failures: nat, successes: nat, current: nat): (r: nat)
    ensures failures == 0 || failures == 1 ==> r == NextInterval(iv, failures, successes, current)
  {
    if failures >= 3 then Min(iv.error * Pow2(failures - 1), iv.max)
    else NextInterval(iv, failures, successes, current)
  }

  /** Each further failure keeps or lengthens the intended interval, never past the maximum. */
  lemma BackoffGrows(iv: Intervals, f: nat, g: nat, s: nat, current: nat)
    requires 3 <= f <= g
    ensures NextIntervalFixed(iv, f, s, current) <= NextIntervalFixed(iv, g, s, current) <= iv.max
  {
    Pow2Monotone(f - 1, g - 1);
    MulMonotone(iv.error, Pow2(f - 1), Pow2(g - 1));
  }

  /** The code and the intended interval agree as long as the doubled error interval fits in 32 bits. */
  lemma IntervalsAgree(iv: Intervals, f: nat, s: nat, current: nat)
    requires f <= 32 && (f >= 1 ==> iv.error * Pow2(f - 1) < WORD32)
    ensures NextInterval(iv, f, s, current) == NextIntervalFixed(iv, f, s, current)
  {
    if f >= 3 {
      assert (f - 1) % 32 == f - 1;
      assert U32(iv.error * Pow2(f - 1)) == iv.error * Pow2(f - 1);
    }
  }

  /**
   * With the ten-minute error interval, the 27th failure in a row makes the
   * doubled interval 600000 * 2^26 = 9375 * 2^32, which wraps to 0: NTP is
   * then due at every call, where the intended interval is the maximum.
   */
  lemma BackoffCollapses(iv: Intervals, s: nat, current: nat)
    requires iv.error == 10 * 60 * 1000 && iv.max < WORD32
    ensures NextInterval(iv, 27, s, current) == 0
    ensures NextIntervalFixed(iv, 27, s, current) == iv.max
  {
    var p := Pow2(26);
    assert 64 * p == WORD32 by {
      Pow2Word();
      Pow2Add(6, 26);
      assert Pow2(6) == 64;
    }
    assert iv.error * p == 9375 * WORD32 by {
      assert iv.error * p == 9375 * (64 * p);
    }
    assert U32(iv.error * p) == 0;
  }

  lemma Pow2Word()
    ensures Pow2(32) == WORD32
  {
    assert Pow2(2) == 4;
    Pow2Add(2, 2);
    Pow2Add(4, 4);
    Pow2Add(8, 8);
    Pow2Add(16, 16);
  }

  lemma MulMonotone(k: nat, a: nat, b: nat)
    requires a <= b
    ensures k * a <= k * b
  {
  }

  /** When every configured interval is at most the maximum, so is every interval the counters choose. */
  lemma IntervalBounded(iv: Intervals, failures: nat, successes: nat, current: nat)
    requires iv.initial <= iv.max && iv.normal <= iv.max && iv.stable <= iv.max && iv.error <= iv.max
    requires current <= iv.max
    ensures NextInterval(iv, failures, successes, current) <= iv.max
  {
  }

  /** With no failure, the interval depends only on the success count, stepping up at three and six. */
  lemma SuccessLadder(iv: Intervals, s: nat, current: nat)
    ensures s < 3 ==> NextInterval(iv, 0, s, current) == iv.initial
    ensures 3 <= s < 6 ==> NextInterval(iv, 0, s, current) == iv.normal
    ensures 6 <= s ==> NextInterval(iv, 0, s, current) == iv.stable
  {
  }

  // ---- sync provider -----------------------------------------------------------------

  /** NTP times above this (2025-10-28) are written to the RTC. */
  const RTC_UPDATE_AFTER: nat := 1761609600
  /** NTP times below this (2025-03-30) cannot be right. */
  const NTP_VALID_FROM: nat := 1743364444

  /** `Clock`'s static state, with the RTC chip's time and TimeLib's sync interval beside it. */
  class NtpSync {
    const iv: Intervals
    var millisLastNtp: nat
    var currentInterval: nat
    var failures: nat
    var successes: nat
    /** The interval last given to TimeLib's `setSyncInterval`, in seconds, and how often it was given. */
    var syncIntervalSec: nat
    var syncIntervalSets: nat
    /** The time the RTC chip holds. */
    var rtc: nat

    /** After any event at most one counter is non-zero; the counters are uint8_t. */
    ghost predicate Valid()
      reads this
    {
      (failures == 0 || successes == 0) && failures < BYTE && successes < BYTE && millisLastNtp < WORD32
    }

    constructor (iv: Intervals, rtc: nat)
      ensures Valid() && this.iv == iv && this.rtc == rtc
      ensures millisLastNtp == 0 && currentInterval == iv.initial && failures == 0 && successes == 0
      ensures syncIntervalSets == 0
    {
      this.iv := iv;
      this.rtc := rtc;
      millisLastNtp := 0;
      currentInterval := iv.initial;
      failures := 0;
      successes := 0;
      syncIntervalSec := 0;
      syncIntervalSets := 0;
    }

    /** `updateNtpInterval`: TimeLib is told only when the interval actually changed. */
    method UpdateNtpInterval()
      modifies this
      ensures currentInterval == NextInterval(iv, failures, successes, old(currentInterval))
      ensures currentInterval != old(currentInterval) ==>
        syncIntervalSec == currentInterval / 1000 && syncIntervalSets == old(syncIntervalSets) + 1
      ensures currentInterval == old(currentInterval) ==>
        syncIntervalSec == old(syncIntervalSec) && syncIntervalSets == old(syncIntervalSets)
      ensures failures == old(failures) && successes == old(successes)
      ensures millisLastNtp == old(millisLastNtp) && rtc == old(rtc)
    {
      var oldInterval := currentInterval;
      if failures > 0 {
        if failures == 1 {
          currentInterval := iv.error;
        } else if failures >= 3 {
          currentInterval := Min(U32(iv.error * Pow2((failures - 1) % 32)), iv.max);
        }
      } else if successes >= 6 {
        currentInterval := iv.stable;
      } else if successes >= 3 {
        currentInterval := iv.normal;
      } else {
        currentInterval := iv.initial;
      }
      if oldInterval != currentInterval {
        syncIntervalSec := currentInterval / 1000;
        syncIntervalSets := syncIntervalSets + 1;
      }
    }

    /** `handleNtpSuccess`: failures cleared, successes counted (wrapping at 256). */
    method HandleNtpSuccess()
      requires Valid()
      modifies this
      ensures Valid()
      ensures failures == 0 && successes == U8(old(successes) + 1)
      ensures currentInterval == NextInterval(iv, 0, successes, old(currentInterval))
      ensures millisLastNtp == old(millisLastNtp) && rtc == old(rtc)
    {
      failures := 0;
      successes := U8(successes + 1);
      UpdateNtpInterval();
    }

    /** `handleNtpFailure`: successes cleared, failures counted (wrapping at 256). */
    method HandleNtpFailure()
      requires Valid()
      modifies this
      ensures Valid()
      ensures successes == 0 && failures == U8(old(failures) + 1)
      ensures currentInterval == NextInterval(iv, failures, 0, old(currentInterval))
      ensures millisLastNtp == old(millisLastNtp) && rtc == old(rtc)
    {
      successes := 0;
      failures := U8(failures + 1);
      UpdateNtpInterval();
    }

    /**
     * `syncProvider`. NTP is asked only when the interval has elapsed or it
     * never was; `ntpOk` and `ntpNow` are the result of `update()` and
     * `getEpochTime()`.
     */
    method SyncProvider(millis: nat, wifi: bool, ntpOk: bool, ntpNow: nat) returns (t: nat)
      requires Valid() && millis < WORD32
      modifies this
      ensures Valid()
      // not due: RTC time, nothing changes
      ensures !(Elapsed(millis, old(millisLastNtp)) >= old(currentInterval) || old(millisLastNtp) == 0) ==>
        t == old(rtc) && millisLastNtp == old(millisLastNtp) && failures == old(failures)
        && successes == old(successes) && currentInterval == old(currentInterval) && rtc == old(rtc)
      // due, but no WiFi or the query failed: the attempt and a failure are recorded
      ensures (Elapsed(millis, old(millisLastNtp)) >= old(currentInterval) || old(millisLastNtp) == 0)
              && !(wifi && ntpOk) ==>
        t == old(rtc) && millisLastNtp == millis && successes == 0 && failures == U8(old(failures) + 1)
        && currentInterval == NextInterval(iv, failures, 0, old(currentInterval)) && rtc == old(rtc)
      // an implausibly early NTP time: RTC time, nothing recorded
      ensures (Elapsed(millis, old(millisLastNtp)) >= old(currentInterval) || old(millisLastNtp) == 0)
              && wifi && ntpOk && ntpNow != old(rtc) && ntpNow < NTP_VALID_FROM ==>
        t == old(rtc) && millisLastNtp == old(millisLastNtp) && failures == old(failures)
        && successes == old(successes) && currentInterval == old(currentInterval) && rtc == old(rtc)
      // otherwise NTP time is used, a success recorded, and the RTC set when it differs and NTP is late enough
      ensures (Elapsed(millis, old(millisLastNtp)) >= old(currentInterval) || old(millisLastNtp) == 0)
              && wifi && ntpOk && !(ntpNow != old(rtc) && ntpNow < NTP_VALID_FROM) ==>
        t == ntpNow && millisLastNtp == millis && failures == 0 && successes == U8(old(successes) + 1)
        && currentInterval == NextInterval(iv, 0, successes, old(currentInterval))
        && rtc == (if ntpNow != old(rtc) && ntpNow > RTC_UPDATE_AFTER then ntpNow else old(rtc))
    {
      if Elapsed(millis, millisLastNtp) >= currentInterval || millisLastNtp == 0 {
        if wifi {
          if ntpOk {
            var rtcNow := rtc;
            if ntpNow != rtcNow && ntpNow > RTC_UPDATE_AFTER {
              rtc := ntpNow;
            } else if ntpNow != rtcNow && ntpNow < NTP_VALID_FROM {
              return rtc;
            }
            millisLastNtp := millis;
            HandleNtpSuccess();
            return ntpNow;
          } else {
            millisLastNtp := millis;
            HandleNtpFailure();
            return rtc;
          }
        }
        millisLastNtp := millis;
        HandleNtpFailure();
        return rtc;
      }
      return rtc;
    }
  }

  /** A `Clock` object: its stored config and the times of the last loop. */
  class ClockState {
    var config: ClockConfig
    var loopTime: nat
    var localTime: int
    var timeValid: bool

    constructor (config: ClockConfig)
      ensures this.config == config && !timeValid
    {
      this.config := config;
      loopTime := 0;
      localTime := 0;
      timeValid := false;
    }

    /** `begin`, as far as the config goes. */
    method Begin()
      modifies this
      ensures config == WithDefaults(old(config))
      ensures loopTime == old(loopTime) && localTime == old(localTime) && timeValid == old(timeValid)
    {
      if !config.isValid {
        config := ClockConfig(false, false, 1 * 3600, 1, true);
      }
    }

    /**
     * `loop`: once TimeLib's time is set, the loop time is its `now()` and
     * the local time that plus the zone offset (time_t is 32 bits wide);
     * before that only the valid flag drops.
     */
    method Loop(timeSet: bool, now: nat)
      modifies this
      ensures timeValid == timeSet && config == old(config)
      ensures timeSet ==> loopTime == now && localTime == U32(now + config.timeZoneOffset)
      ensures !timeSet ==> loopTime == old(loopTime) && localTime == old(localTime)
    {
      if !timeSet {
        timeValid := false;
      } else {
        loopTime := now;
        localTime := U32(loopTime + config.timeZoneOffset);
        timeValid := true;
      }
    }
  }
}
