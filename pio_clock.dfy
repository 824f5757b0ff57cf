// The clock of the PlatformIO firmware (EleksTubeHAX_pio/src/Clock.cpp). Its
// config defaults and hours-tens digit are the same code as the current
// firmware's and are modelled once, in module Clock; what differs is the sync
// provider: a fixed refresh period, a strict comparison, one plausibility
// threshold, and no record of failed attempts.

module PioClock {
  import opened FixedWidth

  /** NTP times below this (2025-03-30) cannot be right; later ones that differ are written to the RTC. */
  const NTP_VALID_FROM: nat := 1743364444

  class PioSync {
    /** `refresh_ntp_every_ms`, from a header that is not part of this model. */
    const refreshEvery: nat
    var millisLastNtp: nat
    /** The time the RTC chip holds. */
    var rtc: nat

    constructor (refreshEvery: nat, rtc: nat)
      ensures this.refreshEvery == refreshEvery && this.rtc == rtc && millisLastNtp == 0
    {
      this.refreshEvery := refreshEvery;
      this.rtc := rtc;
      millisLastNtp := 0;
    }

    /**
     * `syncProvider`: NTP is asked only when strictly more than the refresh
     * period has passed or it never was; only a used NTP time records the
     * attempt, so a failed query or a missing WiFi is retried on the next call.
     */
    method SyncProvider(millis: nat, wifi: bool, ntpOk: bool, ntpNow: nat) returns (t: nat)
      requires millis < WORD32 && millisLastNtp < WORD32
      modifies this
      ensures millisLastNtp < WORD32
      ensures !(Elapsed(millis, old(millisLastNtp)) > refreshEvery || old(millisLastNtp) == 0) ==>
        t == old(rtc) && millisLastNtp == old(millisLastNtp) && rtc == old(rtc)
      ensures (Elapsed(millis, old(millisLastNtp)) > refreshEvery || old(millisLastNtp) == 0) && !(wifi && ntpOk) ==>
        t == old(rtc) && millisLastNtp == old(millisLastNtp) && rtc == old(rtc)
      ensures (Elapsed(millis, old(millisLastNtp)) > refreshEvery || old(millisLastNtp) == 0)
              && wifi && ntpOk && ntpNow != old(rtc) && ntpNow < NTP_VALID_FROM ==>
        t == old(rtc) && millisLastNtp == old(millisLastNtp) && rtc == old(rtc)
      ensures (Elapsed(millis, old(millisLastNtp)) > refreshEvery || old(millisLastNtp) == 0)
              && wifi && ntpOk && !(ntpNow != old(rtc) && ntpNow < NTP_VALID_FROM) ==>
        t == ntpNow && millisLastNtp == millis
        && rtc == (if ntpNow != old(rtc) && ntpNow > NTP_VALID_FROM then ntpNow else old(rtc))
    {
      var rtcNow := rtc;
      if Elapsed(millis, millisLastNtp) > refreshEvery || millisLastNtp == 0 {
        if wifi {
          if ntpOk {
            rtcNow := rtc;
            if ntpNow != rtcNow && ntpNow > NTP_VALID_FROM {
              rtc := ntpNow;
              rtcNow := rtc;
            } else if ntpNow != rtcNow && ntpNow < NTP_VALID_FROM {
              rtcNow := rtc;
              return rtcNow;
            }
            millisLastNtp := millis;
            return ntpNow;
          } else {
            rtcNow := rtc;
            return rtcNow;
          }
        }
        return rtcNow;
      }
      return rtcNow;
    }
  }

  /** After a used NTP time the next call within the refresh period does not ask again. */
  lemma NoRequeryWithinPeriod(last: nat, millis: nat, refreshEvery: nat)
    requires 0 < last <= millis < WORD32 && millis - last <= refreshEvery
    ensures !(Elapsed(millis, last) > refreshEvery || last == 0)
  {
  }

  /**
   * The two files differ exactly at the period boundary: when precisely the
   * period has passed, the current firmware asks NTP and this one does not.
   */
  lemma BoundaryDiffers(last: nat, period: nat)
    requires 0 < last && last + period < WORD32
    ensures Elapsed(last + period, last) >= period
    ensures !(Elapsed(last + period, last) > period)
  {
  }
}
