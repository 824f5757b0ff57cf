// WiFi connection management of the firmware (src/WiFi_WPS.cpp): the
// bounded copy of the WPS identification strings, the reconnect policy with
// its doubling back-off, the reactions to the WiFi driver's events, and the
// WPS session that restarts itself every 30 s and saves credentials only
// when it ends connected. The driver, the delays and the display are left
// out; millis() and the driver's answers are parameters.

module WifiWps {
  import opened Wrappers
  import opened FixedWidth
  import opened Ascii
  import Clock

  // ---- copy_wps_field ----------------------------------------------------------------

  /**
   * `copy_wps_field`: `src` is `None` for NULL. The buffer ends up
   * holding the source's C string cut to `dest.Length - 1` characters,
   * NUL-padded as `strncpy` does and always terminated.
   */
  method CopyWpsField(dest: array<char>, src: Option<string>)
    modifies dest
    ensures dest.Length == 0 ==> dest[..] == old(dest[..])
    ensures dest.Length > 0 && src.None? ==>
      dest[0] == '\0' && dest[1..] == old(dest[1..]) && CString(dest[..]) == ""
    ensures dest.Length > 0 && src.Some? ==>
      var k := Clock.Min(FirstNul(src.value), dest.Length - 1);
      (forall i :: 0 <= i < k ==> dest[i] == src.value[i])
      && (forall i :: k <= i < dest.Length ==> dest[i] == '\0')
      && CString(dest[..]) == CString(src.value)[..k]
  {
    var n := dest.Length;
    if n == 0 {
      return;
    }
    if src.None? {
      dest[0] := '\0';
      assert dest[..][0] == '\0';
      FirstNulAt(dest[..], 0);
      return;
    }
    var s := src.value;
    var i := 0;
    while i < n - 1 && i < |s| && s[i] != '\0'
      invariant 0 <= i <= n - 1 && i <= FirstNul(s)
      invariant forall j :: 0 <= j < i ==> dest[j] == s[j]
    {
      dest[i] := s[i];
      i := i + 1;
    }
    var k := i;
    assert k == Clock.Min(FirstNul(s), n - 1);
    while i < n - 1
      invariant k <= i <= n - 1
      invariant forall j :: 0 <= j < k ==> dest[j] == s[j]
      invariant forall j :: k <= j < i ==> dest[j] == '\0'
    {
      dest[i] := '\0';
      i := i + 1;
    }
    dest[n - 1] := '\0';
    FirstNulAt(dest[..], k);
    assert CString(dest[..]) == dest[..k] == CString(s)[..k];
  }

  // ---- reconnect policy --------------------------------------------------------------

  /** WifiReconnectIntervalMaxMs. */
  const MAX_INTERVAL: nat := 60000

  /** How long an attempt in progress is left alone, in ms. */
  const ATTEMPT_TIMEOUT: nat := 5000

  datatype WifiState = Disconnected | Connected | WpsActive | WpsSuccess | WpsFailed

  /** The reconnect globals: the state, the time of the last attempt, the interval and the in-progress flag. */
  datatype Link = Link(state: WifiState, attemptTime: nat, intervalMs: nat, inProgress: bool)

  /**
   * `WifiReconnect` after its WPS checks (`skip` is true while WPS runs or
   * without stored credentials): an attempt in progress for less than 5 s
   * is left alone; past that it is given up; a new attempt is made when
   * disconnected and the interval has passed, and it doubles the interval
   * up to one minute. The result also says whether an attempt was made.
   */
  function ReconnectStep(l: Link, now: nat, skip: bool): (r: (Link, bool))
    requires now < WORD32 && l.attemptTime < WORD32
    ensures r.1 <==> !skip && !(l.inProgress && Elapsed(now, l.attemptTime) < ATTEMPT_TIMEOUT)
                     && l.state == Disconnected && Elapsed(now, l.attemptTime) > l.intervalMs
    ensures r.1 ==> r.0 == Link(l.state, now, Clock.Min(2 * l.intervalMs, MAX_INTERVAL), true)
    ensures !r.1 && (skip || (l.inProgress && Elapsed(now, l.attemptTime) < ATTEMPT_TIMEOUT)) ==> r.0 == l
    ensures !r.1 && !skip && !(l.inProgress && Elapsed(now, l.attemptTime) < ATTEMPT_TIMEOUT) ==>
      r.0 == l.(inProgress := false)
  {
    if skip then (l, false)
    else if l.inProgress && Elapsed(now, l.attemptTime) < ATTEMPT_TIMEOUT then (l, false)
    else
      var l1 := l.(inProgress := false);
      if l1.state == Disconnected && Elapsed(now, l1.attemptTime) > l1.intervalMs then
        (Link(l1.state, now, Clock.Min(l1.intervalMs * 2, MAX_INTERVAL), true), true)
      else (l1, false)
  }

  /** The interval after `k` attempts in a row, starting from `initial`. */
  function Backoff(initial: nat, k: nat): nat
  {
    if k == 0 then initial else Clock.Min(2 * Backoff(initial, k - 1), MAX_INTERVAL)
  }

  /** The back-off is the doubling, capped at one minute. */
  lemma {:induction false} BackoffClosedForm(initial: nat, k: nat)
    requires initial <= MAX_INTERVAL
    ensures Backoff(initial, k) == Clock.Min(initial * Clock.Pow2(k), MAX_INTERVAL)
  {
    if k > 0 {
      BackoffClosedForm(initial, k - 1);
      var p := Clock.Pow2(k - 1);
      assert Clock.Pow2(k) == 2 * p;
      if initial * p > MAX_INTERVAL {
        assert initial * Clock.Pow2(k) == 2 * (initial * p) > MAX_INTERVAL;
      }
    }
  }

  /** With the default 15 s retry the interval runs 15, 30, 60 s and stays there. */
  lemma DefaultBackoff(k: nat)
    requires k >= 2
    ensures Backoff(15000, 0) == 15000 && Backoff(15000, 1) == 30000 && Backoff(15000, k) == MAX_INTERVAL
  {
    BackoffClosedForm(15000, k);
    Clock.Pow2Monotone(2, k);
  }

  // ---- WPS restarts ------------------------------------------------------------------

  /** WPS_RESTART_INTERVAL_MS. */
  const WPS_RESTART_INTERVAL: nat := 30000

  /** How many of the first `n` restarts do a full WiFi reset: those whose uint8_t count is a multiple of 3. */
  function HardResets(n: nat): nat
  {
    if n == 0 then 0 else HardResets(n - 1) + (if U8(n) % 3 == 0 then 1 else 0)
  }

  /** Before the counter wraps, every third restart is a full reset. */
  lemma {:induction false} EveryThirdRestart(n: nat)
    requires n < BYTE
    ensures HardResets(n) == n / 3
  {
    if n > 0 {
      EveryThirdRestart(n - 1);
      assert U8(n) == n;
    }
  }

  // ---- stored credentials ------------------------------------------------------------

  /** StoredConfig::valid, the marker of saved credentials. */
  const VALID: nat := 0x55

  /** The marker written when the credentials are erased. */
  const ERASED: nat := 0x11

  datatype WifiConfig = WifiConfig(ssid: string, password: string, wpsConnected: nat)

  /** The WiFi manager's globals and the stored WiFi settings. */
  class Wifi {
    var link: Link
    var wpsActive: bool
    var warnedNoCreds: bool
    var config: WifiConfig
    // the WPS session's locals
    var wpsStartMs: nat
    var lastWpsStartMs: nat
    var restartCount: nat
    ghost var restarts: nat
    var hardResets: nat
    /** WIFI_RETRY_CONNECTION_SEC * 1000. */
    const retryMs: nat
    /** WIFI_WPS_CONNECT_TIMEOUT_SEC * 1000. */
    const wpsTimeoutMs: nat
    /** sizeof(config.wifi.ssid). */
    const ssidSize: nat
    /** Whether the firmware is built with WIFI_USE_WPS. */
    const wpsBuild: bool

    ghost predicate Valid()
      reads this
    {
      retryMs <= link.intervalMs <= MAX_INTERVAL && link.attemptTime < WORD32
      && wpsStartMs < WORD32 && lastWpsStartMs < WORD32
      && restartCount == U8(restarts) && hardResets == HardResets(restarts)
    }

    constructor (retryMs: nat, wpsTimeoutMs: nat, ssidSize: nat, wpsBuild: bool, config: WifiConfig)
      requires retryMs <= MAX_INTERVAL
      ensures Valid()
      ensures link == Link(Disconnected, 0, retryMs, false) && !wpsActive && this.config == config
      ensures this.retryMs == retryMs && this.wpsTimeoutMs == wpsTimeoutMs
      ensures this.ssidSize == ssidSize && this.wpsBuild == wpsBuild
    {
      link := Link(Disconnected, 0, retryMs, false);
      wpsActive := false;
      warnedNoCreds := false;
      this.config := config;
      wpsStartMs := 0;
      lastWpsStartMs := 0;
      restartCount := 0;
      restarts := 0;
      hardResets := 0;
      this.retryMs := retryMs;
      this.wpsTimeoutMs := wpsTimeoutMs;
      this.ssidSize := ssidSize;
      this.wpsBuild := wpsBuild;
    }

    /** `WifiReconnect`; says whether it started an attempt (`WiFi.begin`). */
    method Reconnect(now: nat) returns (attempted: bool)
      requires Valid() && now < WORD32
      modifies this
      ensures Valid()
      ensures var skip := wpsBuild && (old(wpsActive) || old(config).wpsConnected != VALID);
        (link, attempted) == ReconnectStep(old(link), now, skip)
      ensures warnedNoCreds == (old(warnedNoCreds) || (wpsBuild && !old(wpsActive) && old(config).wpsConnected != VALID))
      ensures wpsActive == old(wpsActive) && config == old(config)
      ensures wpsStartMs == old(wpsStartMs) && lastWpsStartMs == old(lastWpsStartMs)
      ensures restartCount == old(restartCount) && restarts == old(restarts) && hardResets == old(hardResets)
    {
      attempted := false;
      if wpsBuild {
        if wpsActive {
          return;
        }
        if config.wpsConnected != VALID {
          if !warnedNoCreds {
            warnedNoCreds := true;
          }
          return;
        }
      }
      if link.inProgress {
        if Elapsed(now, link.attemptTime) < ATTEMPT_TIMEOUT {
          return;
        }
        link := link.(inProgress := false);
      }
      if link.state == Disconnected && Elapsed(now, link.attemptTime) > link.intervalMs {
        link := Link(link.state, now, Clock.Min(link.intervalMs * 2, MAX_INTERVAL), true);
        attempted := true;
      }
    }

    /**
     * `WiFiEvent`: the WPS events exist only in a WPS build and count only
     * while a WPS session runs; a lost connection triggers a reconnect.
     */
    method OnEvent(e: Event, now: nat)
      requires Valid() && now < WORD32
      modifies this
      ensures Valid()
      ensures wpsActive == old(wpsActive) && config == old(config)
      ensures wpsStartMs == old(wpsStartMs) && lastWpsStartMs == old(lastWpsStartMs)
      ensures restartCount == old(restartCount) && restarts == old(restarts) && hardResets == old(hardResets)
      ensures e == StaStart ==> link == old(link).(state := Disconnected)
      ensures e == GotIp ==> link == Link(Connected, old(link).attemptTime, retryMs, false)
      ensures e == StaDisconnected ==>
        var skip := wpsBuild && (old(wpsActive) || old(config).wpsConnected != VALID);
        link == ReconnectStep(old(link).(state := Disconnected), now, skip).0
      ensures e == StaDisconnected ==>
        warnedNoCreds == (old(warnedNoCreds) || (wpsBuild && !old(wpsActive) && old(config).wpsConnected != VALID))
      ensures e != StaDisconnected ==> warnedNoCreds == old(warnedNoCreds)
      ensures e == WpsErSuccess ==> link == if wpsBuild && old(wpsActive) then old(link).(state := WpsSuccess) else old(link)
      ensures e == WpsErFailed ==> link == if wpsBuild && old(wpsActive) then old(link).(state := WpsFailed) else old(link)
      ensures e == WpsErTimeout ==> link == if wpsBuild && old(wpsActive) then old(link).(state := WpsActive) else old(link)
      ensures e == StaConnected || e == OtherEvent ==> link == old(link)
    {
      match e {
        case StaStart =>
          link := link.(state := Disconnected);
        case StaConnected =>
        case GotIp =>
          link := Link(Connected, link.attemptTime, retryMs, false);
        case StaDisconnected =>
          link := link.(state := Disconnected);
          var _ := Reconnect(now);
        case WpsErSuccess =>
          if wpsBuild && wpsActive {
            link := link.(state := WpsSuccess);
          }
        case WpsErFailed =>
          if wpsBuild && wpsActive {
            link := link.(state := WpsFailed);
          }
        case WpsErTimeout =>
          if wpsBuild && wpsActive {
            link := link.(state := WpsActive);
          }
        case OtherEvent =>
      }
      assert wpsStartMs == old(wpsStartMs) && lastWpsStartMs == old(lastWpsStartMs);
      assert restartCount == old(restartCount) && restarts == old(restarts) && hardResets == old(hardResets);
    }

    /** The start of `WiFiStartWps`: the stored credentials are erased and a session begins. */
    method BeginWps(now: nat)
      requires Valid() && now < WORD32
      modifies this
      ensures Valid()
      ensures config == WifiConfig("", "", ERASED)
      ensures link == old(link).(state := WpsActive) && wpsActive
      ensures wpsStartMs == now && lastWpsStartMs == now && restartCount == 0 && hardResets == 0
    {
      config := WifiConfig("", "", ERASED);
      link := link.(state := WpsActive);
      wpsActive := true;
      wpsStartMs := now;
      lastWpsStartMs := now;
      restartCount := 0;
      restarts := 0;
      hardResets := 0;
    }

    /**
     * One pass of the WPS session loop, entered while not connected: past
     * the session timeout it gives up (`done`); past 30 s since the last
     * start it restarts WPS, with a full WiFi reset on every third restart.
     */
    method WpsTick(now: nat) returns (done: bool)
      requires Valid() && now < WORD32 && link.state != Connected
      modifies this
      ensures Valid()
      ensures done <==> Elapsed(now, wpsStartMs) > wpsTimeoutMs
      ensures done ==> link == old(link).(state := Disconnected) && restarts == old(restarts)
      ensures !done && Elapsed(now, old(lastWpsStartMs)) > WPS_RESTART_INTERVAL ==>
        restarts == old(restarts) + 1 && lastWpsStartMs == now && link == old(link).(state := WpsActive)
        && (hardResets == old(hardResets) + 1 <==> restartCount % 3 == 0)
      ensures !done && Elapsed(now, old(lastWpsStartMs)) <= WPS_RESTART_INTERVAL ==>
        restarts == old(restarts) && lastWpsStartMs == old(lastWpsStartMs) && link == old(link)
      ensures config == old(config) && wpsActive == old(wpsActive) && wpsStartMs == old(wpsStartMs)
    {
      done := false;
      if Elapsed(now, wpsStartMs) > wpsTimeoutMs {
        link := link.(state := Disconnected);
        done := true;
        return;
      }
      if Elapsed(now, lastWpsStartMs) > WPS_RESTART_INTERVAL {
        restartCount := U8(restartCount + 1);
        restarts := restarts + 1;
        assert restartCount == U8(restarts);
        if restartCount % 3 == 0 {
          hardResets := hardResets + 1;
        }
        link := link.(state := WpsActive);
        lastWpsStartMs := now;
      }
    }

    /**
     * The end of `WiFiStartWps`: credentials are saved, with the SSID cut
     * to the buffer and the password blanked, only when the session ended
     * connected.
     */
    method FinishWps(ssid: string)
      requires Valid() && ssidSize > 0
      modifies this
      ensures Valid() && !wpsActive
      ensures old(link).state == Connected ==>
        config == WifiConfig(ssid[..Clock.Min(|ssid|, ssidSize - 1)], "", VALID)
      ensures old(link).state != Connected ==> config == old(config)
      ensures link == old(link)
    {
      if link.state != Connected {
        wpsActive := false;
        return;
      }
      var kept := if |ssid| <= ssidSize - 1 then ssid else ssid[..ssidSize - 1];
      config := WifiConfig(kept, "", VALID);
      wpsActive := false;
    }
  }

  /** The driver events the firmware reacts to, and the rest. */
  datatype Event = StaStart | StaConnected | GotIp | StaDisconnected | WpsErSuccess | WpsErFailed | WpsErTimeout | OtherEvent
}
