// The MQTT client of the current firmware (src/MQTT_client_ips.cpp): the
// null-safe suffix test on topics, the bounded copy of a payload, the
// dispatch of plain-MQTT directives and of Home Assistant's status topic,
// the per-group state report to Home Assistant that remembers what was last
// sent, the plain status, power and signal reports, and the reconnect
// throttle. The broker connection, publishing and JSON are left to their
// callers: each publish is a boolean answer passed in. The report-group
// machinery is shared with the PlatformIO client (module PioMqttClient).

module MqttClient {
  import opened Wrappers
  import opened FixedWidth
  import opened Ascii
  import opened ReportWalk

  // ---- endsWith ----------------------------------------------------------------------

  /**
   * `endsWith` on two C strings, `None` standing for NULL: false
   * for a null argument or a longer suffix, otherwise a comparison of the
   * tail of `str` with `suffix`.
   */
  function EndsWithCStr(str: Option<string>, suffix: Option<string>): (r: bool)
    ensures r <==> str.Some? && suffix.Some? && EndsWith(CString(str.value), CString(suffix.value))
  {
    if str.None? || suffix.None? then false
    else
      var s, t := str.value, suffix.value;
      var strLen, suffixLen := FirstNul(s), FirstNul(t);
      if suffixLen > strLen then false
      else
        FirstNulAt(s[strLen - suffixLen..], suffixLen);
        CString(s[strLen - suffixLen..]) == CString(t)
  }

  /** A topic made of a head and a suffix ends with that suffix, and with no longer one. */
  lemma EndsWithAppend(head: string, suffix: string, longer: string)
    requires '\0' !in head && '\0' !in suffix && '\0' !in longer && |longer| > |head + suffix|
    ensures EndsWithCStr(Some(head + suffix), Some(suffix))
    ensures !EndsWithCStr(Some(head + suffix), Some(longer))
    ensures !EndsWithCStr(None, Some(suffix)) && !EndsWithCStr(Some(head), None)
  {
    FirstNulAt(head + suffix, |head + suffix|);
    FirstNulAt(suffix, |suffix|);
    FirstNulAt(longer, |longer|);
    assert (head + suffix)[|head + suffix| - |suffix|..] == suffix;
  }

  // ---- payload buffer ----------------------------------------------------------------

  /** The size of the callback's message buffer. */
  const BUFFER_SIZE: nat := 256

  /** The message the callback works on: the payload cut to 255 bytes, read up to its first NUL. */
  function Message(payload: string): (m: string)
    ensures |m| < BUFFER_SIZE && m <= payload && '\0' !in m
    ensures |payload| < BUFFER_SIZE && '\0' !in payload ==> m == payload
  {
    var k := if |payload| < BUFFER_SIZE then |payload| else BUFFER_SIZE - 1;
    if '\0' !in payload[..k] then
      FirstNulAt(payload[..k], k);
      CString(payload[..k])
    else
      CString(payload[..k])
  }

  /**
   * The copy into the zeroed 256-byte buffer: a payload under 256 bytes
   * whole, a longer one cut to 255, always NUL-terminated.
   */
  method CopyPayload(payload: string) returns (message: array<char>)
    ensures fresh(message) && message.Length == BUFFER_SIZE
    ensures var k := if |payload| < BUFFER_SIZE then |payload| else BUFFER_SIZE - 1;
      message[..k] == payload[..k] && forall i :: k <= i < BUFFER_SIZE ==> message[i] == '\0'
    ensures CString(message[..]) == Message(payload)
  {
    message := new char[BUFFER_SIZE](_ => '\0');
    var length := |payload|;
    var k := if length < BUFFER_SIZE then length else BUFFER_SIZE - 1;
    forall i | 0 <= i < k {
      message[i] := payload[i];
    }
    message[k] := '\0';
    assert message[..k] == payload[..k];
    var j := FirstNul(payload[..k]);
    FirstNulAt(message[..], j);
  }

  // ---- reconnect throttle ------------------------------------------------------------

  /** A connection attempt is allowed when none was made yet or more than `waitMs` have passed. */
  function MayConnect(now: nat, last: nat, waitMs: nat): (r: bool)
    requires now < WORD32 && last < WORD32
    ensures r <==> last == 0 || Elapsed(now, last) > waitMs
  {
    (Elapsed(now, last) > waitMs) || (last == 0)
  }

  /** `MQTTStart`'s gate: MQTT_RECONNECT_WAIT_SEC seconds between attempts. */
  function Throttle(now: nat, last: nat, waitSec: nat): (r: bool)
    requires now < WORD32 && last < WORD32
    ensures r <==> MayConnect(now, last, waitSec * 1000)
  {
    MayConnect(now, last, waitSec * 1000)
  }

  /** After an attempt, the next one comes only once the full wait in seconds has passed. */
  lemma ThrottleWaits(now: nat, last: nat, waitSec: nat)
    requires now < WORD32 && 0 < last < WORD32 && last <= now
    ensures Throttle(now, last, waitSec) <==> (now - last) > waitSec * 1000
    ensures Throttle(now, last, waitSec) ==> (now - last) / 1000 >= waitSec
  {
  }

  // ---- Home Assistant state report ---------------------------------------------------

  /** The reported groups, in the order the report walks them. */
  datatype Group = Main | Back | TwelveHours | BlankZeroHours | Pulse | Breath | Rainbow

  const Groups: seq<Group> := [Main, Back, TwelveHours, BlankZeroHours, Pulse, Breath, Rainbow]

  /** The MQTTStatus* values the clock shows now (the patterns as C strings). */
  datatype Status = Status(
    mainPower: bool, mainBrightness: nat, mainGraphic: nat,
    backPower: bool, backBrightness: nat, backPattern: string, backColorPhase: nat,
    twelveHours: bool, blankZeroHours: bool, pulseBpm: nat, breathBpm: nat, rainbowSec: real)

  /** The LastSent* values: what was last published, starting from "never" markers. */
  datatype Sent = Sent(
    mainPower: int, mainBrightness: int, mainGraphic: int,
    backPower: int, backBrightness: int, backPattern: string, backColorPhase: int,
    twelveHours: bool, blankZeroHours: bool, pulseBpm: int, breathBpm: int, rainbowSec: real)

  /** The initial LastSent* values (-1, or 255 for the uint8_t ones). */
  const InitialSent: Sent := Sent(-1, -1, -1, -1, -1, "", -1, false, false, 255, 255, -1.0)

  function B2I(b: bool): int { if b then 1 else 0 }

  /** `strncpy` into the 24-byte LastSentBackPattern keeps at most 23 characters. */
  function Cut23(s: string): (r: string)
    ensures r <= s && |r| <= 23
    ensures |s| <= 23 ==> r == s
  {
    if |s| <= 23 then s else s[..23]
  }

  /** Whether the fields group `g` records already hold the status. */
  predicate Agrees(g: Group, st: Status, s: Sent)
  {
    match g
    case Main => B2I(st.mainPower) == s.mainPower && st.mainBrightness == s.mainBrightness && st.mainGraphic == s.mainGraphic
    case Back => B2I(st.backPower) == s.backPower && st.backBrightness == s.backBrightness
                 && st.backPattern == s.backPattern && st.backColorPhase == s.backColorPhase
    case TwelveHours => st.twelveHours == s.twelveHours
    case BlankZeroHours => st.blankZeroHours == s.blankZeroHours
    case Pulse => st.pulseBpm == s.pulseBpm
    case Breath => st.breathBpm == s.breathBpm
    case Rainbow => st.rainbowSec == s.rainbowSec
  }

  /**
   * The test that makes a group publish: its fields differ from what was
   * last sent; the back-light group also watches the pulse, breath and
   * rainbow values.
   */
  predicate Changed(g: Group, st: Status, s: Sent)
  {
    match g
    case Back => !Agrees(Back, st, s) || !Agrees(Pulse, st, s) || !Agrees(Breath, st, s) || !Agrees(Rainbow, st, s)
    case _ => !Agrees(g, st, s)
  }

  /** What a successful publish of group `g` records in LastSent*. */
  function Record(g: Group, st: Status, s: Sent): Sent
  {
    match g
    case Main => s.(mainPower := B2I(st.mainPower), mainBrightness := st.mainBrightness, mainGraphic := st.mainGraphic)
    case Back => s.(backPower := B2I(st.backPower), backBrightness := st.backBrightness,
                    backPattern := Cut23(st.backPattern), backColorPhase := st.backColorPhase)
    case TwelveHours => s.(twelveHours := st.twelveHours)
    case BlankZeroHours => s.(blankZeroHours := st.blankZeroHours)
    case Pulse => s.(pulseBpm := st.pulseBpm)
    case Breath => s.(breathBpm := st.breathBpm)
    case Rainbow => s.(rainbowSec := st.rainbowSec)
  }

  /** A recorded group holds the status afterwards, and no other group's agreement moves. */
  lemma RecordAgrees(g: Group, h: Group, st: Status, s: Sent)
    requires |st.backPattern| <= 23
    ensures Agrees(g, st, Record(g, st, s))
    ensures h != g ==> (Agrees(h, st, Record(g, st, s)) <==> Agrees(h, st, s))
  {
  }

  /** Recording a group never changes the test of a group that comes after it. */
  lemma LaterTestsUnaffected(j: nat, i: nat, st: Status, s: Sent)
    requires j < i < |Groups|
    ensures Changed(Groups[i], st, Record(Groups[j], st, s)) == Changed(Groups[i], st, s)
  {
    var g, h := Groups[j], Groups[i];
    assert g != h;
    assert h == Back ==> g == Main;
  }

  /**
   * The power report and the state report share LastSentMainPowerState: a
   * power change that the power report has already recorded no longer makes
   * an unforced state report publish the main group, and the main light's
   * state in Home Assistant stays as it was.
   */
  lemma PowerReportHidesMainChange(st: Status, s: Sent)
    requires s.mainPower != B2I(st.mainPower)
    requires s.mainBrightness == st.mainBrightness && s.mainGraphic == st.mainGraphic
    ensures Changed(Main, st, s)
    ensures !Changed(Main, st, s.(mainPower := B2I(st.mainPower)))
  {
  }

  // ---- the walk of `MQTTReportState` -----------------------------------------------

  /** A group is published when the report is forced or the group changed. */
  function Test(force: bool, st: Status): (Group, Sent) -> bool
  {
    (g: Group, s: Sent) => force || Changed(g, st, s)
  }

  function Rec(st: Status): (Group, Sent) -> Sent
  {
    (g: Group, s: Sent) => Record(g, st, s)
  }

  /** The report's tests and records are independent along the walk. */
  lemma ReportIndependent(force: bool, st: Status)
    ensures LaterUnaffected(Groups, Test(force, st), Rec(st))
  {
    forall j: nat, i: nat, s: Sent | j < i < |Groups|
      ensures Test(force, st)(Groups[i], Rec(st)(Groups[j], s)) == Test(force, st)(Groups[i], s)
    {
      LaterTestsUnaffected(j, i, st, s);
    }
  }

  /** The report that goes on past a failed group (this client) publishes every wanted group. */
  lemma ReportPublishesWanted(force: bool, st: Status, s: Sent, ok: Group -> bool)
    ensures Walk(Groups, false, Test(force, st), Rec(st), s, ok).1 == Want(Groups, Test(force, st), s)
  {
    ReportIndependent(force, st);
    WalkOnPublishesWanted(Groups, Test(force, st), Rec(st), s, ok);
  }

  /** The report that returns at a failed group (PlatformIO client) publishes the wanted groups up to that failure. */
  lemma ReportStopsAtFailure(force: bool, st: Status, s: Sent, ok: Group -> bool)
    ensures StoppedAtFailure(Walk(Groups, true, Test(force, st), Rec(st), s, ok).1, Want(Groups, Test(force, st), s), ok)
  {
    ReportIndependent(force, st);
    WalkStopsAtFailure(Groups, Test(force, st), Rec(st), s, ok);
  }

  /**
   * Once every publish of a report succeeds, the next report that is not
   * forced publishes nothing, as long as the status stays the same.
   */
  lemma ReportSettles(stop: bool, force: bool, st: Status, s: Sent, ok: Group -> bool)
    requires |st.backPattern| <= 23 && forall g :: ok(g)
    ensures Want(Groups, Test(false, st), Walk(Groups, stop, Test(force, st), Rec(st), s, ok).0) == []
  {
    var holds := (g: Group, t: Sent) => Agrees(g, st, t);
    forall g, h, t ensures holds(g, Rec(st)(g, t)) && (h != g ==> (holds(h, Rec(st)(g, t)) <==> holds(h, t))) {
      RecordAgrees(g, h, st, t);
    }
    WalkEstablishes(Groups, stop, Test(force, st), Rec(st), holds, s, ok);
    var f := Walk(Groups, stop, Test(force, st), Rec(st), s, ok).0;
    forall g ensures !Test(false, st)(g, f) {
      assert holds(g, f);
      if g == Back {
        assert holds(Pulse, f) && holds(Breath, f) && holds(Rainbow, f);
      }
    }
    NothingWanted(Groups, Test(false, st), f);
  }

  /**
   * The groups of one report in order: each forced or changed group is
   * published, and recorded when the publish succeeds; a failure does not
   * stop the later groups.
   */
  method PublishGroups(force: bool, st: Status, sent: Sent, ok: Group -> bool) returns (s: Sent, published: seq<Group>)
    ensures (s, published) == Walk(Groups, false, Test(force, st), Rec(st), sent, ok)
  {
    s, published := Run(Groups, false, Test(force, st), Rec(st), sent, ok);
  }

  // ---- plain reports -----------------------------------------------------------------

  /** The signal is reported only when it moved by more than this many dBm. */
  const SIGNAL_DEADBAND: nat := 2

  /**
   * The set point report: a value reported when it changes (or when
   * forced), remembered even if the publish fails.
   */
  class ChangeReport {
    var lastSent: int

    constructor ()
      ensures lastSent == -1
    {
      lastSent := -1;
    }

    /** `MQTTReportStatus`. */
    method Report(value: int, force: bool) returns (published: bool)
      modifies this
      ensures published <==> force || old(lastSent) != value
      ensures lastSent == value
    {
      published := false;
      if lastSent != value || force {
        published := true;
        lastSent := value;
      }
    }
  }

  /** The WiFi signal report, which ignores small moves. */
  class SignalReport {
    var lastSent: int

    constructor ()
      ensures lastSent == 999
    {
      lastSent := 999;
    }

    /** `MQTTReportWiFiSignal`: after it, the remembered level is within 2 dBm of the current one. */
    method Report(level: int) returns (published: bool)
      modifies this
      ensures published <==> Abs(level - old(lastSent)) > SIGNAL_DEADBAND
      ensures published ==> lastSent == level
      ensures !published ==> lastSent == old(lastSent)
      ensures Abs(level - lastSent) <= SIGNAL_DEADBAND
    {
      published := false;
      if Abs(level - lastSent) > 2 {
        published := true;
        lastSent := level;
      }
    }
  }

  // ---- the client ----------------------------------------------------------------------

  /** The MQTTCommand* values of plain mode with their received flags. */
  datatype Commands = Commands(mainPower: bool, backPower: bool, mainPowerReceived: bool, backPowerReceived: bool,
                               state: int, stateReceived: bool)

  /** A topic carrying the power directive. */
  predicate PowerTopic(topic: string)
  {
    EndsWithCStr(Some(topic), Some("/directive/powerState"))
  }

  /** A topic carrying a new state, as a set point or a percentage. */
  predicate SetpointTopic(topic: string)
  {
    EndsWithCStr(Some(topic), Some("/directive/setpoint")) || EndsWithCStr(Some(topic), Some("/directive/percentage"))
  }

  /** What a plain-mode topic asks for, the power test taking precedence. */
  datatype Directive = PowerDirective | SetpointDirective | OtherTopic

  function DirectiveOf(topic: string): (d: Directive)
    ensures d == PowerDirective <==> PowerTopic(topic)
    ensures d == SetpointDirective <==> !PowerTopic(topic) && SetpointTopic(topic)
  {
    if PowerTopic(topic) then PowerDirective
    else if SetpointTopic(topic) then SetpointDirective
    else OtherTopic
  }

  /**
   * A plain-mode directive: "ON" or "OFF" for the power directive switches
   * both displays and marks both as received; for a set point a number
   * (`toNumber` is `(int)atof(...)`, `None` for NaN) becomes the commanded
   * state. Anything else changes nothing.
   */
  function PlainCommand(c: Commands, d: Directive, m: string, toNumber: string -> Option<int>): (r: Commands)
    ensures d == PowerDirective && (m == "ON" || m == "OFF") ==>
      r == c.(mainPower := m == "ON", backPower := m == "ON", mainPowerReceived := true, backPowerReceived := true)
    ensures d == SetpointDirective && toNumber(m).Some? ==> r == c.(state := toNumber(m).value, stateReceived := true)
    ensures (!(d == PowerDirective && (m == "ON" || m == "OFF")) && !(d == SetpointDirective && toNumber(m).Some?)) ==> r == c
  {
    match d
    case PowerDirective =>
      if m == "ON" then c.(mainPower := true, backPower := true, mainPowerReceived := true, backPowerReceived := true)
      else if m == "OFF" then c.(mainPower := false, backPower := false, mainPowerReceived := true, backPowerReceived := true)
      else c
    case SetpointDirective => if toNumber(m).Some? then c.(state := toNumber(m).value, stateReceived := true) else c
    case OtherTopic => c
  }

  /** A directive repeated has the effect of one. */
  lemma PlainCommandIdempotent(c: Commands, d: Directive, m: string, toNumber: string -> Option<int>)
    ensures PlainCommand(PlainCommand(c, d, m, toNumber), d, m, toNumber) == PlainCommand(c, d, m, toNumber)
  {
  }

  /**
   * Home Assistant's status topic: "online" sends the discovery messages
   * (the first result says so) and remembers whether that worked;
   * "offline" forgets that discovery was sent; anything else changes nothing.
   */
  function HaStatus(reported: bool, topic: string, haStatusTopic: string, m: string, discovery: bool): (r: (bool, bool))
    ensures r.0 <==> CString(topic) == haStatusTopic && m == "online"
    ensures r.0 ==> r.1 == discovery
    ensures CString(topic) == haStatusTopic && m == "offline" ==> !r.1
    ensures !(CString(topic) == haStatusTopic && (m == "online" || m == "offline")) ==> r.1 == reported
  {
    if CString(topic) == haStatusTopic then
      if m == "online" then (true, discovery)
      else if m == "offline" then (false, false)
      else (false, reported)
    else (false, reported)
  }

  /** The client's globals. */
  class Client {
    var commands: Commands
    var discoveryReported: bool
    var availabilityReported: bool
    var sent: Sent
    var lastTimeTriedToConnect: nat
    /** MQTT_PLAIN_ENABLED and MQTT_HOME_ASSISTANT. */
    const plainEnabled: bool
    const haEnabled: bool
    /** MQTT_TOPIC_HASTATUS. */
    const haStatusTopic: string
    /** MQTT_RECONNECT_WAIT_SEC. */
    const waitSec: nat

    constructor (plainEnabled: bool, haEnabled: bool, haStatusTopic: string, waitSec: nat)
      ensures commands == Commands(true, true, false, false, 1, false)
      ensures !discoveryReported && !availabilityReported && sent == InitialSent && lastTimeTriedToConnect == 0
      ensures this.plainEnabled == plainEnabled && this.haEnabled == haEnabled
      ensures this.haStatusTopic == haStatusTopic && this.waitSec == waitSec
    {
      commands := Commands(true, true, false, false, 1, false);
      discoveryReported := false;
      availabilityReported := false;
      sent := InitialSent;
      lastTimeTriedToConnect := 0;
      this.plainEnabled := plainEnabled;
      this.haEnabled := haEnabled;
      this.haStatusTopic := haStatusTopic;
      this.waitSec := waitSec;
    }

    /**
     * `MQTTCallback` for plain directives and Home Assistant's status topic,
     * on the payload as copied into the message buffer. `discovery` answers
     * whether sending the discovery messages succeeds.
     */
    method Callback(topic: string, payload: string, toNumber: string -> Option<int>, discovery: bool)
      returns (discoverySent: bool)
      modifies this
      ensures commands == if plainEnabled then PlainCommand(old(commands), DirectiveOf(topic), Message(payload), toNumber) else old(commands)
      ensures (discoverySent, discoveryReported) ==
        if haEnabled then HaStatus(old(discoveryReported), topic, haStatusTopic, Message(payload), discovery)
        else (false, old(discoveryReported))
      ensures sent == old(sent) && availabilityReported == old(availabilityReported)
      ensures lastTimeTriedToConnect == old(lastTimeTriedToConnect)
    {
      var newCommands, r := commands, (false, discoveryReported);
      var buffer := CopyPayload(payload);
      var message := CString(buffer[..]);
      assert message == Message(payload);
      if plainEnabled {
        newCommands := PlainCommand(newCommands, DirectiveOf(topic), message, toNumber);
      }
      if haEnabled {
        r := HaStatus(r.1, topic, haStatusTopic, message, discovery);
      }
      commands, discoveryReported := newCommands, r.1;
      discoverySent := r.0;
      assert sent == old(sent) && availabilityReported == old(availabilityReported);
      assert lastTimeTriedToConnect == old(lastTimeTriedToConnect);
    }

    /**
     * `MQTTReportState`: nothing unless connected; the availability message
     * first when forced or not yet sent, stopping there if it fails; then
     * every group, going on past a failed one.
     */
    method ReportState(force: bool, connected: bool, availability: bool, st: Status, ok: Group -> bool)
      returns (published: seq<Group>)
      modifies this
      ensures var go := haEnabled && connected && (availability || (!force && old(availabilityReported)));
        (go ==> (sent, published) == Walk(Groups, false, Test(force, st), Rec(st), old(sent), ok))
        && (!go ==> sent == old(sent) && published == [])
      ensures availabilityReported == (old(availabilityReported) || (haEnabled && connected && (force || !old(availabilityReported)) && availability))
      ensures commands == old(commands) && discoveryReported == old(discoveryReported)
      ensures lastTimeTriedToConnect == old(lastTimeTriedToConnect)
    {
      published := [];
      if !haEnabled || !connected {
        return;
      }
      if force || !availabilityReported {
        if !availability {
          return;
        }
        availabilityReported := true;
      }
      sent, published := PublishGroups(force, st, sent, ok);
    }

    /**
     * `MQTTReportPowerState`: published when forced or changed, and
     * remembered even if the publish fails, in the LastSentMainPowerState
     * that the main group of the state report also tests.
     */
    method ReportPowerState(mainPower: bool, force: bool) returns (published: bool)
      modifies this
      ensures published <==> force || old(sent).mainPower != B2I(mainPower)
      ensures sent == old(sent).(mainPower := B2I(mainPower))
      ensures commands == old(commands) && discoveryReported == old(discoveryReported)
      ensures availabilityReported == old(availabilityReported) && lastTimeTriedToConnect == old(lastTimeTriedToConnect)
    {
      published := false;
      if B2I(mainPower) != sent.mainPower || force {
        published := true;
        sent := sent.(mainPower := B2I(mainPower));
      }
    }

    /**
     * `MQTTStart`: an attempt only when the throttle allows it. A first
     * start records the attempt time before connecting; a failed connect
     * records it too. The result is false only when the connect fails.
     */
    method Start(now: nat, restart: bool, connect: bool) returns (attempted: bool, result: bool)
      requires now < WORD32 && lastTimeTriedToConnect < WORD32
      modifies this
      ensures attempted <==> Throttle(now, old(lastTimeTriedToConnect), waitSec)
      ensures result <==> !attempted || connect
      ensures attempted && (!restart || !connect) ==> lastTimeTriedToConnect == now
      ensures !(attempted && (!restart || !connect)) ==> lastTimeTriedToConnect == old(lastTimeTriedToConnect)
      ensures commands == old(commands) && sent == old(sent) && discoveryReported == old(discoveryReported)
      ensures availabilityReported == old(availabilityReported)
    {
      attempted := false;
      result := true;
      if ((Elapsed(now, lastTimeTriedToConnect)) > (waitSec * 1000)) || (lastTimeTriedToConnect == 0) {
        attempted := true;
        if !restart {
          lastTimeTriedToConnect := now;
        }
        if !connect {
          lastTimeTriedToConnect := now;
          result := false;
          return;
        }
      }
    }
  }
}
