// The PlatformIO build's MQTT client (EleksTubeHAX_pio/src/MQTT_client_ips.cpp):
// the same `endsWith`, payload buffer and status-topic handling as the main
// client, a plain mode that commands a single power flag, a state report
// that returns at the first failed publish, and a reconnect throttle whose
// wait is written with the wrong factor.

module PioMqttClient {
  import opened Wrappers
  import opened FixedWidth
  import opened ReportWalk
  import opened Ascii
  import MqttClient

  // ---- plain-mode commands -----------------------------------------------------------

  /** MQTTCommandPower and MQTTCommandState with their received flags. */
  datatype PioCommands = PioCommands(power: bool, powerReceived: bool, state: int, stateReceived: bool)

  /**
   * The plain-mode dispatch: "ON" or "OFF" for the power directive sets the
   * one power command; a set point carries a new state as in the main
   * client; anything else changes nothing.
   */
  function PioPlainCommand(c: PioCommands, d: MqttClient.Directive, m: string, toNumber: string -> Option<int>): (r: PioCommands)
    ensures d == MqttClient.PowerDirective && (m == "ON" || m == "OFF") ==> r == c.(power := m == "ON", powerReceived := true)
    ensures d == MqttClient.SetpointDirective && toNumber(m).Some? ==> r == c.(state := toNumber(m).value, stateReceived := true)
    ensures (!(d == MqttClient.PowerDirective && (m == "ON" || m == "OFF"))
             && !(d == MqttClient.SetpointDirective && toNumber(m).Some?)) ==> r == c
  {
    match d
    case PowerDirective =>
      if m == "ON" then c.(power := true, powerReceived := true)
      else if m == "OFF" then c.(power := false, powerReceived := true)
      else c
    case SetpointDirective => if toNumber(m).Some? then c.(state := toNumber(m).value, stateReceived := true) else c
    case OtherTopic => c
  }

  /** The main client's commands as far as this client has them: the main display's power and the state. */
  function MainOnly(c: MqttClient.Commands): PioCommands
  {
    PioCommands(c.mainPower, c.mainPowerReceived, c.state, c.stateReceived)
  }

  /** On every message the two plain modes agree on the main display's power and on the state. */
  lemma PlainCommandsAgree(c: MqttClient.Commands, d: MqttClient.Directive, m: string, toNumber: string -> Option<int>)
    ensures PioPlainCommand(MainOnly(c), d, m, toNumber) == MainOnly(MqttClient.PlainCommand(c, d, m, toNumber))
  {
    if d == MqttClient.SetpointDirective && toNumber(m).Some? {
      assert MqttClient.PlainCommand(c, d, m, toNumber).state == toNumber(m).value;
    }
  }

  // ---- reconnect throttle ------------------------------------------------------------

  /** `MQTTStart`'s gate as written here: MQTT_RECONNECT_WAIT_SEC times 100 milliseconds. */
  function PioMayConnect(now: nat, last: nat, waitSec: nat): (r: bool)
    requires now < WORD32 && last < WORD32
    ensures r <==> last == 0 || Elapsed(now, last) > waitSec * 100
  {
    MqttClient.MayConnect(now, last, waitSec * 100)
  }

  /** With the 30-second setting, a retry 3001 ms after an attempt is let through. */
  lemma RetryAfterThreeSeconds()
    ensures PioMayConnect(13001, 10000, 30)
    ensures !MqttClient.Throttle(13001, 10000, 30)
  {
  }

  /** The gate waits a tenth of the configured time: a setting of `w` seconds acts as `w / 10`. */
  lemma WaitIsATenth(now: nat, last: nat, waitSec: nat)
    requires now < WORD32 && last < WORD32 && waitSec % 10 == 0
    ensures PioMayConnect(now, last, waitSec) == MqttClient.Throttle(now, last, waitSec / 10)
  {
    assert waitSec * 100 == (waitSec / 10) * 1000;
  }

  // ---- Home Assistant state report ---------------------------------------------------

  /**
   * The groups of one report in order, returning at the first failed
   * publish: a forced or changed group is published and recorded on
   * success; after a failure no later group is tried.
   */
  method PublishUntilFailure(force: bool, st: MqttClient.Status, sent: MqttClient.Sent, ok: MqttClient.Group -> bool)
    returns (s: MqttClient.Sent, published: seq<MqttClient.Group>)
    ensures (s, published) == Walk(MqttClient.Groups, true, MqttClient.Test(force, st), MqttClient.Rec(st), sent, ok)
  {
    s, published := Run(MqttClient.Groups, true, MqttClient.Test(force, st), MqttClient.Rec(st), sent, ok);
  }

  // ---- the client ----------------------------------------------------------------------

  /** The client's globals. */
  class PioClient {
    var commands: PioCommands
    var discoveryReported: bool
    var sent: MqttClient.Sent
    var lastTimeTriedToConnect: nat
    var connected: bool
    /** MQTT_HOME_ASSISTANT: the plain dispatch is compiled only without it. */
    const haEnabled: bool
    /** TopicHAstatus. */
    const haStatusTopic: string
    /** MQTT_RECONNECT_WAIT_SEC. */
    const waitSec: nat

    constructor (haEnabled: bool, haStatusTopic: string, waitSec: nat)
      ensures commands == PioCommands(true, false, 1, false)
      ensures !discoveryReported && sent == MqttClient.InitialSent && lastTimeTriedToConnect == 0 && !connected
      ensures this.haEnabled == haEnabled && this.haStatusTopic == haStatusTopic && this.waitSec == waitSec
    {
      commands := PioCommands(true, false, 1, false);
      discoveryReported := false;
      sent := MqttClient.InitialSent;
      lastTimeTriedToConnect := 0;
      connected := false;
      this.haEnabled := haEnabled;
      this.haStatusTopic := haStatusTopic;
      this.waitSec := waitSec;
    }

    /**
     * `MQTTCallback`: the payload copied into the 256-byte buffer, then the
     * plain dispatch, or with Home Assistant the status topic.
     */
    method Callback(topic: string, payload: string, toNumber: string -> Option<int>, discovery: bool)
      returns (discoverySent: bool)
      modifies this
      ensures commands == if !haEnabled then PioPlainCommand(old(commands), MqttClient.DirectiveOf(topic), MqttClient.Message(payload), toNumber) else old(commands)
      ensures (discoverySent, discoveryReported) ==
        if haEnabled then MqttClient.HaStatus(old(discoveryReported), topic, haStatusTopic, MqttClient.Message(payload), discovery)
        else (false, old(discoveryReported))
      ensures sent == old(sent) && lastTimeTriedToConnect == old(lastTimeTriedToConnect) && connected == old(connected)
    {
      discoverySent := false;
      var buffer := MqttClient.CopyPayload(payload);
      var message := CString(buffer[..]);
      if !haEnabled {
        commands := PioPlainCommand(commands, MqttClient.DirectiveOf(topic), message, toNumber);
      } else {
        var r := MqttClient.HaStatus(discoveryReported, topic, haStatusTopic, message, discovery);
        discoverySent, discoveryReported := r.0, r.1;
      }
    }

    /**
     * `MQTTReportState`: nothing unless connected (the availability message
     * is not sent here), then the groups up to the first failed publish.
     */
    method ReportState(force: bool, brokerConnected: bool, st: MqttClient.Status, ok: MqttClient.Group -> bool)
      returns (published: seq<MqttClient.Group>)
      modifies this
      ensures haEnabled && brokerConnected ==>
        (sent, published) == Walk(MqttClient.Groups, true, MqttClient.Test(force, st), MqttClient.Rec(st), old(sent), ok)
      ensures !(haEnabled && brokerConnected) ==> sent == old(sent) && published == []
      ensures commands == old(commands) && discoveryReported == old(discoveryReported)
      ensures lastTimeTriedToConnect == old(lastTimeTriedToConnect) && connected == old(connected)
    {
      published := [];
      if !haEnabled || !brokerConnected {
        return;
      }
      sent, published := PublishUntilFailure(force, st, sent, ok);
    }

    /**
     * `MQTTStart`: marked disconnected, then an attempt when the gate
     * allows it, recording its time first; connected only when the
     * connect succeeds.
     */
    method Start(now: nat, connect: bool) returns (attempted: bool)
      requires now < WORD32 && lastTimeTriedToConnect < WORD32
      modifies this
      ensures attempted <==> PioMayConnect(now, old(lastTimeTriedToConnect), waitSec)
      ensures lastTimeTriedToConnect == if attempted then now else old(lastTimeTriedToConnect)
      ensures connected <==> attempted && connect
      ensures commands == old(commands) && sent == old(sent) && discoveryReported == old(discoveryReported)
    {
      connected := false;
      attempted := false;
      if (Elapsed(now, lastTimeTriedToConnect) > waitSec * 100) || (lastTimeTriedToConnect == 0) {
        attempted := true;
        lastTimeTriedToConnect := now;
        if connect {
          connected := true;
        }
      }
    }
  }

  /**
   * The change-only reports of this client: LastSentStatus,
   * LastSentPowerState (its own, apart from the state report's) and
   * LastSentSignalLevel. There is no forcing; a value is remembered once it
   * is published, whatever the publish answers.
   */
  class PioReports {
    var lastStatus: int
    var lastPower: int
    var lastSignal: int

    constructor ()
      ensures lastStatus == -1 && lastPower == -1 && lastSignal == 999
    {
      lastStatus := -1;
      lastPower := -1;
      lastSignal := 999;
    }

    /** `MQTTReportStatus`: published exactly when the state differs from the last one published. */
    method ReportStatus(state: int) returns (published: bool)
      modifies this
      ensures published <==> old(lastStatus) != state
      ensures lastStatus == state
      ensures lastPower == old(lastPower) && lastSignal == old(lastSignal)
    {
      published := false;
      if lastStatus != state {
        published := true;
        lastStatus := state;
      }
    }

    /** `MQTTReportPowerState`: published exactly when the power differs from the last one published. */
    method ReportPowerState(power: bool) returns (published: bool)
      modifies this
      ensures published <==> old(lastPower) != MqttClient.B2I(power)
      ensures lastPower == MqttClient.B2I(power)
      ensures lastStatus == old(lastStatus) && lastSignal == old(lastSignal)
    {
      published := false;
      if MqttClient.B2I(power) != lastPower {
        published := true;
        lastPower := MqttClient.B2I(power);
      }
    }

    /** `MQTTReportWiFiSignal`: the main client's rule, a move of more than 2 dBm. */
    method ReportWiFiSignal(level: int) returns (published: bool)
      modifies this
      ensures published <==> Abs(level - old(lastSignal)) > MqttClient.SIGNAL_DEADBAND
      ensures lastSignal == if published then level else old(lastSignal)
      ensures Abs(level - lastSignal) <= MqttClient.SIGNAL_DEADBAND
      ensures lastStatus == old(lastStatus) && lastPower == old(lastPower)
    {
      published := false;
      if Abs(level - lastSignal) > 2 {
        published := true;
        lastSignal := level;
      }
    }
  }
}
