// The PlatformIO build's token-based MQTT client
// (EleksTubeHAX_pio/src/Mqtt_client_ips.cpp): topics are split into
// commands with `strtok`, plain directives and Home Assistant `<group>/set`
// messages are dispatched on the first two tokens, notifications are
// de-duplicated by a one-byte checksum, and the graphic, discovery and
// signal reports fire on change.

module PioMqttCommands {
  import opened Wrappers
  import opened FixedWidth
  import opened Ascii

  // ---- strtok --------------------------------------------------------------------------

  /** `strtok`'s delimiter. */
  const SLASH: char := '/'

  /** Length of the leading run of characters other than '/'. */
  function TokenEnd(s: string): (k: nat)
    ensures k <= |s|
    ensures forall i :: 0 <= i < k ==> s[i] != SLASH
    ensures k == |s| || s[k] == SLASH
  {
    if s == [] || s[0] == SLASH then 0 else 1 + TokenEnd(s[1..])
  }

  /** The tokens `strtok` finds: the maximal non-empty runs between '/' characters. */
  function Tokens(s: string): (ts: seq<string>)
    ensures forall j :: 0 <= j < |ts| ==> ts[j] != [] && SLASH !in ts[j]
    decreases |s|
  {
    if s == [] then []
    else if s[0] == SLASH then Tokens(s[1..])
    else
      var k := TokenEnd(s);
      [s[..k]] + Tokens(s[k..])
  }

  /**
   * One `strtok` call on the text still to scan: the next token and what
   * follows it, or `None` (NULL) when only delimiters are left.
   */
  function Strtok(s: string): (r: Option<(string, string)>)
    ensures r.None? <==> Tokens(s) == []
    ensures r.Some? ==> Tokens(s) == [r.value.0] + Tokens(r.value.1)
    decreases |s|
  {
    if s == [] then None
    else if s[0] == SLASH then Strtok(s[1..])
    else
      var k := TokenEnd(s);
      Some((s[..k], s[k..]))
  }

  /** Tokens joined back with single slashes. */
  function JoinSlash(ts: seq<string>): string
  {
    if ts == [] then "" else if |ts| == 1 then ts[0] else ts[0] + [SLASH] + JoinSlash(ts[1..])
  }

  lemma {:induction false} TokenEndAll(w: string, tail: string)
    requires SLASH !in w && (tail == [] || tail[0] == SLASH)
    ensures TokenEnd(w + tail) == |w|
    decreases |w|
  {
    if w != [] {
      assert (w + tail)[1..] == w[1..] + tail;
      TokenEndAll(w[1..], tail);
    }
  }

  /** Splitting slash-joined tokens gives the tokens back. */
  lemma {:induction false} TokensOfJoin(ts: seq<string>)
    requires forall j :: 0 <= j < |ts| ==> ts[j] != [] && SLASH !in ts[j]
    ensures Tokens(JoinSlash(ts)) == ts
    decreases |ts|
  {
    if ts != [] {
      var w := ts[0];
      var tail := if |ts| == 1 then "" else [SLASH] + JoinSlash(ts[1..]);
      var s := JoinSlash(ts);
      assert s == w + tail;
      TokenEndAll(w, tail);
      assert s[0] == w[0] && s[..|w|] == w && s[|w|..] == tail;
      if |ts| == 1 {
        assert tail == [];
      } else {
        assert tail[1..] == JoinSlash(ts[1..]);
        TokensOfJoin(ts[1..]);
        assert ts == [w] + ts[1..];
      }
    }
  }

  /** The slots of `tokens[]` that `splitCommand` writes: the tokens in order, NULL after the last. */
  function Slots(ts: seq<string>, pos: nat): (r: seq<Option<string>>)
    ensures |r| == pos + 1
    ensures forall j :: 0 <= j <= pos ==> r[j] == if j < |ts| then Some(ts[j]) else None
  {
    seq(pos + 1, j => if 0 <= j < |ts| then Some(ts[j]) else None)
  }

  /**
   * `splitCommand`: skip the client name and the slash after it, split the
   * rest of the topic with `strtok` and fill at most `tokensNumber` slots.
   * The count returned is the number of tokens, capped at one less than the
   * number of slots.
   */
  method SplitCommand(topic: string, clientLen: nat, tokensNumber: nat) returns (tokens: seq<Option<string>>, pos: nat)
    requires clientLen < |CString(topic)| && tokensNumber >= 1
    ensures var ts := Tokens(CString(topic)[clientLen + 1..]);
      pos == (if |ts| < tokensNumber - 1 then |ts| else tokensNumber - 1) && tokens == Slots(ts, pos)
  {
    var command := CString(topic)[clientLen + 1..];
    ghost var ts := Tokens(command);
    var next := Strtok(command);
    var rest := if next.Some? then next.value.1 else "";
    tokens := [if next.Some? then Some(next.value.0) else None];
    pos := 0;
    while pos < tokensNumber - 1 && tokens[pos] != None
      invariant pos <= tokensNumber - 1 && pos <= |ts|
      invariant tokens == Slots(ts, pos)
      invariant pos < |ts| ==> Tokens(rest) == ts[pos + 1..]
      decreases tokensNumber - pos
    {
      next := Strtok(rest);
      StrtokStep(ts, pos, rest);
      SlotsNext(ts, pos);
      pos := pos + 1;
      tokens := tokens + [if next.Some? then Some(next.value.0) else None];
      if next.Some? {
        rest := next.value.1;
      }
    }
  }

  /** One more `strtok` call on what is left yields the next token, or nothing once the tokens run out. */
  lemma StrtokStep(ts: seq<string>, pos: nat, rest: string)
    requires pos < |ts| && Tokens(rest) == ts[pos + 1..]
    ensures Strtok(rest).Some? <==> pos + 1 < |ts|
    ensures Strtok(rest).Some? ==> ts[pos + 1] == Strtok(rest).value.0 && Tokens(Strtok(rest).value.1) == ts[pos + 2..]
  {
    if Strtok(rest).Some? {
      var next := Strtok(rest).value;
      assert ts[pos + 1..] == [next.0] + Tokens(next.1);
      assert ts[pos + 2..] == ts[pos + 1..][1..];
    }
  }

  lemma SlotsNext(ts: seq<string>, pos: nat)
    ensures Slots(ts, pos + 1) == Slots(ts, pos) + [if pos + 1 < |ts| then Some(ts[pos + 1]) else None]
  {
  }

  // ---- plain directives ----------------------------------------------------------------

  /** A commanded value and whether one was received. */
  datatype Cmd<T> = Cmd(value: T, received: bool)

  /** A value found in the message replaces the command and marks it received; no value keeps it. */
  function Take<T>(cur: Cmd<T>, v: Option<T>): (r: Cmd<T>)
    ensures v.Some? ==> r == Cmd(v.value, true)
    ensures v.None? ==> r == cur
  {
    if v.Some? then Cmd(v.value, true) else cur
  }

  /** MQTTCommandPower and MQTTCommandState. */
  datatype Plain = Plain(power: Cmd<bool>, state: Cmd<int>)

  /** The set-point test as written: `&&` binds tighter, so "percentage" counts under any first token. */
  predicate SetpointAsWritten(c0: string, c1: string)
  {
    (c0 == "directive" && c1 == "setpoint") || c1 == "percentage"
  }

  /** The set-point test as evidently intended: both names under the "directive" token. */
  predicate SetpointIntended(c0: string, c1: string)
  {
    c0 == "directive" && (c1 == "setpoint" || c1 == "percentage")
  }

  /**
   * The plain dispatch on the first two tokens with a given set-point test:
   * "directive/powerState" with "ON" or "OFF" sets the power; a set point
   * whose message parses (`toNumber` is `(int)atof(...)`, `None` for NaN)
   * sets the state.
   */
  function Dispatch(p: Plain, c0: string, c1: string, m: string, toNumber: string -> Option<int>,
                    setpoint: (string, string) -> bool): (r: Plain)
    ensures c0 == "directive" && c1 == "powerState" ==>
      r == p.(power := Take(p.power, if m == "ON" then Some(true) else if m == "OFF" then Some(false) else None))
    ensures !(c0 == "directive" && c1 == "powerState") && setpoint(c0, c1) ==> r == p.(state := Take(p.state, toNumber(m)))
    ensures !(c0 == "directive" && c1 == "powerState") && !setpoint(c0, c1) ==> r == p
  {
    if c0 == "directive" && c1 == "powerState" then
      if m == "ON" then p.(power := Cmd(true, true))
      else if m == "OFF" then p.(power := Cmd(false, true))
      else p
    else if setpoint(c0, c1) then
      if toNumber(m).Some? then p.(state := Cmd(toNumber(m).value, true)) else p
    else p
  }

  /** The dispatch as written sets the state from "foo/percentage". */
  lemma PercentageUnderAnyPrefix(p: Plain, toNumber: string -> Option<int>)
    requires toNumber("12") == Some(12) && !p.state.received
    ensures Dispatch(p, "foo", "percentage", "12", toNumber, SetpointAsWritten) != p
  {
    assert SetpointAsWritten("foo", "percentage");
  }

  /** With the intended grouping, a first token other than "directive" never changes a command. */
  lemma IntendedIgnoresOtherPrefixes(p: Plain, c0: string, c1: string, m: string, toNumber: string -> Option<int>)
    requires c0 != "directive"
    ensures Dispatch(p, c0, c1, m, toNumber, SetpointIntended) == p
  {
    assert !SetpointIntended(c0, c1);
  }

  /** Under "directive" the two groupings agree; they differ only on "percentage" under another token. */
  lemma GroupingsDiffer(c0: string, c1: string)
    ensures SetpointAsWritten(c0, c1) != SetpointIntended(c0, c1) <==> c0 != "directive" && c1 == "percentage"
  {
  }

  // ---- Home Assistant set messages -----------------------------------------------------

  /** The parts of a JSON document the dispatch looks at. */
  datatype Json = JString(s: string) | JInteger(i: int) | JFloat(r: real) | JObject(fields: map<string, Json>) | JOther

  /** `doc[key].is<const char *>()` */
  function StrOf(doc: map<string, Json>, key: string): (r: Option<string>)
    ensures r.Some? <==> key in doc && doc[key].JString?
  {
    if key in doc && doc[key].JString? then Some(doc[key].s) else None
  }

  /** `doc[key].is<int>()`: an integer that fits in 32 bits. */
  function IntOf(doc: map<string, Json>, key: string): (r: Option<int>)
    ensures r.Some? ==> -0x8000_0000 <= r.value < 0x8000_0000
  {
    if key in doc && doc[key].JInteger? && -0x8000_0000 <= doc[key].i < 0x8000_0000 then Some(doc[key].i) else None
  }

  /** `doc[key].is<uint8_t>()`: an integer from 0 to 255. */
  function ByteOf(doc: map<string, Json>, key: string): (r: Option<int>)
    ensures r.Some? ==> 0 <= r.value < 256
  {
    if key in doc && doc[key].JInteger? && 0 <= doc[key].i < 256 then Some(doc[key].i) else None
  }

  /**
   * `doc[key].is<int>()` and then an assignment to a `uint8_t`: ArduinoJson
   * converts a number the byte cannot hold to 0, so 0..255 is kept and any
   * other 32-bit integer is stored as 0.
   */
  function IntToByte(doc: map<string, Json>, key: string): (r: Option<int>)
    ensures r.Some? <==> IntOf(doc, key).Some?
    ensures r.Some? ==> 0 <= r.value < 256
    ensures r.Some? && 0 <= IntOf(doc, key).value < 256 ==> r == IntOf(doc, key)
    ensures r.Some? && !(0 <= IntOf(doc, key).value < 256) ==> r.value == 0
  {
    match IntOf(doc, key)
    case Some(n) => if 0 <= n < 256 then Some(n) else Some(0)
    case None => None
  }

  /** `doc[key].is<float>()`: any number. */
  function NumberOf(doc: map<string, Json>, key: string): (r: Option<real>)
    ensures r.Some? <==> key in doc && (doc[key].JInteger? || doc[key].JFloat?)
  {
    if key in doc && doc[key].JInteger? then Some(doc[key].i as real)
    else if key in doc && doc[key].JFloat? then Some(doc[key].r)
    else None
  }

  /** A "state" string read as on/off: on only for MQTT_STATE_ON. */
  function OnOf(doc: map<string, Json>): (r: Option<bool>)
    ensures r.Some? <==> StrOf(doc, "state").Some?
    ensures r.Some? ==> (r.value <==> StrOf(doc, "state").value == "ON")
  {
    if StrOf(doc, "state").Some? then Some(StrOf(doc, "state").value == "ON") else None
  }

  datatype MainCmds = MainCmds(power: Cmd<bool>, brightness: Cmd<int>, graphic: Cmd<int>)
  datatype BackCmds = BackCmds(power: Cmd<bool>, brightness: Cmd<int>, pattern: Cmd<string>, colorPhase: Cmd<int>)

  /** The MQTTCommand* values of Home Assistant mode, by group. */
  datatype HaCmds = HaCmds(main: MainCmds, back: BackCmds, twelveHours: Cmd<bool>, blankZeroHours: Cmd<bool>,
                           pulseBpm: Cmd<int>, breathBpm: Cmd<int>, rainbowSec: Cmd<real>)

  /** `strncpy` into the 24-byte MQTTCommandBackPattern keeps at most 23 characters. */
  function Pattern(s: string): (r: string)
    ensures r <= CString(s) && |r| <= 23
    ensures |CString(s)| <= 23 ==> r == CString(s)
  {
    var c := CString(s);
    if |c| <= 23 then c else c[..23]
  }

  /**
   * A `<group>/set` message: `faceOf` is `nameToClockFace`, `phaseOf` is
   * `hueToPhase` of the colour object's "h" entry. Each key present with
   * the type the code tests for sets its command; nothing else changes.
   */
  function HaSet(c: HaCmds, c0: string, c1: string, doc: map<string, Json>,
                 faceOf: string -> int, phaseOf: map<string, Json> -> int): (r: HaCmds)
    ensures c1 != "set" ==> r == c
    ensures c0 == "main" ==> r == c.(main := r.main)
    ensures c0 == "back" ==> r == c.(back := r.back)
    ensures c0 == "use_twelve_hours" ==> r == c.(twelveHours := r.twelveHours)
    ensures c0 == "blank_zero_hours" ==> r == c.(blankZeroHours := r.blankZeroHours)
    ensures c0 == "pulse_bpm" ==> r == c.(pulseBpm := r.pulseBpm)
    ensures c0 == "breath_bpm" ==> r == c.(breathBpm := r.breathBpm)
    ensures c0 == "rainbow_duration" ==> r == c.(rainbowSec := r.rainbowSec)
    ensures c0 !in {"main", "back", "use_twelve_hours", "blank_zero_hours", "pulse_bpm", "breath_bpm", "rainbow_duration"} ==> r == c
    ensures 0 <= c.main.brightness.value < 256 ==> 0 <= r.main.brightness.value < 256
    ensures 0 <= c.back.brightness.value < 256 ==> 0 <= r.back.brightness.value < 256
  {
    if c1 != "set" then c
    else if c0 == "main" then
      c.(main := MainCmds(Take(c.main.power, OnOf(doc)), Take(c.main.brightness, IntToByte(doc, "brightness")),
                          Take(c.main.graphic, if StrOf(doc, "effect").Some? then Some(faceOf(StrOf(doc, "effect").value)) else None)))
    else if c0 == "back" then
      c.(back := BackCmds(Take(c.back.power, OnOf(doc)), Take(c.back.brightness, IntToByte(doc, "brightness")),
                          Take(c.back.pattern, if StrOf(doc, "effect").Some? then Some(Pattern(StrOf(doc, "effect").value)) else None),
                          Take(c.back.colorPhase,
                               if "color" in doc && doc["color"].JObject? then Some(phaseOf(doc["color"].fields)) else None)))
    else if c0 == "use_twelve_hours" then c.(twelveHours := Take(c.twelveHours, OnOf(doc)))
    else if c0 == "blank_zero_hours" then c.(blankZeroHours := Take(c.blankZeroHours, OnOf(doc)))
    else if c0 == "pulse_bpm" then c.(pulseBpm := Take(c.pulseBpm, ByteOf(doc, "state")))
    else if c0 == "breath_bpm" then c.(breathBpm := Take(c.breathBpm, ByteOf(doc, "state")))
    else if c0 == "rainbow_duration" then c.(rainbowSec := Take(c.rainbowSec, NumberOf(doc, "state")))
    else c
  }

  /** A set message applied twice has the effect of once. */
  lemma {:induction false} HaSetIdempotent(c: HaCmds, c0: string, c1: string, doc: map<string, Json>,
                                           faceOf: string -> int, phaseOf: map<string, Json> -> int)
    ensures HaSet(HaSet(c, c0, c1, doc, faceOf, phaseOf), c0, c1, doc, faceOf, phaseOf) == HaSet(c, c0, c1, doc, faceOf, phaseOf)
  {
  }

  /** A pulse rate outside a byte, or a state that is not a string, leaves the commands alone. */
  lemma HaSetIgnoresWrongTypes(c: HaCmds, doc: map<string, Json>, faceOf: string -> int, phaseOf: map<string, Json> -> int)
    requires "state" in doc && doc["state"] == JInteger(300)
    ensures HaSet(c, "pulse_bpm", "set", doc, faceOf, phaseOf) == c
    ensures HaSet(c, "use_twelve_hours", "set", doc, faceOf, phaseOf) == c
  {
    assert ByteOf(doc, "state").None? && OnOf(doc).None?;
  }

  /** A brightness of 300 passes the `is<int>()` test, so it is received, but it is stored as 0. */
  lemma HaSetBrightnessNarrowed(c: HaCmds, doc: map<string, Json>, faceOf: string -> int, phaseOf: map<string, Json> -> int)
    requires "brightness" in doc && doc["brightness"] == JInteger(300)
    ensures HaSet(c, "main", "set", doc, faceOf, phaseOf).main.brightness == Cmd(0, true)
    ensures HaSet(c, "back", "set", doc, faceOf, phaseOf).back.brightness == Cmd(0, true)
  {
    assert IntOf(doc, "brightness") == Some(300);
  }

  // ---- notification checksum -----------------------------------------------------------

  /** `byte(c)`: the low eight bits of a character. */
  function Byte(c: char): (b: nat)
    ensures b < 256
  {
    (c as int) % 256
  }

  /** The sum of the message's bytes, unbounded. */
  function ByteSum(s: string): nat
  {
    if s == [] then 0 else ByteSum(s[..|s| - 1]) + Byte(s[|s| - 1])
  }

  /** The one-byte checksum: the byte sum modulo 256. */
  function Checksum(s: string): (c: nat)
    ensures c < 256
  {
    ByteSum(s) % 256
  }

  /** The byte sum of a concatenation is the sum of the byte sums. */
  lemma {:induction false} ByteSumAppend(s: string, t: string)
    ensures ByteSum(s + t) == ByteSum(s) + ByteSum(t)
    decreases |t|
  {
    if t != [] {
      assert (s + t)[..|s + t| - 1] == s + t[..|t| - 1];
      ByteSumAppend(s, t[..|t| - 1]);
    } else {
      assert s + t == s;
    }
  }

  /** The checksum ignores order: two halves swapped collide. */
  lemma ChecksumSwapped(s: string, t: string)
    ensures Checksum(s + t) == Checksum(t + s)
  {
    ByteSumAppend(s, t);
    ByteSumAppend(t, s);
  }

  /** So "ab" after "ba" is taken for a repeat. */
  lemma DistinctMessagesCollide()
    ensures "ab" != "ba" && Checksum("ab") == Checksum("ba")
  {
    ChecksumSwapped("a", "b");
  }

  /** The loop of `MQTTReportNotification`: a byte accumulator that wraps at 256. */
  method NotificationChecksum(message: string) returns (sum: nat)
    ensures sum == Checksum(message)
  {
    sum := 0;
    for i := 0 to |message|
      invariant sum == ByteSum(message[..i]) % 256
    {
      assert message[..i + 1][..i] == message[..i];
      sum := (sum + Byte(message[i])) % 256;
    }
    assert message[..|message|] == message;
  }

  // ---- the client ----------------------------------------------------------------------

  /** The number of slots the callback gives `splitCommand`. */
  const COMMAND_SLOTS: nat := 10

  /** `snprintf` of the graphic into a 3-byte buffer: at most two characters survive. */
  function GraphicText(graphic: nat): (s: string)
    ensures 1 <= |s| <= 2 && s <= Decimal(graphic)
  {
    var d := Decimal(graphic);
    if |d| <= 2 then d else d[..2]
  }

  /** Graphics below 100 are reported exactly; larger ones lose their last digits. */
  lemma GraphicTextRoundTrip(graphic: nat)
    ensures graphic < 100 ==> DecimalValue(GraphicText(graphic)) == graphic
    ensures GraphicText(123) == GraphicText(12)
  {
    if graphic < 100 {
      DecimalRoundTrip(graphic);
      assert |Decimal(graphic)| <= 2 by {
        if graphic >= 10 {
          assert Decimal(graphic) == Decimal(graphic / 10) + [('0' as int + graphic % 10) as char];
        }
      }
    }
  }

  /**
   * `lastTimeSent` starts at `(uint32_t)(MQTT_REPORT_STATUS_EVERY_SEC * -1000)`,
   * so the first periodic report is due as soon as the clock has moved.
   */
  lemma FirstReportDueAtOnce(now: nat, everySec: nat)
    requires 0 < everySec * 1000 < WORD32 && 0 < now < WORD32 - everySec * 1000
    ensures Elapsed(now, U32(-(everySec * 1000))) > everySec * 1000
  {
    var e := everySec * 1000;
    assert U32(-e) == WORD32 - e;
    assert Elapsed(now, WORD32 - e) == now + e;
  }

  /** The client's globals. */
  class TokenClient {
    var plain: Plain
    var ha: HaCmds
    var lastNotificationChecksum: nat
    var lastSentGraphic: int
    var discoveryReported: bool
    var lastTimeSent: nat
    /** MQTT_HOME_ASSISTANT: the plain dispatch is compiled only without it. */
    const haEnabled: bool
    /** MQTT_HOME_ASSISTANT_DISCOVERY. */
    const discoveryEnabled: bool
    /** strlen(MQTT_CLIENT). */
    const clientLen: nat
    /** MQTT_REPORT_STATUS_EVERY_SEC. */
    const reportEverySec: nat

    constructor (haEnabled: bool, discoveryEnabled: bool, clientLen: nat, reportEverySec: nat, ha0: HaCmds)
      ensures plain == Plain(Cmd(true, false), Cmd(1, false)) && ha == ha0
      ensures lastNotificationChecksum == 0 && lastSentGraphic == -1 && !discoveryReported
      ensures lastTimeSent == U32(-(reportEverySec * 1000))
      ensures this.haEnabled == haEnabled && this.discoveryEnabled == discoveryEnabled
      ensures this.clientLen == clientLen && this.reportEverySec == reportEverySec
    {
      plain := Plain(Cmd(true, false), Cmd(1, false));
      ha := ha0;
      lastNotificationChecksum := 0;
      lastSentGraphic := -1;
      discoveryReported := false;
      lastTimeSent := U32(-(reportEverySec * 1000));
      this.haEnabled := haEnabled;
      this.discoveryEnabled := discoveryEnabled;
      this.clientLen := clientLen;
      this.reportEverySec := reportEverySec;
    }
    /**
     * `MQTTcallback`: a topic with fewer than two command tokens is
     * ignored; otherwise the plain dispatch (as written) or the Home
     * Assistant set message runs on the first two tokens. `doc` is the
     * payload as `deserializeJson` reads it.
     */
    method Callback(topic: string, payload: string, doc: map<string, Json>, toNumber: string -> Option<int>,
                    faceOf: string -> int, phaseOf: map<string, Json> -> int) returns (handled: bool)
      requires clientLen < |CString(topic)|
      modifies this
      ensures var ts := Tokens(CString(topic)[clientLen + 1..]);
        handled == (|ts| >= 2)
        && (handled && !haEnabled ==> plain == Dispatch(old(plain), ts[0], ts[1], CString(payload), toNumber, SetpointAsWritten))
        && (handled && haEnabled ==> ha == HaSet(old(ha), ts[0], ts[1], doc, faceOf, phaseOf))
      ensures !handled || haEnabled ==> plain == old(plain)
      ensures !handled || !haEnabled ==> ha == old(ha)
      ensures lastNotificationChecksum == old(lastNotificationChecksum) && lastSentGraphic == old(lastSentGraphic)
      ensures discoveryReported == old(discoveryReported) && lastTimeSent == old(lastTimeSent)
    {
      var command, commandNumber := SplitCommand(topic, clientLen, COMMAND_SLOTS);
      var message := CString(payload);
      if commandNumber < 2 {
        return false;
      }
      handled := true;
      var c0, c1 := command[0].value, command[1].value;
      if !haEnabled {
        plain := Dispatch(plain, c0, c1, message, toNumber, SetpointAsWritten);
      } else {
        ha := HaSet(ha, c0, c1, doc, faceOf, phaseOf);
      }
    }

    /** `MQTTReportNotification`: sent only when the checksum differs from the last one sent. */
    method ReportNotification(message: string) returns (sent: bool)
      modifies this
      ensures sent <==> Checksum(message) != old(lastNotificationChecksum)
      ensures lastNotificationChecksum == Checksum(message)
      ensures plain == old(plain) && ha == old(ha) && lastSentGraphic == old(lastSentGraphic)
      ensures discoveryReported == old(discoveryReported) && lastTimeSent == old(lastTimeSent)
    {
      var checksum := NotificationChecksum(message);
      sent := false;
      if checksum != lastNotificationChecksum {
        sent := true;
        lastNotificationChecksum := checksum;
      }
    }

    /** `MQTTReportGraphic`: sent when forced or changed, with the graphic as up to two digits. */
    method ReportGraphic(graphic: nat, force: bool) returns (sent: bool, text: string)
      modifies this
      ensures sent <==> force || graphic != old(lastSentGraphic)
      ensures sent ==> text == GraphicText(graphic)
      ensures lastSentGraphic == graphic
      ensures plain == old(plain) && ha == old(ha) && lastNotificationChecksum == old(lastNotificationChecksum)
      ensures discoveryReported == old(discoveryReported) && lastTimeSent == old(lastTimeSent)
    {
      sent, text := false, "";
      if force || graphic != lastSentGraphic {
        sent, text := true, GraphicText(graphic);
        lastSentGraphic := graphic;
      }
    }

    /**
     * The discovery step of `MQTTReportBackOnChange` and
     * `MQTTPeriodicReportBack`: with discovery compiled in, the discovery
     * messages go out once and the flag is set whatever the publishes
     * answered.
     */
    method ReportDiscovery() returns (sent: bool)
      modifies this
      ensures sent <==> discoveryEnabled && !old(discoveryReported)
      ensures discoveryReported == (old(discoveryReported) || discoveryEnabled)
      ensures plain == old(plain) && ha == old(ha) && lastNotificationChecksum == old(lastNotificationChecksum)
      ensures lastSentGraphic == old(lastSentGraphic) && lastTimeSent == old(lastTimeSent)
    {
      sent := false;
      if discoveryEnabled && !discoveryReported {
        sent := true;
        discoveryReported := true;
      }
    }

    /** `MQTTReportBackOnChange`: the discovery step runs only while connected. */
    method ReportBackOnChange(connected: bool) returns (discoverySent: bool)
      modifies this
      ensures discoverySent <==> connected && discoveryEnabled && !old(discoveryReported)
      ensures discoveryReported == (old(discoveryReported) || (connected && discoveryEnabled))
      ensures plain == old(plain) && ha == old(ha) && lastNotificationChecksum == old(lastNotificationChecksum)
      ensures lastSentGraphic == old(lastSentGraphic) && lastTimeSent == old(lastTimeSent)
    {
      discoverySent := false;
      if connected {
        discoverySent := ReportDiscovery();
      }
    }

    /**
     * `MQTTPeriodicReportBack`: due when more than the report interval has
     * passed (modulo 2^32) and the broker is connected; a due report runs
     * the discovery step and restarts the interval at `now`.
     */
    method PeriodicReportBack(now: nat, connected: bool) returns (due: bool, discoverySent: bool)
      requires now < WORD32 && lastTimeSent < WORD32
      modifies this
      ensures due <==> Elapsed(now, old(lastTimeSent)) > reportEverySec * 1000 && connected
      ensures discoverySent <==> due && discoveryEnabled && !old(discoveryReported)
      ensures discoveryReported == (old(discoveryReported) || (due && discoveryEnabled))
      ensures lastTimeSent == if due then now else old(lastTimeSent)
      ensures due ==> Elapsed(now, lastTimeSent) == 0
      ensures plain == old(plain) && ha == old(ha) && lastNotificationChecksum == old(lastNotificationChecksum)
      ensures lastSentGraphic == old(lastSentGraphic)
    {
      due, discoverySent := false, false;
      if Elapsed(now, lastTimeSent) > reportEverySec * 1000 && connected {
        due := true;
        discoverySent := ReportDiscovery();
        lastTimeSent := now;
      }
    }
  }
}
