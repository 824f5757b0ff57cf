// The modified NTP client (EleksTubeHAX_pio/lib/modified_NTPClient/NTPClient.cpp):
// the request packet, the checks on a reply, the epoch taken from its
// transmit timestamp, the time-of-day getters and the update gating. The UDP
// socket and millis() are oracles handed in as parameters; the packet length
// and the 1900-to-1970 offset come from the library header, which is not part
// of this model, so they are constants of the client.

module NtpClient {
  import opened Wrappers
  import opened FixedWidth
  import opened Ascii

  type Byte = bv8

  // ---- header fields (RFC 5905 section 7.3) ------------------------------------------

  /** Leap indicator: the two top bits of the first byte. */
  function Leap(b: Byte): Byte { b >> 6 }

  /** Version number: bits 3..5 of the first byte. */
  function Version(b: Byte): Byte { (b >> 3) & 7 }

  /** Association mode: the three low bits of the first byte. */
  function Mode(b: Byte): Byte { b & 7 }

  // ---- the request --------------------------------------------------------------------

  /**
   * The request `sendNTPPacket` sends: all zero but for LI 3, version 4 and
   * mode 3 (client) in byte 0, stratum 0, poll 6, precision 0xEC, and the
   * reference identifier "1N14" in bytes 12..15.
   */
  function Request(n: nat): (p: seq<Byte>)
    requires n >= 16
    ensures |p| == n
    ensures Leap(p[0]) == 3 && Version(p[0]) == 4 && Mode(p[0]) == 3
    ensures p[1] == 0 && p[2] == 6 && p[3] == 0xEC
    ensures p[12] == '1' as Byte && p[13] == 'N' as Byte && p[14] == '1' as Byte && p[15] == '4' as Byte
    ensures forall i :: 4 <= i < 12 || 16 <= i < n ==> p[i] == 0
  {
    [0xE3, 0, 6, 0xEC] + seq(8, _ => 0) + [49, 0x4E, 49, 52] + seq(n - 16, _ => 0)
  }

  /** Byte i of the request, as the sender writes it into a zeroed buffer. */
  lemma RequestAt(n: nat, i: nat)
    requires n >= 16 && i < n
    ensures Request(n)[i] == match i
      case 0 => 0xE3 case 2 => 6 case 3 => 0xEC
      case 12 => 49 case 13 => 0x4E case 14 => 49 case 15 => 52
      case _ => 0
  {
  }

  // ---- checking a reply ------------------------------------------------------------

  datatype Rejection = Unsynchronised | OldVersion | NotServer | BadStratum | NoReference

  /** Some reference-timestamp byte (16..23) is non-zero. */
  predicate HasReference(p: seq<Byte>)
    requires |p| >= 24
  {
    exists i :: 16 <= i < 24 && p[i] != 0
  }

  /** The validity checks of `forceUpdate`, in the order it makes them; `None` accepts the reply. */
  function Validate(p: seq<Byte>): (r: Option<Rejection>)
    requires |p| >= 24
    ensures r.None? <==>
      Leap(p[0]) != 3 && Version(p[0]) >= 4 && Mode(p[0]) == 4 && 1 <= p[1] <= 15 && HasReference(p)
    ensures r == Some(Unsynchronised) <==> Leap(p[0]) == 3
    ensures r == Some(OldVersion) ==> Version(p[0]) < 4
    ensures r == Some(NotServer) ==> Mode(p[0]) != 4
    ensures r == Some(BadStratum) ==> p[1] == 0 || p[1] > 15
    ensures r == Some(NoReference) ==> !HasReference(p)
  {
    if p[0] & 0xC0 == 0xC0 then Some(Unsynchronised)
    else if (p[0] & 0x38) >> 3 < 4 then Some(OldVersion)
    else if p[0] & 0x07 != 4 then Some(NotServer)
    else if p[1] < 1 || p[1] > 15 then Some(BadStratum)
    else if p[16] == 0 && p[17] == 0 && p[18] == 0 && p[19] == 0
         && p[20] == 0 && p[21] == 0 && p[22] == 0 && p[23] == 0 then Some(NoReference)
    else None
  }

  /** The client's own request, echoed back, is never taken for a server reply. */
  lemma RequestIsNoReply(n: nat)
    requires n >= 24
    ensures Validate(Request(n)) == Some(Unsynchronised)
  {
    var p := Request(n);
    assert Leap(p[0]) == 3;
  }

  // ---- the transmit timestamp ----------------------------------------------------------

  /** Arduino's `word(h, l)`. */
  function Word(h: Byte, l: Byte): (w: nat)
    ensures w < 0x10000
  {
    h as nat * 256 + l as nat
  }

  /**
   * The seconds of the transmit timestamp, bytes 40..43 big-endian
   * (`highWord << 16 | lowWord`; the two halves do not overlap).
   */
  function TransmitSeconds(p: seq<Byte>): (s: nat)
    requires |p| >= 44
    ensures s < WORD32
    ensures s == (p[40] as nat * 256 + p[41] as nat) * 0x1_0000 + (p[42] as nat * 256 + p[43] as nat)
  {
    Word(p[40], p[41]) * 0x10000 + Word(p[42], p[43])
  }

  /** The base-256 digits of a four-digit number. */
  lemma Digits(s: nat, d0: nat, d1: nat, d2: nat, d3: nat)
    requires d0 < 256 && d1 < 256 && d2 < 256 && d3 < 256
    requires s == (d0 * 256 + d1) * 0x1_0000 + (d2 * 256 + d3)
    ensures s / 0x100_0000 == d0
    ensures s / 0x1_0000 % 256 == d1
    ensures s / 256 % 256 == d2
    ensures s % 256 == d3
  {
    assert s / 256 == (d0 * 256 + d1) * 256 + d2;
    assert s / 0x1_0000 == d0 * 256 + d1;
  }

  /** The base-256 digits of the transmit seconds are bytes 40..43, most significant first. */
  lemma TransmitDigits(p: seq<Byte>)
    requires |p| >= 44
    ensures TransmitSeconds(p) / 0x100_0000 == p[40] as nat
    ensures TransmitSeconds(p) / 0x1_0000 % 256 == p[41] as nat
    ensures TransmitSeconds(p) / 256 % 256 == p[42] as nat
    ensures TransmitSeconds(p) % 256 == p[43] as nat
  {
    Digits(TransmitSeconds(p), p[40] as nat, p[41] as nat, p[42] as nat, p[43] as nat);
  }

  /** `_currentEpoc`: NTP seconds since 1900 less the 1900-to-1970 offset, in unsigned long. */
  function Epoch(p: seq<Byte>, seventyYears: nat): (e: nat)
    requires |p| >= 44
    ensures e < WORD32
    ensures seventyYears <= TransmitSeconds(p) ==> e == TransmitSeconds(p) - seventyYears
  {
    U32(TransmitSeconds(p) - seventyYears)
  }

  // ---- waiting for the reply -------------------------------------------------------

  /** The first of the polls 0..100 at or after `i` that finds a packet. */
  function FirstArrival(arrives: nat -> bool, i: nat): (r: Option<nat>)
    requires i <= 101
    decreases 101 - i
    ensures r.Some? ==> i <= r.value <= 100 && arrives(r.value)
    ensures r.Some? ==> forall j :: i <= j < r.value ==> !arrives(j)
    ensures r.None? <==> forall j :: i <= j <= 100 ==> !arrives(j)
  {
    if i > 100 then None else if arrives(i) then Some(i) else FirstArrival(arrives, i + 1)
  }

  /**
   * The do-while loop of `forceUpdate`: poll, give up once more than 100
   * polls have gone by (even if that poll found a packet), count the poll.
   * `arrives(i)` is whether poll i finds a packet; `timeout` is the counter
   * after the loop.
   */
  method AwaitReply(arrives: nat -> bool) returns (arrived: bool, timeout: nat)
    ensures arrived <==> FirstArrival(arrives, 0).Some?
    ensures arrived ==> timeout == FirstArrival(arrives, 0).value + 1
  {
    timeout := 0;
    while true
      invariant timeout <= 101
      invariant FirstArrival(arrives, 0) == FirstArrival(arrives, timeout)
      decreases 101 - timeout
    {
      var cb := arrives(timeout);
      if timeout > 100 {
        return false, timeout;
      }
      timeout := timeout + 1;
      if cb {
        return true, timeout;
      }
    }
  }

  // ---- time of day -----------------------------------------------------------------

  /**
   * `getEpochTime`: offset + epoch + whole seconds since the last update, in
   * unsigned long arithmetic (a negative offset wraps).
   */
  function EpochTime(offset: int, epoch: nat, millis: nat, lastUpdate: nat): (t: nat)
    requires millis < WORD32 && lastUpdate < WORD32
    ensures t < WORD32
    ensures var x := offset + epoch + Elapsed(millis, lastUpdate) / 1000; 0 <= x < WORD32 ==> t == x
  {
    U32(offset + epoch + Elapsed(millis, lastUpdate) / 1000)
  }

  /** `getDay`: 0 is Sunday; 1 January 1970 was a Thursday. */
  function Day(t: nat): (d: nat)
    ensures d < 7
  {
    (t / 86400 + 4) % 7
  }

  function Hours(t: nat): (h: nat)
    ensures h < 24
  {
    (t % 86400) / 3600
  }

  function Minutes(t: nat): (m: nat)
    ensures m < 60
  {
    (t % 3600) / 60
  }

  function Seconds(t: nat): (s: nat)
    ensures s < 60
  {
    t % 60
  }

  /** Hours, minutes and seconds recompose the second of the day. */
  lemma TimeOfDay(t: nat)
    ensures Hours(t) * 3600 + Minutes(t) * 60 + Seconds(t) == t % 86400
  {
    var r := t % 86400;
    assert t % 3600 == r % 3600;
    assert t % 60 == r % 60;
  }

  /** The epoch began on a Thursday, and each further day moves the weekday on by one. */
  lemma DayStep(t: nat)
    ensures Day(0) == 4
    ensures Day(t + 86400) == (Day(t) + 1) % 7
  {
    assert (t + 86400) / 86400 == t / 86400 + 1;
  }

  /** `String(n)` preceded by "0" below ten. */
  function Padded(n: nat): (s: string)
    requires n < 100
    ensures s == TwoDigits(n)
  {
    if n < 10 then "0" + Decimal(n)
    else
      assert Decimal(n) == Decimal(n / 10) + Decimal(n % 10);
      Decimal(n)
  }

  /** `getFormattedTime`: "HH:MM:SS". */
  function FormattedTime(t: nat): (s: string)
    ensures |s| == 8 && s[2] == ':' && s[5] == ':'
    ensures forall i :: 0 <= i < 8 && i != 2 && i != 5 ==> IsDigit(s[i])
    ensures DigitValue(s[0]) * 10 + DigitValue(s[1]) == Hours(t)
    ensures DigitValue(s[3]) * 10 + DigitValue(s[4]) == Minutes(t)
    ensures DigitValue(s[6]) * 10 + DigitValue(s[7]) == Seconds(t)
  {
    Padded(Hours(t)) + ":" + Padded(Minutes(t)) + ":" + Padded(Seconds(t))
  }

  // ---- the client ------------------------------------------------------------------

  /** `update` queries when the interval has elapsed or no update has happened yet. */
  predicate Due(millis: nat, lastUpdate: nat, interval: nat)
    requires millis < WORD32 && lastUpdate < WORD32
  {
    Elapsed(millis, lastUpdate) >= interval || lastUpdate == 0
  }

  /**
   * What the socket does during one `forceUpdate`: whether `beginPacket`
   * succeeds, how many bytes `write` takes, whether `endPacket` succeeds,
   * which polls find a packet, `millis()` once one has, how many bytes
   * `read` delivers and the buffer after it.
   */
  datatype Exchange = Exchange(
    beginOk: bool, written: int, endOk: bool, arrives: nat -> bool,
    now: nat, readCount: int, reply: seq<Byte>)

  /** The request went out: `beginPacket`, the full-length `write` and `endPacket` all succeeded. */
  predicate Sent(io: Exchange, size: nat)
  {
    io.beginOk && io.written == size && io.endOk
  }

  class Client {
    var timeOffset: int
    var updateInterval: nat
    var lastUpdate: nat
    var currentEpoc: nat
    var udpSetup: bool
    var port: nat
    const packetSize: nat
    const seventyYears: nat

    ghost predicate Valid()
      reads this
    {
      lastUpdate < WORD32 && currentEpoc < WORD32 && packetSize >= 44
    }

    constructor (packetSize: nat, seventyYears: nat, timeOffset: int, updateInterval: nat)
      requires packetSize >= 44
      ensures Valid() && this.packetSize == packetSize && this.seventyYears == seventyYears
      ensures this.timeOffset == timeOffset && this.updateInterval == updateInterval
      ensures lastUpdate == 0 && currentEpoc == 0 && !udpSetup
    {
      this.packetSize := packetSize;
      this.seventyYears := seventyYears;
      this.timeOffset := timeOffset;
      this.updateInterval := updateInterval;
      lastUpdate := 0;
      currentEpoc := 0;
      udpSetup := false;
      port := 0;
    }

    /**
     * `sendNTPPacket`: builds the request byte by byte, then `endPacket` is
     * called whenever `beginPacket` succeeded, and the send succeeds only when
     * all three steps do.
     */
    method SendNtpPacket(beginOk: bool, written: int, endOk: bool) returns (ok: bool, endCalled: bool, payload: seq<Byte>)
      requires packetSize >= 44
      ensures ok <==> beginOk && written == packetSize && endOk
      ensures endCalled <==> beginOk
      ensures payload == if beginOk then Request(packetSize) else []
    {
      var buf := new Byte[packetSize](_ => 0);
      buf[0] := 0xE3;
      buf[1] := 0;
      buf[2] := 6;
      buf[3] := 0xEC;
      buf[12] := 49;
      buf[13] := 0x4E;
      buf[14] := 49;
      buf[15] := 52;
      forall i | 0 <= i < packetSize ensures buf[i] == Request(packetSize)[i] {
        RequestAt(packetSize, i);
      }
      ok := beginOk;
      endCalled := false;
      payload := [];
      if ok {
        payload := buf[..];
        ok := written == packetSize;
        endCalled := true;
        ok := endOk && ok;
      }
    }

    /** `forceUpdate`; draining stale packets before the send is not modelled. */
    method ForceUpdate(io: Exchange) returns (ok: bool)
      requires Valid() && |io.reply| == packetSize
      modifies this
      ensures Valid()
      ensures ok <==> Sent(io, packetSize) && FirstArrival(io.arrives, 0).Some?
                      && io.readCount == packetSize && Validate(io.reply).None?
      ensures Sent(io, packetSize) && FirstArrival(io.arrives, 0).Some? ==>
                lastUpdate == U32(io.now - 10 * (FirstArrival(io.arrives, 0).value + 2))
      ensures !(Sent(io, packetSize) && FirstArrival(io.arrives, 0).Some?) ==> lastUpdate == old(lastUpdate)
      ensures currentEpoc == if ok then Epoch(io.reply, seventyYears) else old(currentEpoc)
      ensures timeOffset == old(timeOffset) && updateInterval == old(updateInterval)
      ensures udpSetup == old(udpSetup) && port == old(port)
    {
      ok := false;
      var sent, _, _ := SendNtpPacket(io.beginOk, io.written, io.endOk);
      if sent {
        var arrived, timeout := AwaitReply(io.arrives);
        if arrived {
          ghost var wait := FirstArrival(io.arrives, 0).value;
          assert io.now - 10 * (timeout + 1) == io.now - 10 * (wait + 2);
          lastUpdate := U32(io.now - 10 * (timeout + 1));
          ok := ReadReply(io);
        } else {
          assert FirstArrival(io.arrives, 0).None?;
        }
      } else {
        assert !Sent(io, packetSize);
      }
    }

    /** The end of `forceUpdate` once a reply has arrived: read it, check it, take its time. */
    method ReadReply(io: Exchange) returns (ok: bool)
      requires Valid() && |io.reply| == packetSize
      modifies this`currentEpoc
      ensures Valid()
      ensures ok <==> io.readCount == packetSize && Validate(io.reply).None?
      ensures currentEpoc == if ok then Epoch(io.reply, seventyYears) else old(currentEpoc)
    {
      var rejected := Validate(io.reply);
      if io.readCount != packetSize {
        return false;
      }
      if rejected.Some? {
        return false;
      }
      currentEpoc := Epoch(io.reply, seventyYears);
      return true;
    }

    /**
     * `update`: nothing happens unless an update is due; then the socket is
     * set up (on the port already chosen) and `forceUpdate` runs.
     */
    method Update(millis: nat, io: Exchange) returns (ok: bool)
      requires Valid() && millis < WORD32 && |io.reply| == packetSize
      modifies this
      ensures Valid()
      ensures !Due(millis, old(lastUpdate), old(updateInterval)) ==>
        !ok && lastUpdate == old(lastUpdate) && currentEpoc == old(currentEpoc) && udpSetup == old(udpSetup)
      ensures Due(millis, old(lastUpdate), old(updateInterval)) ==> udpSetup
      ensures Due(millis, old(lastUpdate), old(updateInterval)) ==>
        (ok <==> Sent(io, packetSize) && FirstArrival(io.arrives, 0).Some?
                 && io.readCount == packetSize && Validate(io.reply).None?)
      ensures Due(millis, old(lastUpdate), old(updateInterval)) ==>
        lastUpdate == if Sent(io, packetSize) && FirstArrival(io.arrives, 0).Some?
                      then U32(io.now - 10 * (FirstArrival(io.arrives, 0).value + 2)) else old(lastUpdate)
      ensures Due(millis, old(lastUpdate), old(updateInterval)) ==>
        currentEpoc == if ok then Epoch(io.reply, seventyYears) else old(currentEpoc)
      ensures timeOffset == old(timeOffset) && updateInterval == old(updateInterval) && port == old(port)
    {
      if Elapsed(millis, lastUpdate) >= updateInterval || lastUpdate == 0 {
        udpSetup := true;
        ok := ForceUpdate(io);
        return;
      }
      return false;
    }
  }
}
