// The modified RX8025T real-time-clock driver
// (EleksTubeHAX_pio/lib/modified_RTC_RX8025T/RTC_RX8025T.cpp): BCD and
// weekday conversions, the time read and write frames, and the
// read-modify-write updates of the chip's control registers. The I2C bus is
// modelled as the three control registers plus a log of the writes sent.

module Rx8025t {
  import opened Wrappers

  type Byte = bv8

  // ---- BCD ------------------------------------------------------------------------

  /** `n + 6 * (n / 10)` in uint8_t arithmetic. */
  function Dec2Bcd(n: Byte): (b: Byte)
    ensures n <= 99 ==> b == (n / 10) * 16 + n % 10
  {
    n + 6 * (n / 10)
  }

  /** `n - 6 * (n >> 4)` in uint8_t arithmetic. */
  function Bcd2Dec(b: Byte): (n: Byte)
    ensures b % 16 <= 9 && b / 16 <= 9 ==> n == (b / 16) * 10 + b % 16
  {
    b - 6 * (b >> 4)
  }

  /** The conversions are inverse on 0..99. */
  lemma BcdRoundTrip(n: Byte)
    requires n <= 99
    ensures Bcd2Dec(Dec2Bcd(n)) == n
    ensures Dec2Bcd(n) / 16 <= 9 && Dec2Bcd(n) % 16 <= 9
  {
  }

  // ---- weekdays -------------------------------------------------------------------

  /**
   * `_BV(wday - 1)` truncated to uint8_t: Sunday (1) is 0x01 up to Saturday
   * (7) at 0x40. A shift by a negative amount or by 32 or more is undefined in
   * C, hence the range the caller has to respect.
   */
  function Wday2Bin(w: Byte): (b: Byte)
    requires 1 <= w <= 32
    ensures w <= 8 ==> b == 1 << (w - 1) as int
    ensures w > 8 ==> b == 0
  {
    if w <= 8 then 1 << (w - 1) as int else 0
  }

  /** One plus the index of the highest set bit of 1..0x7F; anything else unchanged. */
  function Wday(x: Byte): (w: Byte)
    ensures 1 <= x < 0x80 ==> 1 <= w <= 7 && (x >> (w - 1) as int) == 1
    ensures !(1 <= x < 0x80) ==> w == x
  {
    if x == 0 || x >= 0x80 then x
    else if x >= 0x40 then 7
    else if x >= 0x20 then 6
    else if x >= 0x10 then 5
    else if x >= 0x08 then 4
    else if x >= 0x04 then 3
    else if x >= 0x02 then 2
    else 1
  }

  /** `bin2wday`: the loop that overwrites `wday` with `i + 1` when `wday >> i == 1`. */
  method Bin2Wday(x: Byte) returns (wday: Byte)
    ensures wday == Wday(x)
  {
    wday := x;
    var i := 0;
    while i < 7
      invariant 0 <= i <= 7
      invariant wday == if 1 <= x < (1 as Byte) << i then Wday(x) else x
    {
      if (wday >> i) == 1 {
        wday := (i + 1) as Byte;
      }
      i := i + 1;
    }
  }

  /** The weekday codes round-trip: every day 1..7 is read back as written. */
  lemma WdayRoundTrip(w: Byte)
    requires 1 <= w <= 7
    ensures Wday(Wday2Bin(w)) == w
  {
  }

  // ---- the time frame -------------------------------------------------------------

  /** TimeLib's `tmElements_t`; `year` counts from 1970. */
  datatype TmElements = Tm(second: Byte, minute: Byte, hour: Byte, wday: Byte, day: Byte, month: Byte, year: Byte)

  /** The seven bytes `write` sends after the seconds address (`tmYearToY2k` is `year - 30`). */
  function EncodeTime(tm: TmElements): (raw: seq<Byte>)
    requires 1 <= tm.wday <= 32
    ensures |raw| == 7
  {
    [Dec2Bcd(tm.second), Dec2Bcd(tm.minute), Dec2Bcd(tm.hour), Wday2Bin(tm.wday),
     Dec2Bcd(tm.day), Dec2Bcd(tm.month), Dec2Bcd(tm.year - 30)]
  }

  /** What `read` stores from the seven bytes it receives (`y2kYearToTm` is `year + 30`). */
  function DecodeTime(raw: seq<Byte>): TmElements
    requires |raw| == 7
  {
    Tm(Bcd2Dec(raw[0]), Bcd2Dec(raw[1]), Bcd2Dec(raw[2]), Wday(raw[3]),
       Bcd2Dec(raw[4]), Bcd2Dec(raw[5]), Bcd2Dec(raw[6]) + 30)
  }

  /** The fields the two-digit BCD registers can hold. */
  predicate Storable(tm: TmElements)
  {
    tm.second <= 99 && tm.minute <= 99 && tm.hour <= 99 && 1 <= tm.wday <= 7
    && tm.day <= 99 && tm.month <= 99 && 30 <= tm.year <= 129
  }

  /** Reading back a written time gives the time that was written. */
  lemma TimeRoundTrip(tm: TmElements)
    requires Storable(tm)
    ensures DecodeTime(EncodeTime(tm)) == tm
  {
    BcdRoundTrip(tm.second);
    BcdRoundTrip(tm.minute);
    BcdRoundTrip(tm.hour);
    WdayRoundTrip(tm.wday);
    BcdRoundTrip(tm.day);
    BcdRoundTrip(tm.month);
    BcdRoundTrip(tm.year - 30);
  }

  /**
   * `read`: a non-zero status of the address write is returned as is and
   * leaves the time unset; otherwise the seven received bytes are decoded.
   */
  function Read(status: Byte, raw: seq<Byte>): (r: (Byte, Option<TmElements>))
    requires |raw| == 7
    ensures r.0 == status
    ensures r.1.Some? <==> status == 0
    ensures r.1.Some? ==> r.1.value == DecodeTime(raw)
  {
    if status != 0 then (status, None) else (0, Some(DecodeTime(raw)))
  }

  /** `get`: zero when the read fails, otherwise TimeLib's `makeTime` of the decoded time. */
  function Get(status: Byte, raw: seq<Byte>, makeTime: TmElements -> int): (t: int)
    requires |raw| == 7
    ensures status != 0 ==> t == 0
    ensures status == 0 ==> t == makeTime(DecodeTime(raw))
  {
    var (e, tm) := Read(status, raw);
    if e != 0 then 0 else makeTime(tm.value)
  }

  /**
   * `set(t)` writes `breakTime(t)`; when that time fits the registers and
   * `makeTime` inverts `breakTime` there, a later successful `get` returns `t`.
   */
  lemma SetThenGet(t: int, breakTime: int -> TmElements, makeTime: TmElements -> int)
    requires Storable(breakTime(t)) && makeTime(breakTime(t)) == t
    ensures Get(0, EncodeTime(breakTime(t)), makeTime) == t
  {
    TimeRoundTrip(breakTime(t));
  }

  // ---- control registers ----------------------------------------------------------

  /** A bit number 0..7, the argument of `_BV`. */
  type BitPos = n: nat | n < 8

  function Bit(n: BitPos): Byte { 1 << n }

  /**
   * The register bit numbers and the INT_2_SEC value come from the chip
   * header, which is not part of this model: they are parameters.
   */
  datatype Layout = Layout(
    vlf: BitPos, vdet: BitPos, uf: BitPos, reset: BitPos, usel: BitPos, uie: BitPos,
    csel0: BitPos, csel1: BitPos, fsel0: BitPos, fsel1: BitPos, int2Sec: Byte)

  datatype Register = Ext | Control | Status

  /** `(reg & ~mask) | (mask & option)` */
  function Masked(reg: Byte, mask: Byte, option: Byte): (r: Byte)
    ensures r & !mask == reg & !mask
    ensures r & mask == option & mask
  {
    (reg & !mask) | (mask & option)
  }

  /** Setting the same bits again changes nothing. */
  lemma MaskedIdempotent(reg: Byte, mask: Byte, option: Byte)
    ensures Masked(Masked(reg, mask, option), mask, option) == Masked(reg, mask, option)
  {
  }

  /** The chip's extension, control and status registers, and the writes sent to them in order. */
  class Chip {
    var ext: Byte
    var control: Byte
    var status: Byte
    var writes: seq<(Register, Byte)>
    const layout: Layout

    constructor (layout: Layout, ext: Byte, control: Byte, status: Byte)
      ensures this.layout == layout && this.ext == ext && this.control == control && this.status == status
      ensures writes == []
    {
      this.layout := layout;
      this.ext := ext;
      this.control := control;
      this.status := status;
      writes := [];
    }

    /** `writeRTC(addr, value)` */
    method WriteReg(reg: Register, value: Byte)
      modifies this
      ensures writes == old(writes) + [(reg, value)]
      ensures ext == (if reg == Ext then value else old(ext))
      ensures control == (if reg == Control then value else old(control))
      ensures status == (if reg == Status then value else old(status))
    {
      match reg {
        case Ext => ext := value;
        case Control => control := value;
        case Status => status := value;
      }
      writes := writes + [(reg, value)];
    }

    /** `initTUI`: the USEL bit of the extension register takes the option's. */
    method InitTui(option: Byte)
      modifies this
      ensures ext == Masked(old(ext), Bit(layout.usel), option)
      ensures control == old(control) && status == old(status)
      ensures writes == old(writes) + [(Ext, ext)]
    {
      var extReg := ext;
      extReg := Masked(extReg, Bit(layout.usel), option);
      WriteReg(Ext, extReg);
    }

    /** `statusTUI`: the UIE bit of the control register takes the argument's. */
    method StatusTui(flag: Byte)
      modifies this
      ensures control == Masked(old(control), Bit(layout.uie), flag)
      ensures ext == old(ext) && status == old(status)
      ensures writes == old(writes) + [(Control, control)]
    {
      var controlReg := control;
      controlReg := Masked(controlReg, Bit(layout.uie), flag);
      WriteReg(Control, controlReg);
    }

    /** `tempCompensation`: the two CSEL bits of the control register take the option's. */
    method TempCompensation(option: Byte)
      modifies this
      ensures control == Masked(old(control), Bit(layout.csel0) | Bit(layout.csel1), option)
      ensures ext == old(ext) && status == old(status)
      ensures writes == old(writes) + [(Control, control)]
    {
      var controlReg := control;
      controlReg := Masked(controlReg, Bit(layout.csel0) | Bit(layout.csel1), option);
      WriteReg(Control, controlReg);
    }

    /** `initFOUT`: the two FSEL bits of the extension register take the option's. */
    method InitFout(option: Byte)
      modifies this
      ensures ext == Masked(old(ext), Bit(layout.fsel0) | Bit(layout.fsel1), option)
      ensures control == old(control) && status == old(status)
      ensures writes == old(writes) + [(Ext, ext)]
    {
      var extReg := ext;
      extReg := Masked(extReg, Bit(layout.fsel0) | Bit(layout.fsel1), option);
      WriteReg(Ext, extReg);
    }

    /** `checkTUI`: a set UF flag is reported and cleared, leaving the other status bits; otherwise nothing is written. */
    method CheckTui() returns (fired: bool)
      modifies this
      ensures fired <==> old(status) & Bit(layout.uf) != 0
      ensures fired ==> status == old(status) & !Bit(layout.uf) && writes == old(writes) + [(Status, status)]
      ensures !fired ==> status == old(status) && writes == old(writes)
      ensures ext == old(ext) && control == old(control)
    {
      var statusReg := status;
      var mask := Bit(layout.uf);
      if statusReg & mask != 0 {
        statusReg := statusReg & !mask;
        WriteReg(Status, statusReg);
        return true;
      }
      return false;
    }

    /**
     * `init`: a reset command when VLF or VDET reports a loss, then the
     * extension and status registers cleared and the compensation interval set.
     */
    method Init()
      modifies this
      ensures ext == 0 && status == 0 && control == layout.int2Sec
      ensures writes == old(writes) + InitWrites(layout, old(status))
    {
      var statusReg := status;
      var mask := Bit(layout.vlf) | Bit(layout.vdet);
      ghost var reset: seq<(Register, Byte)> := [];
      if statusReg & mask != 0 {
        WriteReg(Control, Bit(layout.reset));
        reset := [(Control, Bit(layout.reset))];
      }
      assert writes == old(writes) + reset;
      WriteReg(Ext, 0);
      WriteReg(Status, 0);
      assert 0 | layout.int2Sec == layout.int2Sec;
      WriteReg(Control, 0 | layout.int2Sec);
      assert writes == old(writes) + reset + [(Ext, 0), (Status, 0), (Control, layout.int2Sec)];
    }
  }

  /** The writes `init` sends for a given status register. */
  function InitWrites(layout: Layout, status: Byte): (w: seq<(Register, Byte)>)
    ensures |w| == 3 || |w| == 4
    ensures |w| == 4 <==> status & (Bit(layout.vlf) | Bit(layout.vdet)) != 0
    ensures |w| == 4 ==> w[0] == (Control, Bit(layout.reset))
    ensures w[|w| - 3..] == [(Ext, 0), (Status, 0), (Control, layout.int2Sec)]
  {
    var reset := if status & (Bit(layout.vlf) | Bit(layout.vdet)) != 0 then [(Control, Bit(layout.reset))] else [];
    reset + [(Ext, 0), (Status, 0), (Control, layout.int2Sec)]
  }
}
