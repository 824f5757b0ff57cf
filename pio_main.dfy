// The main loop of the PlatformIO firmware (EleksTubeHAX_pio/src/main.cpp)
// where it differs from the current one: the clamp of the stored clock face
// at start-up and the nightly daylight-saving refresh. Its offset menu and
// night-time test are the same code as in module Main.

module PioMain {
  import opened Wrappers

  /**
   * The start-up clamp of the stored face index to the faces present: too
   * large becomes the last face, then too small becomes the first.
   */
  method ClampGraphic(idx: int, faces: int) returns (r: int)
    ensures faces >= 1 ==> 1 <= r <= faces
    ensures 1 <= idx <= faces ==> r == idx
    ensures idx > faces && faces >= 1 ==> r == faces
    ensures idx < 1 ==> r == 1
  {
    r := idx;
    if r > faces {
      r := faces;
    }
    if r < 1 {
      r := 1;
    }
  }

  // ---- nightly daylight-saving refresh ---------------------------------------------

  /** The refresh state: the pending flag, the day last handled (an uint8_t) and the offset in seconds. */
  datatype Dst = Dst(needsUpdate: bool, yesterday: nat, offset: int)

  /** The moment of a loop pass, as the clock reports it. */
  datatype Moment = Moment(day: nat, hour: nat, minute: nat, second: nat)

  /** 03:00:06 to 03:00:59 on a day other than `yesterday`. */
  predicate Window(t: Moment, yesterday: nat)
  {
    t.day != yesterday && t.hour == 3 && t.minute == 0 && t.second > 5
  }

  /** `UpdateDstEveryNight` as written: the flag is the window, and opening it marks the day as handled. */
  function NightlyCheck(s: Dst, t: Moment): (r: Dst)
    ensures r.needsUpdate == Window(t, s.yesterday) && r.offset == s.offset
    ensures r.yesterday == (if r.needsUpdate then t.day else s.yesterday)
  {
    var flag := Window(t, s.yesterday);
    Dst(flag, if flag then t.day else s.yesterday, s.offset)
  }

  /**
   * The free-time branch: with the flag set it asks the geolocation service
   * (`query`, the offset in seconds or `None` on failure) and on success
   * takes the offset and clears the flag.
   */
  function Fetch(s: Dst, query: Option<int>): (r: Dst)
    ensures r.yesterday == s.yesterday
    ensures s.needsUpdate && query.Some? ==> !r.needsUpdate && r.offset == query.value
    ensures !(s.needsUpdate && query.Some?) ==> r == s
  {
    if s.needsUpdate && query.Some? then Dst(false, s.yesterday, query.value) else s
  }

  /** One pass of the loop as written: the nightly check, then the free-time fetch. */
  function LoopPass(s: Dst, t: Moment, query: Option<int>): Dst
  {
    Fetch(NightlyCheck(s, t), query)
  }

  /**
   * The code as written never retries: one failed query at 03:00:06 marks
   * the day as handled, so at 03:00:07 the flag is already down and a query
   * that would succeed is never asked.
   */
  lemma NoRetryAfterFailure(offset: int, newOffset: int)
    requires newOffset != offset
    ensures var first := LoopPass(Dst(false, 0, offset), Moment(29, 3, 0, 6), None);
            var second := LoopPass(first, Moment(29, 3, 0, 7), Some(newOffset));
      first.needsUpdate && Window(Moment(29, 3, 0, 7), 0) && !second.needsUpdate && second.offset == offset
  {
  }

  /** More generally: once the window opens, every later pass that day leaves the offset alone unless the first one succeeded. */
  lemma {:induction false} DayLostAfterFailure(s: Dst, ts: seq<Moment>, qs: seq<Option<int>>)
    requires |ts| == |qs| && s.needsUpdate && qs != [] && qs[0].None?
    requires forall i :: 0 <= i < |ts| ==> ts[i].day == s.yesterday
    ensures Passes(Fetch(s, qs[0]), ts[1..], qs[1..]).offset == s.offset
  {
    PassesSameDay(Fetch(s, qs[0]), ts[1..], qs[1..]);
  }

  /** Runs a series of loop passes. */
  function Passes(s: Dst, ts: seq<Moment>, qs: seq<Option<int>>): Dst
    requires |ts| == |qs|
    decreases |ts|
  {
    if ts == [] then s else Passes(LoopPass(s, ts[0], qs[0]), ts[1..], qs[1..])
  }

  /** On the day already marked as handled, no pass changes the offset. */
  lemma {:induction false} PassesSameDay(s: Dst, ts: seq<Moment>, qs: seq<Option<int>>)
    requires |ts| == |qs|
    requires forall i :: 0 <= i < |ts| ==> ts[i].day == s.yesterday
    ensures Passes(s, ts, qs).offset == s.offset && Passes(s, ts, qs).yesterday == s.yesterday
    decreases |ts|
  {
    if ts != [] {
      var next := LoopPass(s, ts[0], qs[0]);
      assert !Window(ts[0], s.yesterday);
      assert next.offset == s.offset && next.yesterday == s.yesterday;
      PassesSameDay(next, ts[1..], qs[1..]);
    }
  }

  /**
   * The intended check: the flag follows the window, but the day is marked
   * as handled only once a query has succeeded.
   */
  function FixedNightlyCheck(s: Dst, t: Moment): (r: Dst)
    ensures r.needsUpdate == Window(t, s.yesterday)
    ensures r.yesterday == s.yesterday && r.offset == s.offset
  {
    Dst(Window(t, s.yesterday), s.yesterday, s.offset)
  }

  /** The intended fetch: success takes the offset and marks `today` as handled. */
  function FixedFetch(s: Dst, today: nat, query: Option<int>): (r: Dst)
    ensures s.needsUpdate && query.Some? ==> r == Dst(false, today, query.value)
    ensures !(s.needsUpdate && query.Some?) ==> r == s
  {
    if s.needsUpdate && query.Some? then Dst(false, today, query.value) else s
  }

  function FixedLoopPass(s: Dst, t: Moment, query: Option<int>): Dst
  {
    FixedFetch(FixedNightlyCheck(s, t), t.day, query)
  }

  /** With the fix, a pass inside the window after any number of failures still asks, and a success is taken. */
  lemma FixedRetries(s: Dst, t: Moment, newOffset: int)
    requires Window(t, s.yesterday)
    ensures FixedLoopPass(s, t, None).yesterday == s.yesterday
    ensures FixedLoopPass(FixedLoopPass(s, t, None), t, Some(newOffset)) == Dst(false, t.day, newOffset)
  {
  }

  /** With the fix, the night is handled at most once: after a success the rest of the day asks nothing. */
  lemma FixedOncePerDay(s: Dst, t: Moment, u: Moment, newOffset: int, later: Option<int>)
    requires Window(t, s.yesterday) && u.day == t.day
    ensures FixedLoopPass(FixedLoopPass(s, t, Some(newOffset)), u, later) == Dst(false, t.day, newOffset)
  {
  }

  /** The refresh state held in the firmware's globals, updated in place as the code does. */
  class DstUpdate {
    var dstNeedsUpdate: bool
    var yesterday: nat
    var offset: int

    constructor (offset0: int)
      ensures !dstNeedsUpdate && yesterday == 0 && offset == offset0
    {
      dstNeedsUpdate := false;
      yesterday := 0;
      offset := offset0;
    }

    function State(): Dst
      reads this
    {
      Dst(dstNeedsUpdate, yesterday, offset)
    }

    /** `UpdateDstEveryNight`, as written. */
    method UpdateDstEveryNight(day: nat, hour: nat, minute: nat, second: nat)
      modifies this
      ensures State() == NightlyCheck(old(State()), Moment(day, hour, minute, second))
    {
      dstNeedsUpdate := day != yesterday && hour == 3 && minute == 0 && second > 5;
      if dstNeedsUpdate {
        yesterday := day;
      }
    }

    /** The loop's free-time branch. */
    method FreeTime(query: Option<int>)
      modifies this
      ensures State() == Fetch(old(State()), query)
    {
      if dstNeedsUpdate {
        if query.Some? {
          offset := query.value;
          dstNeedsUpdate := false;
        }
      }
    }
  }
}
