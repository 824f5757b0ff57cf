// The pre-build step that configures the TFT_eSPI library copy
// (scripts/script_configure_tft_lib.py). The file copies and the reads and
// writes are I/O; what is modelled is the target path and the sanitiser that
// comments out HARDWARE_* defines and renames the header guard.

module TftConfig {
  import opened Wrappers
  import opened Ascii
  import opened PyText

  // ---- target path -----------------------------------------------------------------

  const LIBDEPS: string := ".pio/libdeps/"
  const SETUP_TAIL: string := "/TFT_eSPI/User_Setup.h"

  /** The library copy of the environment: `.pio/libdeps/<env>/TFT_eSPI/`. */
  function TargetDir(env: string): string
  {
    ".pio/libdeps/" + env + "/TFT_eSPI/"
  }

  /** The setup header inside it; the environment name sits between the fixed parts. */
  function TargetFile(env: string): (p: string)
    ensures StartsWith(p, LIBDEPS) && EndsWith(p, SETUP_TAIL)
    ensures |p| == |LIBDEPS| + |env| + |SETUP_TAIL| && p[|LIBDEPS|..|LIBDEPS| + |env|] == env
    ensures StartsWith(p, TargetDir(env))
  {
    var p := TargetDir(env) + "User_Setup.h";
    assert p == LIBDEPS + env + SETUP_TAIL;
    p
  }

  // ---- the header-guard rename -------------------------------------------------------

  const GUARD: string := "GLOBAL_DEFINES_H_"
  const NEW_GUARD: string := "TFT_ESPI_USER_SETUP_H_"

  /** `content.replace(GUARD, NEW_GUARD)`: left to right, non-overlapping. */
  function ReplaceGuard(s: string): string
    decreases |s|
  {
    if s == [] then []
    else if StartsWith(s, GUARD) then NEW_GUARD + ReplaceGuard(s[|GUARD|..])
    else [s[0]] + ReplaceGuard(s[1..])
  }

  /** Text without a 'G' cannot start an occurrence and passes through unchanged. */
  lemma {:induction false} ReplaceSkips(a: string, y: string)
    requires 'G' !in a
    ensures ReplaceGuard(a + y) == a + ReplaceGuard(y)
    decreases |a|
  {
    if a == [] {
      assert a + y == y;
    } else {
      var s := a + y;
      assert s[0] == a[0] && s[0] != 'G';
      assert !StartsWith(s, GUARD) by { assert GUARD[0] == 'G'; }
      assert s[1..] == a[1..] + y;
      ReplaceSkips(a[1..], y);
      assert [a[0]] + (a[1..] + ReplaceGuard(y)) == a + ReplaceGuard(y);
    }
  }

  /** The first character of the renamed text: the new guard's 'T' where an occurrence starts. */
  lemma ReplaceHead(y: string)
    ensures y != [] ==>
      ReplaceGuard(y) != [] && ReplaceGuard(y)[0] == (if StartsWith(y, GUARD) then 'T' else y[0])
  {
  }

  /** A non-empty prefix is its first character followed by a prefix of the tail. */
  lemma PrefixCons(s: string, q: string)
    requires q != [] && s != []
    ensures StartsWith(s, q) <==> s[0] == q[0] && StartsWith(s[1..], q[1..])
    ensures forall c :: c !in q ==> c !in q[1..]
  {
    if StartsWith(s[1..], q[1..]) && s[0] == q[0] {
      assert s[..|q|] == [s[0]] + s[1..][..|q| - 1];
    }
    if StartsWith(s, q) {
      assert s[1..][..|q| - 1] == s[..|q|][1..];
    }
  }

  /**
   * A prefix without 'G' and 'T' survives the rename only if it was there
   * before: the rename writes a 'T' where it starts and keeps every other character.
   */
  lemma {:induction false} ReplaceKeepsPrefix(y: string, q: string)
    requires 'G' !in q && 'T' !in q
    requires StartsWith(ReplaceGuard(y), q)
    ensures StartsWith(y, q)
    decreases |q|
  {
    if q != [] {
      var r := ReplaceGuard(y);
      ReplaceHead(y);
      PrefixCons(r, q);
      if StartsWith(y, GUARD) {
        assert false;
      }
      assert r[1..] == ReplaceGuard(y[1..]);
      ReplaceKeepsPrefix(y[1..], q[1..]);
      PrefixCons(y, q);
    }
  }

  /** No occurrence of the old guard starts anywhere in `x`. */
  predicate GuardFree(x: string)
    decreases |x|
  {
    x == [] || (!StartsWith(x, GUARD) && GuardFree(x[1..]))
  }

  lemma {:induction false} GuardFreeAfter(a: string, x: string)
    requires 'G' !in a && GuardFree(x)
    ensures GuardFree(a + x)
    decreases |a|
  {
    if a != [] {
      assert (a + x)[0] == a[0] != GUARD[0];
      assert (a + x)[1..] == a[1..] + x;
      GuardFreeAfter(a[1..], x);
    } else {
      assert a + x == x;
    }
  }

  /** The rename leaves no occurrence of the old guard behind. */
  lemma {:induction false} ReplaceGuardClears(s: string)
    ensures GuardFree(ReplaceGuard(s))
    decreases |s|
  {
    if s == [] {
    } else if StartsWith(s, GUARD) {
      ReplaceGuardClears(s[|GUARD|..]);
      GuardFreeAfter(NEW_GUARD, ReplaceGuard(s[|GUARD|..]));
    } else {
      var r := [s[0]] + ReplaceGuard(s[1..]);
      ReplaceGuardClears(s[1..]);
      KeptCharStartsNoGuard(s);
      assert r[1..] == ReplaceGuard(s[1..]);
    }
  }

  lemma GuardTail()
    ensures 'G' !in GUARD[1..] && 'T' !in GUARD[1..]
  {
    var t := GUARD[1..];
    assert forall i :: 0 <= i < |t| ==> t[i] != 'G' && t[i] != 'T';
  }

  /** Where no occurrence starts, the rename does not create one either. */
  lemma KeptCharStartsNoGuard(s: string)
    requires s != [] && !StartsWith(s, GUARD)
    ensures !StartsWith([s[0]] + ReplaceGuard(s[1..]), GUARD)
  {
    var r := [s[0]] + ReplaceGuard(s[1..]);
    PrefixCons(r, GUARD);
    PrefixCons(s, GUARD);
    assert r[1..] == ReplaceGuard(s[1..]);
    if StartsWith(ReplaceGuard(s[1..]), GUARD[1..]) {
      GuardTail();
      ReplaceKeepsPrefix(s[1..], GUARD[1..]);
    }
  }

  /** The rename changes exactly the texts that hold the old guard. */
  lemma {:induction false} GuardFreeFixed(x: string)
    ensures GuardFree(x) <==> ReplaceGuard(x) == x
    decreases |x|
  {
    if x != [] {
      ReplaceHead(x);
      PrefixCons(x, GUARD);
      GuardFreeFixed(x[1..]);
      if !StartsWith(x, GUARD) {
        ConsEqual(x, ReplaceGuard(x[1..]));
      }
    }
  }

  lemma ConsEqual(x: string, t: string)
    requires x != []
    ensures [x[0]] + t == x <==> t == x[1..]
  {
    if [x[0]] + t == x {
      assert ([x[0]] + t)[1..] == t;
    }
  }

  /** A second rename changes nothing. */
  lemma ReplaceGuardIdempotent(s: string)
    ensures ReplaceGuard(ReplaceGuard(s)) == ReplaceGuard(s)
  {
    ReplaceGuardClears(s);
    GuardFreeFixed(ReplaceGuard(s));
  }

  /** A line break is never part of an occurrence, so the rename works line by line. */
  lemma {:induction false} ReplaceAcrossBreak(a: string, c: string)
    ensures ReplaceGuard(a + ("\n" + c)) == ReplaceGuard(a) + ("\n" + ReplaceGuard(c))
    decreases |a|
  {
    var x := "\n" + c;
    if a == [] {
      assert a + x == x;
      assert !StartsWith(x, GUARD) by { assert x[0] != GUARD[0]; }
      assert x[1..] == c;
    } else if StartsWith(a, GUARD) {
      assert (a + x)[..|GUARD|] == a[..|GUARD|];
      assert (a + x)[|GUARD|..] == a[|GUARD|..] + x;
      ReplaceAcrossBreak(a[|GUARD|..], c);
    } else {
      assert !StartsWith(a + x, GUARD) by {
        if |a| >= |GUARD| {
          assert (a + x)[..|GUARD|] == a[..|GUARD|];
        } else {
          assert (a + x)[|a|] == '\n' && '\n' !in GUARD;
          assert GUARD[|a|] in GUARD;
        }
      }
      assert (a + x)[1..] == a[1..] + x;
      ReplaceAcrossBreak(a[1..], c);
    }
  }

  lemma {:induction false} ReplaceNoBreak(x: string)
    requires '\n' !in x
    ensures '\n' !in ReplaceGuard(x)
    decreases |x|
  {
    if x != [] {
      if StartsWith(x, GUARD) {
        ReplaceNoBreak(x[|GUARD|..]);
      } else {
        ReplaceNoBreak(x[1..]);
      }
    }
  }

  // ---- the HARDWARE_* comment-out, one line at a time ----------------------------------

  /** Characters of `[A-Z0-9_]`. */
  predicate IsNameChar(c: char) { IsUpper(c) || IsDigit(c) || c == '_' }

  /** Characters of `\w` (ASCII only). */
  predicate IsWordChar(c: char) { IsNameChar(c) || IsLower(c) }

  predicate AllName(s: string) { forall i :: 0 <= i < |s| ==> IsNameChar(s[i]) }

  /** Length of the longest run of whitespace at the head of `s`. */
  function SpaceRun(s: string): (n: nat)
    ensures n <= |s| && AllSpace(s[..n])
    ensures n < |s| ==> !IsSpace(s[n])
  {
    if s != [] && IsSpace(s[0]) then
      var n := 1 + SpaceRun(s[1..]);
      assert s[..n] == [s[0]] + s[1..][..n - 1];
      n
    else 0
  }

  /** Length of the longest run of `[A-Z0-9_]` at the head of `s`. */
  function NameRun(s: string): (n: nat)
    ensures n <= |s| && AllName(s[..n])
    ensures n < |s| ==> !IsNameChar(s[n])
  {
    if s != [] && IsNameChar(s[0]) then
      var n := 1 + NameRun(s[1..]);
      assert s[..n] == [s[0]] + s[1..][..n - 1];
      n
    else 0
  }

  /**
   * One match of `^(\s*)#\s*define\s+HARDWARE_([A-Z0-9_]+)\b` on a line: the
   * two groups, the whitespace runs the pattern consumes, and the rest of the line.
   */
  datatype DefineMatch = DefineMatch(indent: string, gap1: string, gap2: string, name: string, rest: string)

  // The line a match was taken from, assembled from the end.
  function NameTail(m: DefineMatch): string { m.name + m.rest }
  function HardwareTail(m: DefineMatch): string { m.gap2 + ("HARDWARE_" + NameTail(m)) }
  function DefineTail(m: DefineMatch): string { m.gap1 + ("define" + HardwareTail(m)) }
  function Assemble(m: DefineMatch): string { m.indent + ("#" + DefineTail(m)) }

  /** `([A-Z0-9_]+)\b`: a name and a rest that is empty or starts with a non-word character. */
  predicate NameOk(m: DefineMatch)
  {
    m.name != [] && AllName(m.name) && (m.rest == [] || !IsWordChar(m.rest[0]))
  }

  /** The constraints the whole pattern puts on each part. */
  predicate WellFormed(m: DefineMatch)
  {
    AllSpace(m.indent) && AllSpace(m.gap1) && m.gap2 != [] && AllSpace(m.gap2) && NameOk(m)
  }

  /** The pattern after the `HARDWARE_` literal: a non-empty name run followed by a word boundary. */
  predicate NameAhead(t: string)
  {
    var n := NameRun(t);
    n > 0 && (n == |t| || !IsWordChar(t[n]))
  }

  // Each stage below matches one part of the pattern on the remaining text
  // and carries the parts already matched.

  /** `([A-Z0-9_]+)\b` */
  function MatchName(indent: string, gap1: string, gap2: string, t: string): (r: Option<DefineMatch>)
    ensures r.Some? <==> NameAhead(t)
    ensures r.Some? ==> r.value.indent == indent && r.value.gap1 == gap1 && r.value.gap2 == gap2
    ensures r.Some? ==> NameOk(r.value) && NameTail(r.value) == t
  {
    if NameAhead(t) then
      var n := NameRun(t);
      assert t[..n] + t[n..] == t;
      Some(DefineMatch(indent, gap1, gap2, t[..n], t[n..]))
    else None
  }

  /** `\s+HARDWARE_` and the rest of the pattern. */
  function MatchHardware(indent: string, gap1: string, t: string): (r: Option<DefineMatch>)
    ensures r.Some? ==> r.value.indent == indent && r.value.gap1 == gap1
    ensures r.Some? ==> r.value.gap2 != [] && AllSpace(r.value.gap2) && NameOk(r.value)
    ensures r.Some? ==> HardwareTail(r.value) == t
  {
    var c := SpaceRun(t);
    if c == 0 || !StartsWith(t[c..], "HARDWARE_") then None
    else
      Rejoin(t, c, "HARDWARE_");
      MatchName(indent, gap1, t[..c], t[c + 9..])
  }

  /** `\s*define` and the rest of the pattern. */
  function MatchDefineWord(indent: string, t: string): (r: Option<DefineMatch>)
    ensures r.Some? ==> r.value.indent == indent
    ensures r.Some? ==> AllSpace(r.value.gap1) && r.value.gap2 != [] && AllSpace(r.value.gap2) && NameOk(r.value)
    ensures r.Some? ==> DefineTail(r.value) == t
  {
    var b := SpaceRun(t);
    if !StartsWith(t[b..], "define") then None
    else
      Rejoin(t, b, "define");
      MatchHardware(indent, t[..b], t[b + 6..])
  }

  /**
   * `re.match` of the pattern at the start of a line. The greedy runs never
   * need to give anything back: each is followed by a character it cannot hold.
   */
  function MatchDefine(l: string): (r: Option<DefineMatch>)
    ensures r.Some? ==> WellFormed(r.value) && Assemble(r.value) == l
  {
    var a := SpaceRun(l);
    if a == |l| || l[a] != '#' then None
    else
      var r := MatchDefineWord(l[..a], l[a + 1..]);
      SplitAround(l, a);
      r
  }

  lemma Rejoin(t: string, b: nat, w: string)
    requires b <= |t| && StartsWith(t[b..], w)
    ensures t == t[..b] + (w + t[b + |w|..])
  {
  }

  lemma PrefixSplit(l: string, p: string)
    requires StartsWith(l, p)
    ensures l == p + l[|p|..]
  {
  }

  lemma SplitAround(l: string, a: nat)
    requires a < |l|
    ensures l == l[..a] + ([l[a]] + l[a + 1..])
  {
  }

  lemma Unsplit(a: string, c: char, x: string)
    ensures var l := a + ([c] + x); l[..|a|] == a && l[|a|] == c && l[|a| + 1..] == x
  {
  }

  /** A run of whitespace followed by something else is measured exactly. */
  lemma {:induction false} SpaceRunOf(a: string, x: string)
    requires AllSpace(a) && x != [] && !IsSpace(x[0])
    ensures SpaceRun(a + x) == |a|
    decreases |a|
  {
    if a == [] {
      assert a + x == x;
    } else {
      assert (a + x)[0] == a[0];
      assert (a + x)[1..] == a[1..] + x;
      SpaceRunOf(a[1..], x);
    }
  }

  lemma {:induction false} NameRunOf(a: string, x: string)
    requires AllName(a) && (x == [] || !IsNameChar(x[0]))
    ensures NameRun(a + x) == |a|
    decreases |a|
  {
    if a == [] {
      assert a + x == x;
    } else {
      assert (a + x)[0] == a[0];
      assert (a + x)[1..] == a[1..] + x;
      NameRunOf(a[1..], x);
    }
  }

  lemma MatchNameComplete(m: DefineMatch)
    requires NameOk(m)
    ensures MatchName(m.indent, m.gap1, m.gap2, NameTail(m)) == Some(m)
  {
    var t := NameTail(m);
    NameRunOf(m.name, m.rest);
    assert t[..|m.name|] == m.name && t[|m.name|..] == m.rest;
  }

  lemma MatchHardwareComplete(m: DefineMatch)
    requires m.gap2 != [] && AllSpace(m.gap2) && NameOk(m)
    ensures MatchHardware(m.indent, m.gap1, HardwareTail(m)) == Some(m)
  {
    var t := HardwareTail(m);
    var x := "HARDWARE_" + NameTail(m);
    assert x[0] == 'H';
    SpaceRunOf(m.gap2, x);
    assert t[..|m.gap2|] == m.gap2 && t[|m.gap2|..][..9] == "HARDWARE_" && t[|m.gap2| + 9..] == NameTail(m);
    MatchNameComplete(m);
  }

  lemma MatchDefineWordComplete(m: DefineMatch)
    requires AllSpace(m.gap1) && m.gap2 != [] && AllSpace(m.gap2) && NameOk(m)
    ensures MatchDefineWord(m.indent, DefineTail(m)) == Some(m)
  {
    var t := DefineTail(m);
    var x := "define" + HardwareTail(m);
    assert x[0] == 'd';
    SpaceRunOf(m.gap1, x);
    assert t[..|m.gap1|] == m.gap1 && t[|m.gap1|..][..6] == "define" && t[|m.gap1| + 6..] == HardwareTail(m);
    MatchHardwareComplete(m);
  }

  /** Every line of the pattern's shape is matched, with exactly its parts. */
  lemma MatchDefineComplete(m: DefineMatch)
    requires WellFormed(m)
    ensures MatchDefine(Assemble(m)) == Some(m)
  {
    var x := "#" + DefineTail(m);
    assert x[0] == '#';
    SpaceRunOf(m.indent, x);
    Unsplit(m.indent, '#', DefineTail(m));
    MatchDefineWordComplete(m);
  }

  /** `\1// #define HARDWARE_\2` in place of the match; other lines are kept. */
  function SubLine(l: string): string
  {
    match MatchDefine(l)
    case None => l
    case Some(m) => m.indent + ("// #define HARDWARE_" + (m.name + m.rest))
  }

  /** A line whose first non-blank character is not '#' does not match. */
  lemma NoHashNoMatch(indent: string, x: string)
    requires AllSpace(indent) && x != [] && x[0] != '#' && !IsSpace(x[0])
    ensures MatchDefine(indent + x).None?
  {
    SpaceRunOf(indent, x);
    assert (indent + x)[|indent|] == x[0];
  }

  /** A rewritten line no longer matches, so rewriting it again changes nothing. */
  lemma SubLineSettled(l: string)
    ensures MatchDefine(SubLine(l)).None?
  {
    if MatchDefine(l).Some? {
      var m := MatchDefine(l).value;
      var x := "// #define HARDWARE_" + (m.name + m.rest);
      assert x[0] == '/';
      NoHashNoMatch(m.indent, x);
    }
  }

  lemma SubLineIdempotent(l: string)
    ensures SubLine(SubLine(l)) == SubLine(l)
  {
    SubLineSettled(l);
  }

  // ---- the rename cannot create a match ---------------------------------------------

  /** The part of a matched line before the name. */
  function Head(m: DefineMatch): string
  {
    m.indent + ("#" + (m.gap1 + ("define" + (m.gap2 + "HARDWARE_"))))
  }

  lemma AssembleSplit(m: DefineMatch)
    ensures Assemble(m) == Head(m) + NameTail(m)
  {
    var n := NameTail(m);
    assert m.gap2 + ("HARDWARE_" + n) == (m.gap2 + "HARDWARE_") + n;
    assert "define" + (m.gap2 + ("HARDWARE_" + n)) == ("define" + (m.gap2 + "HARDWARE_")) + n;
    assert m.gap1 + ("define" + (m.gap2 + ("HARDWARE_" + n))) == (m.gap1 + ("define" + (m.gap2 + "HARDWARE_"))) + n;
    assert "#" + DefineTail(m) == ("#" + (m.gap1 + ("define" + (m.gap2 + "HARDWARE_")))) + n;
  }

  lemma SpacesHoldNoGT(s: string)
    requires AllSpace(s)
    ensures 'G' !in s && 'T' !in s
  {
  }

  lemma HeadHoldsNoGT(m: DefineMatch)
    requires WellFormed(m)
    ensures 'G' !in Head(m) && 'T' !in Head(m)
  {
    SpacesHoldNoGT(m.indent);
    SpacesHoldNoGT(m.gap1);
    SpacesHoldNoGT(m.gap2);
  }

  /** Text after the end of the name run is what decides the word boundary. */
  predicate Boundary(t: string)
  {
    var n := NameRun(t);
    n == |t| || !IsWordChar(t[n])
  }

  lemma {:induction false} BoundaryAfterNames(a: string, u: string)
    requires AllName(a)
    ensures NameRun(a + u) == |a| + NameRun(u)
    ensures Boundary(a + u) <==> Boundary(u)
    decreases |a|
  {
    if a == [] {
      assert a + u == u;
    } else {
      assert (a + u)[0] == a[0];
      assert (a + u)[1..] == a[1..] + u;
      BoundaryAfterNames(a[1..], u);
    }
  }

  lemma GuardsAreNames()
    ensures AllName(GUARD) && AllName(NEW_GUARD)
  {
  }

  /** What the first character says about the boundary. */
  lemma BoundaryCons(c: char, x: string)
    ensures IsNameChar(c) ==> (Boundary([c] + x) <==> Boundary(x))
    ensures !IsNameChar(c) ==> (Boundary([c] + x) <==> !IsWordChar(c))
  {
    if IsNameChar(c) {
      BoundaryAfterNames([c], x);
    }
  }

  /** The rename starts a name run exactly where the original text starts one. */
  lemma NameStartReplace(t: string)
    ensures NameRun(ReplaceGuard(t)) > 0 <==> NameRun(t) > 0
  {
    ReplaceHead(t);
  }

  /** The rename swaps one name-character text for another, so word boundaries survive it. */
  lemma {:induction false} BoundaryReplace(t: string)
    ensures Boundary(ReplaceGuard(t)) <==> Boundary(t)
    decreases |t|
  {
    if t == [] {
    } else if StartsWith(t, GUARD) {
      var u := t[|GUARD|..];
      GuardsAreNames();
      PrefixSplit(t, GUARD);
      BoundaryAfterNames(GUARD, u);
      BoundaryAfterNames(NEW_GUARD, ReplaceGuard(u));
      BoundaryReplace(u);
    } else {
      assert ReplaceGuard(t) == [t[0]] + ReplaceGuard(t[1..]);
      BoundaryReplace(t[1..]);
      BoundaryCons(t[0], ReplaceGuard(t[1..]));
      BoundaryCons(t[0], t[1..]);
      assert t == [t[0]] + t[1..];
    }
  }

  /** A line that matches after the rename matched before it. */
  lemma MatchAfterReplace(l: string)
    requires MatchDefine(ReplaceGuard(l)).Some?
    ensures MatchDefine(l).Some?
  {
    var r := ReplaceGuard(l);
    var m := MatchDefine(r).value;
    var p := Head(m);
    AssembleSplit(m);
    HeadHoldsNoGT(m);
    assert StartsWith(r, p) by { assert r[..|p|] == p; }
    ReplaceKeepsPrefix(l, p);
    var t := l[|p|..];
    PrefixSplit(l, p);
    ReplaceSkips(p, t);
    assert ReplaceGuard(t) == NameTail(m) by { assert (p + ReplaceGuard(t))[|p|..] == ReplaceGuard(t); }
    MatchNameComplete(m);
    NameStartReplace(t);
    BoundaryReplace(t);
    var m' := MatchName(m.indent, m.gap1, m.gap2, t).value;
    AssembleSplit(m');
    MatchDefineComplete(m');
  }

  // ---- the whole file -----------------------------------------------------------------

  /** Index of the first line break, or |s| if there is none. */
  function LineEnd(s: string): (i: nat)
    ensures i <= |s| && '\n' !in s[..i]
    ensures i < |s| ==> s[i] == '\n'
  {
    if s == [] || s[0] == '\n' then 0
    else
      var i := 1 + LineEnd(s[1..]);
      assert s[..i] == [s[0]] + s[1..][..i - 1];
      i
  }

  /** The first line of `a` + "\n" + `x` is `a` and the rest is `x`. */
  lemma {:induction false} LineEndOf(a: string, x: string)
    requires '\n' !in a
    ensures var s := a + ("\n" + x); LineEnd(s) == |a| && s[..|a|] == a && s[|a| + 1..] == x
    decreases |a|
  {
    var s := a + ("\n" + x);
    if a == [] {
      assert s == "\n" + x;
    } else {
      assert s[0] == a[0];
      assert s[1..] == a[1..] + ("\n" + x);
      LineEndOf(a[1..], x);
    }
  }

  /** `re.sub(..., flags=re.MULTILINE)` applied line by line. */
  function CommentOut(s: string): string
    decreases |s|
  {
    var i := LineEnd(s);
    if i == |s| then SubLine(s) else SubLine(s[..i]) + ("\n" + CommentOut(s[i + 1..]))
  }

  /** No line of `s` is an active `HARDWARE_` define. */
  predicate Settled(s: string)
    decreases |s|
  {
    var i := LineEnd(s);
    MatchDefine(s[..i]).None? && (i == |s| || Settled(s[i + 1..]))
  }

  /** Splitting at a line break the functions see: first line `a`, the rest `x`. */
  lemma LineSplit(a: string, x: string)
    requires '\n' !in a
    ensures CommentOut(a + ("\n" + x)) == SubLine(a) + ("\n" + CommentOut(x))
    ensures Settled(a + ("\n" + x)) <==> MatchDefine(a).None? && Settled(x)
  {
    LineEndOf(a, x);
  }

  lemma ReplacementKeepsBreaks(m: DefineMatch)
    requires '\n' !in Assemble(m)
    ensures '\n' !in m.indent + ("// #define HARDWARE_" + (m.name + m.rest))
  {
    assert '\n' !in m.indent && '\n' !in DefineTail(m);
    assert '\n' !in HardwareTail(m);
    assert '\n' !in NameTail(m);
    assert '\n' !in "// #define HARDWARE_";
  }

  lemma SubLineKeepsBreaks(l: string)
    requires '\n' !in l
    ensures '\n' !in SubLine(l)
  {
    if MatchDefine(l).Some? {
      ReplacementKeepsBreaks(MatchDefine(l).value);
    }
  }

  /** A text without a line break is one line. */
  lemma OneLine(a: string)
    requires '\n' !in a
    ensures LineEnd(a) == |a|
    ensures CommentOut(a) == SubLine(a)
    ensures Settled(a) <==> MatchDefine(a).None?
  {
    assert a[..|a|] == a;
  }

  /** A text with a line break is its first line, the break, and the rest. */
  lemma LineParts(s: string)
    requires LineEnd(s) < |s|
    ensures s == s[..LineEnd(s)] + ("\n" + s[LineEnd(s) + 1..])
  {
    SplitAround(s, LineEnd(s));
  }

  /** The rename of a settled line cannot make it match. */
  lemma LineReplaceSettled(a: string)
    requires '\n' !in a && MatchDefine(a).None?
    ensures '\n' !in ReplaceGuard(a) && MatchDefine(ReplaceGuard(a)).None?
  {
    if MatchDefine(ReplaceGuard(a)).Some? {
      MatchAfterReplace(a);
    }
    ReplaceNoBreak(a);
  }

  lemma CommentOutStep(a: string, x: string)
    requires '\n' !in a && Settled(CommentOut(x))
    ensures Settled(CommentOut(a + ("\n" + x)))
  {
    SubLineSettled(a);
    SubLineKeepsBreaks(a);
    LineSplit(a, x);
    LineSplit(SubLine(a), CommentOut(x));
  }

  lemma CommentOutLine(a: string)
    requires '\n' !in a
    ensures Settled(CommentOut(a))
  {
    SubLineSettled(a);
    SubLineKeepsBreaks(a);
    OneLine(a);
    OneLine(SubLine(a));
  }

  /** Every line the comment-out produces is settled. */
  lemma {:induction false} CommentOutSettles(s: string)
    ensures Settled(CommentOut(s))
    decreases |s|
  {
    var i := LineEnd(s);
    if i == |s| {
      assert s[..i] == s;
      CommentOutLine(s);
    } else {
      var x := s[i + 1..];
      LineParts(s);
      CommentOutSettles(x);
      CommentOutStep(s[..i], x);
    }
  }

  /** Settled text is left as it is. */
  lemma {:induction false} SettledFixed(s: string)
    requires Settled(s)
    ensures CommentOut(s) == s
    decreases |s|
  {
    var i := LineEnd(s);
    var a := s[..i];
    if i == |s| {
      assert a == s;
      OneLine(s);
    } else {
      var x := s[i + 1..];
      LineParts(s);
      LineSplit(a, x);
      SettledFixed(x);
    }
  }

  lemma ReplaceStep(a: string, x: string)
    requires '\n' !in a && MatchDefine(a).None? && Settled(ReplaceGuard(x))
    ensures Settled(ReplaceGuard(a + ("\n" + x)))
  {
    LineReplaceSettled(a);
    ReplaceAcrossBreak(a, x);
    LineSplit(ReplaceGuard(a), ReplaceGuard(x));
  }

  /** The rename keeps a settled text settled: it cannot turn a line into a match. */
  lemma {:induction false} ReplaceKeepsSettled(s: string)
    requires Settled(s)
    ensures Settled(ReplaceGuard(s))
    decreases |s|
  {
    var i := LineEnd(s);
    if i == |s| {
      assert s[..i] == s;
      LineReplaceSettled(s);
      OneLine(ReplaceGuard(s));
    } else {
      var x := s[i + 1..];
      LineParts(s);
      LineSplit(s[..i], x);
      ReplaceKeepsSettled(x);
      ReplaceStep(s[..i], x);
    }
  }

  /** The content written back: defines commented out, then the guard renamed. */
  function Sanitize(content: string): (r: string)
  {
    ReplaceGuard(CommentOut(content))
  }

  /**
   * What the step promises: no line of the result is an active
   * `HARDWARE_` define, no old guard is left, and running the step again
   * on its own output changes nothing.
   */
  lemma SanitizeSpec(content: string)
    ensures Settled(Sanitize(content))
    ensures GuardFree(Sanitize(content))
    ensures Sanitize(Sanitize(content)) == Sanitize(content)
  {
    var c := CommentOut(content);
    CommentOutSettles(content);
    ReplaceKeepsSettled(c);
    ReplaceGuardClears(c);
    SettledFixed(Sanitize(content));
    ReplaceGuardIdempotent(c);
  }

  // ---- the script ----------------------------------------------------------------------

  /** The two copies made before sanitising: the user defines, then the global defines as the setup header. */
  function Copies(env: string): seq<(string, string)>
  {
    [("./include/_USER_DEFINES.h", TargetDir(env)), ("./include/GLOBAL_DEFINES.h", TargetFile(env))]
  }

  /** A failed copy ends the script; a failed read or write only prints a warning. */
  datatype SetupOutcome = CopyFailed | Warned | Sanitized(path: string, content: string)

  /**
   * The script with its I/O as parameters: whether both copies succeed, what
   * reading the copied header returns, and whether writing it back succeeds.
   */
  function Configure(env: string, copiesOk: bool, read: Option<string>, writeOk: bool): (o: SetupOutcome)
    ensures o.CopyFailed? <==> !copiesOk
    ensures o.Sanitized? <==> copiesOk && read.Some? && writeOk
    ensures o.Sanitized? ==> o.path == TargetFile(env) && o.content == Sanitize(read.value)
    ensures o.Sanitized? ==> Settled(o.content) && GuardFree(o.content)
  {
    if !copiesOk then CopyFailed
    else if read.None? || !writeOk then Warned
    else
      SanitizeSpec(read.value);
      Sanitized(TargetFile(env), Sanitize(read.value))
  }
}
