// Character and string helpers shared by the build scripts and the firmware
// model: ASCII digits, decimal and hexadecimal rendering, and the parts of
// Python's str and int semantics that the build scripts rely on.

module Ascii {
  predicate IsDigit(c: char) { '0' <= c <= '9' }

  predicate IsUpper(c: char) { 'A' <= c <= 'Z' }

  predicate IsLower(c: char) { 'a' <= c <= 'z' }

  /** ASCII case folding, the behaviour of C `tolower` and of Python `str.lower` on ASCII text. */
  function ToLower(c: char): (r: char)
    ensures IsUpper(c) ==> IsLower(r) && r as int == c as int + 32
    ensures !IsUpper(c) ==> r == c
  {
    if IsUpper(c) then (c as int + 32) as char else c
  }

  function Lower(s: string): (r: string)
    ensures |r| == |s|
    ensures forall i :: 0 <= i < |s| ==> r[i] == ToLower(s[i])
  {
    seq(|s|, i requires 0 <= i < |s| => ToLower(s[i]))
  }

  lemma LowerIdempotent(s: string)
    ensures Lower(Lower(s)) == Lower(s)
  {
  }

  predicate StartsWith(s: string, p: string) { |p| <= |s| && s[..|p|] == p }

  predicate EndsWith(s: string, p: string) { |p| <= |s| && s[|s| - |p|..] == p }

  /** The index of the first `c` in `s`, or |s| when there is none. */
  function FirstIndexOf(s: string, c: char): (k: nat)
    ensures k <= |s|
    ensures forall j :: 0 <= j < k ==> s[j] != c
    ensures k < |s| ==> s[k] == c
  {
    if s == [] then 0 else if s[0] == c then 0 else 1 + FirstIndexOf(s[1..], c)
  }

  /** The characters are what pins the first occurrence down. */
  lemma {:induction false} FirstIndexAt(s: string, c: char, k: nat)
    requires k <= |s| && (forall j :: 0 <= j < k ==> s[j] != c) && (k < |s| ==> s[k] == c)
    ensures FirstIndexOf(s, c) == k
  {
    if s != [] && s[0] != c {
      FirstIndexAt(s[1..], c, k - 1);
    }
  }

  /** The length of a C string held in `s`: the index of the first NUL, or |s| when there is none. */
  function FirstNul(s: string): (k: nat)
    ensures k <= |s|
    ensures forall j :: 0 <= j < k ==> s[j] != '\0'
    ensures k < |s| ==> s[k] == '\0'
  {
    FirstIndexOf(s, '\0')
  }

  lemma FirstNulAt(s: string, k: nat)
    requires k <= |s| && (forall j :: 0 <= j < k ==> s[j] != '\0') && (k < |s| ==> s[k] == '\0')
    ensures FirstNul(s) == k
  {
    FirstIndexAt(s, '\0', k);
  }

  /** The C string a character buffer holds. */
  function CString(s: string): (r: string)
    ensures r <= s && '\0' !in r
    ensures |r| < |s| ==> s[|r|] == '\0'
  {
    s[..FirstNul(s)]
  }

  /** The character of a digit value 0..15, lower-case for 10..15. */
  function HexChar(d: nat): (c: char)
    requires d < 16
  {
    if d < 10 then ('0' as int + d) as char else ('a' as int + d - 10) as char
  }

  function UpperHexChar(d: nat): (c: char)
    requires d < 16
  {
    if d < 10 then ('0' as int + d) as char else ('A' as int + d - 10) as char
  }

  /** The value of a digit character in any base up to 36; 36 for a non-digit. */
  function DigitValue(c: char): (d: nat)
    ensures d <= 36
  {
    if IsDigit(c) then c as int - '0' as int
    else if IsLower(c) then c as int - 'a' as int + 10
    else if IsUpper(c) then c as int - 'A' as int + 10
    else 36
  }

  lemma HexCharValue(d: nat)
    requires d < 16
    ensures DigitValue(HexChar(d)) == d && DigitValue(UpperHexChar(d)) == d
    ensures HexChar(d) != '_' && !IsUpper(HexChar(d))
  {
  }

  /** Decimal digits of n, most significant first, without leading zeros. */
  function Decimal(n: nat): (s: string)
    ensures |s| > 0 && forall i :: 0 <= i < |s| ==> IsDigit(s[i])
    ensures n > 0 ==> s[0] != '0'
    ensures n == 0 ==> s == "0"
  {
    if n < 10 then [('0' as int + n) as char] else Decimal(n / 10) + [('0' as int + n % 10) as char]
  }

  /** The value of a string of decimal digits. */
  function DecimalValue(s: string): nat
  {
    if s == [] then 0 else DecimalValue(s[..|s| - 1]) * 10 + DigitValue(s[|s| - 1]) % 10
  }

  lemma {:induction false} DecimalRoundTrip(n: nat)
    ensures DecimalValue(Decimal(n)) == n
  {
    if n >= 10 {
      DecimalRoundTrip(n / 10);
      var s := Decimal(n);
      assert s[..|s| - 1] == Decimal(n / 10);
    }
  }

  /** printf "%02d" of a value below 100. */
  function TwoDigits(n: nat): (s: string)
    requires n < 100
    ensures |s| == 2 && IsDigit(s[0]) && IsDigit(s[1])
    ensures DigitValue(s[0]) == n / 10 && DigitValue(s[1]) == n % 10
  {
    [('0' as int + n / 10) as char, ('0' as int + n % 10) as char]
  }

  /** A digit of `%X`: a decimal digit or one of 'A'..'F'. */
  predicate IsUpperHexDigit(c: char)
  {
    IsDigit(c) || 'A' <= c <= 'F'
  }

  /** `p` is a byte written as `%02X`: high nibble, then low nibble, upper case. */
  predicate UpperHexOf(p: string, b: nat)
  {
    |p| == 2 && IsUpperHexDigit(p[0]) && IsUpperHexDigit(p[1])
    && DigitValue(p[0]) == b / 16 && DigitValue(p[1]) == b % 16
  }

  /** printf "%02X" of a byte. */
  function Hex2Upper(b: nat): (s: string)
    requires b < 256
    ensures UpperHexOf(s, b)
  {
    HexCharValue(b / 16);
    HexCharValue(b % 16);
    [UpperHexChar(b / 16), UpperHexChar(b % 16)]
  }

  /** Two upper-case hex digits name one byte, and a byte has one such text. */
  lemma UpperHexUnique(p: string, q: string, b: nat, c: nat)
    requires b < 256 && c < 256 && UpperHexOf(p, b) && UpperHexOf(q, c)
    ensures p == q <==> b == c
  {
    if b == c {
      assert p[0] == q[0] && p[1] == q[1];
    } else {
      assert b / 16 != c / 16 || b % 16 != c % 16;
    }
  }
}

module PyText {
  import opened Wrappers
  import opened Ascii
  import opened Seqs

  /** Python `str.isspace()`: the characters `strip()` and `split()` treat as whitespace. */
  predicate IsSpace(c: char)
  {
    c == ' ' || ('\t' <= c <= '\r') || ('\U{1c}' <= c <= '\U{1f}') || c == '\U{85}' || c == '\U{a0}'
    || c == '\U{1680}' || ('\U{2000}' <= c <= '\U{200a}') || c == '\U{2028}' || c == '\U{2029}'
    || c == '\U{202f}' || c == '\U{205f}' || c == '\U{3000}'
  }

  predicate NoSpace(s: string) { forall i :: 0 <= i < |s| ==> !IsSpace(s[i]) }

  predicate AllSpace(s: string) { forall i :: 0 <= i < |s| ==> IsSpace(s[i]) }

  function TrimLeft(s: string): (r: string)
    ensures |r| <= |s| && r == s[|s| - |r|..]
    ensures r == [] || !IsSpace(r[0])
    ensures forall i :: 0 <= i < |s| - |r| ==> IsSpace(s[i])
  {
    if s != [] && IsSpace(s[0]) then
      var r := TrimLeft(s[1..]);
      assert forall i :: 0 < i < |s| ==> s[i] == s[1..][i - 1];
      assert s[1..][|s| - 1 - |r|..] == s[|s| - |r|..];
      r
    else s
  }

  function TrimRight(s: string): (r: string)
    ensures |r| <= |s| && r == s[..|r|]
    ensures r == [] || !IsSpace(r[|r| - 1])
    ensures forall i :: |r| <= i < |s| ==> IsSpace(s[i])
  {
    if s != [] && IsSpace(s[|s| - 1]) then TrimRight(s[..|s| - 1]) else s
  }

  /** `r` is the slice of `s` at `i`, with only whitespace before and after it. */
  predicate SpaceAround(s: string, i: nat, r: string)
  {
    i + |r| <= |s| && r == s[i..i + |r|] && AllSpace(s[..i]) && AllSpace(s[i + |r|..])
  }

  /** A whitespace head cut off, then a whitespace tail: what is left sits between whitespace. */
  lemma TrimmedAround(s: string, t: string, r: string)
    requires |t| <= |s| && t == s[|s| - |t|..] && forall k :: 0 <= k < |s| - |t| ==> IsSpace(s[k])
    requires |r| <= |t| && r == t[..|r|] && forall k :: |r| <= k < |t| ==> IsSpace(t[k])
    ensures SpaceAround(s, |s| - |t|, r)
  {
    var i := |s| - |t|;
    SliceOfSuffix(s, i, |r|);
    forall k | 0 <= k < |t| - |r| ensures IsSpace(t[|r|..][k]) {
      assert t[|r|..][k] == t[|r| + k];
    }
  }

  /**
   * Python `str.strip()` with no argument: the text between a whitespace
   * head and a whitespace tail, beginning and ending with non-whitespace.
   */
  function Strip(s: string): (r: string)
    ensures exists i: nat :: SpaceAround(s, i, r)
    ensures r == [] || (!IsSpace(r[0]) && !IsSpace(r[|r| - 1]))
    ensures NoSpace(s) ==> r == s
  {
    var t := TrimLeft(s);
    var r := TrimRight(t);
    TrimmedAround(s, t, r);
    r
  }

  lemma StripIdempotent(s: string)
    ensures Strip(Strip(s)) == Strip(s)
  {
  }

  predicate IsLowerText(s: string) { forall i :: 0 <= i < |s| ==> ToLower(s[i]) == s[i] }

  lemma LowerTextSlice(s: string, i: nat, j: nat)
    requires IsLowerText(s) && i <= j <= |s|
    ensures IsLowerText(s[i..j])
  {
    assert forall k :: 0 <= k < j - i ==> s[i..j][k] == s[i + k];
  }

  lemma LowerTextFixed(s: string)
    requires IsLowerText(s)
    ensures Lower(s) == s
  {
  }

  /** Stripped lower-cased text is fixed by both operations again. */
  lemma StripLowerFixed(s: string)
    ensures IsLowerText(Strip(Lower(s)))
    ensures Lower(Strip(Lower(s))) == Strip(Lower(s))
    ensures Strip(Strip(Lower(s))) == Strip(Lower(s))
  {
    var l := Lower(s);
    assert IsLowerText(l);
    var t := TrimLeft(l);
    LowerTextSlice(l, |l| - |t|, |l|);
    var r := TrimRight(t);
    LowerTextSlice(t, 0, |r|);
    LowerTextFixed(r);
    StripIdempotent(l);
  }

  /** Length of the leading run of non-whitespace characters. */
  function TokenLen(s: string): (k: nat)
    ensures k <= |s|
    ensures forall i :: 0 <= i < k ==> !IsSpace(s[i])
    ensures k == |s| || IsSpace(s[k])
  {
    if s == [] || IsSpace(s[0]) then 0 else 1 + TokenLen(s[1..])
  }

  /** Words as `split()` returns them: non-empty and free of whitespace. */
  predicate WordList(ws: seq<string>) { forall j :: 0 <= j < |ws| ==> ws[j] != [] && NoSpace(ws[j]) }

  lemma WordListCons(w: string, ws: seq<string>)
    requires w != [] && NoSpace(w) && WordList(ws)
    ensures WordList([w] + ws)
  {
    var all := [w] + ws;
    forall j | 0 <= j < |all| ensures all[j] != [] && NoSpace(all[j]) {
      if j > 0 {
        assert all[j] == ws[j - 1];
      }
    }
  }

  /** Python `str.split()` with no argument: the maximal runs of non-whitespace. */
  function Words(s: string): (ws: seq<string>)
    ensures WordList(ws)
    decreases |s|
  {
    var t := TrimLeft(s);
    if t == [] then []
    else
      var k := TokenLen(t);
      var w := t[..k];
      assert NoSpace(w) by {
        forall i | 0 <= i < |w| ensures !IsSpace(w[i]) {
          assert w[i] == t[i];
        }
      }
      WordListCons(w, Words(t[k..]));
      [w] + Words(t[k..])
  }

  /** `" ".join(ws)` */
  function JoinSpace(ws: seq<string>): string
  {
    if ws == [] then "" else if |ws| == 1 then ws[0] else ws[0] + " " + JoinSpace(ws[1..])
  }

  lemma {:induction false} WordsOfWord(w: string)
    requires w != [] && NoSpace(w)
    ensures Words(w) == [w]
  {
    assert TrimLeft(w) == w;
    assert TokenLen(w) == |w| by { TokenLenAll(w); }
    assert w[..|w|] == w;
    assert w[|w|..] == [];
    assert Words([]) == [];
  }

  lemma {:induction false} TokenLenAll(w: string)
    requires NoSpace(w)
    ensures TokenLen(w) == |w|
    decreases |w|
  {
    if w != [] {
      TokenLenAll(w[1..]);
    }
  }

  /** A word followed by whitespace (or nothing) is the first word. */
  lemma WordsCons(w: string, tail: string)
    requires w != [] && NoSpace(w) && tail != [] && IsSpace(tail[0])
    ensures Words(w + tail) == [w] + Words(tail)
  {
    var s := w + tail;
    assert TrimLeft(s) == s;
    TokenLenPrefix(w, tail);
    assert s[..|w|] == w;
    assert s[|w|..] == tail;
  }

  lemma JoinCons(ws: seq<string>)
    requires |ws| > 1
    ensures JoinSpace(ws) == ws[0] + (" " + JoinSpace(ws[1..]))
  {
  }

  lemma WordsStep(w: string, rest: string)
    requires w != [] && NoSpace(w)
    ensures Words(w + (" " + rest)) == [w] + Words(rest)
  {
    assert IsSpace((" " + rest)[0]);
    WordsCons(w, " " + rest);
    WordsSkipsSpace(rest);
  }

  /** Splitting a space-joined list of words gives the words back. */
  lemma {:induction false} WordsOfJoin(ws: seq<string>)
    requires WordList(ws)
    ensures Words(JoinSpace(ws)) == ws
    decreases |ws|
  {
    if ws == [] {
    } else if |ws| == 1 {
      WordsOfWord(ws[0]);
    } else {
      HeadTail(ws);
      JoinCons(ws);
      WordsOfJoin(ws[1..]);
      WordsStep(ws[0], JoinSpace(ws[1..]));
    }
  }

  lemma ConsWord(a: string, b: string, w: seq<string>)
    requires w == [b]
    ensures [a] + w == [a, b]
  {
  }

  /** Two words joined by one space split back into the two words. */
  lemma WordsOfPair(a: string, b: string)
    requires a != [] && NoSpace(a) && b != [] && NoSpace(b)
    ensures Words(a + (" " + b)) == [a, b]
  {
    var w := Words(b);
    WordsOfWord(b);
    ConsWord(a, b, w);
    WordsStep(a, b);
  }

  lemma {:induction false} TokenLenPrefix(w: string, tail: string)
    requires NoSpace(w) && tail != [] && IsSpace(tail[0])
    ensures TokenLen(w + tail) == |w|
    decreases |w|
  {
    if w != [] {
      assert (w + tail)[1..] == w[1..] + tail;
      TokenLenPrefix(w[1..], tail);
    } else {
      assert w + tail == tail;
    }
  }

  lemma WordsSkipsSpace(rest: string)
    ensures Words(" " + rest) == Words(rest)
  {
    var s := " " + rest;
    assert s[1..] == rest;
    assert IsSpace(s[0]);
    assert TrimLeft(s) == TrimLeft(rest);
    var t := TrimLeft(rest);
    if t != [] {
      assert Words(s) == [t[..TokenLen(t)]] + Words(t[TokenLen(t)..]);
    }
  }

  // ---- Python int(text, base) -------------------------------------------------

  predicate IsDigitIn(c: char, base: nat) { DigitValue(c) < base }

  /** The digits of a literal with underscores removed. */
  function DropUnderscores(s: string): (r: string)
    ensures |r| <= |s|
  {
    if s == [] then [] else (if s[0] == '_' then [] else [s[0]]) + DropUnderscores(s[1..])
  }

  /** The value of a digit string in the given base (most significant digit first). */
  function DigitsValue(ds: string, base: nat): nat
  {
    if ds == [] then 0 else DigitsValue(ds[..|ds| - 1], base) * base + DigitValue(ds[|ds| - 1])
  }

  /**
   * Python's digit-part grammar: digits of the base with single underscores
   * allowed between two digits.
   */
  predicate DigitPart(b: string, base: nat)
  {
    && |b| > 0 && b[0] != '_' && b[|b| - 1] != '_'
    && (forall i :: 0 <= i < |b| ==> b[i] == '_' || IsDigitIn(b[i], base))
    && (forall i :: 0 <= i < |b| - 1 ==> b[i] != '_' || b[i + 1] != '_')
  }

  /** A digit part after a base prefix, where one leading underscore is allowed ("0x_ff"). */
  function PrefixedDigits(s: string, base: nat): Option<nat>
  {
    var b := if |s| > 0 && s[0] == '_' then s[1..] else s;
    if DigitPart(b, base) then Some(DigitsValue(DropUnderscores(b), base)) else None
  }

  /** A decimal literal: "0", "00", "0_0" are zero; any other leading zero is refused. */
  function DecimalLiteral(s: string): Option<nat>
  {
    if DigitPart(s, 10) && (s[0] != '0' || forall i :: 0 <= i < |s| ==> s[i] == '0' || s[i] == '_')
    then Some(DigitsValue(DropUnderscores(s), 10))
    else None
  }

  /**
   * Python `int(v, 0)` on text that is already stripped: an optional sign,
   * then a 0x/0o/0b prefixed literal or a decimal literal. None stands for the
   * ValueError Python raises.
   */
  function IntBase0(v: string): Option<int>
  {
    var neg := |v| > 0 && v[0] == '-';
    var body := if |v| > 0 && (v[0] == '-' || v[0] == '+') then v[1..] else v;
    var mag :=
      if StartsWith(body, "0x") || StartsWith(body, "0X") then PrefixedDigits(body[2..], 16)
      else if StartsWith(body, "0o") || StartsWith(body, "0O") then PrefixedDigits(body[2..], 8)
      else if StartsWith(body, "0b") || StartsWith(body, "0B") then PrefixedDigits(body[2..], 2)
      else DecimalLiteral(body);
    match mag
    case None => None
    case Some(m) =>
      var r: int := if neg then -(m as int) else m as int;
      Some(r)
  }

  /** Python `int(x, 16)` for text that starts with "0x" (the prefix is allowed in base 16). */
  function IntBase16Prefixed(x: string): Option<nat>
    requires StartsWith(x, "0x")
  {
    PrefixedDigits(x[2..], 16)
  }

  /** Hexadecimal digits of n, lower-case, most significant first, without leading zeros. */
  function HexDigits(n: nat): (s: string)
    ensures |s| > 0
  {
    if n < 16 then [HexChar(n)] else HexDigits(n / 16) + [HexChar(n % 16)]
  }

  /** Python `hex(n)`. */
  function PyHex(n: int): string
  {
    if n < 0 then "-0x" + HexDigits(-n) else "0x" + HexDigits(n)
  }

  /** Text made only of lower-case hexadecimal digits. */
  predicate HexText(s: string)
  {
    forall i :: 0 <= i < |s| ==> IsDigitIn(s[i], 16) && s[i] != '_' && !IsUpper(s[i]) && !IsSpace(s[i])
  }

  lemma {:induction false} HexDigitsText(n: nat)
    ensures HexText(HexDigits(n))
  {
    HexCharValue(n % 16);
    if n >= 16 {
      HexDigitsText(n / 16);
    }
  }

  lemma {:induction false} NoUnderscoreDrop(s: string)
    requires forall i :: 0 <= i < |s| ==> s[i] != '_'
    ensures DropUnderscores(s) == s
    decreases |s|
  {
    if s != [] {
      NoUnderscoreDrop(s[1..]);
    }
  }

  lemma {:induction false} HexDigitsValue(n: nat)
    ensures DigitsValue(HexDigits(n), 16) == n
  {
    HexCharValue(n % 16);
    if n >= 16 {
      HexDigitsValue(n / 16);
      var s := HexDigits(n);
      assert s[..|s| - 1] == HexDigits(n / 16);
    }
  }

  lemma HexDigitsWellFormed(n: nat)
    ensures DigitPart(HexDigits(n), 16)
    ensures DropUnderscores(HexDigits(n)) == HexDigits(n)
    ensures DigitsValue(HexDigits(n), 16) == n
    ensures NoSpace(HexDigits(n)) && Lower(HexDigits(n)) == HexDigits(n)
  {
    HexDigitsText(n);
    NoUnderscoreDrop(HexDigits(n));
    HexDigitsValue(n);
  }

  lemma {:induction false} DropUnderscoresAppend(a: string, b: string)
    ensures DropUnderscores(a + b) == DropUnderscores(a) + DropUnderscores(b)
    decreases |a|
  {
    if a == [] {
      assert a + b == b;
    } else {
      assert (a + b)[1..] == a[1..] + b;
      DropUnderscoresAppend(a[1..], b);
    }
  }

  lemma PositiveHexLiteral(h: string, m: nat)
    requires PrefixedDigits(h, 16) == Some(m)
    ensures IntBase0("0x" + h) == Some(m)
  {
    var body := "0x" + h;
    assert body[2..] == h;
    assert StartsWith(body, "0x");
    assert body[0] == '0';
  }

  lemma NegativeHexLiteral(h: string, m: nat)
    requires PrefixedDigits(h, 16) == Some(m)
    ensures IntBase0("-0x" + h) == Some(-(m as int))
  {
    var body, v := "0x" + h, "-0x" + h;
    assert v[0] == '-' && v[1..] == body;
    assert StartsWith(body, "0x") && body[2..] == h;
  }

  /** `int(hex(n), 0) == n`: Python's hex rendering parses back to the same integer. */
  lemma PyHexParses(n: int)
    ensures IntBase0(PyHex(n)) == Some(n)
  {
    var m: nat := if n < 0 then -n else n;
    HexDigitsWellFormed(m);
    if n < 0 {
      NegativeHexLiteral(HexDigits(m), m);
    } else {
      PositiveHexLiteral(HexDigits(m), m);
    }
  }

  /** `int(str(n), 0) == n` for the decimal rendering of a natural number. */
  lemma {:induction false} DecimalParses(n: nat)
    ensures IntBase0(Decimal(n)) == Some(n)
  {
    var s := Decimal(n);
    assert DecimalLiteral(s) == Some(n) by {
      DecimalNoUnderscore(n);
      DecimalDigitsValue(s);
      DecimalRoundTrip(n);
    }
    assert !StartsWith(s, "0x") && !StartsWith(s, "0X") && !StartsWith(s, "0o")
        && !StartsWith(s, "0O") && !StartsWith(s, "0b") && !StartsWith(s, "0B") by {
      assert |s| < 2 || IsDigit(s[1]);
    }
    assert s[0] != '-' && s[0] != '+';
  }

  lemma {:induction false} DecimalNoUnderscore(n: nat)
    ensures DropUnderscores(Decimal(n)) == Decimal(n)
  {
    if n >= 10 {
      DecimalNoUnderscore(n / 10);
      DropUnderscoresAppend(Decimal(n / 10), [('0' as int + n % 10) as char]);
    }
  }

  lemma {:induction false} DecimalDigitsValue(s: string)
    requires forall i :: 0 <= i < |s| ==> IsDigit(s[i])
    ensures DigitsValue(s, 10) == DecimalValue(s)
    decreases |s|
  {
    if s != [] {
      DecimalDigitsValue(s[..|s| - 1]);
    }
  }

  // ---- os.path (POSIX) ----------------------------------------------------------

  predicate IsAbs(p: string) { |p| > 0 && p[0] == '/' }

  /** POSIX os.path.join of two components. */
  function PathJoin(a: string, b: string): (r: string)
    ensures !IsAbs(b) && a != [] && a[|a| - 1] != '/' ==> r == a + "/" + b
    ensures EndsWith(r, b)
  {
    if IsAbs(b) then b else if a == [] || a[|a| - 1] == '/' then a + b else a + "/" + b
  }
}
