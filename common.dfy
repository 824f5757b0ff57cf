// Shared vocabulary: optional values, results, and the fixed-width integer
// arithmetic of the ESP32 firmware (uint8_t, uint32_t, C division).

module Wrappers {
  datatype Option<T> = None | Some(value: T)

  datatype Result<T, E> = Ok(value: T) | Err(error: E)
}

module FixedWidth {
  const BYTE: nat := 0x100
  const WORD32: nat := 0x1_0000_0000

  /** Truncation to uint8_t, as an assignment to a byte variable does. */
  function U8(x: int): (r: nat)
    ensures r < BYTE
    ensures (r - x) % BYTE == 0
  {
    x % BYTE
  }

  /** Truncation to uint32_t, as unsigned long arithmetic does on the ESP32. */
  function U32(x: int): (r: nat)
    ensures r < WORD32
    ensures (r - x) % WORD32 == 0
  {
    x % WORD32
  }

  /** `millis() - last` on unsigned long: the elapsed time modulo 2^32. */
  function Elapsed(now: nat, last: nat): (r: nat)
    requires now < WORD32 && last < WORD32
    ensures r < WORD32
    ensures last <= now ==> r == now - last
    ensures now < last ==> r == now + WORD32 - last
  {
    U32(now - last)
  }

  function Abs(x: int): nat
  {
    if x < 0 then -x else x
  }

  /** C integer division by a positive divisor, which truncates toward zero. */
  function CDiv(a: int, b: int): (q: int)
    requires b > 0
    ensures Abs(q) == Abs(a) / b
    ensures a >= 0 ==> q >= 0
    ensures a <= 0 ==> q <= 0
  {
    if a >= 0 then a / b else -((-a) / b)
  }

  /** C remainder by a positive divisor: it has the sign of the dividend. */
  function CMod(a: int, b: int): (m: int)
    requires b > 0
    ensures Abs(m) == Abs(a) % b
    ensures a >= 0 ==> m >= 0
    ensures a <= 0 ==> m <= 0
  {
    if a >= 0 then a % b else -((-a) % b)
  }
}

/**
 * Facts about sequences of any element type. Stated once here, they spare
 * the proofs over long element types (rows of bytes, lists of records) an
 * extensional comparison of their own.
 */
module Seqs {
  lemma HeadTail<T>(s: seq<T>)
    requires s != []
    ensures s == [s[0]] + s[1..]
  {
  }

  lemma InitLast<T>(s: seq<T>)
    requires s != []
    ensures s == s[..|s| - 1] + [s[|s| - 1]]
  {
  }

  lemma TakeAll<T>(s: seq<T>)
    ensures s[..|s|] == s
  {
  }

  lemma TakeSnoc<T>(s: seq<T>, i: nat)
    requires i < |s|
    ensures s[..i + 1] == s[..i] + [s[i]]
    ensures s[..i + 1][..i] == s[..i]
  {
  }

  lemma AppendAssoc<T>(a: seq<T>, b: seq<T>, c: seq<T>)
    ensures a + (b + c) == (a + b) + c
  {
  }

  lemma TakeOfAppend<T>(a: seq<T>, b: seq<T>, n: nat)
    requires n <= |a|
    ensures (a + b)[..n] == a[..n]
  {
  }

  /** Dropping the last element of a concatenation drops it from the second part. */
  lemma AppendInit<T>(a: seq<T>, b: seq<T>)
    requires b != []
    ensures (a + b)[..|a + b| - 1] == a + b[..|b| - 1]
    ensures (a + b)[|a + b| - 1] == b[|b| - 1]
  {
  }

  lemma AppendEmpty<T>(a: seq<T>)
    ensures a + [] == a
  {
  }

  /** Slicing a suffix again is slicing the whole sequence. */
  lemma SliceOfSuffix<T>(s: seq<T>, i: nat, n: nat)
    requires i + n <= |s|
    ensures s[i..][..n] == s[i..i + n]
    ensures s[i..][n..] == s[i + n..]
  {
  }

  /** An element of the second part of a prefix of `s`, read from `s` itself. */
  lemma PrefixAt<T>(s: seq<T>, front: seq<T>, row: seq<T>, j: nat)
    requires |front + row| <= |s| && s[..|front + row|] == front + row && j < |row|
    ensures |front| + j < |s| && s[|front| + j] == row[j]
  {
    assert s[|front| + j] == s[..|front + row|][|front| + j];
  }
}
