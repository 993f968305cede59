// Byte-level helpers shared by the models: bytes, little-endian integers,
// NUL-terminated C strings held in fixed buffers, and the decimal text of
// C `long` values as printed by "%ld" and read back by strtol(…, 10).

module Bytes {

  type byte = b: int | 0 <= b < 0x100

  /** Python's Result-with-exception, C's "-1 or NULL": a value or an error. */
  datatype Result<+T, +E> = Success(value: T) | Failure(error: E) {
    predicate IsFailure() { Failure? }
    function PropagateFailure<U>(): Result<U, E> requires Failure? { Failure(error) }
    function Extract(): T requires Success? { value }
  }

  datatype Option<+T> = None | Some(value: T)

  function Min(a: int, b: int): int { if a <= b then a else b }

  // ---------------------------------------------------------------------
  // Little-endian integers (struct.pack '<H' / '<I', and the C code's
  // `buf[0] | (buf[1] << 8)`).

  function Pow256(n: nat): (r: nat)
    ensures r >= 1
  {
    if n == 0 then 1 else 256 * Pow256(n - 1)
  }

  /** The n little-endian bytes of x. */
  function Le(x: nat, n: nat): (r: seq<byte>)
    requires x < Pow256(n)
    ensures |r| == n
  {
    if n == 0 then [] else [x % 256] + Le(x / 256, n - 1)
  }

  /** The unsigned value of little-endian bytes. */
  function FromLe(s: seq<byte>): (r: nat)
    ensures r < Pow256(|s|)
  {
    if s == [] then 0 else s[0] + 256 * FromLe(s[1..])
  }

  lemma {:induction false} LeRoundTrip(x: nat, n: nat)
    requires x < Pow256(n)
    ensures FromLe(Le(x, n)) == x
  {
    if n > 0 {
      LeRoundTrip(x / 256, n - 1);
      assert Le(x, n)[1..] == Le(x / 256, n - 1);
    }
  }

  lemma {:induction false} FromLeRoundTrip(s: seq<byte>)
    ensures Le(FromLe(s), |s|) == s
  {
    if s != [] {
      FromLeRoundTrip(s[1..]);
      assert FromLe(s) / 256 == FromLe(s[1..]);
    }
  }

  // ---------------------------------------------------------------------
  // C strings in fixed buffers.

  /** What strlen/strcmp see in a buffer: the bytes before the first NUL
      (the whole buffer if it holds none). */
  function CStr(v: seq<byte>): (r: seq<byte>)
    ensures |r| <= |v| && r == v[..|r|]
    ensures 0 !in r
    ensures |r| < |v| ==> v[|r|] == 0
  {
    if v == [] || v[0] == 0 then [] else [v[0]] + CStr(v[1..])
  }

  lemma {:induction false} CStrOfTerminated(s: seq<byte>, rest: seq<byte>)
    requires 0 !in s
    ensures CStr(s + [0] + rest) == s
  {
    if s != [] {
      assert (s + [0] + rest)[1..] == s[1..] + [0] + rest;
      CStrOfTerminated(s[1..], rest);
    }
  }

  /** A C string that starts with NUL-free bytes x keeps them. */
  lemma {:induction false} CStrAfter(x: seq<byte>, y: seq<byte>)
    requires 0 !in x
    ensures CStr(x + y) == x + CStr(y)
  {
    if x != [] {
      assert x[0] in x && (x + y)[0] == x[0];
      assert (x + y)[1..] == x[1..] + y;
      CStrAfter(x[1..], y);
      assert x + CStr(y) == [x[0]] + (x[1..] + CStr(y));
    } else {
      assert x + y == y && x + CStr(y) == CStr(y);
    }
  }

  /** strcpy(slot, s), or s written byte by byte over the front of the slot
      and then terminated: s and a NUL, the bytes after the terminator keep
      their old contents. When s holds no NUL it reads back as a C string. */
  function StrCpy(slot: seq<byte>, s: seq<byte>): (r: seq<byte>)
    requires |s| < |slot|
    ensures |r| == |slot| && r[..|s|] == s && r[|s|] == 0
    ensures r[|s| + 1..] == slot[|s| + 1..]
    ensures 0 !in s ==> CStr(r) == s
  {
    assert 0 !in s ==> CStr(s + [0] + slot[|s| + 1..]) == s by {
      if 0 !in s {
        CStrOfTerminated(s, slot[|s| + 1..]);
      }
    }
    s + [0] + slot[|s| + 1..]
  }

  // ---------------------------------------------------------------------
  // Decimal text of integers.

  const LONG_MIN: int := -0x8000_0000_0000_0000
  const LONG_MAX: int := 0x7fff_ffff_ffff_ffff

  predicate IsDigit(b: byte) { '0' as int <= b <= '9' as int }

  /** isspace() in the C locale. */
  predicate IsSpace(b: byte) { b == ' ' as int || 9 <= b <= 13 }

  /** "%lu" of a non-negative number. */
  function FormatNat(n: nat): (r: seq<byte>)
    ensures 1 <= |r|
  {
    if n < 10 then [('0' as int + n) as byte]
    else FormatNat(n / 10) + [('0' as int + n % 10) as byte]
  }

  lemma {:induction false} FormatNatDigits(n: nat)
    ensures forall k :: 0 <= k < |FormatNat(n)| ==> IsDigit(FormatNat(n)[k])
  {
    if n >= 10 {
      FormatNatDigits(n / 10);
    }
  }

  /** "%ld": an optional '-' and the digits of the magnitude. */
  function FormatLong(x: int): (r: seq<byte>)
    ensures 1 <= |r|
  {
    if x < 0 then ['-' as int as byte] + FormatNat(-x) else FormatNat(x)
  }

  /** The value of a string of decimal digits, most significant first. */
  function DecValue(s: seq<byte>): int
  {
    if s == [] then 0 else 10 * DecValue(s[..|s| - 1]) + (s[|s| - 1] - '0' as int)
  }

  lemma {:induction false} DecValueOfFormat(n: nat)
    ensures DecValue(FormatNat(n)) == n
  {
    if n >= 10 {
      var f := FormatNat(n / 10) + [('0' as int + n % 10) as byte];
      assert f[..|f| - 1] == FormatNat(n / 10);
      DecValueOfFormat(n / 10);
    }
  }

  /** Where the run of white space that starts at s[i] ends. */
  function SpaceEnd(s: seq<byte>, i: nat): (j: nat)
    requires i <= |s|
    ensures i <= j <= |s|
    decreases |s| - i
  {
    if i < |s| && IsSpace(s[i]) then SpaceEnd(s, i + 1) else i
  }

  /** Where the run of decimal digits that starts at s[i] ends. */
  function DigitEnd(s: seq<byte>, i: nat): (j: nat)
    requires i <= |s|
    ensures i <= j <= |s|
    decreases |s| - i
  {
    if i < |s| && IsDigit(s[i]) then DigitEnd(s, i + 1) else i
  }

  /** The value of the digits s[i..j], most significant first. */
  function DigitsValue(s: seq<byte>, i: nat, j: nat): int
    requires i <= j <= |s|
    decreases j - i
  {
    if j == i then 0 else 10 * DigitsValue(s, i, j - 1) + (s[j - 1] - '0' as int)
  }

  /** What strtol returns and where it leaves its end pointer. */
  datatype LongParse = LongParse(value: int, end: nat)

  /** What strtol(s + i, &end, 10) does on the C string s (its terminator
      is the end of s): skip white space, take an optional sign, then the
      digits. The value is exact (the caller checks the range); the end is
      an index into s, and stays at i when no digit follows the white space
      and the sign. */
  function Strtol(s: seq<byte>, i: nat): (r: LongParse)
    requires i <= |s|
    ensures i <= r.end <= |s|
    ensures r.end == i ==> r.value == 0
  {
    var w := SpaceEnd(s, i);
    var sign := if w < |s| && (s[w] == '-' as int || s[w] == '+' as int) then 1 else 0;
    var e := DigitEnd(s, w + sign);
    if e == w + sign then LongParse(0, i)
    else
      var mag := DigitsValue(s, w + sign, e);
      LongParse(if sign == 1 && s[w] == '-' as int then -mag else mag, e)
  }

  lemma {:induction false} DigitEndOfDigits(s: seq<byte>, i: nat, j: nat)
    requires i <= j <= |s|
    requires forall k :: i <= k < j ==> IsDigit(s[k])
    requires j == |s| || !IsDigit(s[j])
    ensures DigitEnd(s, i) == j
    decreases j - i
  {
    if i < j {
      DigitEndOfDigits(s, i + 1, j);
    }
  }

  lemma {:induction false} DigitsValueOfSlice(s: seq<byte>, i: nat, j: nat)
    requires i <= j <= |s|
    ensures DigitsValue(s, i, j) == DecValue(s[i..j])
    decreases j - i
  {
    if i < j {
      DigitsValueOfSlice(s, i, j - 1);
      assert s[i..j][..j - i - 1] == s[i..j - 1];
    }
  }

  /** strtol at i on n digits that start at j, after a '-' when j is i + 1:
      their value, negated after the '-', and everything up to the last
      digit consumed. */
  lemma StrtolOfDigits(s: seq<byte>, i: nat, j: nat, n: nat)
    requires i <= j <= i + 1 && 1 <= n && j + n <= |s|
    requires j == i + 1 ==> s[i] == '-' as int
    requires forall k :: j <= k < j + n ==> IsDigit(s[k])
    requires j + n == |s| || !IsDigit(s[j + n])
    ensures Strtol(s, i) == LongParse(if j == i + 1 then -DecValue(s[j..j + n]) else DecValue(s[j..j + n]), j + n)
  {
    assert IsDigit(s[j]);
    assert !IsSpace(s[i]);
    assert SpaceEnd(s, i) == i;
    DigitEndOfDigits(s, j, j + n);
    DigitsValueOfSlice(s, j, j + n);
  }

  /** strtol reads back what "%ld" printed at s[i..], and stops right
      after it when a non-digit or the end follows. */
  lemma StrtolOfFormat(s: seq<byte>, i: nat, x: int)
    requires i + |FormatLong(x)| <= |s| && s[i..i + |FormatLong(x)|] == FormatLong(x)
    requires i + |FormatLong(x)| == |s| || !IsDigit(s[i + |FormatLong(x)|])
    ensures Strtol(s, i) == LongParse(x, i + |FormatLong(x)|)
  {
    var j, n := DigitsOfFormat(s, i, x);
    StrtolOfDigits(s, i, j, n);
  }

  /** Where "%ld" printed x at s[i..]: its digits start at j, after the '-'
      of a negative x, and spell |x|. */
  lemma DigitsOfFormat(s: seq<byte>, i: nat, x: int) returns (j: nat, n: nat)
    requires i + |FormatLong(x)| <= |s| && s[i..i + |FormatLong(x)|] == FormatLong(x)
    ensures j == if x < 0 then i + 1 else i
    ensures 1 <= n && j + n == i + |FormatLong(x)|
    ensures j == i + 1 ==> s[i] == '-' as int
    ensures forall k :: j <= k < j + n ==> IsDigit(s[k])
    ensures DecValue(s[j..j + n]) == if x < 0 then -x else x
  {
    var m: nat := if x < 0 then -x else x;
    var sign: seq<byte> := if x < 0 then ['-' as int as byte] else [];
    var f := FormatNat(m);
    FormatLongSplit(x);
    assert FormatLong(x) == sign + f;
    FormatNatDigits(m);
    DecValueOfFormat(m);
    j, n := SignedDigits(s, i, sign, f);
  }

  /** "%ld" is the sign, if any, then the digits of the magnitude. */
  lemma FormatLongSplit(x: int)
    ensures FormatLong(x) ==
      (if x < 0 then ['-' as int as byte] else []) + FormatNat(if x < 0 then -x else x)
  {
    if x >= 0 {
      assert [] + FormatNat(x) == FormatNat(x);
    }
  }

  /** sign + f at s[i..], f a run of digits: the digits start at j and
      spell f. */
  lemma SignedDigits(s: seq<byte>, i: nat, sign: seq<byte>, f: seq<byte>) returns (j: nat, n: nat)
    requires |sign| <= 1 && 1 <= |f|
    requires i + |sign + f| <= |s| && s[i..i + |sign + f|] == sign + f
    requires forall k :: 0 <= k < |f| ==> IsDigit(f[k])
    ensures j == i + |sign| && n == |f|
    ensures |sign| == 1 ==> s[i] == sign[0]
    ensures forall k :: j <= k < j + n ==> IsDigit(s[k])
    ensures DecValue(s[j..j + n]) == DecValue(f)
  {
    DigitsAt(s, i, sign, f);
    j, n := i + |sign|, |f|;
  }

  /** Where sign + f lies at s[i..], f lies after the sign. */
  lemma DigitsAt(s: seq<byte>, i: nat, sign: seq<byte>, f: seq<byte>)
    requires i + |sign| + |f| <= |s| && s[i..i + |sign| + |f|] == sign + f
    requires forall k :: 0 <= k < |f| ==> IsDigit(f[k])
    ensures s[i + |sign|..i + |sign| + |f|] == f
    ensures |sign| == 1 ==> s[i] == sign[0]
    ensures forall k :: i + |sign| <= k < i + |sign| + |f| ==> IsDigit(s[k])
  {
    var j := i + |sign|;
    var e := j + |f|;
    assert s[j..e] == s[i..e][|sign|..];
    if |sign| == 1 {
      assert s[i] == s[i..e][0];
    }
    forall k | j <= k < e
      ensures IsDigit(s[k])
    {
      assert s[k] == s[j..e][k - j];
    }
  }
}
