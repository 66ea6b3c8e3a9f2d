/** The parts of the Java/Kotlin platform that the viewer's logic relies on:
    32-bit `Int` arithmetic, `String.hashCode`, `Int.toString`, a few `String`
    queries, bytes, and the exception classes the library tells apart. */
module Jvm {
  import opened Wrappers

  const INT_MIN: int := -0x8000_0000
  const INT_MAX: int := 0x7fff_ffff
  const TWO_32: int := 0x1_0000_0000

  /** Kotlin `Int`, Java `int`. */
  type Int32 = x: int | INT_MIN <= x <= INT_MAX

  /** One byte of a file or a stream, read as unsigned. */
  newtype byte = x: int | 0 <= x < 256

  /** The bytes one `InputStream.read` call delivers. */
  type Chunk = seq<byte>

  // ------------------------------------------------------------------
  // Int arithmetic

  /** The two's-complement 32-bit value of an exact result: what `Int`
      addition and multiplication yield when they overflow. */
  function Wrap(x: int): (r: Int32)
    ensures x - r == (x - INT_MIN) / TWO_32 * TWO_32
    ensures INT_MIN <= x <= INT_MAX ==> r == x
  {
    (x - INT_MIN) % TWO_32 + INT_MIN
  }

  /** Wrap(x) is the only `Int` that differs from x by a multiple of 2^32. */
  lemma WrapUnique(x: int, r: int, m: int)
    requires INT_MIN <= r <= INT_MAX && x - r == m * TWO_32
    ensures Wrap(x) == r
  {
    var d := (x - INT_MIN) / TWO_32;
    assert (d - m) * TWO_32 == r - Wrap(x);
  }

  /** Wrapping the accumulator of `31 * h + c` early does not change the
      wrapped result, which is why the JDK may compute the hash in `int`. */
  lemma WrapMulAdd(x: int, c: int)
    ensures Wrap(31 * Wrap(x) + c) == Wrap(31 * x + c)
  {
    var w := Wrap(x);
    var m := (x - INT_MIN) / TWO_32;
    var r := Wrap(31 * w + c);
    var m2 := (31 * w + c - INT_MIN) / TWO_32;
    assert x - w == m * TWO_32;
    assert 31 * w + c - r == m2 * TWO_32;
    assert 31 * x + c - r == (m2 + 31 * m) * TWO_32;
    WrapUnique(31 * x + c, r, m2 + 31 * m);
  }

  /** Kotlin `x / 2` on `Int`: division truncating toward zero (Dafny's `/`
      rounds toward negative infinity for a positive divisor). */
  function Half(x: int): (r: int)
    ensures x >= 0 ==> 0 <= x - 2 * r <= 1
    ensures x < 0 ==> -1 <= x - 2 * r <= 0
  {
    if x >= 0 then x / 2 else -((-x) / 2)
  }

  // ------------------------------------------------------------------
  // Strings as the JVM stores them

  /** The UTF-16 code units of one character: itself below U+10000,
      otherwise a high and a low surrogate. */
  function CodeUnits(c: char): (u: seq<int>)
    ensures 1 <= |u| <= 2
    ensures forall k :: 0 <= k < |u| ==> 0 <= u[k] < 0x1_0000
    ensures |u| == 1 <==> c as int < 0x1_0000
    ensures |u| == 1 ==> u[0] == c as int
    ensures |u| == 2 ==>
              && 0xD800 <= u[0] < 0xDC00 <= u[1] < 0xE000
              && 0x1_0000 + (u[0] - 0xD800) * 0x400 + (u[1] - 0xDC00) == c as int
  {
    if c as int < 0x1_0000 then [c as int]
    else
      var v := c as int - 0x1_0000;
      [0xD800 + v / 0x400, 0xDC00 + v % 0x400]
  }

  /** A string as a sequence of UTF-16 code units, the `char`s of a Java `String`. */
  function Utf16(s: string): (u: seq<int>)
    ensures |u| >= |s|
    ensures forall k :: 0 <= k < |u| ==> 0 <= u[k] < 0x1_0000
    ensures (forall i :: 0 <= i < |s| ==> s[i] as int < 0x1_0000) ==>
              |u| == |s| && forall i :: 0 <= i < |s| ==> u[i] == s[i] as int
  {
    if s == [] then [] else CodeUnits(s[0]) + Utf16(s[1..])
  }

  // ------------------------------------------------------------------
  // String.hashCode

  function Pow31(e: nat): nat {
    if e == 0 then 1 else 31 * Pow31(e - 1)
  }

  /** The documented value of `String.hashCode` before wrap-around:
      u[0]*31^(n-1) + u[1]*31^(n-2) + ... + u[n-1]. */
  function PolySum(u: seq<int>): int {
    if u == [] then 0 else u[0] * Pow31(|u| - 1) + PolySum(u[1..])
  }

  /** The JDK's loop `h = 31 * h + c` in `int` arithmetic: the value of `h`
      after all code units of u. */
  function HashLoop(u: seq<int>): Int32 {
    if u == [] then 0 else Wrap(31 * HashLoop(u[..|u| - 1]) + u[|u| - 1])
  }

  lemma {:induction false} PolySumSnoc(u: seq<int>, x: int)
    ensures PolySum(u + [x]) == 31 * PolySum(u) + x
  {
    if u == [] {
      assert [x][1..] == [];
    } else {
      assert (u + [x])[1..] == u[1..] + [x];
      PolySumSnoc(u[1..], x);
      assert u[0] * Pow31(|u|) == 31 * (u[0] * Pow31(|u| - 1));
    }
  }

  /** The wrapping loop computes the documented sum, wrapped once at the end. */
  lemma {:induction false} HashLoopComputesPolySum(u: seq<int>)
    ensures HashLoop(u) == Wrap(PolySum(u))
  {
    if u != [] {
      var p, x := u[..|u| - 1], u[|u| - 1];
      assert u == p + [x];
      HashLoopComputesPolySum(p);
      PolySumSnoc(p, x);
      WrapMulAdd(PolySum(p), x);
    }
  }

  /** `String.hashCode()`. */
  function HashCode(s: string): (h: Int32)
    ensures h == Wrap(PolySum(Utf16(s)))
  {
    HashLoopComputesPolySum(Utf16(s));
    HashLoop(Utf16(s))
  }

  // ------------------------------------------------------------------
  // Int.toString

  function DigitChar(d: int): (c: char)
    requires 0 <= d < 10
    ensures '0' <= c <= '9' && c as int - '0' as int == d
  {
    ('0' as int + d) as char
  }

  predicate IsDigits(s: string) {
    forall i :: 0 <= i < |s| ==> '0' <= s[i] <= '9'
  }

  /** The decimal digits of n, with no leading zero. */
  function NatToDecimal(n: nat): (s: string)
    ensures |s| >= 1 && IsDigits(s)
    ensures s[0] == '0' ==> n == 0
  {
    if n < 10 then [DigitChar(n)] else NatToDecimal(n / 10) + [DigitChar(n % 10)]
  }

  /** The number a string of decimal digits denotes. */
  function DecimalValue(s: string): nat
    requires IsDigits(s)
  {
    if s == [] then 0 else 10 * DecimalValue(s[..|s| - 1]) + (s[|s| - 1] as int - '0' as int)
  }

  /** Reading back the digits of n gives n. */
  lemma {:induction false} DecimalRoundTrip(n: nat)
    ensures DecimalValue(NatToDecimal(n)) == n
  {
    if n >= 10 {
      var s := NatToDecimal(n);
      assert s[..|s| - 1] == NatToDecimal(n / 10);
      DecimalRoundTrip(n / 10);
    }
  }

  /** `Int.toString()` and string templates: an optional minus sign, then the digits. */
  function IntToString(i: int): (s: string)
    ensures |s| >= 1
    ensures s[0] == '-' <==> i < 0
  {
    if i < 0 then "-" + NatToDecimal(-i) else NatToDecimal(i)
  }

  /** Distinct numbers have distinct decimal texts. */
  lemma IntToStringInjective(a: int, b: int)
    ensures IntToString(a) == IntToString(b) <==> a == b
  {
    if IntToString(a) == IntToString(b) {
      var s := IntToString(a);
      if a < 0 {
        assert b < 0;
        assert s[1..] == NatToDecimal(-a);
        assert IntToString(b)[1..] == NatToDecimal(-b);
        NatToDecimalInjective(-a, -b);
      } else {
        assert b >= 0;
        NatToDecimalInjective(a, b);
      }
    }
  }

  lemma NatToDecimalInjective(a: nat, b: nat)
    requires NatToDecimal(a) == NatToDecimal(b)
    ensures a == b
  {
    DecimalRoundTrip(a);
    DecimalRoundTrip(b);
  }

  // ------------------------------------------------------------------
  // String queries

  predicate OccursAt<T(==)>(s: seq<T>, pat: seq<T>, i: int) {
    0 <= i && i + |pat| <= |s| && s[i..i + |pat|] == pat
  }

  /** `s.contains(pat)`. */
  predicate Contains<T(==)>(s: seq<T>, pat: seq<T>) {
    exists i | 0 <= i <= |s| - |pat| :: OccursAt(s, pat, i)
  }

  /** `s.endsWith(suffix)`. */
  predicate EndsWith(s: string, suffix: string) {
    |suffix| <= |s| && s[|s| - |suffix|..] == suffix
  }

  /** `s.indexOf(pat)`: the first position at which pat occurs, or -1. */
  function IndexOf<T(==)>(s: seq<T>, pat: seq<T>): (r: int)
    ensures r == -1 <==> !Contains(s, pat)
    ensures r != -1 ==> OccursAt(s, pat, r) && forall j :: 0 <= j < r ==> !OccursAt(s, pat, j)
  {
    IndexFrom(s, pat, 0)
  }

  function IndexFrom<T(==)>(s: seq<T>, pat: seq<T>, from: nat): (r: int)
    ensures r == -1 ==> forall j :: from <= j ==> !OccursAt(s, pat, j)
    ensures r != -1 ==> from <= r && OccursAt(s, pat, r) && forall j :: from <= j < r ==> !OccursAt(s, pat, j)
    decreases |s| - from
  {
    if from + |pat| > |s| then -1
    else if s[from..from + |pat|] == pat then from
    else IndexFrom(s, pat, from + 1)
  }

  // ------------------------------------------------------------------
  // Exceptions

  /** The `IOException` subclasses the library tells apart; `PlainIo` is any other. */
  datatype IoKind = UnknownHost | SocketTimeout | FileNotFound | PlainIo

  /** A thrown exception: its class, as far as the library distinguishes it, and its `message`. */
  datatype Throwable =
    | IoException(kind: IoKind, message: Option<string>)
    | OtherException(message: Option<string>)
}
