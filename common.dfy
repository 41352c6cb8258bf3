/** Small shared vocabulary: an optional value, decimal rendering and
    parsing as Java's `%d`/`%0Nd` produce it, and the few string
    operations of `java.lang.String` the plugin relies on. */
module Options {
  datatype Option<+T> = None | Some(value: T)
}

module Decimal {

  predicate IsDigit(c: char) { '0' <= c <= '9' }

  predicate AllDigits(s: string) { forall k :: 0 <= k < |s| ==> IsDigit(s[k]) }

  function DigitChar(d: nat): (c: char)
    requires d < 10
    ensures IsDigit(c) && c as int - '0' as int == d
  {
    ('0' as int + d) as char
  }

  function Pow10(k: nat): (p: nat)
    ensures p >= 1
  {
    if k == 0 then 1 else 10 * Pow10(k - 1)
  }

  /** `Long.toString(n)` / `%d` for a non-negative value: no sign, no leading zero. */
  function NatToString(n: nat): (s: string)
    ensures |s| >= 1 && AllDigits(s)
    ensures |s| > 1 ==> s[0] != '0'
    decreases n
  {
    if n < 10 then [DigitChar(n)] else NatToString(n / 10) + [DigitChar(n % 10)]
  }

  function Zeros(k: nat): (s: string)
    ensures |s| == k && forall i :: 0 <= i < k ==> s[i] == '0'
  {
    if k == 0 then [] else Zeros(k - 1) + ['0']
  }

  /** `String.format("%0<width>d", n)` for a non-negative value. */
  function ZeroPad(n: nat, width: nat): (s: string)
    ensures AllDigits(s)
  {
    var digits := NatToString(n);
    if |digits| < width then Zeros(width - |digits|) + digits else digits
  }

  /** The value of a string of decimal digits (leading zeros allowed). */
  function ParseNat(s: string): nat
    requires AllDigits(s)
  {
    if s == [] then 0 else ParseNat(s[..|s| - 1]) * 10 + (s[|s| - 1] as int - '0' as int)
  }

  lemma {:induction false} ParseNatToString(n: nat)
    ensures ParseNat(NatToString(n)) == n
    decreases n
  {
    if n >= 10 {
      var s := NatToString(n);
      assert s[..|s| - 1] == NatToString(n / 10);
      ParseNatToString(n / 10);
    }
  }

  lemma {:induction false} NatToStringLength(n: nat, k: nat)
    requires 1 <= k && n < Pow10(k)
    ensures |NatToString(n)| <= k
    decreases n
  {
    if n >= 10 {
      if k == 1 {
        assert false;
      }
      assert n / 10 < Pow10(k - 1);
      NatToStringLength(n / 10, k - 1);
    }
  }

  lemma {:induction false} ParseNatZeros(k: nat, s: string)
    requires AllDigits(s)
    ensures AllDigits(Zeros(k) + s) && ParseNat(Zeros(k) + s) == ParseNat(s)
    decreases |s|
  {
    if s == [] {
      assert Zeros(k) + s == Zeros(k);
      ParseNatAllZero(k);
    } else {
      var t := Zeros(k) + s;
      assert t[..|t| - 1] == Zeros(k) + s[..|s| - 1];
      ParseNatZeros(k, s[..|s| - 1]);
    }
  }

  lemma {:induction false} ParseNatAllZero(k: nat)
    ensures AllDigits(Zeros(k)) && ParseNat(Zeros(k)) == 0
  {
    if k > 0 {
      assert Zeros(k)[..k - 1] == Zeros(k - 1);
      ParseNatAllZero(k - 1);
    }
  }

  /** A zero-padded rendering is at least as wide as requested and reads
      back as the value, however many digits the value has. */
  lemma ZeroPadParses(n: nat, width: nat)
    ensures |ZeroPad(n, width)| >= width
    ensures ParseNat(ZeroPad(n, width)) == n
  {
    ParseNatToString(n);
    var digits := NatToString(n);
    if |digits| < width {
      ParseNatZeros(width - |digits|, digits);
    }
  }

  /** A zero-padded rendering has exactly the requested width when the value
      fits in it, and reads back as the value. */
  lemma ZeroPadRoundTrip(n: nat, width: nat)
    requires 1 <= width && n < Pow10(width)
    ensures |ZeroPad(n, width)| == width
    ensures ParseNat(ZeroPad(n, width)) == n
  {
    NatToStringLength(n, width);
    ParseNatToString(n);
    var digits := NatToString(n);
    if |digits| < width {
      ParseNatZeros(width - |digits|, digits);
    }
  }
}

/** Java's fixed-width integer arithmetic on unbounded integers. */
module JavaArith {

  const LongHalf: int := 0x8000_0000_0000_0000
  const LongModulus: int := 0x1_0000_0000_0000_0000

  /** The value a Java `long` holds after an exact integer result is wrapped
      to 64-bit two's complement. */
  function JavaLong(x: int): (r: int)
    ensures -LongHalf <= r < LongHalf
    ensures -LongHalf <= x < LongHalf ==> r == x
  {
    (x + LongHalf) % LongModulus - LongHalf
  }

  lemma JavaLongPeriodic(y: int, k: int)
    ensures JavaLong(y - LongModulus * k) == JavaLong(y)
  {
    var a := y + LongHalf;
    var q := a / LongModulus;
    var r := a % LongModulus;
    assert a - LongModulus * k == LongModulus * (q - k) + r;
    assert (a - LongModulus * k) % LongModulus == r;
  }

  /** Shifting a wrapped `long` left by one byte and adding a byte wraps the
      same way as doing it on the exact value. */
  lemma JavaLongShift(x: int, b: int)
    ensures JavaLong(JavaLong(x) * 256 + b) == JavaLong(x * 256 + b)
  {
    var q := (x + LongHalf) / LongModulus;
    assert JavaLong(x) == x - LongModulus * q;
    assert JavaLong(x) * 256 + b == x * 256 + b - LongModulus * (256 * q);
    JavaLongPeriodic(x * 256 + b, 256 * q);
  }

  /** Half the size of Java's `int` range, and the range's size. */
  const IntHalf: int := 0x8000_0000
  const IntModulus: int := 0x1_0000_0000

  /** The value of the narrowing cast `(int)` applied to a `long`. */
  function JavaInt(x: int): (r: int)
    ensures -IntHalf <= r < IntHalf
    ensures -IntHalf <= x < IntHalf ==> r == x
  {
    (x + IntHalf) % IntModulus - IntHalf
  }

  /** Java's `long` division, which truncates toward zero. */
  function JavaDiv(a: int, b: int): int
    requires b > 0
  {
    if a >= 0 then a / b else -((-a) / b)
  }

  /** The largest `long`, `Long.MAX_VALUE`. */
  const LongMax: int := LongHalf - 1

  /** The cast `(long)` of a `double`: truncation toward zero, saturating
      at the ends of the `long` range. */
  function LongOfReal(x: real): (r: int)
    ensures -LongHalf <= r <= LongMax
    ensures 0.0 <= x < LongMax as real ==> r as real <= x < r as real + 1.0
    ensures -(LongHalf as real) < x <= 0.0 ==> r as real - 1.0 < x <= r as real
    ensures x >= LongMax as real ==> r == LongMax
    ensures x <= -(LongHalf as real) ==> r == -LongHalf
  {
    if x >= LongMax as real then LongMax
    else if x <= -(LongHalf as real) then -LongHalf
    else if x >= 0.0 then x.Floor
    else -((-x).Floor)
  }
}

/** Small facts about multiplication, division and remainder that the
    solver does not find unaided. */
module Arith {

  lemma ProductZero(a: int, b: int, c: int)
    ensures b == 0 || c == 0 ==> a * b * c == 0
  {}

  lemma ModMultiple(a: int, f: nat)
    requires f > 0
    ensures (a * f) % f == 0
  {
    var x := a * f;
    var k := a - x / f;
    assert x % f == f * k by {
      assert x == f * (x / f) + x % f;
    }
    if k >= 1 {
      MulMonotone(1, k, f);
    } else if k <= -1 {
      MulMonotone(k, -1, f);
    }
  }

  /** The difference of two multiples of `f` is a multiple of `f`. */
  lemma ModDifference(x: int, y: int, f: nat)
    requires f > 0 && x % f == 0 && y % f == 0
    ensures (x - y) % f == 0
  {
    assert x == f * (x / f) && y == f * (y / f);
    assert x - y == (x / f - y / f) * f;
    ModMultiple(x / f - y / f, f);
  }

  lemma MulAssoc(a: int, b: int, c: int)
    ensures a * (b * c) == (a * b) * c
  {}

  lemma MulCommute(a: int, b: int)
    ensures a * b == b * a
  {}

  lemma PositiveProduct(a: nat, b: nat)
    requires a > 0 && b > 0
    ensures a * b > 0
  {}

  lemma MulMonotone(a: int, b: int, c: nat)
    requires a <= b
    ensures a * c <= b * c
  {}

  lemma MulSucc(a: int, b: int)
    ensures (a + 1) * b == a * b + b
  {}

  /** The largest multiple of `s` not above `x`, and the next one above it. */
  lemma LastMultiple(x: int, s: nat)
    requires s > 0
    ensures (x / s) * s <= x < (x / s) * s + s
  {
    assert x == s * (x / s) + x % s;
    MulCommute(s, x / s);
  }

  /** Division is determined by quotient and remainder. */
  lemma DivUnique(x: int, s: nat, q: int, r: int)
    requires s > 0 && 0 <= r < s && x == q * s + r
    ensures x / s == q && x % s == r
  {
    var q1 := x / s;
    var r1 := x % s;
    assert x == s * q1 + r1;
    assert (q - q1) * s == r1 - r;
    if q > q1 {
      MulMonotone(1, q - q1, s);
    } else if q < q1 {
      MulMonotone(q - q1, -1, s);
    }
  }

  lemma DivSub(x: int, s: nat)
    requires x >= s > 0
    ensures (x - s) / s + 1 == x / s
  {
    var q := (x - s) / s;
    var r := (x - s) % s;
    assert x - s == s * q + r;
    assert x == (q + 1) * s + r;
    DivUnique(x, s, q + 1, r);
  }

  lemma DivBound(a: nat, b: nat)
    requires b >= 1
    ensures a / b <= a
  {
    var q := a / b;
    assert a == b * q + a % b;
    MulMonotone(1, b, q);
  }

  lemma CancelFactor(x: int, y: int, f: nat)
    requires f > 0 && (x * f) >= y * f
    ensures x >= y
  {
    if x < y {
      MulMonotone(x + 1, y, f);
      assert false;
    }
  }

  lemma CancelFactorStrict(x: int, y: int, f: nat)
    requires f > 0 && x * f > y * f
    ensures x > y
  {
    if x <= y {
      MulMonotone(x, y, f);
      assert false;
    }
  }

}

module Strings {

  predicate StartsWith(s: string, prefix: string) {
    |prefix| <= |s| && s[..|prefix|] == prefix
  }

  predicate EndsWith(s: string, suffix: string) {
    |suffix| <= |s| && s[|s| - |suffix|..] == suffix
  }

  /** `Character.toLowerCase` restricted to ASCII letters. */
  function LowerChar(c: char): char {
    if 'A' <= c <= 'Z' then (c as int + 32) as char else c
  }

  function ToLower(s: string): (r: string)
    ensures |r| == |s| && forall k :: 0 <= k < |s| ==> r[k] == LowerChar(s[k])
  {
    if s == [] then [] else [LowerChar(s[0])] + ToLower(s[1..])
  }

  /** `String.trim` strips every character whose code is at most U+0020. */
  predicate IsTrimmed(c: char) { c <= ' ' }

  function TrimStart(s: string): (r: string)
    ensures |r| <= |s| && r == s[|s| - |r|..]
    ensures r == [] || !IsTrimmed(r[0])
    ensures forall k :: 0 <= k < |s| - |r| ==> IsTrimmed(s[k])
  {
    if s != [] && IsTrimmed(s[0]) then TrimStart(s[1..]) else s
  }

  function TrimEnd(s: string): (r: string)
    ensures |r| <= |s| && r == s[..|r|]
    ensures r == [] || !IsTrimmed(r[|r| - 1])
    ensures forall k :: |r| <= k < |s| ==> IsTrimmed(s[k])
  {
    if s != [] && IsTrimmed(s[|s| - 1]) then TrimEnd(s[..|s| - 1]) else s
  }

  function Trim(s: string): (r: string)
  {
    TrimEnd(TrimStart(s))
  }

  /** Trimming leaves nothing exactly when every character is one that
      `trim` strips, and otherwise starts and ends on a visible character. */
  lemma TrimEmptyIff(s: string)
    ensures Trim(s) == [] <==> forall k :: 0 <= k < |s| ==> IsTrimmed(s[k])
    ensures Trim(s) != [] ==> !IsTrimmed(Trim(s)[0]) && !IsTrimmed(Trim(s)[|Trim(s)| - 1])
  {
    var t := TrimStart(s);
    var r := TrimEnd(t);
    if r != [] {
      assert r[0] == t[0];
    }
  }
}
