/** Numbers written in digits, and the bits they are made of. */
module Bits {

  function Pow2(k: nat): (r: nat)
    ensures r > 0
  {
    if k == 0 then 1 else 2 * Pow2(k - 1)
  }

  /** Division rounding down. */
  function Quot(n: int, d: int): (q: int)
    requires d > 0
    ensures 0 <= n - q * d < d
  {
    assert n == d * (n / d) + n % d;
    n / d
  }

  function Rem(n: int, d: int): (r: int)
    requires d > 0
    ensures 0 <= r < d
  {
    n - Quot(n, d) * d
  }

  lemma MulAtLeast(k: int, d: int)
    requires k >= 1 && d >= 0
    ensures k * d >= d
  {
    assert (k - 1) * d >= 0;
  }

  lemma MulMono(a: int, b: int, d: int)
    requires a <= b && d >= 0
    ensures a * d <= b * d
  {
    assert (b - a) * d >= 0;
  }

  lemma QuotIs(n: int, d: int, q: int)
    requires d > 0 && 0 <= n - q * d < d
    ensures Quot(n, d) == q && Rem(n, d) == n - q * d
  {
    hide Quot;
    var p := Quot(n, d);
    if p > q {
      MulAtLeast(p - q, d);
    } else if p < q {
      MulAtLeast(q - p, d);
    }
  }

  /** Dividing by a product is dividing twice. */
  lemma QuotTwice(n: int, a: int, b: int)
    requires a > 0 && b > 0 && a * b > 0
    ensures Quot(n, a * b) == Quot(Quot(n, a), b)
  {
    hide Quot;
    var m := Quot(n, a);
    var q := Quot(m, b);
    var r, s := n - m * a, m - q * b;
    MulMono(s, b - 1, a);
    MulMono(0, s, a);
    assert n - q * (a * b) == s * a + r by {
      assert m * a == q * b * a + s * a;
      assert q * b * a == q * (a * b);
    }
    assert (b - 1) * a == a * b - a;
    QuotIs(n, a * b, q);
  }

  /** A common factor cancels, and so does anything smaller than it added on top. */
  lemma QuotScaled(n: int, d: int, w: int, extra: int)
    requires d > 0 && w > 0 && d * w > 0 && 0 <= extra < w
    ensures Quot(n * w + extra, d * w) == Quot(n, d)
  {
    hide Quot;
    var q := Quot(n, d);
    var r := n - q * d;
    MulMono(r, d - 1, w);
    MulMono(0, r, w);
    assert n * w + extra - q * (d * w) == r * w + extra by {
      assert (n - q * d) * w == n * w - q * d * w;
      assert q * d * w == q * (d * w);
    }
    assert (d - 1) * w == d * w - w;
    QuotIs(n * w + extra, d * w, q);
  }

  lemma QuotBelow(n: int, d: int, bound: int)
    requires d > 0 && 0 <= n < d * bound
    ensures 0 <= Quot(n, d) < bound
  {
    hide Quot;
    var q := Quot(n, d);
    if q >= bound {
      MulMono(bound, q, d);
    }
    if q < 0 {
      MulMono(q, -1, d);
    }
  }

  lemma {:induction false} PowAdd(a: nat, b: nat)
    ensures Pow2(a + b) == Pow2(a) * Pow2(b)
  {
    if a > 0 {
      PowAdd(a - 1, b);
      assert Pow2(a + b) == 2 * Pow2(a - 1 + b);
      assert Pow2(a) * Pow2(b) == 2 * (Pow2(a - 1) * Pow2(b));
    }
  }

  // ------------------------------------------------------ digits and numbers

  ghost predicate AreDigits(digits: seq<int>, base: int) {
    forall i :: 0 <= i < |digits| ==> 0 <= digits[i] < base
  }

  /** A number written in digits, most significant first. */
  function Number(digits: seq<int>, base: int): int {
    if digits == [] then 0 else Number(digits[..|digits| - 1], base) * base + digits[|digits| - 1]
  }

  /** The last `len` digits of a number. */
  function Digits(n: int, len: nat, base: int): (r: seq<int>)
    requires base > 0
    ensures |r| == len && AreDigits(r, base)
    decreases len
  {
    if len == 0 then [] else
      var last := Rem(n, base);
      Digits(Quot(n, base), len - 1, base) + [last]
  }

  /** Reading digits as a number and writing it down again. */
  lemma {:induction false} DigitsOfNumber(digits: seq<int>, base: int)
    requires base > 0 && AreDigits(digits, base)
    ensures Digits(Number(digits, base), |digits|, base) == digits
  {
    hide Quot, Rem;
    if digits != [] {
      var front, last := digits[..|digits| - 1], digits[|digits| - 1];
      QuotIs(Number(digits, base), base, Number(front, base));
      DigitsOfNumber(front, base);
    }
  }

  lemma NumberAppend(digits: seq<int>, base: int, d: int)
    ensures Number(digits + [d], base) == Number(digits, base) * base + d
  {
    assert (digits + [d])[..|digits|] == digits;
  }

  /** How many numbers `len` digits can write. */
  function Pow(base: int, len: nat): int {
    if len == 0 then 1 else base * Pow(base, len - 1)
  }

  lemma {:induction false} PowOfPow2(width: nat, len: nat)
    ensures Pow(Pow2(width), len) == Pow2(width * len)
  {
    hide Pow2;
    if len == 0 {
      assert width * len == 0;
      PowZero();
    } else {
      PowOfPow2(width, len - 1);
      LessOne(width, len);
      PowAdd(width, width * (len - 1));
    }
  }

  lemma PowZero()
    ensures Pow2(0) == 1
  {
  }

  lemma LessOne(width: nat, len: nat)
    requires len > 0
    ensures width * len == width * (len - 1) + width && width * (len - 1) >= 0
    ensures len == 1 ==> width * (len - 1) == 0
  {
  }

  /** Writing a number down and reading it back, when there is room for it. */
  lemma {:induction false} NumberOfDigits(n: int, len: nat, base: int)
    requires base > 0 && 0 <= n < Pow(base, len)
    ensures Number(Digits(n, len, base), base) == n
    decreases len
  {
    hide Quot;
    if len > 0 {
      QuotBelow(n, base, Pow(base, len - 1));
      NumberOfDigits(Quot(n, base), len - 1, base);
      NumberAppend(Digits(Quot(n, base), len - 1, base), base, Rem(n, base));
    }
  }

  lemma {:induction false} NumberBounds(digits: seq<int>, base: int)
    requires base > 0 && AreDigits(digits, base)
    ensures 0 <= Number(digits, base) < Pow(base, |digits|)
  {
    if digits != [] {
      var front, last := digits[..|digits| - 1], digits[|digits| - 1];
      NumberBounds(front, base);
      OneDigitMore(Number(front, base), base, last, Pow(base, |front|));
    }
  }

  lemma OneDigitMore(n: int, base: int, digit: int, bound: int)
    requires 0 <= n < bound && 0 <= digit < base
    ensures 0 <= n * base + digit < base * bound
  {
    MulMono(n + 1, bound, base);
    MulMono(0, n, base);
    assert (n + 1) * base == n * base + base;
  }

  // ------------------------------------------------------------------- bits

  /** Bit `k` of a sequence of groups of `width` bits, counted from the left. */
  function BitAt(groups: seq<int>, width: nat, k: nat): int
    requires width > 0 && k < width * |groups|
  {
    QuotBelow(k, width, |groups|);
    Rem(Quot(groups[Quot(k, width)], Pow2(width - 1 - Rem(k, width))), 2)
  }

  /** Bit `k` of a number written in `len` bits, counted from the left. */
  function NumberBit(n: int, len: nat, k: nat): int
    requires k < len
  {
    Rem(Quot(n, Pow2(len - 1 - k)), 2)
  }

  /** Whole multiples of the divisor come out of a division unchanged. */
  lemma QuotShift(m: int, x: int, d: int)
    requires d > 0
    ensures Quot(m * d + x, d) == m + Quot(x, d) && Rem(m * d + x, d) == Rem(x, d)
  {
    hide Quot;
    var s := Quot(x, d);
    assert (m + s) * d == m * d + s * d;
    QuotIs(m * d + x, d, m + s);
  }

  /** Dropping high bits does not change a low one. */
  lemma LowBitsOfRem(n: int, w: nat, e: nat)
    requires e < w
    ensures Rem(Quot(Rem(n, Pow2(w)), Pow2(e)), 2) == Rem(Quot(n, Pow2(e)), 2)
  {
    hide Quot, Pow2;
    var q, r := Quot(n, Pow2(w)), Rem(n, Pow2(w));
    var d, half := Pow2(e), Pow2(w - e - 1);
    PowAdd(e, w - e);
    PowAdd(1, w - e - 1);
    PowOne();
    HighPart(n, q, half, d, r);
    QuotShift((q * half) * 2, r, d);
    QuotShift(q * half, Quot(r, d), 2);
  }

  lemma HighPart(n: int, q: int, half: int, d: int, r: int)
    requires r == n - q * (d * (2 * half))
    ensures n == ((q * half) * 2) * d + r
  {
    assert q * (d * (2 * half)) == ((q * half) * 2) * d;
  }

  lemma PowOne()
    ensures Pow2(1) == 2
  {
  }

  /** The groups of a number, read bit by bit, are the bits of the number. */
  lemma {:induction false} BitsOfDigits(n: int, width: nat, len: nat, k: nat)
    requires width > 0 && len > 0 && k < width * len
    ensures BitAt(Digits(n, len, Pow2(width)), width, k) == NumberBit(n, width * len, k)
    decreases len
  {
    hide *;
    var rest := width * (len - 1);
    LessOne(width, len);
    if k >= rest {
      LastGroup(n, width, len, k);
    } else {
      EarlierGroup(n, width, len, k);
      EarlierBit(n, width, rest, k);
      BitsOfDigits(Quot(n, Pow2(width)), width, len - 1, k);
    }
  }

  lemma EarlierGroup(n: int, width: nat, len: nat, k: nat)
    requires width > 0 && len > 0 && k < width * (len - 1) && k < width * len
    ensures
      var base := Pow2(width);
      BitAt(Digits(n, len, base), width, k) == BitAt(Digits(Quot(n, base), len - 1, base), width, k)
  {
    hide Quot, Pow2;
    QuotBelow(k, width, len - 1);
    var base := Pow2(width);
    assert Digits(n, len, base) == Digits(Quot(n, base), len - 1, base) + [Rem(n, base)];
  }

  lemma LastGroup(n: int, width: nat, len: nat, k: nat)
    requires width > 0 && len > 0 && width * (len - 1) <= k < width * len
    ensures BitAt(Digits(n, len, Pow2(width)), width, k) == NumberBit(n, width * len, k)
  {
    hide Quot, Pow2;
    var base := Pow2(width);
    var groups, front := Digits(n, len, base), Digits(Quot(n, base), len - 1, base);
    assert groups == front + [Rem(n, base)];
    assert width * len == width * (len - 1) + width;
    QuotIs(k, width, len - 1) by { assert (len - 1) * width == width * (len - 1); }
    LowBitsOfRem(n, width, width * len - 1 - k);
  }

  lemma EarlierBit(n: int, width: nat, rest: nat, k: nat)
    requires k < rest
    ensures NumberBit(Quot(n, Pow2(width)), rest, k) == NumberBit(n, rest + width, k)
  {
    hide Quot, Pow2;
    PowAdd(width, rest - 1 - k);
    QuotTwice(n, Pow2(width), Pow2(rest - 1 - k));
  }
}
