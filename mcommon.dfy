/**
 * The integer helpers of `parcel::maths`: `ClosestPow2`, which the TGA
 * loader uses to pad images, and `Quantize`. Both work on 32-bit `int`s.
 */
module MCommon {
  import opened Base

  /** `n` is 1, 2, 4, 8, ... */
  predicate IsPow2(n: int)
    decreases if n < 0 then 0 else n
  {
    n == 1 || (n >= 2 && n % 2 == 0 && IsPow2(n / 2))
  }

  /** A power of two at least 2 and at least `value` with nothing smaller of the kind. */
  ghost predicate SmallestPow2Above(value: int, r: int)
  {
    IsPow2(r) && r >= 2 && r >= value && (r == 2 || r / 2 < value)
  }

  /** Doubling from `n` until `value` is reached. */
  function Pow2From(n: int, value: int): (r: int)
    requires n >= 1
    ensures r >= n && r >= value
    decreases value - n
  {
    if n >= value then n else Pow2From(2 * n, value)
  }

  /** What `ClosestPow2` computes, as a value the other modules can name. */
  function Pow2Ceil(value: int): (r: int)
    ensures r >= 2 && r >= value
  {
    Pow2From(2, value)
  }

  /**
   * `ClosestPow2`: doubles a counter that starts at 2 until it reaches
   * `value`. Beyond 2^30 the shift overflows a 32-bit `int`.
   */
  method ClosestPow2(value: int) returns (r: int)
    requires value <= 0x4000_0000
    ensures IsPow2(r) && r >= 2
    ensures r >= value
    ensures r == 2 || r / 2 < value
    ensures value <= 2 ==> r == 2
    ensures r < TwoTo31
    ensures r == Pow2Ceil(value)
  {
    r := 2;
    while r < value
      invariant IsPow2(r) && r >= 2
      invariant Pow2From(r, value) == Pow2Ceil(value)
      invariant r == 2 || r / 2 < value
      decreases value - r
    {
      r := r * 2;
    }
  }

  /** Two powers of two meeting the same bounds are equal: the smallest one is unique. */
  lemma {:induction false} SmallestPow2Unique(value: int, a: int, b: int)
    requires SmallestPow2Above(value, a) && SmallestPow2Above(value, b)
    ensures a == b
  {
    if a < b {
      Pow2Below(a, b);
    } else if b < a {
      Pow2Below(b, a);
    }
  }

  /** A power of two other than 1 is even, and its half is a power of two. */
  lemma {:induction false} Pow2Even(n: int)
    requires IsPow2(n) && n >= 2
    ensures n % 2 == 0 && IsPow2(n / 2)
  {
  }

  /** Of two different powers of two, the smaller is at most half the larger. */
  lemma {:induction false} Pow2Below(a: int, b: int)
    requires IsPow2(a) && IsPow2(b) && a < b
    ensures a <= b / 2
    decreases b
  {
    Pow2Even(b);
    if a >= 2 {
      Pow2Even(a);
      Pow2Below(a / 2, b / 2);
      Pow2Even(b / 2);
    }
  }

  /** Integer division as C++ does it: the quotient is truncated toward zero. */
  function TruncDiv(n: int, s: int): (q: int)
    requires s != 0
    ensures q * s == n - TruncRem(n, s)
  {
    var m := (if n < 0 then -n else n) / (if s < 0 then -s else s);
    if (n < 0) == (s < 0) then m else -m
  }

  /** The remainder that goes with `TruncDiv`: it takes the sign of `n`. */
  function TruncRem(n: int, s: int): (r: int)
    requires s != 0
  {
    var m := (if n < 0 then -n else n) % (if s < 0 then -s else s);
    if n < 0 then -m else m
  }

  /**
   * `Quantize`: the quotient is taken in `int` before the conversion to
   * `double`, so the half-subtracting `ceil` gives that integer back and
   * the result is `n / s * s` with the quotient truncated.
   */
  function Quantize(number: int, significance: int): (r: int)
    requires significance != 0
    requires -TwoTo31 <= number < TwoTo31 && -TwoTo31 <= significance < TwoTo31
    requires !(number == -TwoTo31 && significance == -1)
  {
    TruncDiv(number, significance) * significance
  }

  /** Euclidean division of naturals brackets the dividend. */
  lemma {:induction false} DivBrackets(a: int, b: int)
    requires a >= 0 && b > 0
    ensures 0 <= (a / b) * b <= a < (a / b) * b + b
  {
    assert a / b >= 0;
  }

  /** `Quantize` is the magnitude `|n| / |s| * |s|` given the sign of `n`. */
  lemma {:induction false} QuantizeMagnitude(number: int, significance: int)
    requires significance != 0
    requires -TwoTo31 <= number < TwoTo31 && -TwoTo31 <= significance < TwoTo31
    requires !(number == -TwoTo31 && significance == -1)
    ensures var a := if number < 0 then -number else number;
            var b := if significance < 0 then -significance else significance;
            Quantize(number, significance) == if number < 0 then -((a / b) * b) else (a / b) * b
  {
    var a := if number < 0 then -number else number;
    var b := if significance < 0 then -significance else significance;
    var m := a / b;
    if significance < 0 {
      if number < 0 {
        assert Quantize(number, significance) == m * -b;
      } else {
        assert Quantize(number, significance) == -m * -b;
      }
    } else {
      if number < 0 {
        assert Quantize(number, significance) == -m * b;
      } else {
        assert Quantize(number, significance) == m * b;
      }
    }
  }

  /**
   * The result lies on the same side of zero as `number`, no farther from
   * zero and within one `significance` of it:
   * `Quantize` rounds toward zero, not to the nearest multiple, and never
   * leaves the 32-bit range.
   */
  lemma {:induction false} QuantizeTowardZero(number: int, significance: int)
    requires significance != 0
    requires -TwoTo31 <= number < TwoTo31 && -TwoTo31 <= significance < TwoTo31
    requires !(number == -TwoTo31 && significance == -1)
    ensures var r := Quantize(number, significance);
            && (number >= 0 ==> 0 <= r <= number)
            && (number <= 0 ==> number <= r <= 0)
            && -TwoTo31 <= r < TwoTo31
            && (number - r < significance || number - r < -significance)
            && (r - number < significance || r - number < -significance)
  {
    var a := if number < 0 then -number else number;
    var b := if significance < 0 then -significance else significance;
    var p := (a / b) * b;
    DivBrackets(a, b);
    assert 0 <= p <= a < p + b;
    QuantizeMagnitude(number, significance);
    var r := Quantize(number, significance);
    assert r == if number < 0 then -p else p;
  }

  /** A `number` closer to the next multiple up is still rounded down: 27 quantized to 10 is 20. */
  lemma {:induction false} QuantizeRoundsDownPastHalf()
    ensures Quantize(27, 10) == 20 && Quantize(-27, 10) == -20 && Quantize(23, 10) == 20
  {
  }
}
