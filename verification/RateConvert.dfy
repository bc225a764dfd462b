/** The size of a sample-rate converter's output: input size times output rate over input rate, by
    shifts and subtractions only. */
module RateConvert {
  import opened Arithmetic
  import opened Octets

  // size shifted right by n.
  function Share(size: nat, n: nat): nat {
    DivEuclid(size, Pow2(n));
    size / Pow2(n)
  }

  // What is left of the fraction r / rate, in units of 1 / rate, after k binary digits.
  function Rest(r: nat, rate: nat, k: nat): (rest: nat)
    requires 0 < rate
    ensures rest < rate
  {
    Pow2(k) * r % rate
  }

  // The k-th binary digit of the fraction r / rate.
  function Digit(r: nat, rate: nat, k: nat): (d: nat)
    requires 0 < rate
    ensures d <= 1
  {
    Pow2(k) * r / rate % 2
  }

  // The first n binary digits of r / rate, each times its share of size.
  function DigitSum(size: nat, r: nat, rate: nat, n: nat): nat
    requires 0 < rate
  {
    if n == 0 then 0 else DigitSum(size, r, rate, n - 1) + (if Digit(r, rate, n) == 1 then Share(size, n) else 0)
  }

  // How often size can be halved with more than 2 left.
  function Halvings(size: nat): nat {
    if size / 2 > 2 then 1 + Halvings(size / 2) else 0
  }

  // The size before it is rounded to a multiple of 8.
  function Unrounded(size: nat, input: nat, output: nat): nat
    requires 0 < input
  {
    DivEuclid(output, input);
    Multiples(output / input, size);
    output / input * size + DigitSum(size, output % input, input, Halvings(size))
  }

  function OutputSize(size: nat, input: nat, output: nat): nat
    requires 0 < input
  {
    Unrounded(size, input, output) / 8 * 8
  }

  function Log2(n: nat): nat {
    if n < 2 then 0 else 1 + Log2(n / 2)
  }

  /** ---- Long division in base 2 ---- */

  lemma DoubledDivision(a: nat, q: nat, m: nat, rate: nat)
    requires m < rate && a == q * rate + m
    ensures if 2 * m >= rate then 2 * a / rate == 2 * q + 1 && 2 * a % rate == 2 * m - rate
            else 2 * a / rate == 2 * q && 2 * a % rate == 2 * m
  {
    assert 2 * q * rate == 2 * (q * rate);
    if 2 * m >= rate {
      assert (2 * q + 1) * rate == 2 * q * rate + rate;
      DivUnique(2 * a, rate, 2 * q + 1, 2 * m - rate);
    } else {
      DivUnique(2 * a, rate, 2 * q, 2 * m);
    }
  }

  lemma DoubledPower(k: nat, r: nat)
    ensures Pow2(k + 1) * r == 2 * (Pow2(k) * r)
  {
    Regroup(2, Pow2(k), r);
  }

  // Doubling what is left gives the next digit.
  lemma NextDigit(r: nat, rate: nat, k: nat)
    requires 0 < rate
    ensures var rest := Rest(r, rate, k);
            var d := Digit(r, rate, k + 1);
            d == (if 2 * rest >= rate then 1 else 0)
            && Rest(r, rate, k + 1) == if d == 1 then 2 * rest - rate else 2 * rest
  {
    hide Pow2;
    DoubledPower(k, r);
    DivEuclid(Pow2(k) * r, rate);
    DoubledDivision(Pow2(k) * r, Pow2(k) * r / rate, Rest(r, rate, k), rate);
  }

  lemma FirstRest(r: nat, rate: nat)
    requires r < rate
    ensures Rest(r, rate, 0) == r
  {
    assert Pow2(0) * r == r;
  }

  lemma NextShare(size: nat, k: nat)
    ensures Share(size, 0) == size && Share(size, k + 1) == Share(size, k) / 2
  {
    var p := Pow2(k);
    DivEuclid(size, p);
    var q, m := size / p, size % p;
    DivEuclid(q, 2);
    var d := q % 2;
    Halve(size, p, q / 2, d, m);
    DivUnique(size, 2 * p, q / 2, d * p + m);
  }

  lemma Halve(size: int, p: nat, q: int, d: nat, m: nat)
    requires size == (q * 2 + d) * p + m && d <= 1 && m < p
    ensures size == q * (2 * p) + (d * p + m) && 0 <= d * p + m < 2 * p
  {
    MulAtMost(p, d, 1);
  }

  // The shifts that leave more than 2 are exactly those up to Halvings.
  lemma {:induction false} HalvingsIsLast(size: nat, k: nat)
    ensures Share(size, k + 1) > 2 <==> k < Halvings(size)
    decreases k
  {
    hide Share;
    if k == 0 {
      NextShare(size, 0);
    } else {
      HalvingsIsLast(size / 2, k - 1);
      HalveFirst(size, k);
    }
    if size / 2 <= 2 { FewerLeft(size, k); }
  }

  lemma {:induction false} HalveFirst(size: nat, k: nat)
    ensures Share(size, k + 1) == Share(size / 2, k)
  {
    hide Share;
    NextShare(size, k);
    if k == 0 {
      NextShare(size / 2, 0);
    } else {
      HalveFirst(size, k - 1);
      NextShare(size / 2, k - 1);
    }
  }

  lemma {:induction false} FewerLeft(size: nat, k: nat)
    ensures Share(size, k + 1) <= size / 2
  {
    hide Share;
    NextShare(size, k);
    if k != 0 { FewerLeft(size, k - 1); }
  }

  // Once nothing is left of the fraction all further digits are 0.
  lemma {:induction false} NoMoreDigits(size: nat, r: nat, rate: nat, k: nat, n: nat)
    requires 0 < rate && k <= n && Rest(r, rate, k) == 0
    ensures DigitSum(size, r, rate, n) == DigitSum(size, r, rate, k) && Rest(r, rate, n) == 0
    decreases n
  {
    hide Rest, Digit, Share;
    if k < n {
      NoMoreDigits(size, r, rate, k, n - 1);
      NextDigit(r, rate, n - 1);
    }
  }

  lemma NoDigits(size: nat, r: nat, rate: nat)
    requires 0 < rate
    ensures DigitSum(size, r, rate, 0) == 0
  {}

  lemma OneMoreDigit(size: nat, r: nat, rate: nat, n: nat)
    requires 0 < rate && 0 < n
    ensures DigitSum(size, r, rate, n)
         == DigitSum(size, r, rate, n - 1) + (if Digit(r, rate, n) == 1 then Share(size, n) else 0)
  {}

  // The whole part of the ratio by repeated subtraction.
  method WholeRatio(inputRate: nat, outputRate: nat) returns (i: nat, outsample: nat)
    requires 0 < inputRate
    ensures i == outputRate / inputRate && outsample == outputRate % inputRate
  {
    i := 0;
    outsample := outputRate;
    while outsample >= inputRate
      invariant outputRate == i * inputRate + outsample
      decreases outsample
    {
      assert (i + 1) * inputRate == i * inputRate + inputRate;
      i := i + 1;
      outsample := outsample - inputRate;
    }
    DivUnique(outputRate, inputRate, i, outsample);
  }

  const INT_END: nat := 0x8000_0000

  // Every number the routine computes fits a 32-bit int: the running size, which only grows, and the
  // doubled rest of each round.
  predicate StaysInInt(size: nat, input: nat, output: nat)
    requires 0 < input
  {
    Unrounded(size, input, output) < INT_END
    && forall k | 0 <= k < Halvings(size) :: 2 * Rest(output % input, input, k) < INT_END
  }

  // The routine itself; fits tells whether every number it computed fits an int.
  method OutputBufferSize(inputSize: nat, inputRate: nat, outputRate: nat) returns (size: nat, ghost fits: bool)
    requires 0 < inputRate
    ensures size == OutputSize(inputSize, inputRate, outputRate)
    ensures fits == StaysInInt(inputSize, inputRate, outputRate)
  {
    hide DigitSum, Halvings, Digit, Rest, Share;
    var i, outsample := WholeRatio(inputRate, outputRate);
    size := i * inputSize;
    fits := size < INT_END;
    ghost var whole, r := size, outsample;
    NoDigits(inputSize, r, inputRate);
    FirstRest(r, inputRate);
    HalvingsIsLast(inputSize, 0);
    i := 1;
    while Share(inputSize, i) > 2 && outsample != 0
      invariant 1 <= i <= Halvings(inputSize) + 1
      invariant Share(inputSize, i) > 2 <==> i <= Halvings(inputSize)
      invariant outsample == Rest(r, inputRate, i - 1)
      invariant size == whole + DigitSum(inputSize, r, inputRate, i - 1)
      invariant fits == (size < INT_END && forall k | 0 <= k < i - 1 :: 2 * Rest(r, inputRate, k) < INT_END)
      decreases Halvings(inputSize) - i
    {
      NextDigit(r, inputRate, i - 1);
      OneMoreDigit(inputSize, r, inputRate, i);
      HalvingsIsLast(inputSize, i);
      fits := fits && 2 * outsample < INT_END;
      if 2 * outsample - inputRate >= 0 {
        outsample := 2 * outsample - inputRate;
        size := size + Share(inputSize, i);
        fits := fits && size < INT_END;
      } else {
        outsample := 2 * outsample;
      }
      i := i + 1;
    }
    if outsample == 0 {
      NoMoreDigits(inputSize, r, inputRate, i - 1, Halvings(inputSize));
      forall k | i - 1 <= k < Halvings(inputSize)
        ensures Rest(r, inputRate, k) == 0
      {
        NoMoreDigits(inputSize, r, inputRate, i - 1, k);
      }
    }
    size := size / 8 * 8;
  }

  // For rates up to 2^30 the result alone decides, and it is enough that the exact size fits.
  lemma WhenItStaysInInt(size: nat, input: nat, output: nat)
    requires 0 < input <= 0x4000_0000
    ensures StaysInInt(size, input, output) <==> Unrounded(size, input, output) < INT_END
    ensures size * output < INT_END * input ==> StaysInInt(size, input, output)
  {
    hide Unrounded, Rest;
    UnroundedGap(size, input, output);
    Cancel(input, Unrounded(size, input, output), INT_END);
  }

  // A rate above 2^30 overflows although the result is small: 2^30 + 1 Hz to 2^30 Hz.
  lemma HighRateOverflows()
    ensures !StaysInInt(4096, 0x4000_0001, 0x4000_0000)
  {
    FirstRest(0x4000_0000, 0x4000_0001);
    HalvingsIsLast(4096, 0);
    assert Share(4096, 1) == 2048 by { assert Pow2(1) == 2; }
  }

  /** ---- How close it comes ---- */

  // What the first n digits leave of size * r / rate, scaled by 2^n: the rounding losses and the rest
  // of the fraction.
  lemma {:induction false} DigitsLeave(size: nat, r: nat, rate: nat, n: nat) returns (lost: nat)
    requires 0 < rate && r < rate
    ensures Pow2(n) * (size * r - DigitSum(size, r, rate, n) * rate) == rate * lost + size * Rest(r, rate, n)
    ensures lost <= n * Pow2(n)
    ensures size % Pow2(n) == 0 ==> lost == 0
  {
    hide Digit, DigitSum, Rest, Share;
    if n == 0 {
      NoDigits(size, r, rate);
      FirstRest(r, rate);
      lost := 0;
    } else {
      hide Pow2;
      var before := DigitsLeave(size, r, rate, n - 1);
      NextDigit(r, rate, n - 1);
      OneMoreDigit(size, r, rate, n);
      var p, sum := Pow2(n - 1), DigitSum(size, r, rate, n - 1);
      PowerDoubles(n);
      var share, m := ShareLeaves(size, p, n);
      lost := if Digit(r, rate, n) == 1 then 2 * before + m else 2 * before;
      OneDigitLeaves(size * r - sum * rate, size, rate, p, before, Rest(r, rate, n - 1), share, m);
      AddShare(sum, share, rate);
      LossGrows(n, p, before, m);
    }
  }

  lemma PowerDoubles(n: nat)
    requires 0 < n
    ensures Pow2(n) == 2 * Pow2(n - 1)
  {}

  lemma AddShare(sum: nat, share: nat, rate: nat)
    ensures (sum + share) * rate == sum * rate + share * rate
  {}

  // The n-th share and the loss of rounding it down.
  lemma ShareLeaves(size: nat, p: nat, n: nat) returns (share: nat, m: nat)
    requires 0 < n && p == Pow2(n - 1)
    ensures share == Share(size, n) && size == share * (2 * p) + m && m < 2 * p
    ensures size % Pow2(n) == 0 ==> m == 0 && size % p == 0
  {
    PowerDoubles(n);
    DivEuclid(size, Pow2(n));
    share, m := Share(size, n), size % Pow2(n);
    if m == 0 { EvenShare(size, p, share); }
  }

  lemma EvenShare(size: nat, p: nat, share: nat)
    requires 0 < p && size == share * (2 * p)
    ensures size % p == 0
  {
    assert share * (2 * p) == 2 * share * p;
    DivUnique(size, p, 2 * share, 0);
  }

  // One digit more, 0 or 1.
  lemma OneDigitLeaves(left: int, size: nat, rate: nat, p: nat, before: nat, rem: nat, share: nat, m: nat)
    requires p * left == rate * before + size * rem && size == share * (2 * p) + m
    ensures 2 * p * left == rate * (2 * before) + size * (2 * rem)
    ensures 2 * p * (left - share * rate) == rate * (2 * before + m) + size * (2 * rem - rate)
  {
    assert 2 * p * left == 2 * (p * left) == rate * (2 * before) + size * (2 * rem);
    assert 2 * p * (share * rate) == share * (2 * p) * rate == (size - m) * rate by { Regroup(2 * p, share, rate); }
    assert 2 * p * (left - share * rate) == 2 * p * left - 2 * p * (share * rate);
    assert rate * (2 * before + m) == rate * (2 * before) + rate * m;
    assert size * (2 * rem - rate) == size * (2 * rem) - size * rate;
    assert (size - m) * rate == size * rate - rate * m;
  }

  lemma LossGrows(n: nat, p: nat, before: nat, m: nat)
    requires 0 < n && before <= (n - 1) * p && m <= 2 * p
    ensures 2 * before + m <= n * (2 * p)
  {
    assert n * (2 * p) == 2 * ((n - 1) * p) + 2 * p;
  }

  // The gap to the exact size before rounding.
  lemma UnroundedGap(size: nat, input: nat, output: nat)
    requires 0 < input
    ensures var gap := size * output - Unrounded(size, input, output) * input;
            var n := Halvings(size);
            0 <= gap < (n + 6) * input
            && (size % Pow2(n) == 0 && size <= 4 * Pow2(n) ==> gap < 4 * input)
  {
    hide DigitSum, Rest, Halvings, Share;
    var n := Halvings(size);
    var r := output % input;
    var p := Pow2(n);
    var sum := DigitSum(size, r, input, n);
    DivEuclid(output, input);
    var gap := size * r - sum * input;
    WholePart(size, input, output, sum);
    var lost := DigitsLeave(size, r, input, n);
    var rest := Rest(r, input, n);
    HalvingsIsLast(size, n);
    var share, m := ShareLeaves(size, p, n + 1);
    MulAtMost(2 * p, share, 2);
    GapBound(gap, p, input, lost, size, rest, n, 6);
    if size % p == 0 && size <= 4 * p { GapBound(gap, p, input, 0, size, rest, 0, 4); }
  }

  lemma WholePart(size: nat, input: nat, output: nat, sum: nat)
    requires 0 < input
    ensures size * output - (output / input * size + sum) * input == size * (output % input) - sum * input
  {
    var q := output / input;
    DivEuclid(output, input);
    assert size * output == size * (q * input) + size * (output % input);
    assert (q * size + sum) * input == q * size * input + sum * input;
    assert size * (q * input) == q * size * input;
  }

  lemma GapBound(gap: int, p: nat, rate: nat, lost: nat, size: nat, rem: nat, n: nat, most: nat)
    requires 0 < p && 0 < rate && rem < rate && 0 < most
    requires p * gap == rate * lost + size * rem && lost <= n * p && size <= most * p
    ensures 0 <= gap < (n + most) * rate
  {
    MulAtMost(rate, lost, n * p);
    MulAtMost(rem, size, most * p);
    Multiples(most, p);
    Cancel(most * p, rem, rate);
    ScaledBound(p, n, most, rate);
    Multiples(lost, rate);
    Multiples(rem, size);
    BoundByScale(p, gap, rate * lost + size * rem, (n + most) * rate);
  }

  lemma BoundByScale(p: nat, gap: int, scaled: nat, bound: int)
    requires 0 < p && p * gap == scaled && scaled < p * bound
    ensures 0 <= gap < bound
  {
    Cancel(p, gap, bound);
    Multiples(gap, p);
  }

  lemma ScaledBound(p: nat, n: nat, most: nat, rate: nat)
    ensures p * ((n + most) * rate) == rate * (n * p) + most * p * rate
  {
    Regroup(rate, n, p);
    Regroup(p, n + most, rate);
    assert (n + most) * p * rate == n * p * rate + most * p * rate;
    assert n * rate * p == n * p * rate;
  }

  lemma {:induction false} HalvingsBelowLog(size: nat)
    ensures Halvings(size) <= Log2(size)
  {
    if size / 2 > 2 { HalvingsBelowLog(size / 2); }
  }

  // Whatever the sizes and rates: the result is a multiple of 8, never too large, and short of the
  // exact value by less than log2(size) + 13.
  lemma OutputSizeBounds(size: nat, input: nat, output: nat)
    requires 0 < input
    ensures var result := OutputSize(size, input, output);
            result % 8 == 0 && result * input <= size * output < (result + Log2(size) + 13) * input
  {
    hide Unrounded, Log2, Halvings;
    UnroundedGap(size, input, output);
    HalvingsBelowLog(size);
    var u := Unrounded(size, input, output);
    RoundedDown(u);
    Between(size * output, input, u, u / 8 * 8, Halvings(size) + 6, Log2(size) + 13);
  }

  lemma RoundedDown(u: nat)
    ensures u / 8 * 8 <= u < u / 8 * 8 + 8 && u / 8 * 8 % 8 == 0
    ensures u % 4 == 0 ==> u <= u / 8 * 8 + 4
  {}

  // A value between u and u + near units lies between result and result + far units.
  lemma Between(value: int, unit: nat, u: nat, result: nat, near: nat, far: nat)
    requires 0 < unit && 0 <= value - u * unit < near * unit
    requires result <= u && u + near <= result + far
    ensures result * unit <= value < (result + far) * unit
  {
    MulAtMost(unit, result, u);
    MulAtMost(unit, u + near, result + far);
    assert (u + near) * unit == u * unit + near * unit;
  }

  lemma {:induction false} HalvingsOfPower(k: nat)
    requires 2 <= k
    ensures Halvings(Pow2(k)) == k - 2
  {
    if k == 2 {
      assert Pow2(2) == 4;
    } else {
      HalvingsOfPower(k - 1);
      assert Pow2(k) / 2 == Pow2(k - 1);
      AtLeastEight(k);
    }
  }

  lemma {:induction false} AtLeastEight(k: nat)
    requires 3 <= k
    ensures Pow2(k) >= 8
  {
    if k > 3 { AtLeastEight(k - 1); } else { assert Pow2(3) == 8; }
  }

  lemma {:induction false} PowerSplits(a: nat, b: nat)
    ensures Pow2(a + b) == Pow2(a) * Pow2(b)
  {
    if a == 0 {
      assert Pow2(0) == 1;
    } else {
      PowerSplits(a - 1, b);
      assert Pow2(a + b) == 2 * (Pow2(a - 1) * Pow2(b)) == (2 * Pow2(a - 1)) * Pow2(b);
    }
  }

  lemma {:induction false} SharesByFour(k: nat, r: nat, rate: nat, n: nat)
    requires 0 < rate && n + 2 <= k
    ensures DigitSum(Pow2(k), r, rate, n) % 4 == 0
  {
    hide Digit, Share;
    if n != 0 {
      SharesByFour(k, r, rate, n - 1);
      PowerShare(k, n);
    }
  }

  lemma PowerShare(k: nat, n: nat)
    requires n <= k
    ensures Share(Pow2(k), n) == Pow2(k - n) && (n + 2 <= k ==> Pow2(k - n) % 4 == 0)
  {
    hide Pow2;
    PowerSplits(k - n, n);
    DivUnique(Pow2(k), Pow2(n), Pow2(k - n), 0);
    if n + 2 <= k { FourTimes(k - n); }
  }

  // For a buffer of 2^k bytes, the converter's 4096 among them, the tail of eight bytes a channel is
  // enough to get above the exact value.
  lemma TailCovers(k: nat, input: nat, output: nat, channels: nat)
    requires 0 < input && 2 <= k && 1 <= channels
    ensures Pow2(k) * output < (OutputSize(Pow2(k), input, output) + channels * 4 * 2) * input
  {
    hide DigitSum, Halvings, Pow2, Unrounded;
    var size := Pow2(k);
    HalvingsOfPower(k);
    UnroundedGap(size, input, output);
    PowerShare(k, k - 2);
    FourTimes(k);
    UnroundedByFour(k, input, output);
    var u := Unrounded(size, input, output);
    RoundedDown(u);
    Between(size * output, input, u, u / 8 * 8, 4, channels * 4 * 2);
  }

  lemma FourTimes(k: nat)
    requires 2 <= k
    ensures Pow2(k) == 4 * Pow2(k - 2) && Pow2(k) % Pow2(k - 2) == 0
  {
    hide Pow2;
    PowerDoubles(k);
    PowerDoubles(k - 1);
    DivUnique(Pow2(k), Pow2(k - 2), 4, 0);
  }

  lemma UnroundedByFour(k: nat, input: nat, output: nat)
    requires 0 < input && 2 <= k
    ensures Unrounded(Pow2(k), input, output) % 4 == 0
  {
    hide DigitSum, Halvings, Pow2;
    HalvingsOfPower(k);
    SharesByFour(k, output % input, input, k - 2);
    FourTimes(k);
    SumByFour(output / input, Pow2(k - 2), Pow2(k), DigitSum(Pow2(k), output % input, input, k - 2));
  }

  lemma SumByFour(q: nat, a: nat, size: nat, sum: nat)
    requires size == 4 * a && sum % 4 == 0
    ensures (q * size + sum) % 4 == 0
  {
    FourDivides(q, a);
  }

  lemma FourDivides(q: nat, a: nat)
    ensures q * (4 * a) % 4 == 0
  {
    assert q * (4 * a) == 4 * (q * a);
  }
}
