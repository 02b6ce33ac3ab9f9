/** Jain's fairness index of a group of flows, computed in 64-bit unsigned integers. */
module Fairness {
  import opened Wrappers

  const WORD := 0x1_0000_0000_0000_0000
  const HALF_WORD := 0x1_0000_0000

  function Sum(xs: seq<nat>): nat {
    if xs == [] then 0 else Sum(xs[..|xs| - 1]) + xs[|xs| - 1]
  }

  function SumSquares(xs: seq<nat>): nat {
    if xs == [] then 0 else SumSquares(xs[..|xs| - 1]) + xs[|xs| - 1] * xs[|xs| - 1]
  }

  /** The sum of the squared differences from x. */
  function Distance(xs: seq<nat>, x: int): int {
    if xs == [] then 0 else Distance(xs[..|xs| - 1], x) + (xs[|xs| - 1] - x) * (xs[|xs| - 1] - x)
  }

  predicate AllEqual(xs: seq<nat>) {
    forall i, j :: 0 <= i < |xs| && 0 <= j < |xs| ==> xs[i] == xs[j]
  }

  predicate AtMostOneNonzero(xs: seq<nat>) {
    forall i, j :: 0 <= i < |xs| && 0 <= j < |xs| && xs[i] > 0 && xs[j] > 0 ==> i == j
  }

  // ---------------------------------------------------------------- Cauchy and Schwarz

  lemma {:induction false} DistanceZeroIff(xs: seq<nat>, x: int)
    ensures Distance(xs, x) >= 0
    ensures Distance(xs, x) == 0 <==> forall i :: 0 <= i < |xs| ==> xs[i] == x
  {
    if xs != [] {
      var init, y := xs[..|xs| - 1], xs[|xs| - 1];
      DistanceZeroIff(init, x);
      SquareZeroIff(y - x);
      assert forall i :: 0 <= i < |init| ==> init[i] == xs[i];
    }
  }

  lemma SquareZeroIff(d: int)
    ensures d * d >= 0 && (d * d == 0 <==> d == 0)
  {
  }

  lemma {:induction false} DistanceIs(xs: seq<nat>, x: int)
    ensures Distance(xs, x) == SumSquares(xs) - 2 * (x * Sum(xs)) + |xs| * (x * x)
  {
    if xs != [] {
      var init, y := xs[..|xs| - 1], xs[|xs| - 1];
      DistanceIs(init, x);
      SquareOfDifference(y, x);
      Distribute(x, Sum(init), y);
      OneMore(|init|, x * x);
    }
  }

  lemma SquareOfDifference(y: int, x: int)
    ensures (y - x) * (y - x) == y * y - 2 * (x * y) + x * x
  {
  }

  lemma Distribute(x: int, a: int, b: int)
    ensures x * (a + b) == x * a + x * b
  {
  }

  lemma OneMore(n: nat, x: int)
    ensures (n + 1) * x == n * x + x
  {
  }

  /** The square of the sum is at most n times the sum of the squares, and equals it only for
      equal counts. */
  lemma {:induction false} CauchySchwarz(xs: seq<nat>)
    ensures Sum(xs) * Sum(xs) <= |xs| * SumSquares(xs)
    ensures Sum(xs) * Sum(xs) == |xs| * SumSquares(xs) <==> AllEqual(xs)
  {
    if xs != [] {
      var init, x := xs[..|xs| - 1], xs[|xs| - 1];
      var s, q, n := Sum(init), SumSquares(init), |init|;
      CauchySchwarz(init);
      DistanceIs(init, x);
      DistanceZeroIff(init, x);
      CauchyStep(s, q, n, x);
      assert forall i :: 0 <= i < n ==> init[i] == xs[i];
      if AllEqual(xs) {
        assert forall i :: 0 <= i < n ==> init[i] == xs[n];
      }
    }
  }

  lemma CauchyStep(s: int, q: int, n: int, x: int)
    ensures (n + 1) * (q + x * x) - (s + x) * (s + x) == (n * q - s * s) + (q - 2 * (x * s) + n * (x * x))
  {
  }

  /** The sum of the squares is at most the square of the sum, and equals it only when a single
      flow got everything. */
  lemma {:induction false} SquaresBelowSquare(xs: seq<nat>)
    ensures SumSquares(xs) <= Sum(xs) * Sum(xs)
    ensures SumSquares(xs) == Sum(xs) * Sum(xs) <==> AtMostOneNonzero(xs)
  {
    if xs != [] {
      var init, x := xs[..|xs| - 1], xs[|xs| - 1];
      SquaresBelowSquare(init);
      SquareOfSum(Sum(init), x);
      ProductZeroIff(Sum(init), x);
      OneNonzeroMore(init, x);
      assert init + [x] == xs;
    }
  }

  lemma OneNonzeroMore(xs: seq<nat>, x: nat)
    ensures AtMostOneNonzero(xs + [x]) <==> AtMostOneNonzero(xs) && (Sum(xs) == 0 || x == 0)
  {
    SumZeroIff(xs);
    var all := xs + [x];
    assert all[|xs|] == x && forall i :: 0 <= i < |xs| ==> all[i] == xs[i];
  }

  lemma {:induction false} SumZeroIff(xs: seq<nat>)
    ensures Sum(xs) == 0 <==> forall i :: 0 <= i < |xs| ==> xs[i] == 0
  {
    if xs != [] {
      SumZeroIff(xs[..|xs| - 1]);
      assert forall i :: 0 <= i < |xs| - 1 ==> xs[..|xs| - 1][i] == xs[i];
    }
  }

  lemma SquareOfSum(s: int, x: int)
    ensures (s + x) * (s + x) == s * s + 2 * (s * x) + x * x
  {
  }

  lemma ProductZeroIff(s: nat, x: nat)
    ensures s * x >= 0 && (s * x == 0 <==> s == 0 || x == 0)
  {
  }

  lemma MulMono(k: nat, a: int, b: int)
    requires a <= b
    ensures k * a <= k * b
  {
  }

  lemma {:induction false} SquaresBelowMax(xs: seq<nat>, max: nat)
    requires forall i :: 0 <= i < |xs| ==> xs[i] <= max
    ensures SumSquares(xs) <= |xs| * (max * max)
  {
    if xs != [] {
      var init, x := xs[..|xs| - 1], xs[|xs| - 1];
      SquaresBelowMax(init, max);
      MulMono(x, x, max);
      MulMono(max, x, max);
      OneMore(|init|, max * max);
    }
  }

  // ---------------------------------------------------------------- Words

  /** Every sum and product of the computation is below 2 to the 64. */
  predicate NoWrap(xs: seq<nat>) {
    && Sum(xs) < WORD && Sum(xs) * Sum(xs) < WORD
    && (forall i :: 0 <= i < |xs| ==> xs[i] * xs[i] < WORD)
    && SumSquares(xs) < WORD && |xs| * SumSquares(xs) < WORD
  }

  /** The dividend and the divisor as the machine computes them. */
  function Dividend(xs: seq<nat>): nat {
    ((Sum(xs) % WORD) * (Sum(xs) % WORD)) % WORD
  }

  function Divisor(xs: seq<nat>): nat {
    (|xs| * (SumSquares(xs) % WORD)) % WORD
  }

  lemma {:induction false} SquareBelowSum(xs: seq<nat>, i: nat)
    requires i < |xs|
    ensures xs[i] * xs[i] <= SumSquares(xs)
  {
    if i < |xs| - 1 { SquareBelowSum(xs[..|xs| - 1], i); }
  }

  lemma SquareIsLarger(s: nat)
    ensures s <= s * s
  {
  }

  lemma AtLeastOnce(n: nat, q: nat)
    requires n > 0
    ensures q <= n * q
  {
    MulMono(q, 1, n);
  }

  /** The divisor is the largest of them, so nothing wraps exactly when it does not. */
  lemma NoWrapIff(xs: seq<nat>)
    ensures NoWrap(xs) <==> |xs| * SumSquares(xs) < WORD
  {
    if xs != [] && |xs| * SumSquares(xs) < WORD {
      CauchySchwarz(xs);
      SquareIsLarger(Sum(xs));
      AtLeastOnce(|xs|, SumSquares(xs));
      forall i | 0 <= i < |xs| ensures xs[i] * xs[i] < WORD { SquareBelowSum(xs, i); }
    }
  }

  /** The machine has the exact dividend and divisor exactly when nothing wraps. */
  lemma ExactIff(xs: seq<nat>)
    ensures Dividend(xs) == Sum(xs) * Sum(xs) && Divisor(xs) == |xs| * SumSquares(xs) <==> NoWrap(xs)
  {
    hide Sum, SumSquares;
    NoWrapIff(xs);
    hide NoWrap;
    if |xs| * SumSquares(xs) < WORD {
      assert NoWrap(xs);
      Unwrapped(xs);
    }
  }

  lemma Unwrapped(xs: seq<nat>)
    requires NoWrap(xs)
    ensures Dividend(xs) == Sum(xs) * Sum(xs) && Divisor(xs) == |xs| * SumSquares(xs)
  {
    hide Sum, SumSquares;
    assert Sum(xs) % WORD == Sum(xs) && SumSquares(xs) % WORD == SumSquares(xs);
  }

  /** n times the largest count below 2 to the 32 is enough. */
  lemma SmallCountsDoNotWrap(xs: seq<nat>, max: nat)
    requires forall i :: 0 <= i < |xs| ==> xs[i] <= max
    requires |xs| * max < HALF_WORD
    ensures NoWrap(xs)
  {
    hide Sum, SumSquares, NoWrap;
    SquaresBelowMax(xs, max);
    MulMono(|xs|, SumSquares(xs), |xs| * (max * max));
    SquareOfProduct(|xs|, max);
    MulMono(|xs| * max, |xs| * max, HALF_WORD - 1);
    MulMono(HALF_WORD - 1, |xs| * max, HALF_WORD - 1);
    NoWrapIff(xs);
  }

  lemma SquareOfProduct(n: nat, m: nat)
    ensures n * (n * (m * m)) == (n * m) * (n * m)
  {
    Associate(n, n, m * m);
    Associate(n, m, m);
    Associate(n, n * m, m);
    Associate(n * m, n, m);
  }

  lemma Associate(a: nat, b: nat, c: nat)
    ensures a * (b * c) == (a * b) * c && a * b == b * a
  {
  }

  /** The quotient of the two words; nothing when the divisor is the zero word. */
  function Index(xs: seq<nat>): Option<real> {
    if Divisor(xs) == 0 then None else Some(Dividend(xs) as real / Divisor(xs) as real)
  }

  /** The loop over the flows, in 64-bit words, and the quotient. */
  method FairnessIndex(bytes: seq<nat>) returns (index: Option<real>)
    requires forall i :: 0 <= i < |bytes| ==> bytes[i] < WORD
    ensures index == Index(bytes)
    ensures NoWrap(bytes) && Sum(bytes) > 0 ==>
      index.Some? && 1.0 / |bytes| as real <= index.value <= 1.0 && (index.value == 1.0 <==> AllEqual(bytes))
  {
    hide NoWrap;
    var sum, sumSquares := 0, 0;
    for i := 0 to |bytes|
      invariant sum == Sum(bytes[..i]) % WORD && sumSquares == SumSquares(bytes[..i]) % WORD
    {
      assert bytes[..i + 1][..i] == bytes[..i];
      AddWords(Sum(bytes[..i]), bytes[i]);
      AddWords(SumSquares(bytes[..i]), bytes[i] * bytes[i]);
      sum := (sum + bytes[i]) % WORD;
      sumSquares := (sumSquares + (bytes[i] * bytes[i]) % WORD) % WORD;
    }
    assert bytes[..|bytes|] == bytes;
    var divisor := (|bytes| * sumSquares) % WORD;
    index := if divisor == 0 then None else Some(((sum * sum) % WORD) as real / divisor as real);
    if NoWrap(bytes) && Sum(bytes) > 0 { IndexRange(bytes); }
  }

  lemma AddWords(a: nat, b: nat)
    ensures (a % WORD + b) % WORD == (a + b) % WORD == (a % WORD + b % WORD) % WORD
  {
  }

  /** For counts that are not all zero and do not wrap, the index is between 1/n and 1; it is 1
      exactly for equal counts and 1/n exactly when one flow got everything. */
  lemma IndexRange(xs: seq<nat>)
    requires NoWrap(xs) && Sum(xs) > 0
    ensures var index := Index(xs);
      && index.Some? && 1.0 / |xs| as real <= index.value <= 1.0
      && (index.value == 1.0 <==> AllEqual(xs))
      && (index.value == 1.0 / |xs| as real <==> AtMostOneNonzero(xs))
  {
    CauchySchwarz(xs);
    SquaresBelowSquare(xs);
    Unwrapped(xs);
    var n, s, q := |xs|, Sum(xs), SumSquares(xs);
    assert n > 0;
    hide Sum, SumSquares, Dividend, Divisor, NoWrap, AllEqual, AtMostOneNonzero;
    SquareIsLarger(s);
    AtLeastOnce(n, q);
    Ratio(s * s, n, q);
  }

  lemma Ratio(p: nat, n: nat, q: nat)
    requires n > 0 && q <= p <= n * q && 0 < n * q
    ensures var r := p as real / (n * q) as real;
      && 1.0 / n as real <= r <= 1.0 && (r == 1.0 <==> p == n * q) && (r == 1.0 / n as real <==> p == q)
  {
    var d := (n * q) as real;
    assert q > 0;
    Reduce(n as real, q as real);
    Compare(q as real, p as real, d);
    Compare(p as real, d, d);
    assert d / d == 1.0;
  }

  lemma Compare(a: real, b: real, d: real)
    requires d > 0.0 && a <= b
    ensures a / d <= b / d && (a / d == b / d <==> a == b)
  {
    assert (a / d) * d == a && (b / d) * d == b;
  }

  lemma Reduce(n: real, q: real)
    requires n > 0.0 && q > 0.0
    ensures n * q > 0.0 && q / (n * q) == 1.0 / n
  {
  }

  /** Larger counts wrap: ten equal counts of 2 to the 32 leave no index at all. */
  lemma EqualCountsCanWrap()
    ensures var xs: seq<nat> := seq(10, _ => HALF_WORD); !NoWrap(xs) && Index(xs) == None
  {
    var xs: seq<nat> := seq(10, _ => HALF_WORD);
    Repeated(xs, 10);
  }

  lemma {:induction false} Repeated(xs: seq<nat>, n: nat)
    requires |xs| == n && forall i :: 0 <= i < n ==> xs[i] == HALF_WORD
    ensures SumSquares(xs) == n * WORD
  {
    if n > 0 { Repeated(xs[..n - 1], n - 1); }
  }
}
