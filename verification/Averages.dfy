/** Moving averages as weighted sums of all their samples. */
module Averages {

  /** `x` times the `k`-th power of `q`. */
  ghost function Faded(q: real, k: nat, x: real): real {
    if k == 0 then x else q * Faded(q, k - 1, x)
  }

  /** The first `n` samples, with weight `a` on the newest of `xs` and (1 - a) times the next one's on each before. */
  ghost function Weighted(a: real, xs: seq<real>, n: nat): real
    requires n <= |xs|
  {
    if n == 0 then 0.0 else Weighted(a, xs, n - 1) + Faded(1.0 - a, |xs| - n, a * xs[n - 1])
  }

  /** All samples, and what weight they leave on where the average began. */
  ghost function Blend(a: real, base: real, xs: seq<real>): real {
    Faded(1.0 - a, |xs|, base) + Weighted(a, xs, |xs|)
  }

  lemma Factor(q: real, u: real, v: real)
    ensures q * u + q * v == q * (u + v)
  {
  }

  lemma {:induction false} WeightedFades(a: real, xs: seq<real>, x: real, n: nat)
    requires n <= |xs|
    ensures Weighted(a, xs + [x], n) == (1.0 - a) * Weighted(a, xs, n)
  {
    if n > 0 {
      WeightedFades(a, xs, x, n - 1);
      var q, k, y := 1.0 - a, |xs| - n, a * xs[n - 1];
      LastTerm(a, xs, x, n, y);
      FadedOnce(q, k, y);
      Factor(q, Weighted(a, xs, n - 1), Faded(q, k, y));
    }
  }

  lemma LastTerm(a: real, xs: seq<real>, x: real, n: nat, y: real)
    requires 0 < n <= |xs| && y == a * xs[n - 1]
    ensures Weighted(a, xs + [x], n) == Weighted(a, xs + [x], n - 1) + Faded(1.0 - a, |xs| - n + 1, y)
    ensures Weighted(a, xs, n) == Weighted(a, xs, n - 1) + Faded(1.0 - a, |xs| - n, y)
  {
    assert |xs + [x]| - n == |xs| - n + 1 && a * (xs + [x])[n - 1] == y;
  }

  lemma FadedOnce(q: real, k: nat, x: real)
    ensures Faded(q, k + 1, x) == q * Faded(q, k, x)
  {
  }

  /** One more sample moves the average by its share. */
  lemma BlendSnoc(a: real, base: real, xs: seq<real>, x: real)
    ensures Blend(a, base, xs + [x]) == a * x + (1.0 - a) * Blend(a, base, xs)
  {
    WeightedFades(a, xs, x, |xs|);
    Factor(1.0 - a, Faded(1.0 - a, |xs|, base), Weighted(a, xs, |xs|));
  }

  lemma BlendNone(a: real, base: real)
    ensures Blend(a, base, []) == base
  {
  }

  lemma PositiveMix(a: real, x: real, y: real)
    requires 0.0 < a < 1.0 && x >= 0.0 && y > 0.0
    ensures a * x + (1.0 - a) * y > 0.0
  {
    assert a * x >= 0.0 && (1.0 - a) * y > 0.0;
  }

  ghost predicate NoneNegative(xs: seq<real>) {
    forall i :: 0 <= i < |xs| ==> xs[i] >= 0.0
  }

  lemma {:induction false} BlendPositive(a: real, base: real, xs: seq<real>)
    requires 0.0 < a < 1.0 && base > 0.0 && NoneNegative(xs)
    ensures Blend(a, base, xs) > 0.0
  {
    if xs == [] {
      BlendNone(a, base);
    } else {
      var n := |xs| - 1;
      BlendPositive(a, base, xs[..n]);
      PositiveMix(a, xs[n], Blend(a, base, xs[..n]));
      BlendSnoc(a, base, xs[..n], xs[n]);
      assert xs[..n] + [xs[n]] == xs;
    }
  }

  /** How many samples are zero before the first that is not. */
  ghost function Idle(xs: seq<real>): (n: nat)
    ensures n <= |xs| && (n < |xs| ==> xs[n] != 0.0) && forall i :: 0 <= i < n ==> xs[i] == 0.0
  {
    if xs == [] then 0
    else
      var n := Idle(xs[..|xs| - 1]);
      if n < |xs| - 1 || xs[|xs| - 1] != 0.0 then n else |xs|
  }

  /** An average that begins with its first sample other than zero. */
  ghost function Averaged(a: real, xs: seq<real>): real {
    var n := Idle(xs);
    if n == |xs| then 0.0 else Blend(a, xs[n], xs[n + 1..])
  }

  lemma IdleSnoc(xs: seq<real>, x: real)
    ensures Idle(xs + [x]) == if Idle(xs) == |xs| && x == 0.0 then |xs| + 1 else Idle(xs)
  {
    assert (xs + [x])[..|xs|] == xs;
  }

  /** A zero is replaced by the sample, any other average moves by the sample's share. */
  ghost function Moved(a: real, x: real, average: real): real {
    if average == 0.0 then x else a * x + (1.0 - a) * average
  }

  /** Moving it sample by sample keeps it. */
  lemma AveragedSnoc(a: real, xs: seq<real>, x: real)
    requires 0.0 < a <= 1.0 && NoneNegative(xs) && x >= 0.0
    ensures Averaged(a, xs + [x]) == Moved(a, x, Averaged(a, xs))
  {
    var n, more := Idle(xs), xs + [x];
    IdleSnoc(xs, x);
    if n == |xs| {
      assert x != 0.0 ==> more[n + 1..] == [];
      BlendNone(a, x);
    } else {
      assert more[n + 1..] == xs[n + 1..] + [x] && more[n] == xs[n];
      BlendGoesOn(a, xs[n], xs[n + 1..], x);
    }
  }

  lemma BlendGoesOn(a: real, base: real, xs: seq<real>, x: real)
    requires 0.0 < a <= 1.0 && base > 0.0 && NoneNegative(xs) && x >= 0.0
    ensures Blend(a, base, xs + [x]) == Moved(a, x, Blend(a, base, xs))
  {
    BlendSnoc(a, base, xs, x);
    if a < 1.0 {
      BlendPositive(a, base, xs);
    } else {
      NewestWins(a, x, Blend(a, base, xs));
    }
  }

  lemma NewestWins(a: real, x: real, y: real)
    requires a == 1.0
    ensures a * x + (1.0 - a) * y == x
  {
  }
}
