/** Finite sums of real-valued functions over an initial segment of the naturals, and real arithmetic. */
module Sums {

  function Sum(f: int -> real, n: nat): real {
    if n == 0 then 0.0 else Sum(f, n - 1) + f(n - 1)
  }

  /** An entry of a vector, zero outside it. */
  ghost function At(x: seq<real>, i: int): real {
    if 0 <= i < |x| then x[i] else 0.0
  }

  function Abs(x: real): real {
    if x < 0.0 then -x else x
  }

  lemma {:induction false} SumMonotone(f: int -> real, g: int -> real, n: nat)
    requires forall i :: 0 <= i < n ==> f(i) <= g(i)
    ensures Sum(f, n) <= Sum(g, n)
  {
    if n > 0 { SumMonotone(f, g, n - 1); }
  }

  lemma {:induction false} SumCongruence(f: int -> real, g: int -> real, n: nat)
    requires forall i :: 0 <= i < n ==> f(i) == g(i)
    ensures Sum(f, n) == Sum(g, n)
  {
    if n > 0 { SumCongruence(f, g, n - 1); }
  }

  lemma {:induction false} SumAdd(f: int -> real, g: int -> real, h: int -> real, n: nat)
    requires forall i :: 0 <= i < n ==> h(i) == f(i) + g(i)
    ensures Sum(h, n) == Sum(f, n) + Sum(g, n)
  {
    if n > 0 { SumAdd(f, g, h, n - 1); }
  }

  lemma {:induction false} SumScale(f: int -> real, h: int -> real, a: real, n: nat)
    requires forall i :: 0 <= i < n ==> h(i) == a * f(i)
    ensures Sum(h, n) == a * Sum(f, n)
  {
    if n > 0 {
      SumScale(f, h, a, n - 1);
      Distribute(a, Sum(f, n - 1), f(n - 1));
    }
  }

  lemma SumConstant(h: int -> real, c: real, n: nat)
    requires forall i :: 0 <= i < n ==> h(i) == c
    ensures Sum(h, n) == n as real * c
  {
    SumOfCopies(h, c, n);
    TimesIsProduct(c, n);
  }

  lemma {:induction false} SumOfCopies(h: int -> real, c: real, n: nat)
    requires forall i :: 0 <= i < n ==> h(i) == c
    ensures Sum(h, n) == Times(c, n)
  {
    if n > 0 { SumOfCopies(h, c, n - 1); }
  }

  lemma Distribute(a: real, b: real, c: real)
    ensures a * (b + c) == a * b + a * c
  {
  }

  /** Raising one summand raises the sum by as much. */
  lemma {:induction false} SumBump(f: int -> real, g: int -> real, k: nat, delta: real, n: nat)
    requires k < n
    requires forall i :: 0 <= i < n ==> g(i) == f(i) + (if i == k then delta else 0.0)
    ensures Sum(g, n) == Sum(f, n) + delta
  {
    if k < n - 1 {
      SumBump(f, g, k, delta, n - 1);
    } else {
      SumCongruence(f, g, n - 1);
    }
  }

  /** One nonnegative summand is at most the whole sum. */
  lemma {:induction false} SummandBound(f: int -> real, k: nat, n: nat)
    requires k < n
    requires forall i :: 0 <= i < n ==> f(i) >= 0.0
    ensures 0.0 <= f(k) <= Sum(f, n)
  {
    if k < n - 1 {
      SummandBound(f, k, n - 1);
    } else {
      SumMonotone(i => 0.0, f, n - 1);
      SumConstant(i => 0.0, 0.0, n - 1);
    }
  }

  lemma SumScaledBound(h: int -> real, f: int -> real, a: real, n: nat)
    requires forall i :: 0 <= i < n ==> h(i) <= a * f(i)
    ensures Sum(h, n) <= a * Sum(f, n)
  {
    SumMonotone(h, i => a * f(i), n);
    SumScale(f, i => a * f(i), a, n);
  }

  // ---------- Products and quotients ----------

  lemma ScaleMonotone(c: real, a: real, b: real)
    requires c >= 0.0 && a <= b
    ensures c * a <= c * b
  {
  }

  lemma QuotientMonotone(a: real, b: real, c: real)
    requires c > 0.0 && a <= b
    ensures a / c <= b / c
  {
  }

  lemma QuotientStrict(a: real, b: real, c: real)
    requires c > 0.0 && a < b
    ensures a / c < b / c
  {
  }

  lemma QuotientSelf(c: real)
    requires c > 0.0
    ensures c / c == 1.0 && 0.0 / c == 0.0
  {
  }

  lemma ScaledQuotient(a: real, b: real, c: real)
    requires c != 0.0
    ensures a * (b / c) == (a * b) / c
  {
  }

  // ---------- Equal parts ----------

  /** The sum of `n` copies of `x`. */
  ghost function Times(x: real, n: nat): real {
    if n == 0 then 0.0 else Times(x, n - 1) + x
  }

  lemma {:induction false} TimesIsProduct(x: real, n: nat)
    ensures Times(x, n) == n as real * x
  {
    if n > 0 {
      TimesIsProduct(x, n - 1);
      Distribute(x, (n - 1) as real, 1.0);
    }
  }

  lemma DivideBack(a: real, c: real)
    requires c > 0.0
    ensures c * (a / c) == a && (c * a) / c == a
  {
  }

  lemma PartExists(a: real, n: nat)
    requires n > 0
    ensures exists q :: Times(q, n) == a
  {
    TimesIsProduct(a / n as real, n);
    DivideBack(a, n as real);
  }

  /** `a` divided by `n`, said without a division: the number of which `n` copies make `a`. */
  ghost function Part(a: real, n: nat): (q: real)
    requires n > 0
    ensures Times(q, n) == a
  {
    PartExists(a, n);
    var q :| Times(q, n) == a;
    q
  }

  lemma PartIsQuotient(a: real, n: nat)
    requires n > 0
    ensures Part(a, n) == a / n as real
  {
    TimesIsProduct(Part(a, n), n);
    DivideBack(Part(a, n), n as real);
  }

  lemma {:induction false} TimesMonotone(x: real, y: real, n: nat)
    requires x < y
    ensures Times(x, n) <= Times(y, n) && (n > 0 ==> Times(x, n) < Times(y, n))
  {
    if n > 0 { TimesMonotone(x, y, n - 1); }
  }

  lemma {:induction false} TimesAdds(x: real, y: real, n: nat)
    ensures Times(x + y, n) == Times(x, n) + Times(y, n)
  {
    if n > 0 { TimesAdds(x, y, n - 1); }
  }

  lemma PartMonotone(a: real, b: real, n: nat)
    requires n > 0 && a <= b
    ensures Part(a, n) <= Part(b, n)
  {
    if Part(a, n) > Part(b, n) { TimesMonotone(Part(b, n), Part(a, n), n); }
  }

  lemma PartUnique(a: real, q: real, n: nat)
    requires n > 0 && Times(q, n) == a
    ensures Part(a, n) == q
  {
    if Part(a, n) < q { TimesMonotone(Part(a, n), q, n); }
    if Part(a, n) > q { TimesMonotone(q, Part(a, n), n); }
  }

  lemma PartsAdd(a: real, b: real, n: nat)
    requires n > 0
    ensures Part(a + b, n) == Part(a, n) + Part(b, n)
  {
    TimesAdds(Part(a, n), Part(b, n), n);
    PartUnique(a + b, Part(a, n) + Part(b, n), n);
  }

  lemma PartNonnegative(a: real, n: nat)
    requires n > 0 && a >= 0.0
    ensures Part(a, n) >= 0.0
  {
    TimesIsProduct(0.0, n);
    PartUnique(0.0, 0.0, n);
    PartMonotone(0.0, a, n);
  }

  /** Parts of two numbers differ by the part of their difference. */
  lemma PartGap(a: real, b: real, n: nat)
    requires n > 0
    ensures Abs(Part(a, n) - Part(b, n)) == Part(Abs(a - b), n)
  {
    if a >= b {
      PartsAdd(b, a - b, n);
      PartNonnegative(a - b, n);
    } else {
      PartsAdd(a, b - a, n);
      PartNonnegative(b - a, n);
    }
  }
}
