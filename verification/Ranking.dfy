/**
 What the rounds of the page ranking job approach: every graph has exactly one ranking that a round leaves
 alone. It is found one score after the other, since a round is an affine map that brings vectors closer.
 */
module Rankings {
  import opened Sums
  import opened PageRank

  // ---------- A round is affine ----------

  /** The point on the line through `a` (at 0) and `b` (at 1). */
  function Mix(a: real, b: real, t: real): real {
    a + t * (b - a)
  }

  ghost function MixOf(x: seq<real>, y: seq<real>, t: real): (z: seq<real>)
    ensures |z| == |x|
  {
    seq(|x|, i => Mix(At(x, i), At(y, i), t))
  }

  lemma MixAdds(a: real, b: real, c: real, d: real, t: real)
    ensures Mix(a, b, t) + Mix(c, d, t) == Mix(a + c, b + d, t)
  {
    Distribute(t, b - a, d - c);
  }

  lemma {:induction false} TimesMix(a: real, b: real, t: real, n: nat)
    ensures Times(Mix(a, b, t), n) == Mix(Times(a, n), Times(b, n), t)
  {
    if n > 0 {
      TimesMix(a, b, t, n - 1);
      MixAdds(Times(a, n - 1), Times(b, n - 1), a, b, t);
    }
  }

  lemma PartMix(a: real, b: real, t: real, n: nat)
    requires n > 0
    ensures Part(Mix(a, b, t), n) == Mix(Part(a, n), Part(b, n), t)
  {
    TimesMix(Part(a, n), Part(b, n), t, n);
    PartUnique(Mix(a, b, t), Mix(Part(a, n), Part(b, n), t), n);
  }

  ghost predicate Mixes(x: seq<real>, y: seq<real>, z: seq<real>, t: real) {
    |x| == |y| == |z| && forall i :: 0 <= i < |x| ==> z[i] == Mix(x[i], y[i], t)
  }

  lemma AtMixes(x: seq<real>, y: seq<real>, z: seq<real>, t: real, i: int)
    requires Mixes(x, y, z, t)
    ensures At(z, i) == Mix(At(x, i), At(y, i), t)
  {
  }

  lemma ShareMixes(edges: seq<Edge>, x: seq<real>, y: seq<real>, z: seq<real>, t: real, j: nat)
    requires Mixes(x, y, z, t)
    ensures Share(edges, z, j) == Mix(Share(edges, x, j), Share(edges, y, j), t)
  {
    AtMixes(x, y, z, t, j);
    if OutDegree(edges, j) > 0 { PartMix(At(x, j), At(y, j), t, OutDegree(edges, j)); }
  }

  lemma {:induction false} ShareSumMixes(edges: seq<Edge>, x: seq<real>, y: seq<real>, z: seq<real>, t: real,
                                         sources: seq<nat>)
    requires Mixes(x, y, z, t)
    ensures ShareSum(edges, z, sources) == Mix(ShareSum(edges, x, sources), ShareSum(edges, y, sources), t)
  {
    if sources != [] {
      var before, j := sources[..|sources| - 1], sources[|sources| - 1];
      ShareSumMixes(edges, x, y, z, t, before);
      ShareMixes(edges, x, y, z, t, j);
      MixAdds(ShareSum(edges, x, before), ShareSum(edges, y, before), Share(edges, x, j), Share(edges, y, j), t);
    }
  }

  lemma {:induction false} DanglingMixes(edges: seq<Edge>, x: seq<real>, y: seq<real>, z: seq<real>, t: real, k: nat)
    requires Mixes(x, y, z, t)
    ensures Dangling(edges, z, k) == Mix(Dangling(edges, x, k), Dangling(edges, y, k), t)
  {
    if k > 0 {
      DanglingMixes(edges, x, y, z, t, k - 1);
      AtMixes(x, y, z, t, k - 1);
      MixAdds(Dangling(edges, x, k - 1), Dangling(edges, y, k - 1),
              DanglingAt(edges, x, k - 1), DanglingAt(edges, y, k - 1), t);
    }
  }

  lemma FlowMixes(n: nat, edges: seq<Edge>, x: seq<real>, y: seq<real>, z: seq<real>, t: real, i: nat)
    requires n > 0 && Mixes(x, y, z, t)
    ensures Flow(n, edges, z, i) == Mix(Flow(n, edges, x, i), Flow(n, edges, y, i), t)
  {
    ShareSumMixes(edges, x, y, z, t, Inbound(edges, i));
    DanglingMixes(edges, x, y, z, t, n);
    PartMix(Dangling(edges, x, n), Dangling(edges, y, n), t, n);
    MixAdds(ShareSum(edges, x, Inbound(edges, i)), ShareSum(edges, y, Inbound(edges, i)),
            Part(Dangling(edges, x, n), n), Part(Dangling(edges, y, n), n), t);
  }

  lemma DampedMix(base: real, a: real, b: real, t: real)
    ensures base + Damped(Mix(a, b, t)) == Mix(base + Damped(a), base + Damped(b), t)
  {
    assert 0.85 * (t * (b - a)) == t * (0.85 * b - 0.85 * a);
  }

  /** A round takes points on a line to points on a line. */
  lemma IterateMixes(n: nat, edges: seq<Edge>, x: seq<real>, y: seq<real>, z: seq<real>, t: real)
    requires n > 0 && Mixes(x, y, z, t)
    ensures Mixes(Iterate(n, edges, x), Iterate(n, edges, y), Iterate(n, edges, z), t)
  {
    forall i | 0 <= i < n
      ensures Iterate(n, edges, z)[i] == Mix(Iterate(n, edges, x)[i], Iterate(n, edges, y)[i], t)
    {
      FlowMixes(n, edges, x, y, z, t, i);
      DampedMix(1.0 - DAMPING, Flow(n, edges, x, i), Flow(n, edges, y, i), t);
    }
  }

  // ---------- One score after the other ----------

  /** A round leaves the first `m` scores alone, and the others are those of `z`. */
  ghost predicate Settled(n: nat, edges: seq<Edge>, m: nat, z: seq<real>, x: seq<real>)
    requires n > 0
  {
    && |x| == |z| == n && m <= n
    && (forall i :: 0 <= i < m ==> Iterate(n, edges, x)[i] == x[i])
    && (forall i :: m <= i < n ==> x[i] == z[i])
  }

  /** By how much the round would raise score `m`. */
  ghost function Rise(n: nat, edges: seq<Edge>, x: seq<real>, m: nat): real
    requires n > 0 && |x| == n && m < n
  {
    Iterate(n, edges, x)[m] - x[m]
  }

  /**
   Two vectors that agree behind score `m`, and whose first `m` scores are settled, do not rise by the
   same amount at `m`: a round would keep their distance.
   */
  lemma RisesDiffer(n: nat, edges: seq<Edge>, m: nat, x: seq<real>, y: seq<real>)
    requires n > 0 && WellFormed(n, edges) && m < n
    requires Settled(n, edges, m, x, x) && Settled(n, edges, m, y, y)
    requires x[m] != y[m] && forall i :: m < i < n ==> x[i] == y[i]
    ensures Rise(n, edges, x, m) != Rise(n, edges, y, m)
  {
    if Rise(n, edges, x, m) == Rise(n, edges, y, m) {
      var x', y' := Iterate(n, edges, x), Iterate(n, edges, y);
      var now := i => Abs(At(x, i) - At(y, i));
      forall i | 0 <= i < n ensures now(i) <= Abs(At(x', i) - At(y', i)) {
      }
      SumMonotone(now, i => Abs(At(x', i) - At(y', i)), n);
      SumCongruence(now, i => Abs(At(x, i) - At(y, i)), n);
      Contraction(n, edges, x, y);
      DistanceZero(x, y, n);
    }
  }

  lemma RootOfLine(a: real, b: real) returns (t: real)
    requires a != b
    ensures Mix(a, b, t) == 0.0
  {
    t := a / (a - b);
    assert t * (a - b) == a;
  }

  lemma MixSame(a: real, t: real)
    ensures Mix(a, a, t) == a
  {
  }

  lemma RiseMixes(a: real, b: real, c: real, d: real, t: real)
    requires Mix(a - c, b - d, t) == 0.0
    ensures Mix(a, b, t) == Mix(c, d, t)
  {
    MixAdds(a - c, b - d, c, d, t);
  }

  lemma SettledMixes(n: nat, edges: seq<Edge>, m: nat, z: seq<real>, x: seq<real>, y: seq<real>, t: real)
    requires n > 0 && m < n && Settled(n, edges, m, x, x) && Settled(n, edges, m, y, y)
    requires |z| == n && forall i :: m < i < n ==> x[i] == y[i] == z[i]
    requires Mix(Rise(n, edges, x, m), Rise(n, edges, y, m), t) == 0.0
    ensures Settled(n, edges, m + 1, z, MixOf(x, y, t))
  {
    var w := MixOf(x, y, t);
    var x', y', w' := Iterate(n, edges, x), Iterate(n, edges, y), Iterate(n, edges, w);
    assert Mixes(x, y, w, t);
    IterateMixes(n, edges, x, y, w, t);
    RiseMixes(x'[m], y'[m], x[m], y[m], t);
    forall i | m < i < n ensures w[i] == z[i] {
      MixSame(z[i], t);
    }
  }

  /** Whatever the other scores are, the first `m` can be chosen such that a round leaves them alone. */
  lemma {:induction false} Settle(n: nat, edges: seq<Edge>, m: nat, z: seq<real>) returns (x: seq<real>)
    requires n > 0 && WellFormed(n, edges) && m <= n && |z| == n
    ensures Settled(n, edges, m, z, x)
  {
    if m == 0 {
      return z;
    }
    var k := m - 1;
    var low := Settle(n, edges, k, z[k := 0.0]);
    var high := Settle(n, edges, k, z[k := 1.0]);
    RisesDiffer(n, edges, k, low, high);
    var t := RootOfLine(Rise(n, edges, low, k), Rise(n, edges, high, k));
    SettledMixes(n, edges, k, z, low, high, t);
    x := MixOf(low, high, t);
  }

  // ---------- The ranking ----------

  ghost function Zeros(n: nat): (x: seq<real>)
    ensures |x| == n
  {
    seq(n, i => 0.0)
  }

  lemma DistanceTriangle(x: seq<real>, y: seq<real>, z: seq<real>, n: nat)
    requires |x| == |y| == |z| == n
    ensures Distance(x, z, n) <= Distance(x, y, n) + Distance(y, z, n)
  {
    SumAdd(i => Abs(At(x, i) - At(y, i)), i => Abs(At(y, i) - At(z, i)),
           i => Abs(At(x, i) - At(y, i)) + Abs(At(y, i) - At(z, i)), n);
    SumMonotone(i => Abs(At(x, i) - At(z, i)), i => Abs(At(x, i) - At(y, i)) + Abs(At(y, i) - At(z, i)), n);
  }

  lemma ConstantFromZeros(x: seq<real>, c: real, n: nat)
    requires |x| == n && c >= 0.0 && forall i :: 0 <= i < n ==> x[i] == c
    ensures Distance(x, Zeros(n), n) == n as real * c && Distance(Zeros(n), x, n) == n as real * c
  {
    SumConstant(i => Abs(At(x, i) - At(Zeros(n), i)), c, n);
    SumConstant(i => Abs(At(Zeros(n), i) - At(x, i)), c, n);
  }

  lemma IterateZeros(n: nat, edges: seq<Edge>, i: nat)
    requires n > 0 && WellFormed(n, edges) && i < n
    ensures Iterate(n, edges, Zeros(n))[i] == 1.0 - DAMPING
  {
    SumConstant(j => At(Zeros(n), j), 0.0, n);
    FlowAtMostTotal(n, edges, Zeros(n), i);
  }

  /** The scores of the ranking, taken without their signs, add up to at most N. */
  lemma RankingNorm(n: nat, edges: seq<Edge>, p: seq<real>)
    requires n > 0 && WellFormed(n, edges) && FixedPoint(n, edges, p)
    ensures Distance(Zeros(n), p, n) <= n as real
  {
    var first := Iterate(n, edges, Zeros(n));
    forall i: nat | i < n ensures first[i] == 1.0 - DAMPING {
      IterateZeros(n, edges, i);
    }
    ConstantFromZeros(first, 1.0 - DAMPING, n);
    Contraction(n, edges, Zeros(n), p);
    DistanceTriangle(Zeros(n), first, p, n);
  }

  lemma RankingNearStart(n: nat, edges: seq<Edge>, p: seq<real>)
    requires n > 0 && WellFormed(n, edges) && FixedPoint(n, edges, p)
    ensures Distance(Ones(n), p, n) <= 2.0 * n as real
  {
    ConstantFromZeros(Ones(n), 1.0, n);
    RankingNorm(n, edges, p);
    DistanceTriangle(Ones(n), Zeros(n), p, n);
  }

  /**
   Every graph has one and only one ranking that a round leaves alone. After `k` rounds (the job runs
   `ITERATIONS`) the scores are, all together, within 0.85^k * 2 N of it.
   */
  lemma ErrorBound(n: nat, edges: seq<Edge>) returns (p: seq<real>)
    requires n > 0 && WellFormed(n, edges)
    ensures FixedPoint(n, edges, p) && forall q :: FixedPoint(n, edges, q) ==> q == p
    ensures forall k: nat :: Distance(Power(n, edges, Ones(n), k), p, n) <= Shrink(2.0 * n as real, k)
  {
    p := Settle(n, edges, n, Zeros(n));
    assert Iterate(n, edges, p) == p;
    forall q | FixedPoint(n, edges, q) ensures q == p {
      FixedPointUnique(n, edges, p, q);
    }
    RankingNearStart(n, edges, p);
    forall k: nat ensures Distance(Power(n, edges, Ones(n), k), p, n) <= Shrink(2.0 * n as real, k) {
      FixedPointStays(n, edges, p, k);
      RoundsContract(n, edges, Ones(n), p, k);
      ShrinkMonotone(Distance(Ones(n), p, n), 2.0 * n as real, k);
    }
  }
}
