/**
 Fuzzy token matching of the search ranker: edit similarity with an early exit, the thresholded
 token similarity, and the weighted coverage of a query by a field. Scores are real numbers.
 */
module TokenSimilarity {
  import opened EditDistance
  import opened Sums
  import Texts

  const THRESHOLD := 0.72

  predicate HasPrefix(s: string, prefix: string) {
    prefix <= s
  }

  // ---------- Specification ----------

  ghost function LongerLength(a: string, b: string): nat {
    Max(|a|, |b|)
  }

  /** One minus the alignment distance per rune of the longer string: no early exit. */
  ghost function EditSimilarity(a: string, b: string): real {
    if a == "" || b == "" then 0.0
    else 1.0 - Osa(a, b) as real / LongerLength(a, b) as real
  }

  ghost function Similarity(q: string, f: string): real {
    if q == "" || f == "" then 0.0
    else if q == f then 1.0
    else if HasPrefix(f, q) || HasPrefix(q, f) then 0.94
    else if Texts.Contains(f, q) || Texts.Contains(q, f) then 0.88
    else if |q| < 4 || |f| < 4 then 0.0
    else if EditSimilarity(q, f) < THRESHOLD then 0.0
    else EditSimilarity(q, f)
  }

  /** The best similarity of a query token with the tokens of a field. */
  ghost function Best(q: string, fields: seq<string>): real {
    if fields == [] then 0.0
    else
      var before := Best(q, fields[..|fields| - 1]);
      var last := Similarity(q, fields[|fields| - 1]);
      if last > before then last else before
  }

  function Weight(idf: map<string, real>, q: string): (w: real)
    ensures w > 0.0
  {
    if q in idf && idf[q] > 0.0 then idf[q] else 1.0
  }

  function Weights(idf: map<string, real>, query: seq<string>): (w: seq<real>)
    ensures |w| == |query| && forall i :: 0 <= i < |w| ==> w[i] > 0.0
  {
    seq(|query|, i requires 0 <= i < |query| => Weight(idf, query[i]))
  }

  ghost function Bests(query: seq<string>, fields: seq<string>): (b: seq<real>)
    ensures |b| == |query|
  {
    seq(|query|, i requires 0 <= i < |query| => Best(query[i], fields))
  }

  /** Weight `i` if the best similarity there reaches the threshold. */
  ghost function MatchedAt(bests: seq<real>, weights: seq<real>, i: int): real {
    if At(bests, i) >= THRESHOLD then At(weights, i) else 0.0
  }

  ghost function TotalWeight(weights: seq<real>, n: nat): real {
    Sum(i => At(weights, i), n)
  }

  ghost function MatchedWeight(bests: seq<real>, weights: seq<real>, n: nat): real {
    Sum(i => MatchedAt(bests, weights, i), n)
  }

  ghost function WeightedSimilarity(bests: seq<real>, weights: seq<real>, n: nat): real {
    Sum(i => At(bests, i) * At(weights, i), n)
  }

  ghost function CountOnes(bests: seq<real>): nat {
    if bests == [] then 0
    else CountOnes(bests[..|bests| - 1]) + if bests[|bests| - 1] == 1.0 then 1 else 0
  }

  /** How many query tokens (repetitions included) are non-empty and occur in the field. */
  ghost function ExactMatches(query: seq<string>, fields: seq<string>): nat {
    if query == [] then 0
    else
      var q := query[|query| - 1];
      ExactMatches(query[..|query| - 1], fields) + if q != "" && q in fields then 1 else 0
  }

  // ---------- Similarity ----------

  lemma FractionBounds(d: nat, low: nat, n: nat)
    requires 0 < n && low <= d <= n
    ensures 0.0 <= 1.0 - d as real / n as real <= 1.0 - low as real / n as real
    ensures 1.0 - d as real / n as real <= 1.0
    ensures 1.0 - d as real / n as real == 1.0 <==> d == 0
  {
    QuotientSelf(n as real);
    QuotientMonotone(low as real, d as real, n as real);
    QuotientMonotone(d as real, n as real, n as real);
    QuotientMonotone(0.0, d as real, n as real);
    if d > 0 {
      QuotientStrict(0.0, d as real, n as real);
    }
  }

  /** The similarity of two different tokens is below one, and at most what their lengths allow. */
  lemma EditSimilarityBounds(a: string, b: string)
    requires a != "" && b != ""
    ensures 0.0 <= EditSimilarity(a, b) <= 1.0
    ensures EditSimilarity(a, b) == 1.0 <==> a == b
    ensures EditSimilarity(a, b) == EditSimilarity(b, a)
    ensures EditSimilarity(a, b)
            <= 1.0 - Max(|a| - |b|, |b| - |a|) as real / LongerLength(a, b) as real
  {
    DistIsSemimetric(false, a, b);
    FractionBounds(Osa(a, b), Max(|a| - |b|, |b| - |a|), LongerLength(a, b));
  }

  method NormalizedEditSimilarity(a: string, b: string) returns (similarity: real)
    ensures similarity == EditSimilarity(a, b) || (similarity == 0.0 && EditSimilarity(a, b) < 0.7)
  {
    if a == "" || b == "" {
      return 0.0;
    }
    EditSimilarityBounds(a, b);
    if a == b {
      return 1.0;
    }
    var maxLen := |a|;
    if |b| > maxLen {
      maxLen := |b|;
    }
    var lenDiff := |a| - |b|;
    if lenDiff < 0 {
      lenDiff := -lenDiff;
    }
    if lenDiff as real / maxLen as real > 0.3 {
      return 0.0;
    }
    var distance := DamerauLevenshteinDistanceRunes(a, b);
    similarity := 1.0 - distance as real / maxLen as real;
    if similarity < 0.0 {
      similarity := 0.0;
    }
  }

  /** The early exit on lengths never changes the answer. */
  method SearchTokenSimilarity(queryToken: string, fieldToken: string) returns (similarity: real)
    ensures similarity == Similarity(queryToken, fieldToken)
  {
    if queryToken == "" || fieldToken == "" {
      return 0.0;
    }
    if queryToken == fieldToken {
      return 1.0;
    }
    if HasPrefix(fieldToken, queryToken) || HasPrefix(queryToken, fieldToken) {
      return 0.94;
    }
    if Texts.Contains(fieldToken, queryToken) || Texts.Contains(queryToken, fieldToken) {
      return 0.88;
    }
    if |queryToken| < 4 || |fieldToken| < 4 {
      return 0.0;
    }
    similarity := NormalizedEditSimilarity(queryToken, fieldToken);
    if similarity < THRESHOLD {
      return 0.0;
    }
  }

  /** Token similarity is symmetric, is one exactly on equal non-empty tokens, and skips (0, 0.72). */
  lemma SimilarityLaws(q: string, f: string)
    ensures Similarity(q, f) == Similarity(f, q)
    ensures Similarity(q, f) == 0.0 || 0.72 <= Similarity(q, f) <= 1.0
    ensures Similarity(q, f) == 1.0 <==> q != "" && q == f
    ensures q != "" && f != "" && q != f ==>
              && (q <= f || f <= q ==> Similarity(q, f) == 0.94)
              && (!(q <= f || f <= q) && (Texts.Contains(f, q) || Texts.Contains(q, f)) ==> Similarity(q, f) == 0.88)
    ensures q != "" && f != "" && !Texts.Contains(f, q) && !Texts.Contains(q, f) ==>
              var cost := Osa(q, f) as real / Max(|q|, |f|) as real;
              Similarity(q, f) == if |q| >= 4 && |f| >= 4 && cost <= 0.28 then 1.0 - cost else 0.0
  {
    PrefixIsContained(q, f);
    if q != "" && f != "" {
      EditSimilarityBounds(q, f);
    }
  }

  lemma PrefixIsContained(q: string, f: string)
    ensures q <= f ==> Texts.Contains(f, q)
    ensures f <= q ==> Texts.Contains(q, f)
  {
    if q <= f { assert Texts.OccursAt(f, q, 0); }
    if f <= q { assert Texts.OccursAt(q, f, 0); }
  }

  lemma {:induction false} BestRange(q: string, fields: seq<string>)
    ensures Best(q, fields) == 0.0 || THRESHOLD <= Best(q, fields) <= 1.0
    ensures Best(q, fields) == 1.0 <==> q != "" && q in fields
  {
    if fields != [] {
      var last, before := fields[|fields| - 1], fields[..|fields| - 1];
      BestRange(q, before);
      SimilarityLaws(q, last);
      assert fields == before + [last];
    }
  }

  /** `Best` is the maximum: zero when nothing matches, else attained by a token of the field. */
  lemma {:induction false} BestIsMaximum(q: string, fields: seq<string>)
    ensures forall f :: f in fields ==> Similarity(q, f) <= Best(q, fields)
    ensures Best(q, fields) > 0.0 ==> exists f :: f in fields && Best(q, fields) == Similarity(q, f)
  {
    if fields != [] {
      var last, before := fields[|fields| - 1], fields[..|fields| - 1];
      BestIsMaximum(q, before);
      assert fields == before + [last];
      if Best(q, fields) > 0.0 {
        if Best(q, fields) == Similarity(q, last) {
          assert last in fields;
        } else {
          var f :| f in before && Best(q, before) == Similarity(q, f);
          assert f in fields;
        }
      }
    }
  }

  /** Some token of the field is similar to `q` at all. */
  ghost predicate Matches(q: string, fields: seq<string>) {
    exists f :: f in fields && Similarity(q, f) > 0.0
  }

  /** Some token of the field is similar enough. */
  ghost predicate Reaches(q: string, fields: seq<string>) {
    exists f :: f in fields && Similarity(q, f) >= 0.72
  }

  lemma MatchesIffBest(q: string, fields: seq<string>)
    ensures Matches(q, fields) <==> Best(q, fields) >= THRESHOLD
  {
    BestRange(q, fields);
    BestIsMaximum(q, fields);
  }

  // ---------- Coverage ----------

  lemma TermBounds(best: real, w: real, part: real)
    requires w > 0.0 && (best == 0.0 || THRESHOLD <= best <= 1.0)
    requires part == if best >= THRESHOLD then w else 0.0
    ensures THRESHOLD * part <= best * w <= part
  {
    if best == 0.0 {
      assert best * w == 0.0;
    } else {
      ScaleMonotone(w, THRESHOLD, best);
      ScaleMonotone(w, best, 1.0);
      assert w * best == best * w;
    }
  }

  ghost predicate InRange(bests: seq<real>) {
    forall i :: 0 <= i < |bests| ==> bests[i] == 0.0 || THRESHOLD <= bests[i] <= 1.0
  }

  /** Matched weight brackets weighted similarity, because no best similarity lies in (0, 0.72). */
  lemma CoverageBounds(bests: seq<real>, weights: seq<real>)
    requires |bests| == |weights| && InRange(bests)
    requires forall i :: 0 <= i < |weights| ==> weights[i] > 0.0
    ensures var n := |bests|;
            && THRESHOLD * MatchedWeight(bests, weights, n) <= WeightedSimilarity(bests, weights, n)
            && WeightedSimilarity(bests, weights, n) <= MatchedWeight(bests, weights, n)
            && 0.0 <= MatchedWeight(bests, weights, n) <= TotalWeight(weights, n)
            && (n > 0 ==> TotalWeight(weights, n) > 0.0)
  {
    var n := |bests|;
    var sim := i => At(bests, i) * At(weights, i);
    var matched := i => MatchedAt(bests, weights, i);
    forall i | 0 <= i < n
      ensures THRESHOLD * matched(i) <= sim(i) <= matched(i)
    {
      TermBounds(bests[i], weights[i], matched(i));
    }
    SumScale(matched, i => THRESHOLD * matched(i), THRESHOLD, n);
    SumMonotone(i => THRESHOLD * matched(i), sim, n);
    SumMonotone(sim, matched, n);
    SumMonotone(matched, i => At(weights, i), n);
    if n > 0 {
      SummandBound(matched, 0, n);
      SummandBound(i => At(weights, i), 0, n);
    }
  }

  lemma QuotientBounds(sim: real, matched: real, total: real)
    requires total > 0.0
    requires THRESHOLD * matched <= sim <= matched <= total && 0.0 <= matched
    ensures THRESHOLD * (matched / total) <= sim / total <= matched / total <= 1.0
    ensures 0.0 <= matched / total
    ensures sim / total * total == sim && matched / total * total == matched
  {
    QuotientSelf(total);
    ScaledQuotient(THRESHOLD, matched, total);
    QuotientMonotone(THRESHOLD * matched, sim, total);
    QuotientMonotone(sim, matched, total);
    QuotientMonotone(matched, total, total);
    QuotientMonotone(0.0, matched, total);
  }

  method SearchTokenCoverage(query: seq<string>, fields: seq<string>, idf: map<string, real>)
    returns (avg: real, coverage: real, exactMatches: nat, matchedFlags: seq<bool>)
    ensures query != [] && fields != [] ==>
              var b, w, n := Bests(query, fields), Weights(idf, query), |query|;
              && (forall i :: 0 <= i < n ==>
                    w[i] == if query[i] in idf && idf[query[i]] > 0.0 then idf[query[i]] else 1.0)
              && avg * TotalWeight(w, n) == WeightedSimilarity(b, w, n)
              && coverage * TotalWeight(w, n) == MatchedWeight(b, w, n)
              && TotalWeight(w, n) > 0.0
    ensures 0.72 * coverage <= avg <= coverage <= 1.0 && 0.0 <= coverage
    ensures exactMatches == ExactMatches(query, fields)
    ensures |matchedFlags| == |query|
    ensures forall i :: 0 <= i < |query| ==>
              (matchedFlags[i] <==> Reaches(query[i], fields))
  {
    hide Similarity, Best, WeightedSimilarity, MatchedWeight, TotalWeight, Reaches, Matches, IsBest, InRange, CountOnes;
    if |query| == 0 || |fields| == 0 {
      NoExactMatches(query, fields);
      return 0.0, 0.0, 0, seq(|query|, i => false);
    }
    ghost var bests := Bests(query, fields);
    BestsAnswer(query, fields);
    avg, coverage, exactMatches, matchedFlags := Accumulate(query, fields, idf, bests);
  }

  ghost predicate IsBest(bests: seq<real>, query: seq<string>, fields: seq<string>, i: nat)
    requires |bests| == |query| && i < |query|
  {
    bests[i] == Best(query[i], fields)
  }

  ghost predicate AreBests(bests: seq<real>, query: seq<string>, fields: seq<string>) {
    |bests| == |query| &&
    forall i: nat {:trigger IsBest(bests, query, fields, i)} :: i < |query| ==> IsBest(bests, query, fields, i)
  }

  /** The loop over the query tokens. */
  method Accumulate(query: seq<string>, fields: seq<string>, idf: map<string, real>, ghost bests: seq<real>)
    returns (avg: real, coverage: real, exactMatches: nat, matchedFlags: seq<bool>)
    requires query != [] && AreBests(bests, query, fields) && InRange(bests)
    ensures var w, n := Weights(idf, query), |query|;
            && avg * TotalWeight(w, n) == WeightedSimilarity(bests, w, n)
            && coverage * TotalWeight(w, n) == MatchedWeight(bests, w, n)
            && TotalWeight(w, n) > 0.0
    ensures THRESHOLD * coverage <= avg <= coverage <= 1.0 && 0.0 <= coverage
    ensures exactMatches == CountOnes(bests)
    ensures |matchedFlags| == |query|
    ensures forall i :: 0 <= i < |query| ==> (matchedFlags[i] <==> bests[i] >= THRESHOLD)
  {
    ghost var weights := Weights(idf, query);
    matchedFlags := [];
    exactMatches := 0;
    var totalSim, totalWeight, matchedWeight := 0.0, 0.0, 0.0;
    for i := 0 to |query|
      invariant totalSim == WeightedSimilarity(bests, weights, i)
      invariant totalWeight == TotalWeight(weights, i)
      invariant matchedWeight == MatchedWeight(bests, weights, i)
      invariant exactMatches == CountOnes(bests[..i])
      invariant |matchedFlags| == i
      invariant forall k :: 0 <= k < i ==> (matchedFlags[k] <==> bests[k] >= THRESHOLD)
    {
      assert bests[..i + 1][..i] == bests[..i];
      var w := Weight(idf, query[i]);
      assert w == At(weights, i);
      totalWeight := totalWeight + w;
      var best := BestSimilarity(query, i, fields, bests);
      assert best == At(bests, i);
      totalSim := totalSim + best * w;
      if best >= THRESHOLD {
        matchedWeight := matchedWeight + w;
      }
      matchedFlags := matchedFlags + [best >= THRESHOLD];
      if best == 1.0 {
        exactMatches := exactMatches + 1;
      }
    }
    assert bests[..|query|] == bests;
    CoverageBounds(bests, weights);
    avg, coverage := totalSim / totalWeight, matchedWeight / totalWeight;
    QuotientBounds(totalSim, matchedWeight, totalWeight);
  }

  /** The inner loop over the field. */
  method BestSimilarity(query: seq<string>, i: nat, fields: seq<string>, ghost bests: seq<real>)
    returns (best: real)
    requires i < |query| && AreBests(bests, query, fields)
    ensures best == bests[i]
  {
    best := 0.0;
    for k := 0 to |fields|
      invariant best == Best(query[i], fields[..k])
    {
      assert fields[..k + 1][..k] == fields[..k];
      var similarity := SearchTokenSimilarity(query[i], fields[k]);
      if similarity > best {
        best := similarity;
      }
    }
    assert fields[..|fields|] == fields;
    assert IsBest(bests, query, fields, i);
  }

  lemma MatchesAtThreshold(q: string, fields: seq<string>)
    ensures Matches(q, fields) <==> Reaches(q, fields)
  {
    hide Similarity;
    forall f | f in fields ensures Similarity(q, f) > 0.0 <==> Similarity(q, f) >= 0.72 {
      SimilarityLaws(q, f);
    }
  }

  /** What the list of best similarities says about the tokens. */
  lemma BestsAnswer(query: seq<string>, fields: seq<string>)
    ensures AreBests(Bests(query, fields), query, fields) && InRange(Bests(query, fields))
    ensures CountOnes(Bests(query, fields)) == ExactMatches(query, fields)
    ensures forall i :: 0 <= i < |query| ==>
              (Bests(query, fields)[i] >= THRESHOLD <==> Reaches(query[i], fields))
  {
    var b := Bests(query, fields);
    forall i: nat | i < |query|
      ensures IsBest(b, query, fields, i)
      ensures b[i] == 0.0 || THRESHOLD <= b[i] <= 1.0
      ensures b[i] >= THRESHOLD <==> Reaches(query[i], fields)
    {
      MatchesAtThreshold(query[i], fields);
      BestRange(query[i], fields);
      MatchesIffBest(query[i], fields);
    }
    OnesAreExact(query, fields);
  }

  lemma {:induction false} OnesAreExact(query: seq<string>, fields: seq<string>)
    ensures CountOnes(Bests(query, fields)) == ExactMatches(query, fields)
  {
    if query != [] {
      var before := query[..|query| - 1];
      OnesAreExact(before, fields);
      BestRange(query[|query| - 1], fields);
      var b := Bests(query, fields);
      assert b[..|b| - 1] == Bests(before, fields);
    }
  }

  lemma {:induction false} NoExactMatches(query: seq<string>, fields: seq<string>)
    requires query == [] || fields == []
    ensures ExactMatches(query, fields) == 0
    ensures forall i :: 0 <= i < |query| ==> !Reaches(query[i], fields)
  {
    if query != [] { NoExactMatches(query[..|query| - 1], fields); }
  }
}
