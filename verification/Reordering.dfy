/**
 The last stage of a search: language promotion within each effective domain, then a greedy
 diversifier that caps how often a domain may occur up to each position.
 */
module Reordering {
  import opened Options

  /** `id` stands for everything else a search candidate carries. */
  datatype Candidate = Candidate(id: int, domain: string, language: string, schemaType: string)

  // ---------- Vocabulary ----------

  ghost function Pick(cs: seq<Candidate>, order: seq<nat>): (r: seq<Candidate>)
    requires forall k :: 0 <= k < |order| ==> order[k] < |cs|
    ensures |r| == |order|
  {
    seq(|order|, k requires 0 <= k < |order| => cs[order[k]])
  }

  /** Every position below `n` once. */
  ghost predicate IsPermutation(order: seq<nat>, n: nat) {
    && |order| == n
    && (forall k :: 0 <= k < n ==> order[k] < n)
    && (forall j, k :: 0 <= j < k < n ==> order[j] != order[k])
  }

  function CountDomain(cs: seq<Candidate>, domain: string): nat {
    if cs == [] then 0
    else CountDomain(cs[..|cs| - 1], domain) + if cs[|cs| - 1].domain == domain then 1 else 0
  }

  /** The first candidate whose domain belongs to `group`. */
  ghost function FirstIn(cs: seq<Candidate>, groupOf: string -> string, group: string): Option<Candidate> {
    if cs == [] then None
    else
      var earlier := FirstIn(cs[..|cs| - 1], groupOf, group);
      var last := cs[|cs| - 1];
      if earlier.Some? then earlier
      else if groupOf(last.domain) == group then Some(last)
      else None
  }

  lemma {:induction false} PermutationPicksAll(cs: seq<Candidate>, order: seq<nat>)
    requires IsPermutation(order, |cs|)
    ensures multiset(Pick(cs, order)) == multiset(cs)
  {
    if cs != [] {
      var n := |cs| - 1;
      var p := PositionOf(order, n);
      var rest := order[..p] + order[p + 1..];
      LastTakenOut(order, p);
      PermutationPicksAll(cs[..n], rest);
      PickWithout(cs, order, p);
      BagWithout(Pick(cs, order), p);
      assert cs == cs[..n] + [cs[n]];
    }
  }

  lemma BagWithout(r: seq<Candidate>, p: nat)
    requires p < |r|
    ensures multiset(r) == multiset(r[..p] + r[p + 1..]) + multiset{r[p]}
  {
    assert r == r[..p] + ([r[p]] + r[p + 1..]);
  }

  lemma LastTakenOut(order: seq<nat>, p: nat)
    requires p < |order| && IsPermutation(order, |order|) && order[p] == |order| - 1
    ensures IsPermutation(order[..p] + order[p + 1..], |order| - 1)
  {
    var rest := order[..p] + order[p + 1..];
    forall k | 0 <= k < |rest|
      ensures rest[k] < |order| - 1
    {
      var i := if k < p then k else k + 1;
      assert rest[k] == order[i] && order[i] != order[p];
    }
  }

  lemma PickWithout(cs: seq<Candidate>, order: seq<nat>, p: nat)
    requires p < |order| == |cs| && IsPermutation(order, |cs|) && order[p] == |cs| - 1
    requires IsPermutation(order[..p] + order[p + 1..], |cs| - 1)
    ensures Pick(cs[..|cs| - 1], order[..p] + order[p + 1..]) == Pick(cs, order)[..p] + Pick(cs, order)[p + 1..]
  {
  }

  /** A permutation hits every position (pigeonhole). */
  lemma PositionOf(order: seq<nat>, x: nat) returns (p: nat)
    requires IsPermutation(order, |order|) && x < |order|
    ensures p < |order| && order[p] == x
  {
    if x in order {
      p :| 0 <= p < |order| && order[p] == x;
    } else {
      var hit := set k | 0 <= k < |order| :: order[k];
      DistinctCount(order, |order|);
      var all := Below(|order|);
      assert hit <= all - {x};
      SubsetSize(hit, all - {x});
      assert false;
    }
  }

  ghost function Below(n: nat): (s: set<nat>)
    ensures |s| == n && forall k: nat :: k in s <==> k < n
  {
    if n == 0 then {} else Below(n - 1) + {n - 1}
  }

  lemma {:induction false} DistinctCount(order: seq<nat>, n: nat)
    requires n <= |order| && forall j, k :: 0 <= j < k < |order| ==> order[j] != order[k]
    ensures |set k | 0 <= k < n :: order[k]| == n
  {
    var now := set k | 0 <= k < n :: order[k];
    if n > 0 {
      DistinctCount(order, n - 1);
      assert now == (set k | 0 <= k < n - 1 :: order[k]) + {order[n - 1]};
    }
  }

  lemma {:induction false} SubsetSize<T>(a: set<T>, b: set<T>)
    requires a <= b
    ensures |a| <= |b|
  {
    if x :| x in a {
      SubsetSize(a - {x}, b - {x});
    }
  }

  lemma CoversAll(order: seq<nat>, n: nat)
    requires forall j, k :: 0 <= j < k < |order| ==> order[j] != order[k]
    requires forall k: nat :: k in order <==> k < n
    ensures IsPermutation(order, n)
  {
    var hit := set k | 0 <= k < |order| :: order[k];
    DistinctCount(order, |order|);
    assert forall k :: 0 <= k < |order| ==> order[k] in order;
    forall k: nat ensures k in hit <==> k in Below(n) {
      assert k in order <==> k < n;
    }
    assert hit == Below(n);
  }

  // ---------- What is promised ----------

  /** How domains are grouped, and which languages count. `effective` may have no answer (""). */
  datatype Languages = Languages(effective: string -> string, primary: string, secondary: string)

  /** A candidate's site is its effective domain, or else its domain. */
  ghost predicate OfSite(l: Languages, c: Candidate, site: string) {
    if l.effective(c.domain) != "" then l.effective(c.domain) == site else c.domain == site
  }

  /** Position `k` holds the site's first candidate, or its first in the given language. */
  ghost predicate FirstOfSite(l: Languages, cs: seq<Candidate>, site: string, language: Option<string>, k: int) {
    && 0 <= k < |cs| && OfSite(l, cs[k], site) && (language.Some? ==> cs[k].language == language.value)
    && forall j :: 0 <= j < k && OfSite(l, cs[j], site) ==> language.Some? && cs[j].language != language.value
  }

  ghost predicate Offers(l: Languages, cs: seq<Candidate>, site: string, language: string) {
    exists c :: c in cs && OfSite(l, c, site) && c.language == language
  }

  /** The requested language if the site has it, else the secondary one if that is set and the site has it. */
  ghost function Preference(l: Languages, cs: seq<Candidate>, site: string): Option<string> {
    if Offers(l, cs, site, l.primary) then Some(l.primary)
    else if l.secondary != "" && Offers(l, cs, site, l.secondary) then Some(l.secondary)
    else None
  }

  /** The site's first result is its first candidate in the preferred language. */
  ghost predicate PreferredFirst(l: Languages, cs: seq<Candidate>, result: seq<Candidate>, site: string) {
    forall p, k :: FirstOfSite(l, result, site, None, p) && FirstOfSite(l, cs, site, Preference(l, cs, site), k) ==>
      result[p] == cs[k]
  }

  /** The earlier positions of the same domain. */
  ghost function Earlier(r: seq<Candidate>, p: nat, domain: string): set<nat>
    requires p <= |r|
  {
    set q: nat | q < p && r[q].domain == domain
  }

  /** One candidate a domain in the first three places, two in the first ten, three from then on. */
  ghost predicate WithinCaps(r: seq<Candidate>) {
    forall p :: 0 <= p < |r| ==>
      |Earlier(r, p, r[p].domain)| < if p < 3 then 1 else if p < 10 then 2 else 3
  }

  /** The first `n` of the result are within the caps, and no arrangement of the candidates within them is longer. */
  ghost predicate LongestWithinCaps(cs: seq<Candidate>, result: seq<Candidate>, n: nat) {
    && n <= |result| && WithinCaps(result[..n])
    && forall other :: multiset(other) <= multiset(cs) && WithinCaps(other) ==> |other| <= n
  }

  // ---------- Language promotion: specification ----------

  function Group(l: Languages, domain: string): string {
    if l.effective(domain) == "" then domain else l.effective(domain)
  }

  function LanguageScore(l: Languages, c: Candidate): nat {
    if c.language == l.primary then 2
    else if l.secondary != "" && c.language == l.secondary then 1
    else 0
  }

  ghost function Keys(l: Languages, cs: seq<Candidate>): (keys: seq<string>)
    ensures |keys| == |cs|
  {
    seq(|cs|, i requires 0 <= i < |cs| => Group(l, cs[i].domain))
  }

  ghost function Scores(l: Languages, cs: seq<Candidate>): (scores: seq<nat>)
    ensures |scores| == |cs|
  {
    seq(|cs|, i requires 0 <= i < |cs| => LanguageScore(l, cs[i]))
  }

  /** `bests` gives each group that scores at all the first of its highest-scoring positions. */
  ghost predicate AreBests(bests: map<string, nat>, keys: seq<string>, scores: seq<nat>)
    requires |keys| == |scores|
  {
    && (forall d :: d in bests ==> bests[d] < |keys| && keys[bests[d]] == d && scores[bests[d]] > 0)
    && (forall k :: 0 <= k < |keys| ==>
          if keys[k] in bests
          then scores[k] <= scores[bests[keys[k]]] && (k < bests[keys[k]] ==> scores[k] < scores[bests[keys[k]]])
          else scores[k] == 0)
  }

  predicate IsFirst(keys: seq<string>, i: nat)
    requires i < |keys|
  {
    keys[i] !in keys[..i]
  }

  /** Position `i` is moved up: it is its group's best but not its first. */
  ghost predicate Promoted(keys: seq<string>, bests: map<string, nat>, i: nat)
    requires i < |keys|
  {
    keys[i] in bests && bests[keys[i]] == i && !IsFirst(keys, i)
  }

  /** The positions output once the first `upto` positions are scanned. */
  ghost predicate Out(keys: seq<string>, bests: map<string, nat>, upto: nat, k: nat)
    requires upto <= |keys|
  {
    k < |keys| && if Promoted(keys, bests, k) then keys[k] in keys[..upto] else k < upto
  }

  /** Positions that are not promoted keep their order. */
  ghost predicate UnpromotedInOrder(order: seq<nat>, keys: seq<string>, bests: map<string, nat>)
    requires forall p :: 0 <= p < |order| ==> order[p] < |keys|
  {
    forall p, q :: 0 <= p < q < |order| && !Promoted(keys, bests, order[p]) && !Promoted(keys, bests, order[q])
      ==> order[p] < order[q]
  }

  /** A promoted position stands directly before the first of its group. */
  ghost predicate PromotedBeforeFirst(order: seq<nat>, keys: seq<string>, bests: map<string, nat>)
    requires forall p :: 0 <= p < |order| ==> order[p] < |keys|
  {
    forall p :: 0 <= p < |order| && Promoted(keys, bests, order[p]) ==>
      p + 1 < |order| && keys[order[p + 1]] == keys[order[p]] && IsFirst(keys, order[p + 1])
  }

  /** Whatever comes first of its group in the output is the group's best, or its first if it has none. */
  ghost predicate FirstsAreBest(order: seq<nat>, keys: seq<string>, bests: map<string, nat>)
    requires forall p :: 0 <= p < |order| ==> order[p] < |keys|
  {
    forall p :: 0 <= p < |order| && (forall q :: 0 <= q < p ==> keys[order[q]] != keys[order[p]]) ==>
      if keys[order[p]] in bests then order[p] == bests[keys[order[p]]] else IsFirst(keys, order[p])
  }

  ghost predicate NoRepeats(order: seq<nat>) {
    forall j, k :: 0 <= j < k < |order| ==> order[j] != order[k]
  }

  /** The state of the output after the first `upto` positions have been scanned. */
  ghost predicate Scanned(order: seq<nat>, keys: seq<string>, scores: seq<nat>, bests: map<string, nat>, upto: nat)
    requires |keys| == |scores| && upto <= |keys|
  {
    && (forall k :: k in order <==> Out(keys, bests, upto, k))
    && (forall p :: 0 <= p < |order| ==> order[p] < |keys|)
    && NoRepeats(order)
    && UnpromotedInOrder(order, keys, bests)
    && PromotedBeforeFirst(order, keys, bests)
    && FirstsAreBest(order, keys, bests)
  }

  /** What the output receives when position `i` is scanned. */
  ghost function Emit(keys: seq<string>, bests: map<string, nat>, i: nat): seq<nat>
    requires i < |keys|
  {
    if IsFirst(keys, i) && keys[i] in bests && bests[keys[i]] != i then [bests[keys[i]], i]
    else if Promoted(keys, bests, i) then []
    else [i]
  }

  /** The output for the first `upto` positions. */
  ghost function EmitAll(keys: seq<string>, bests: map<string, nat>, upto: nat): (order: seq<nat>)
    requires upto <= |keys| && forall d :: d in bests ==> bests[d] < |keys|
    ensures forall p :: 0 <= p < |order| ==> order[p] < |keys|
  {
    if upto == 0 then [] else EmitAll(keys, bests, upto - 1) + Emit(keys, bests, upto - 1)
  }

  lemma NothingScanned(keys: seq<string>, scores: seq<nat>, bests: map<string, nat>)
    requires |keys| == |scores| && AreBests(bests, keys, scores)
    ensures Scanned([], keys, scores, bests, 0)
  {
  }

  lemma EmitAllScans(keys: seq<string>, scores: seq<nat>, bests: map<string, nat>, upto: nat)
    requires |keys| == |scores| && upto <= |keys| && AreBests(bests, keys, scores)
    ensures Scanned(EmitAll(keys, bests, upto), keys, scores, bests, upto)
  {
    var order: seq<nat> := [];
    NothingScanned(keys, scores, bests);
    for i := 0 to upto
      invariant order == EmitAll(keys, bests, i)
      invariant Scanned(order, keys, scores, bests, i)
    {
      ScanStep(order, keys, scores, bests, i);
      order := order + Emit(keys, bests, i);
    }
  }

  lemma OutStep(keys: seq<string>, bests: map<string, nat>, i: nat, k: nat)
    requires i < |keys| && forall d :: d in bests ==> bests[d] < |keys| && keys[bests[d]] == d
    ensures Out(keys, bests, i + 1, k) <==> Out(keys, bests, i, k) || k in Emit(keys, bests, i)
    ensures k in Emit(keys, bests, i) ==> !Out(keys, bests, i, k)
  {
    assert keys[..i + 1] == keys[..i] + [keys[i]];
  }

  lemma FirstsStep(order: seq<nat>, keys: seq<string>, scores: seq<nat>, bests: map<string, nat>, i: nat)
    requires |keys| == |scores| && i < |keys| && AreBests(bests, keys, scores)
    requires Scanned(order, keys, scores, bests, i)
    requires forall p :: 0 <= p < |order + Emit(keys, bests, i)| ==> (order + Emit(keys, bests, i))[p] < |keys|
    ensures FirstsAreBest(order + Emit(keys, bests, i), keys, bests)
  {
    var emit := Emit(keys, bests, i);
    var all := order + emit;
    if emit != [] {
      assert all[|order|] == emit[0];
    }
    forall p | 0 <= p < |all| && (forall q :: 0 <= q < p ==> keys[all[q]] != keys[all[p]])
      ensures if keys[all[p]] in bests then all[p] == bests[keys[all[p]]] else IsFirst(keys, all[p])
    {
      if p < |order| {
        assert forall q :: 0 <= q < p ==> all[q] == order[q];
      } else if !IsFirst(keys, i) {
        GroupIsOut(order, keys, scores, bests, i);
        assert forall q :: 0 <= q < |order| ==> all[q] == order[q];
      }
    }
  }

  lemma GroupIsOut(order: seq<nat>, keys: seq<string>, scores: seq<nat>, bests: map<string, nat>, i: nat)
    requires |keys| == |scores| && i < |keys| && !IsFirst(keys, i)
    requires Scanned(order, keys, scores, bests, i)
    ensures exists q :: 0 <= q < |order| && keys[order[q]] == keys[i]
  {
    var j :| 0 <= j < i && keys[j] == keys[i];
    var f := FirstOfGroup(keys, j);
    assert Out(keys, bests, i, f);
    var q :| 0 <= q < |order| && order[q] == f;
  }

  lemma {:induction false} FirstOfGroup(keys: seq<string>, j: nat) returns (f: nat)
    requires j < |keys|
    ensures f <= j && keys[f] == keys[j] && IsFirst(keys, f)
  {
    if IsFirst(keys, j) {
      f := j;
    } else {
      var k :| 0 <= k < j && keys[k] == keys[j];
      f := FirstOfGroup(keys, k);
    }
  }

  lemma ScanStep(order: seq<nat>, keys: seq<string>, scores: seq<nat>, bests: map<string, nat>, i: nat)
    requires |keys| == |scores| && i < |keys| && AreBests(bests, keys, scores)
    requires Scanned(order, keys, scores, bests, i)
    ensures Scanned(order + Emit(keys, bests, i), keys, scores, bests, i + 1)
  {
    OutputStep(order, keys, bests, i);
    FirstsStep(order, keys, scores, bests, i);
    OrdersStep(order, keys, bests, i);
  }

  lemma OutputStep(order: seq<nat>, keys: seq<string>, bests: map<string, nat>, i: nat)
    requires i < |keys| && forall d :: d in bests ==> bests[d] < |keys| && keys[bests[d]] == d
    requires forall k :: k in order <==> Out(keys, bests, i, k)
    requires forall p :: 0 <= p < |order| ==> order[p] < |keys|
    requires NoRepeats(order)
    ensures forall k :: k in order + Emit(keys, bests, i) <==> Out(keys, bests, i + 1, k)
    ensures forall p :: 0 <= p < |order + Emit(keys, bests, i)| ==> (order + Emit(keys, bests, i))[p] < |keys|
    ensures NoRepeats(order + Emit(keys, bests, i))
  {
    var emit := Emit(keys, bests, i);
    forall k ensures k in order + emit <==> Out(keys, bests, i + 1, k) {
      OutStep(keys, bests, i, k);
    }
    forall k | k in emit ensures k !in order {
      OutStep(keys, bests, i, k);
    }
    NoRepeatsAppend(order, emit);
  }

  lemma NoRepeatsAppend(a: seq<nat>, b: seq<nat>)
    requires NoRepeats(a) && NoRepeats(b) && forall k :: k in b ==> k !in a
    ensures NoRepeats(a + b)
  {
    forall j, k | 0 <= j < k < |a + b| ensures (a + b)[j] != (a + b)[k] {
      if j < |a| <= k {
        assert (a + b)[j] in a && (a + b)[k] in b;
      }
    }
  }

  lemma OrdersStep(order: seq<nat>, keys: seq<string>, bests: map<string, nat>, i: nat)
    requires i < |keys| && forall d :: d in bests ==> bests[d] < |keys| && keys[bests[d]] == d
    requires forall k :: k in order <==> Out(keys, bests, i, k)
    requires forall p :: 0 <= p < |order| ==> order[p] < |keys|
    requires UnpromotedInOrder(order, keys, bests) && PromotedBeforeFirst(order, keys, bests)
    requires forall p :: 0 <= p < |order + Emit(keys, bests, i)| ==> (order + Emit(keys, bests, i))[p] < |keys|
    ensures UnpromotedInOrder(order + Emit(keys, bests, i), keys, bests)
    ensures PromotedBeforeFirst(order + Emit(keys, bests, i), keys, bests)
  {
    var emit := Emit(keys, bests, i);
    forall p | 0 <= p < |order| && !Promoted(keys, bests, order[p]) ensures order[p] < i {
      assert order[p] in order;
    }
    if |emit| == 2 {
      assert i < bests[keys[i]] && keys[i] in keys[..bests[keys[i]]];
      assert Promoted(keys, bests, emit[0]);
    }
  }

  // ---------- Language promotion: the program ----------

  /** Where each group's best candidate stands. */
  method FindBest(cs: seq<Candidate>, l: Languages) returns (bestForDomain: map<string, nat>)
    ensures AreBests(bestForDomain, Keys(l, cs), Scores(l, cs))
  {
    ghost var keys, scores := Keys(l, cs), Scores(l, cs);
    bestForDomain := map[];
    var bestScoreForDomain: map<string, nat> := map[];
    for i := 0 to |cs|
      invariant bestForDomain.Keys == bestScoreForDomain.Keys
      invariant forall d :: d in bestForDomain ==>
                  && bestForDomain[d] < i && keys[bestForDomain[d]] == d
                  && bestScoreForDomain[d] == scores[bestForDomain[d]] > 0
      invariant forall k :: 0 <= k < i ==>
                  if keys[k] in bestForDomain
                  then && scores[k] <= scores[bestForDomain[keys[k]]]
                       && (k < bestForDomain[keys[k]] ==> scores[k] < scores[bestForDomain[keys[k]]])
                  else scores[k] == 0
    {
      var d := Group(l, cs[i].domain);
      var score := LanguageScore(l, cs[i]);
      if score > if d in bestScoreForDomain then bestScoreForDomain[d] else 0 {
        bestScoreForDomain := bestScoreForDomain[d := score];
        bestForDomain := bestForDomain[d := i];
      }
    }
  }

  /** Scans the candidates, and puts each group's best candidate first in its group. */
  method PromoteLanguagePerDomain(cs: seq<Candidate>, l: Languages)
    returns (result: seq<Candidate>, ghost order: seq<nat>, ghost bests: map<string, nat>)
    ensures AreBests(bests, Keys(l, cs), Scores(l, cs))
    ensures IsPermutation(order, |cs|) && result == Pick(cs, order)
    ensures multiset(result) == multiset(cs)
    ensures UnpromotedInOrder(order, Keys(l, cs), bests)
    ensures PromotedBeforeFirst(order, Keys(l, cs), bests)
    ensures FirstsAreBest(order, Keys(l, cs), bests)
    ensures forall site :: PreferredFirst(l, cs, result, site)
  {
    ghost var keys, scores := Keys(l, cs), Scores(l, cs);
    var bestForDomain := FindBest(cs, l);
    bests := bestForDomain;
    if |cs| <= 1 {
      result, order := cs, seq(|cs|, i => i);
      AllPreferred(l, cs, result, order, bests);
      return;
    }
    result, order := ScanAll(cs, l, bestForDomain, keys);
    EmitAllScans(keys, scores, bests, |cs|);
    ScanDone(cs, order, keys, scores, bests);
    AllPreferred(l, cs, result, order, bests);
  }

  /** A promoted position whose group has been seen. */
  ghost predicate MovedUp(keys: seq<string>, bests: map<string, nat>, seen: set<string>, k: nat) {
    k < |keys| && Promoted(keys, bests, k) && keys[k] in seen
  }

  lemma MovedUpStep(keys: seq<string>, bests: map<string, nat>, seen: set<string>, i: nat)
    requires i < |keys| && (forall d :: d in bests ==> bests[d] < |keys| && keys[bests[d]] == d)
    requires forall d :: d in seen <==> d in keys[..i]
    ensures forall k: nat :: MovedUp(keys, bests, seen + {keys[i]}, k) <==>
              || MovedUp(keys, bests, seen, k)
              || (keys[i] !in seen && keys[i] in bests && bests[keys[i]] != i && k == bests[keys[i]])
    ensures i in Emit(keys, bests, i) <==> !MovedUp(keys, bests, seen + {keys[i]}, i)
    ensures IsFirst(keys, i) <==> keys[i] !in seen
  {
    forall k: nat ensures MovedUp(keys, bests, seen + {keys[i]}, k) <==>
              || MovedUp(keys, bests, seen, k)
              || (keys[i] !in seen && keys[i] in bests && bests[keys[i]] != i && k == bests[keys[i]])
    {
      if k < |keys| && keys[k] == keys[i] && keys[i] !in seen && k > i {
        assert keys[i] in keys[..k];
      }
    }
  }

  /** What has been seen of the groups and of the promoted positions before position `i`. */
  ghost predicate SetsAgree(keys: seq<string>, bests: map<string, nat>, i: nat,
                            domainSeen: set<string>, seenBest: set<nat>)
    requires i <= |keys|
  {
    && (forall d :: d in domainSeen <==> d in keys[..i])
    && (forall k: nat :: k in seenBest <==> MovedUp(keys, bests, domainSeen, k))
  }

  /** The body of the scanning loop: what position `i` sends to the output. */
  method Visit(cs: seq<Candidate>, l: Languages, bestForDomain: map<string, nat>, i: nat,
               domainSeen: set<string>, seenBest: set<nat>, ghost keys: seq<string>)
    returns (out: seq<Candidate>, domainSeen': set<string>, seenBest': set<nat>)
    requires |keys| == |cs| && i < |cs|
    requires forall d :: d in bestForDomain ==> bestForDomain[d] < |keys| && keys[bestForDomain[d]] == d
    requires keys[i] == Group(l, cs[i].domain)
    requires SetsAgree(keys, bestForDomain, i, domainSeen, seenBest)
    ensures SetsAgree(keys, bestForDomain, i + 1, domainSeen', seenBest')
    ensures forall k :: 0 <= k < |Emit(keys, bestForDomain, i)| ==> Emit(keys, bestForDomain, i)[k] < |cs|
    ensures out == Pick(cs, Emit(keys, bestForDomain, i))
  {
    assert keys[..i + 1] == keys[..i] + [keys[i]];
    MovedUpStep(keys, bestForDomain, domainSeen, i);
    out, domainSeen', seenBest' := [], domainSeen, seenBest;
    var d := Group(l, cs[i].domain);
    if d !in domainSeen {
      domainSeen' := domainSeen' + {d};
      if d in bestForDomain && bestForDomain[d] != i {
        var best := bestForDomain[d];
        out := out + [cs[best]];
        seenBest' := seenBest' + {best};
      }
    }
    assert domainSeen' == domainSeen + {d};
    if i !in seenBest' {
      out := out + [cs[i]];
    }
  }

  lemma PickAppend(cs: seq<Candidate>, a: seq<nat>, b: seq<nat>)
    requires forall k :: 0 <= k < |a| ==> a[k] < |cs|
    requires forall k :: 0 <= k < |b| ==> b[k] < |cs|
    ensures forall k :: 0 <= k < |a + b| ==> (a + b)[k] < |cs|
    ensures Pick(cs, a + b) == Pick(cs, a) + Pick(cs, b)
  {
  }

  method ScanAll(cs: seq<Candidate>, l: Languages, bestForDomain: map<string, nat>, ghost keys: seq<string>)
    returns (result: seq<Candidate>, ghost order: seq<nat>)
    requires |keys| == |cs|
    requires forall d :: d in bestForDomain ==> bestForDomain[d] < |keys| && keys[bestForDomain[d]] == d
    requires forall i :: 0 <= i < |cs| ==> keys[i] == Group(l, cs[i].domain)
    ensures order == EmitAll(keys, bestForDomain, |cs|)
    ensures result == Pick(cs, EmitAll(keys, bestForDomain, |cs|))
  {
    result, order := [], [];
    var seenBest: set<nat> := {};
    var domainSeen: set<string> := {};
    for i := 0 to |cs|
      invariant SetsAgree(keys, bestForDomain, i, domainSeen, seenBest)
      invariant order == EmitAll(keys, bestForDomain, i)
      invariant result == Pick(cs, order)
    {
      var out: seq<Candidate>;
      out, domainSeen, seenBest := Visit(cs, l, bestForDomain, i, domainSeen, seenBest, keys);
      PickAppend(cs, order, Emit(keys, bestForDomain, i));
      result := result + out;
      order := order + Emit(keys, bestForDomain, i);
    }
  }

  lemma ScanDone(cs: seq<Candidate>, order: seq<nat>, keys: seq<string>, scores: seq<nat>, bests: map<string, nat>)
    requires |keys| == |scores| == |cs| && Scanned(order, keys, scores, bests, |cs|)
    ensures IsPermutation(order, |cs|)
    ensures multiset(Pick(cs, order)) == multiset(cs)
  {
    assert keys[..|cs|] == keys;
    forall k: nat ensures k in order <==> k < |cs| {
      assert Out(keys, bests, |cs|, k) <==> k < |cs|;
    }
    CoversAll(order, |cs|);
    PermutationPicksAll(cs, order);
  }

  lemma SiteIsGroup(l: Languages, c: Candidate, site: string)
    ensures OfSite(l, c, site) <==> Group(l, c.domain) == site
  {
  }

  /** What the scores say about languages. */
  lemma ScoresAreLanguages(l: Languages, c: Candidate)
    ensures LanguageScore(l, c) <= 2 && (LanguageScore(l, c) == 2 <==> c.language == l.primary)
    ensures LanguageScore(l, c) == 1 <==> l.secondary != "" && c.language == l.secondary && c.language != l.primary
  {
  }

  /** The position that a site shows first is the one of its first candidate in the preferred language. */
  lemma BestIsPreferred(l: Languages, cs: seq<Candidate>, bests: map<string, nat>, site: string, i: nat, k: nat)
    requires AreBests(bests, Keys(l, cs), Scores(l, cs)) && i < |cs| && Keys(l, cs)[i] == site
    requires if site in bests then i == bests[site] else IsFirst(Keys(l, cs), i)
    requires FirstOfSite(l, cs, site, Preference(l, cs, site), k)
    ensures i == k
  {
    hide LanguageScore, Group, OfSite;
    var keys, scores := Keys(l, cs), Scores(l, cs);
    forall j | 0 <= j < |cs|
      ensures OfSite(l, cs[j], site) <==> keys[j] == site
      ensures scores[j] <= 2 && (scores[j] == 2 <==> cs[j].language == l.primary)
      ensures scores[j] == 1 <==> l.secondary != "" && cs[j].language == l.secondary && cs[j].language != l.primary
    {
      SiteIsGroup(l, cs[j], site);
      ScoresAreLanguages(l, cs[j]);
    }
    assert cs[k] in cs && cs[i] in cs && keys[k] == site;
    if c :| c in cs && OfSite(l, c, site) && (c.language == l.primary || c.language == l.secondary != "") {
      var j :| 0 <= j < |cs| && cs[j] == c;
      assert keys[j] == site && scores[j] > 0;
    }
  }

  lemma AllPreferred(l: Languages, cs: seq<Candidate>, promoted: seq<Candidate>, order: seq<nat>,
                     bests: map<string, nat>)
    requires AreBests(bests, Keys(l, cs), Scores(l, cs))
    requires IsPermutation(order, |cs|) && promoted == Pick(cs, order)
    requires FirstsAreBest(order, Keys(l, cs), bests)
    ensures forall site :: PreferredFirst(l, cs, promoted, site)
  {
    forall site, p, k | FirstOfSite(l, promoted, site, None, p)
                        && FirstOfSite(l, cs, site, Preference(l, cs, site), k)
      ensures promoted[p] == cs[k]
    {
      PromotedFirstIsPreferred(l, cs, promoted, order, bests, site, p, k);
    }
  }

  lemma PromotedFirstIsPreferred(l: Languages, cs: seq<Candidate>, promoted: seq<Candidate>, order: seq<nat>,
                                 bests: map<string, nat>, site: string, p: nat, k: nat)
    requires AreBests(bests, Keys(l, cs), Scores(l, cs))
    requires IsPermutation(order, |cs|) && promoted == Pick(cs, order)
    requires FirstsAreBest(order, Keys(l, cs), bests)
    requires FirstOfSite(l, promoted, site, None, p) && FirstOfSite(l, cs, site, Preference(l, cs, site), k)
    ensures promoted[p] == cs[k]
  {
    hide Group, OfSite, AreBests;
    var keys := Keys(l, cs);
    forall q | 0 <= q <= p ensures OfSite(l, promoted[q], site) <==> keys[order[q]] == site {
      SiteIsGroup(l, promoted[q], site);
    }
    BestIsPreferred(l, cs, bests, site, order[p], k);
  }

  // ---------- Diversification: specification ----------

  function MaxPerDomainAtPosition(pos: nat): nat {
    if pos < 3 then 1
    else if pos < 10 then 2
    else 3
  }

  /** Whether `c` may be put at the end of `r`. */
  predicate Fits(r: seq<Candidate>, c: Candidate) {
    CountDomain(r, c.domain) < MaxPerDomainAtPosition(|r|)
  }

  /** One scan: what is placed after `r`, and what is deferred. */
  ghost function Pass(r: seq<Candidate>, todo: seq<Candidate>): (seq<Candidate>, seq<Candidate>) {
    if todo == [] then (r, [])
    else
      var (placed, deferred) := Pass(r, todo[..|todo| - 1]);
      var c := todo[|todo| - 1];
      if Fits(placed, c) then (placed + [c], deferred) else (placed, deferred + [c])
  }

  lemma MultisetAppend<T>(s: seq<T>, c: T)
    ensures multiset(s + [c]) == multiset(s) + multiset{c}
  {
  }

  lemma OneMore<T(!new)>(a: multiset<T>, b: multiset<T>, r: multiset<T>, t: multiset<T>, c: multiset<T>)
    requires a + b == r + t
    ensures (a + c) + b == r + (t + c)
    ensures a + (b + c) == r + (t + c)
  {
    forall x ensures ((a + c) + b)[x] == (r + (t + c))[x] && (a + (b + c))[x] == (r + (t + c))[x] {
      assert (a + b)[x] == (r + t)[x];
    }
  }

  lemma {:induction false} PassParts(r: seq<Candidate>, todo: seq<Candidate>)
    ensures r <= Pass(r, todo).0
    ensures |Pass(r, todo).0| + |Pass(r, todo).1| == |r| + |todo|
    ensures multiset(Pass(r, todo).0) + multiset(Pass(r, todo).1) == multiset(r) + multiset(todo)
  {
    if todo != [] {
      var before, c := todo[..|todo| - 1], todo[|todo| - 1];
      PassParts(r, before);
      assert todo == before + [c];
      assert multiset(todo) == multiset(before) + multiset{c};
      var (placed, deferred) := Pass(r, before);
      MultisetAppend(placed, c);
      MultisetAppend(deferred, c);
      OneMore(multiset(placed), multiset(deferred), multiset(r), multiset(before), multiset{c});
    }
  }

  /** Scans until everything is placed or a scan places nothing: the capped part, and what is left over. */
  ghost function Rounds(r: seq<Candidate>, todo: seq<Candidate>): (seq<Candidate>, seq<Candidate>)
    decreases |todo|
  {
    PassParts(r, todo);
    var (placed, deferred) := Pass(r, todo);
    if todo == [] || |deferred| == |todo| then (r, todo) else Rounds(placed, deferred)
  }

  /** Every candidate's domain is below the cap of the position it stands at. */
  ghost predicate ObeysCaps(r: seq<Candidate>) {
    forall p :: 0 <= p < |r| ==> Fits(r[..p], r[p])
  }

  lemma {:induction false} EarlierCounts(r: seq<Candidate>, p: nat, domain: string)
    requires p <= |r|
    ensures CountDomain(r[..p], domain) == |Earlier(r, p, domain)|
  {
    if p == 0 {
      assert Earlier(r, p, domain) == {};
    } else {
      EarlierCounts(r, p - 1, domain);
      assert r[..p][..p - 1] == r[..p - 1];
      assert Earlier(r, p, domain)
          == Earlier(r, p - 1, domain) + if r[p - 1].domain == domain then {p - 1} else {};
    }
  }

  lemma CapsAreObeyed(r: seq<Candidate>)
    ensures ObeysCaps(r) <==> WithinCaps(r)
  {
    forall p | 0 <= p < |r| ensures Fits(r[..p], r[p])
        <==> |Earlier(r, p, r[p].domain)| < if p < 3 then 1 else if p < 10 then 2 else 3 {
      EarlierCounts(r, p, r[p].domain);
    }
  }

  ghost predicate NothingFits(r: seq<Candidate>, left: seq<Candidate>) {
    forall c :: c in left ==> !Fits(r, c)
  }

  // ---------- Diversification: laws ----------

  lemma CapsStep(r: seq<Candidate>, c: Candidate)
    requires ObeysCaps(r) && Fits(r, c)
    ensures ObeysCaps(r + [c])
  {
    var s := r + [c];
    forall p | 0 <= p < |s| ensures Fits(s[..p], s[p]) {
      assert s[..p] == r[..p];
      if p == |r| { assert r[..p] == r; }
    }
  }

  lemma {:induction false} PassObeysCaps(r: seq<Candidate>, todo: seq<Candidate>)
    requires ObeysCaps(r)
    ensures ObeysCaps(Pass(r, todo).0)
  {
    if todo != [] {
      PassObeysCaps(r, todo[..|todo| - 1]);
      var placed, c := Pass(r, todo[..|todo| - 1]).0, todo[|todo| - 1];
      if Fits(placed, c) {
        CapsStep(placed, c);
      }
    }
  }

  /** A scan that places nothing shows that nothing fits. */
  lemma {:induction false} IdlePass(r: seq<Candidate>, todo: seq<Candidate>)
    requires |Pass(r, todo).1| == |todo|
    ensures Pass(r, todo).0 == r && NothingFits(r, todo)
  {
    if todo != [] {
      var before := todo[..|todo| - 1];
      PassParts(r, before);
      IdlePass(r, before);
      assert todo == before + [todo[|todo| - 1]];
    }
  }

  /** The greedy result is a permutation whose first part obeys the caps and cannot be extended. */
  lemma {:induction false} RoundsLaws(r: seq<Candidate>, todo: seq<Candidate>)
    requires ObeysCaps(r)
    ensures var (capped, left) := Rounds(r, todo);
            && multiset(capped) + multiset(left) == multiset(r) + multiset(todo)
            && ObeysCaps(capped) && NothingFits(capped, left)
    decreases |todo|
  {
    var (placed, deferred) := Pass(r, todo);
    PassParts(r, todo);
    if todo == [] || |deferred| == |todo| {
      IdlePass(r, todo);
    } else {
      PassObeysCaps(r, todo);
      RoundsLaws(placed, deferred);
    }
  }

  /** The domains of the candidates, with multiplicity. */
  ghost function Domains(cs: seq<Candidate>): (ds: seq<string>)
    ensures |ds| == |cs|
  {
    seq(|cs|, i requires 0 <= i < |cs| => cs[i].domain)
  }

  lemma {:induction false} CountIsMultiplicity(cs: seq<Candidate>, domain: string)
    ensures CountDomain(cs, domain) == multiset(Domains(cs))[domain]
  {
    if cs != [] {
      var before := cs[..|cs| - 1];
      CountIsMultiplicity(before, domain);
      assert Domains(cs) == Domains(before) + [cs[|cs| - 1].domain];
    }
  }

  lemma {:induction false} SubMultisetSize<T>(a: multiset<T>, b: multiset<T>)
    requires a <= b
    ensures |a| <= |b|
    decreases |a|
  {
    if x :| x in a {
      SubMultisetSize(a - multiset{x}, b - multiset{x});
    }
  }

  /** Dominated domain counts mean a shorter sequence. */
  lemma FewerOfEach(a: seq<Candidate>, b: seq<Candidate>)
    requires forall d :: CountDomain(a, d) <= CountDomain(b, d)
    ensures |a| <= |b|
  {
    forall d ensures multiset(Domains(a))[d] <= multiset(Domains(b))[d] {
      CountIsMultiplicity(a, d);
      CountIsMultiplicity(b, d);
      assert CountDomain(a, d) <= CountDomain(b, d);
    }
    SubMultisetSize(multiset(Domains(a)), multiset(Domains(b)));
  }

  /** Up to position `upto` an arrangement that obeys the caps has at most that position's cap of any domain. */
  lemma {:induction false} CapsBoundCounts(r: seq<Candidate>, d: string, upto: nat)
    requires ObeysCaps(r) && |r| <= upto + 1
    ensures CountDomain(r, d) <= MaxPerDomainAtPosition(upto)
  {
    if r != [] {
      var n := |r| - 1;
      assert Fits(r[..n], r[n]);
      forall p | 0 <= p < n ensures Fits(r[..n][..p], r[..n][p]) {
        assert r[..n][..p] == r[..p];
        assert Fits(r[..p], r[p]);
      }
      CapsBoundCounts(r[..n], d, upto);
    }
  }

  lemma RemoveLeaves<T>(b: seq<T>, p: nat)
    requires p < |b|
    ensures multiset(b) == multiset(b[..p] + b[p + 1..]) + multiset{b[p]}
  {
    assert b == b[..p] + [b[p]] + b[p + 1..];
  }

  lemma Cancel<T>(a: multiset<T>, b: multiset<T>, x: T)
    requires a + multiset{x} <= b + multiset{x}
    ensures a <= b
  {
    forall y ensures a[y] <= b[y] {
      assert (a + multiset{x})[y] <= (b + multiset{x})[y];
    }
  }

  lemma {:induction false} CountMonotone(a: seq<Candidate>, b: seq<Candidate>, d: string)
    requires multiset(a) <= multiset(b)
    ensures CountDomain(a, d) <= CountDomain(b, d)
  {
    if a != [] {
      var n := |a| - 1;
      assert a == a[..n] + [a[n]];
      assert a[n] in multiset(b);
      var p :| 0 <= p < |b| && b[p] == a[n];
      var rest := b[..p] + b[p + 1..];
      RemoveLeaves(b, p);
      MultisetAppend(a[..n], a[n]);
      Cancel(multiset(a[..n]), multiset(rest), a[n]);
      CountMonotone(a[..n], rest, d);
      CountWithout(b, p, d);
    }
  }

  lemma CountWithout(b: seq<Candidate>, p: nat, d: string)
    requires p < |b|
    ensures CountDomain(b, d) == CountDomain(b[..p] + b[p + 1..], d) + if b[p].domain == d then 1 else 0
  {
    assert b == b[..p] + [b[p]] + b[p + 1..];
    CountBetween(b[..p], b[p], b[p + 1..], d);
  }

  lemma CountBetween(a: seq<Candidate>, c: Candidate, rest: seq<Candidate>, d: string)
    ensures CountDomain(a + [c] + rest, d) == CountDomain(a + rest, d) + if c.domain == d then 1 else 0
  {
    CountAppend(a + [c], rest, d);
    CountAppend(a, rest, d);
    assert (a + [c])[..|a|] == a;
  }

  lemma {:induction false} CountAppend(a: seq<Candidate>, b: seq<Candidate>, d: string)
    ensures CountDomain(a + b, d) == CountDomain(a, d) + CountDomain(b, d)
  {
    if b == [] {
      assert a + b == a;
    } else {
      assert (a + b)[..|a + b| - 1] == a + b[..|b| - 1];
      CountAppend(a, b[..|b| - 1], d);
    }
  }

  /**
   No arrangement of the same candidates that obeys the caps is longer than one that cannot be
   extended: a greedy scan is optimal.
   */
  lemma GreedyIsOptimal(cs: seq<Candidate>, capped: seq<Candidate>, left: seq<Candidate>, other: seq<Candidate>)
    requires multiset(capped) + multiset(left) == multiset(cs)
    requires NothingFits(capped, left)
    requires multiset(other) <= multiset(cs) && ObeysCaps(other)
    ensures |other| <= |capped|
  {
    if |other| > |capped| {
      var prefix := other[..|capped| + 1];
      assert other == prefix + other[|capped| + 1..];
      forall p | 0 <= p < |prefix| ensures Fits(prefix[..p], prefix[p]) {
        assert prefix[..p] == other[..p];
        assert Fits(other[..p], other[p]);
      }
      forall d ensures CountDomain(prefix, d) <= CountDomain(capped, d) {
        CapsBoundCounts(prefix, d, |capped|);
        if CountDomain(left, d) > 0 {
          var c := SomeOf(left, d);
          assert !Fits(capped, c);
        } else {
          assert multiset(capped + left) == multiset(cs);
          CountMonotone(prefix, capped + left, d);
          CountAppend(capped, left, d);
        }
      }
      FewerOfEach(prefix, capped);
    }
  }

  lemma {:induction false} SomeOf(cs: seq<Candidate>, d: string) returns (c: Candidate)
    requires CountDomain(cs, d) > 0
    ensures c in cs && c.domain == d
  {
    if cs[|cs| - 1].domain == d {
      c := cs[|cs| - 1];
    } else {
      c := SomeOf(cs[..|cs| - 1], d);
    }
  }

  lemma {:induction false} FirstInAppend(a: seq<Candidate>, b: seq<Candidate>, groupOf: string -> string, group: string)
    ensures FirstIn(a + b, groupOf, group)
            == if FirstIn(a, groupOf, group).Some? then FirstIn(a, groupOf, group) else FirstIn(b, groupOf, group)
  {
    if b == [] {
      assert a + b == a;
    } else {
      assert (a + b)[..|a + b| - 1] == a + b[..|b| - 1];
      FirstInAppend(a, b[..|b| - 1], groupOf, group);
    }
  }

  lemma {:induction false} FirstInFound(cs: seq<Candidate>, groupOf: string -> string, group: string)
    ensures FirstIn(cs, groupOf, group).None? <==>
              forall k :: 0 <= k < |cs| ==> groupOf(cs[k].domain) != group
    ensures FirstIn(cs, groupOf, group).Some? ==>
              exists k :: 0 <= k < |cs| && cs[k] == FirstIn(cs, groupOf, group).value
                          && groupOf(cs[k].domain) == group
                          && forall j :: 0 <= j < k ==> groupOf(cs[j].domain) != group
  {
    if cs != [] {
      var n := |cs| - 1;
      FirstInFound(cs[..n], groupOf, group);
      assert forall k :: 0 <= k < n ==> cs[..n][k] == cs[k];
    }
  }

  /** A candidate is deferred only when its domain is out already, so no group's first is overtaken. */
  lemma {:induction false} PassKeepsFirsts(todo: seq<Candidate>, groupOf: string -> string, group: string)
    ensures FirstIn(Pass([], todo).0, groupOf, group) == FirstIn(todo, groupOf, group)
  {
    if todo != [] {
      var before, c := todo[..|todo| - 1], todo[|todo| - 1];
      PassKeepsFirsts(before, groupOf, group);
      var placed := Pass([], before).0;
      if Fits(placed, c) {
        FirstInAppend(placed, [c], groupOf, group);
      } else if groupOf(c.domain) == group {
        var same := SomeOf(placed, c.domain);
        FirstInFound(placed, groupOf, group);
      }
    }
  }

  lemma {:induction false} RoundsExtend(r: seq<Candidate>, todo: seq<Candidate>)
    ensures r <= Rounds(r, todo).0
    decreases |todo|
  {
    PassParts(r, todo);
    var (placed, deferred) := Pass(r, todo);
    if todo != [] && |deferred| != |todo| {
      RoundsExtend(placed, deferred);
    }
  }

  /** Whatever the grouping of domains, the first candidate of a group stays its first. */
  lemma DiversifyKeepsFirsts(cs: seq<Candidate>, groupOf: string -> string, group: string)
    ensures var (capped, left) := Rounds([], cs);
            FirstIn(capped + left, groupOf, group) == FirstIn(cs, groupOf, group)
  {
    var (capped, left) := Rounds([], cs);
    PassParts([], cs);
    var (placed, deferred) := Pass([], cs);
    if |deferred| == |cs| {
      IdlePass([], cs);
      assert [] + cs == cs;
    } else {
      RoundsExtend(placed, deferred);
      RoundsLaws([], cs);
      PassKeepsFirsts(cs, groupOf, group);
      LaterFirsts(cs, placed, capped, left, groupOf, group);
    }
  }

  /** What comes behind the first scan does not bring another first. */
  lemma LaterFirsts(cs: seq<Candidate>, placed: seq<Candidate>, capped: seq<Candidate>, left: seq<Candidate>,
                    groupOf: string -> string, group: string)
    requires placed <= capped && multiset(capped + left) == multiset(cs)
    requires FirstIn(placed, groupOf, group) == FirstIn(cs, groupOf, group)
    ensures FirstIn(capped + left, groupOf, group) == FirstIn(cs, groupOf, group)
  {
    var more := capped[|placed|..] + left;
    assert capped + left == placed + more;
    FirstInAppend(placed, more, groupOf, group);
    if FirstIn(placed, groupOf, group).None? {
      PartOf(cs, capped + left, more);
      NoneStaysNone(cs, more, groupOf, group);
    }
  }

  lemma PartOf(cs: seq<Candidate>, whole: seq<Candidate>, part: seq<Candidate>)
    requires multiset(whole) == multiset(cs) && forall c :: c in part ==> c in whole
    ensures forall c :: c in part ==> c in cs
  {
    forall c | c in part ensures c in cs { assert c in multiset(whole) && c in multiset(cs); }
  }

  lemma NoneStaysNone(cs: seq<Candidate>, part: seq<Candidate>, groupOf: string -> string, group: string)
    requires forall c :: c in part ==> c in cs
    requires FirstIn(cs, groupOf, group).None?
    ensures FirstIn(part, groupOf, group).None?
  {
    FirstInFound(cs, groupOf, group);
    FirstInFound(part, groupOf, group);
    forall k | 0 <= k < |part| ensures groupOf(part[k].domain) != group {
      assert part[k] in cs;
    }
  }

  lemma PassOneMore(r: seq<Candidate>, todo: seq<Candidate>, c: Candidate,
                    placed: seq<Candidate>, deferred: seq<Candidate>)
    requires Pass(r, todo) == (placed, deferred)
    ensures Pass(r, todo + [c]) == if Fits(placed, c) then (placed + [c], deferred) else (placed, deferred + [c])
  {
    assert (todo + [c])[..|todo|] == todo;
  }

  lemma CountOneMore(cs: seq<Candidate>, c: Candidate, d: string)
    ensures CountDomain(cs + [c], d) == CountDomain(cs, d) + if c.domain == d then 1 else 0
  {
    assert (cs + [c])[..|cs|] == cs;
  }

  /**
   Within a domain the order is not kept: here the third candidate of domain "a" overtakes the
   second, because the cap has grown by the time it is scanned.
   */
  lemma DiversifyOvertakes(a1: Candidate, a2: Candidate, a3: Candidate, b: Candidate, c: Candidate)
    requires a1.domain == a2.domain == a3.domain == "a" && b.domain == "b" && c.domain == "c"
    ensures Rounds([], [a1] + [a2] + [b] + [c] + [a3]) == ([a1] + [b] + [c] + [a3], [a2])
  {
    var r1 := [a1];
    var r2 := r1 + [b];
    var r3 := r2 + [c];
    var r4 := r3 + [a3];
    assert [] + [a1] == r1 && [] + [a2] == [a2];
    CountOneMore([], a1, "a");
    CountOneMore([], a1, "b");
    CountOneMore([], a1, "c");
    CountOneMore(r1, b, "a");
    CountOneMore(r1, b, "c");
    CountOneMore(r2, c, "a");
    CountOneMore(r3, a3, "a");
    PassOneMore([], [], a1, [], []);
    PassOneMore([], r1, a2, r1, []);
    PassOneMore([], r1 + [a2], b, r1, [a2]);
    PassOneMore([], r1 + [a2] + [b], c, r2, [a2]);
    PassOneMore([], r1 + [a2] + [b] + [c], a3, r3, [a2]);
    PassOneMore(r4, [], a2, r4, []);
    assert Rounds(r4, [a2]) == (r4, [a2]);
  }

  // ---------- Diversification: the program ----------

  function Placed(domainCount: map<string, nat>, domain: string): nat {
    if domain in domainCount then domainCount[domain] else 0
  }

  /** One scan over `todo`, behind what `r` already holds. */
  method Scan(r: seq<Candidate>, counts: map<string, nat>, todo: seq<Candidate>)
    returns (result: seq<Candidate>, domainCount: map<string, nat>, deferred: seq<Candidate>)
    requires forall d :: Placed(counts, d) == CountDomain(r, d)
    ensures (result, deferred) == Pass(r, todo)
    ensures forall d :: Placed(domainCount, d) == CountDomain(result, d)
  {
    result, domainCount, deferred := r, counts, [];
    assert todo[..0] == [];
    for i := 0 to |todo|
      invariant (result, deferred) == Pass(r, todo[..i])
      invariant forall d :: Placed(domainCount, d) == CountDomain(result, d)
    {
      assert todo[..i + 1][..i] == todo[..i];
      var c := todo[i];
      var maxForDomain := MaxPerDomainAtPosition(|result|);
      if Placed(domainCount, c.domain) < maxForDomain {
        assert (result + [c])[..|result|] == result;
        result := result + [c];
        domainCount := domainCount[c.domain := Placed(domainCount, c.domain) + 1];
      } else {
        deferred := deferred + [c];
      }
    }
    assert todo[..|todo|] == todo;
  }

  lemma FirstScanPlaces(cs: seq<Candidate>)
    requires cs != []
    ensures Rounds([], cs) == Rounds(Pass([], cs).0, Pass([], cs).1)
  {
    PassParts([], cs);
    assert cs[0] in cs;
    if |Pass([], cs).1| == |cs| {
      IdlePass([], cs);
    }
  }

  method DiversifyByDomain(cs: seq<Candidate>) returns (result: seq<Candidate>, ghost capped: nat)
    ensures |cs| <= 3 ==> result == cs
    ensures |cs| > 3 ==> capped <= |result| && (result[..capped], result[capped..]) == Rounds([], cs)
  {
    capped := 0;
    if |cs| <= 3 {
      return cs, 0;
    }
    var domainCount: map<string, nat>, deferred: seq<Candidate>;
    result, domainCount, deferred := Scan([], map[], cs);
    FirstScanPlaces(cs);
    while |deferred| > 0
      invariant forall d :: Placed(domainCount, d) == CountDomain(result, d)
      invariant Rounds(result, deferred) == Rounds([], cs)
      decreases |deferred|
    {
      ghost var r := result;
      var remaining: seq<Candidate>;
      PassParts(result, deferred);
      result, domainCount, remaining := Scan(result, domainCount, deferred);
      if |remaining| == |deferred| {
        IdlePass(r, deferred);
        IdlePassDefers(r, deferred);
        assert result == r && remaining == deferred;
        capped := |result|;
        result := result + remaining;
        return;
      }
      deferred := remaining;
    }
    capped := |result|;
    assert result[..capped] == result && result[capped..] == [];
  }

  lemma {:induction false} IdlePassDefers(r: seq<Candidate>, todo: seq<Candidate>)
    requires |Pass(r, todo).1| == |todo|
    ensures Pass(r, todo).1 == todo
  {
    if todo != [] {
      var before := todo[..|todo| - 1];
      PassParts(r, before);
      IdlePassDefers(r, before);
      assert todo == before + [todo[|todo| - 1]];
    }
  }

  /** Everything the search promises of a diversified list, capped part and tail. */
  lemma DiversifyLaws(cs: seq<Candidate>)
    ensures var (capped, left) := Rounds([], cs);
            multiset(capped + left) == multiset(cs) && LongestWithinCaps(cs, capped + left, |capped|)
  {
    RoundsLaws([], cs);
    var (capped, left) := Rounds([], cs);
    CapsAreObeyed(capped);
    assert (capped + left)[..|capped|] == capped;
    forall other | multiset(other) <= multiset(cs) && WithinCaps(other) ensures |other| <= |capped| {
      CapsAreObeyed(other);
      GreedyIsOptimal(cs, capped, left, other);
    }
  }

  /** What fits is placed, in order. */
  lemma {:induction false} PassPlacesAll(r: seq<Candidate>, todo: seq<Candidate>)
    requires ObeysCaps(r + todo)
    ensures Pass(r, todo) == (r + todo, [])
  {
    hide Fits;
    if todo == [] {
      assert r + todo == r;
    } else {
      var before, c := todo[..|todo| - 1], todo[|todo| - 1];
      var n := |r + before|;
      assert r + todo == (r + before) + [c];
      forall p | 0 <= p < n ensures Fits((r + before)[..p], (r + before)[p]) {
        assert (r + before)[..p] == (r + todo)[..p];
        assert Fits((r + todo)[..p], (r + todo)[p]);
      }
      PassPlacesAll(r, before);
      assert (r + todo)[..n] == r + before;
      assert Fits((r + todo)[..n], (r + todo)[n]);
    }
  }

  /** What does not fit is deferred, in order. */
  lemma {:induction false} PassDefersRest(r: seq<Candidate>, todo: seq<Candidate>, more: seq<Candidate>)
    requires NothingFits(Pass(r, todo).0, more)
    ensures Pass(r, todo + more) == (Pass(r, todo).0, Pass(r, todo).1 + more)
  {
    hide Fits;
    if more == [] {
      assert todo + more == todo && Pass(r, todo).1 + more == Pass(r, todo).1;
    } else {
      var before, c := more[..|more| - 1], more[|more| - 1];
      PassDefersRest(r, todo, before);
      assert c in more && more == before + [c];
      assert (todo + more)[..|todo + more| - 1] == todo + before;
      assert Pass(r, todo).1 + more == Pass(r, todo).1 + before + [c];
    }
  }

  /** Candidates within the caps stay as they are. */
  lemma WithinCapsStays(cs: seq<Candidate>)
    requires WithinCaps(cs)
    ensures Rounds([], cs) == (cs, [])
  {
    CapsAreObeyed(cs);
    assert [] + cs == cs;
    PassPlacesAll([], cs);
  }

  lemma RoundsStop(r: seq<Candidate>, todo: seq<Candidate>)
    requires Pass(r, todo) == (r, todo)
    ensures Rounds(r, todo) == (r, todo)
  {
    hide Pass;
  }

  lemma RoundsGoOn(r: seq<Candidate>, todo: seq<Candidate>, placed: seq<Candidate>, left: seq<Candidate>)
    requires todo != [] && Pass(r, todo) == (placed, left) && |left| < |todo|
    ensures Rounds(r, todo) == Rounds(placed, left)
  {
    hide Pass;
  }

  /** A diversified list is diversified into itself. */
  lemma DiversifyTwice(cs: seq<Candidate>)
    ensures var (capped, left) := Rounds([], cs);
            Rounds([], capped + left) == (capped, left)
  {
    hide Pass, Rounds, Fits;
    var (capped, left) := Rounds([], cs);
    assert ObeysCaps([]);
    RoundsLaws([], cs);
    ListedAgain(capped, left);
    RoundsStop(capped, left);
    if capped == [] {
      assert capped + left == left;
    } else {
      RoundsGoOn([], capped + left, capped, left);
    }
  }

  lemma ListedAgain(capped: seq<Candidate>, left: seq<Candidate>)
    requires ObeysCaps(capped) && NothingFits(capped, left)
    ensures Pass([], capped + left) == (capped, left) && Pass(capped, left) == (capped, left)
  {
    hide Fits;
    assert [] + capped == capped && [] + left == left;
    PassPlacesAll([], capped);
    PassDefersRest([], capped, left);
    PassDefersRest(capped, [], left);
  }

  // ---------- The two together ----------

  /** The candidates kept by a filter; `fold` is the case folding both filters compare under. */
  ghost function Kept(cs: seq<Candidate>, keep: Candidate -> bool): seq<Candidate> {
    if cs == [] then []
    else
      var before := Kept(cs[..|cs| - 1], keep);
      if keep(cs[|cs| - 1]) then before + [cs[|cs| - 1]] else before
  }

  /** Everything passes the empty filter. */
  function OfDomain(domain: string, fold: string -> string): Candidate -> bool {
    (c: Candidate) => domain == "" || fold(c.domain) == fold(domain)
  }

  function OfSchema(schemaType: string, fold: string -> string): Candidate -> bool {
    (c: Candidate) => schemaType == "" || fold(c.schemaType) == fold(schemaType)
  }

  method Filter(cs: seq<Candidate>, keep: Candidate -> bool) returns (filtered: seq<Candidate>)
    ensures filtered == Kept(cs, keep)
  {
    filtered := [];
    for i := 0 to |cs|
      invariant filtered == Kept(cs[..i], keep)
    {
      assert cs[..i + 1][..i] == cs[..i];
      if keep(cs[i]) {
        filtered := filtered + [cs[i]];
      }
    }
    assert cs[..|cs|] == cs;
  }

  method FilterAndDiversifyCandidates(reranked: seq<Candidate>, domain: string, schemaType: string,
                                      fold: string -> string)
    returns (result: seq<Candidate>)
    ensures var inDomain := Kept(reranked, OfDomain(domain, fold));
            var inSchema := Kept(inDomain, OfSchema(schemaType, fold));
            if domain != "" || |inSchema| <= 3 then result == inSchema
            else result == Rounds([], inSchema).0 + Rounds([], inSchema).1
    ensures forall c :: multiset(result)[c] == if Wanted(c, domain, schemaType, fold) then multiset(reranked)[c] else 0
  {
    result := reranked;
    KeepAll(reranked, OfDomain(domain, fold));
    if domain != "" {
      result := Filter(result, OfDomain(domain, fold));
    }
    KeepAll(result, OfSchema(schemaType, fold));
    if schemaType != "" {
      result := Filter(result, OfSchema(schemaType, fold));
    }
    if domain == "" {
      ghost var before := result;
      ghost var capped;
      result, capped := DiversifyByDomain(result);
      if |before| > 3 {
        assert result == result[..capped] + result[capped..];
        DiversifyLaws(before);
      }
      assert multiset(result) == multiset(before);
    }
    WantedStay(reranked, domain, schemaType, fold);
  }

  /** Of the requested domain and schema type, where one is requested. */
  ghost predicate Wanted(c: Candidate, domain: string, schemaType: string, fold: string -> string) {
    && (domain != "" ==> fold(c.domain) == fold(domain))
    && (schemaType != "" ==> fold(c.schemaType) == fold(schemaType))
  }

  lemma {:induction false} KeptBag(cs: seq<Candidate>, keep: Candidate -> bool, c: Candidate)
    ensures multiset(Kept(cs, keep))[c] == if keep(c) then multiset(cs)[c] else 0
  {
    if cs != [] {
      KeptBag(cs[..|cs| - 1], keep, c);
      assert cs == cs[..|cs| - 1] + [cs[|cs| - 1]];
    }
  }

  lemma WantedStay(cs: seq<Candidate>, domain: string, schemaType: string, fold: string -> string)
    ensures forall c :: multiset(Kept(Kept(cs, OfDomain(domain, fold)), OfSchema(schemaType, fold)))[c]
                        == if Wanted(c, domain, schemaType, fold) then multiset(cs)[c] else 0
  {
    forall c ensures multiset(Kept(Kept(cs, OfDomain(domain, fold)), OfSchema(schemaType, fold)))[c]
                     == if Wanted(c, domain, schemaType, fold) then multiset(cs)[c] else 0
    {
      KeptBag(Kept(cs, OfDomain(domain, fold)), OfSchema(schemaType, fold), c);
      KeptBag(cs, OfDomain(domain, fold), c);
    }
  }

  lemma {:induction false} KeepAll(cs: seq<Candidate>, keep: Candidate -> bool)
    ensures (forall c :: keep(c)) ==> Kept(cs, keep) == cs
  {
    if cs != [] {
      KeepAll(cs[..|cs| - 1], keep);
      assert cs == cs[..|cs| - 1] + [cs[|cs| - 1]];
    }
  }

  /** The whole stage of an unfiltered search: promotion if a language is given, then diversification. */
  method Rerank(cs: seq<Candidate>, l: Languages, fold: string -> string) returns (result: seq<Candidate>)
    ensures multiset(result) == multiset(cs)
    ensures l.primary != "" ==> forall site :: PreferredFirst(l, cs, result, site)
    ensures |cs| > 3 ==> exists n: nat :: LongestWithinCaps(cs, result, n)
    ensures l.primary == "" && (|cs| <= 3 || WithinCaps(cs)) ==> result == cs
  {
    var promoted := cs;
    if l.primary != "" {
      ghost var order, bests;
      promoted, order, bests := PromoteLanguagePerDomain(cs, l);
    }
    assert |multiset(promoted)| == |multiset(cs)|;
    result := FilterAndDiversifyCandidates(promoted, "", "", fold);
    KeepAll(promoted, OfDomain("", fold));
    KeepAll(promoted, OfSchema("", fold));
    if |promoted| > 3 {
      DiversifyLaws(promoted);
      assert LongestWithinCaps(cs, result, |Rounds([], promoted).0|);
      if WithinCaps(promoted) { WithinCapsStays(promoted); }
    }
    if l.primary != "" {
      forall site ensures PreferredFirst(l, cs, result, site) {
        if |promoted| > 3 {
          DiversifyKeepsFirsts(promoted, d => Group(l, d), site);
          StillPreferred(l, cs, promoted, result, site);
        }
      }
    }
  }

  lemma FirstIsFound(l: Languages, cs: seq<Candidate>, site: string, p: nat)
    requires FirstOfSite(l, cs, site, None, p)
    ensures FirstIn(cs, d => Group(l, d), site) == Some(cs[p])
  {
    hide Group, OfSite;
    var groupOf := d => Group(l, d);
    forall j | 0 <= j < |cs| ensures OfSite(l, cs[j], site) <==> groupOf(cs[j].domain) == site {
      SiteIsGroup(l, cs[j], site);
    }
    FirstInFound(cs, groupOf, site);
  }

  lemma FirstExists(l: Languages, cs: seq<Candidate>, site: string, i: nat) returns (p: nat)
    requires i < |cs| && OfSite(l, cs[i], site)
    ensures FirstOfSite(l, cs, site, None, p)
    decreases i
  {
    hide OfSite;
    if j :| 0 <= j < i && OfSite(l, cs[j], site) {
      p := FirstExists(l, cs, site, j);
    } else {
      p := i;
    }
  }

  /** An order that keeps the first of a site keeps it preferred. */
  lemma StillPreferred(l: Languages, cs: seq<Candidate>, promoted: seq<Candidate>, result: seq<Candidate>, site: string)
    requires multiset(promoted) == multiset(result) && PreferredFirst(l, cs, promoted, site)
    requires FirstIn(result, d => Group(l, d), site) == FirstIn(promoted, d => Group(l, d), site)
    ensures PreferredFirst(l, cs, result, site)
  {
    forall p, k | FirstOfSite(l, result, site, None, p) && FirstOfSite(l, cs, site, Preference(l, cs, site), k)
      ensures result[p] == cs[k]
    {
      assert result[p] in multiset(promoted);
      var i :| 0 <= i < |promoted| && promoted[i] == result[p];
      var q := FirstExists(l, promoted, site, i);
      FirstIsFound(l, promoted, site, q);
      FirstIsFound(l, result, site, p);
    }
  }
}
