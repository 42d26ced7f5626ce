/**
 The typo corrector of the search engine: a trigram index over the vocabulary prunes the
 candidates, the Levenshtein distance ranks them.
 */
module SpellChecking {
  import opened EditDistance
  import opened Options

  const CANDIDATE_LIMIT := 100

  /** One row of the vocabulary: a term and the number of documents it occurs in. */
  datatype Entry = Entry(term: string, doc: nat)

  // ---------- Specification: trigrams ----------

  /** How many times `tg` occurs in the first `upto` trigram positions of `word`. */
  ghost function OccurrencesUpTo(word: string, tg: string, upto: nat): nat
    requires upto == 0 || upto + 2 <= |word|
  {
    if upto == 0 then 0
    else OccurrencesUpTo(word, tg, upto - 1) + if word[upto - 1..upto + 2] == tg then 1 else 0
  }

  function TrigramCount(word: string): nat {
    if |word| < 3 then 0 else |word| - 2
  }

  ghost function Occurrences(word: string, tg: string): nat {
    OccurrencesUpTo(word, tg, TrigramCount(word))
  }

  /** Brute force: the trigram positions of the first `upto` of `input`, matched against those of `word`. */
  ghost function SharedUpTo(input: string, word: string, upto: nat): nat
    requires upto == 0 || upto + 2 <= |input|
  {
    if upto == 0 then 0
    else SharedUpTo(input, word, upto - 1) + Occurrences(word, input[upto - 1..upto + 2])
  }

  ghost function Shared(input: string, word: string): nat {
    SharedUpTo(input, word, TrigramCount(input))
  }

  ghost predicate TrigramAt(input: string, word: string, i: int, j: int) {
    0 <= i && i + 3 <= |input| && 0 <= j && j + 3 <= |word| && input[i..i + 3] == word[j..j + 3]
  }

  ghost predicate ShareTrigram(input: string, word: string) {
    exists i, j :: TrigramAt(input, word, i, j)
  }

  /** The pairs of positions at which the two strings have a trigram in common. */
  ghost function CommonTrigrams(input: string, word: string): set<(nat, nat)> {
    set i: nat, j: nat | i < |input| && j < |word| && TrigramAt(input, word, i, j) :: (i, j)
  }

  function Postings(trigrams: map<string, seq<nat>>, tg: string): seq<nat> {
    if tg in trigrams then trigrams[tg] else []
  }

  ghost function Count(ids: seq<nat>, id: nat): nat {
    multiset(ids)[id]
  }

  /** The index lists every word under each of its trigrams, once an occurrence. */
  ghost predicate IsIndex(trigrams: map<string, seq<nat>>, words: seq<string>) {
    && (forall tg, id :: id in Postings(trigrams, tg) ==> id < |words|)
    && (forall tg, id: nat :: id < |words| ==> Count(Postings(trigrams, tg), id) == Occurrences(words[id], tg))
  }

  // ---------- Specification: the answer ----------

  /** Up to a distance, `k` is a closest of the words `ids`, with the most documents among equally close ones. */
  ghost predicate IsClosest(k: nat, ids: set<nat>, input: string, words: seq<string>, docs: seq<nat>)
    requires |words| == |docs| && forall id :: id in ids ==> id < |words|
  {
    k in ids && forall j :: j in ids ==>
      || Lev(input, words[k]) < Lev(input, words[j])
      || (Lev(input, words[k]) == Lev(input, words[j]) && docs[j] <= docs[k])
  }

  function MaxAllowedDistance(input: string): nat {
    if |input| >= 7 then 3 else 2
  }

  /** The candidates that survive the cut: all if they fit; no word left out shares more trigrams than one kept. */
  ghost predicate IsTop(top: seq<nat>, matches: map<nat, nat>) {
    && (forall id :: id in top ==> id in matches)
    && |top| <= CANDIDATE_LIMIT
    && |Elements(top)| == (if |matches| <= CANDIDATE_LIMIT then |matches| else CANDIDATE_LIMIT)
    && (forall kept, left :: kept in top && left in matches && left !in top ==> matches[left] <= matches[kept])
  }

  ghost function Elements(s: seq<nat>): set<nat> {
    set id | id in s
  }

  /** The words that have a trigram in common with the input. */
  ghost function Sharers(input: string, words: seq<string>): set<nat> {
    set id: nat | id < |words| && ShareTrigram(input, words[id])
  }

  ghost function AllIds(words: seq<string>): set<nat> {
    set id: nat | id < |words| && IsWord(id, words)
  }

  ghost predicate IsWord(id: nat, words: seq<string>) {
    id < |words|
  }

  /** At most a hundred of the sharers, all if there are no more; none left out shares more trigrams than one kept. */
  ghost predicate Survivors(kept: set<nat>, input: string, words: seq<string>) {
    && kept <= Sharers(input, words)
    && |kept| == (if |Sharers(input, words)| <= 100 then |Sharers(input, words)| else 100)
    && forall k, left :: k in kept && left in Sharers(input, words) - kept ==>
         |CommonTrigrams(input, words[left])| <= |CommonTrigrams(input, words[k])|
  }

  /** At most two edits are allowed, or three from seven runes on. */
  ghost predicate CloseEnough(input: string, word: string) {
    Lev(input, word) <= if |input| >= 7 then 3 else 2
  }

  /** The term is a closest of the words kept, with the most documents among equally close ones, or empty. */
  ghost predicate Corrects(term: string, kept: set<nat>, input: string, words: seq<string>, docs: seq<nat>)
    requires |words| == |docs| && forall id :: id in kept ==> id < |words|
  {
    if term == "" then forall id :: id in kept ==> !CloseEnough(input, words[id])
    else
      exists id ::
        id in kept && words[id] == term && CloseEnough(input, term) && IsClosest(id, kept, input, words, docs)
  }

  /** The answer `r` over the candidates: a closest one within the allowed distance, or nothing. */
  ghost predicate IsAnswer(r: Option<nat>, ids: set<nat>, input: string, words: seq<string>, docs: seq<nat>)
    requires |words| == |docs| && forall id :: id in ids ==> id < |words|
  {
    match r
    case None => forall id :: id in ids ==> Lev(input, words[id]) > MaxAllowedDistance(input)
    case Some(k) => IsClosest(k, ids, input, words, docs) && Lev(input, words[k]) <= MaxAllowedDistance(input)
  }

  // ---------- Few edits leave a common trigram ----------

  ghost function KeepRun(s: Script): nat {
    if s.Then? && s.op.Keep? then KeepRun(s.before) + 1 else 0
  }

  lemma ShorterShares(a: string, b: string, i: nat, j: nat)
    requires i <= |a| && j <= |b| && ShareTrigram(a[..i], b[..j])
    ensures ShareTrigram(a, b)
  {
    var p, q :| TrigramAt(a[..i], b[..j], p, q);
    assert a[..i][p..p + 3] == a[p..p + 3] && b[..j][q..q + 3] == b[q..q + 3];
    assert TrigramAt(a, b, p, q);
  }

  /** The runes `k` places before the ends of the two strings agree. */
  ghost predicate EndsAgree(a: string, b: string, k: nat) {
    k < |a| && k < |b| && a[|a| - 1 - k] == b[|b| - 1 - k]
  }

  /** Without a common trigram a script keeps at most two runes between two edits. */
  lemma {:induction false} KeptRunsAreShort(s: Script, a: string, b: string)
    requires Turns(s, true, a, b) && !ShareTrigram(a, b)
    ensures KeepRun(s) <= 2
    ensures forall k: nat :: k < KeepRun(s) ==> EndsAgree(a, b, k)
    ensures |a| <= 3 * Cost(s) + KeepRun(s)
  {
    if s.Then? {
      var take, leave := BeforeLast(s, true, a, b);
      ShorterSharesNot(a, b, |a| - take, |b| - leave);
      KeptRunsAreShort(s.before, a[..|a| - take], b[..|b| - leave]);
      if s.op.Keep? { LongerRun(s.before, a, b); }
    }
  }

  lemma LongerRun(before: Script, a: string, b: string)
    requires a != "" && b != "" && Last(a) == Last(b) && !ShareTrigram(a, b)
    requires KeepRun(before) <= 2
    requires forall k: nat :: k < KeepRun(before) ==> EndsAgree(Init(a), Init(b), k)
    ensures KeepRun(before) < 2
    ensures forall k: nat :: k < KeepRun(before) + 1 ==> EndsAgree(a, b, k)
  {
    forall k: nat | k < KeepRun(before) + 1 ensures EndsAgree(a, b, k) {
      if k > 0 {
        assert EndsAgree(Init(a), Init(b), k - 1);
      }
    }
    ThreeEndsShare(a, b);
  }

  lemma ThreeEndsShare(a: string, b: string)
    ensures EndsAgree(a, b, 0) && EndsAgree(a, b, 1) && EndsAgree(a, b, 2) ==> ShareTrigram(a, b)
  {
    if EndsAgree(a, b, 0) && EndsAgree(a, b, 1) && EndsAgree(a, b, 2) {
      var p, q := |a| - 3, |b| - 3;
      assert a[p..p + 3] == [a[p], a[p + 1], a[p + 2]] == [b[q], b[q + 1], b[q + 2]] == b[q..q + 3];
      assert TrigramAt(a, b, p, q);
    }
  }

  lemma ShorterSharesNot(a: string, b: string, i: nat, j: nat)
    requires i <= |a| && j <= |b| && !ShareTrigram(a, b)
    ensures !ShareTrigram(a[..i], b[..j])
  {
    if ShareTrigram(a[..i], b[..j]) {
      ShorterShares(a, b, i, j);
    }
  }

  /** A word at distance d from an input of at least 3d + 3 runes has a trigram in common with it. */
  lemma CloseWordsShareTrigram(input: string, word: string)
    requires |input| >= 3 * Lev(input, word) + 3
    ensures ShareTrigram(input, word)
  {
    if !ShareTrigram(input, word) {
      var s := BestScript(true, input, word);
      KeptRunsAreShort(s, input, word);
    }
  }

  ghost predicate OccursAt(word: string, tg: string, j: int) {
    0 <= j && j + 3 <= |word| && word[j..j + 3] == tg
  }

  lemma {:induction false} OccursIffPositive(word: string, tg: string, upto: nat)
    requires upto == 0 || upto + 2 <= |word|
    ensures OccurrencesUpTo(word, tg, upto) > 0 <==> exists j :: j < upto && OccursAt(word, tg, j)
  {
    if upto > 0 {
      OccursIffPositive(word, tg, upto - 1);
      assert OccursAt(word, tg, upto - 1) <==> word[upto - 1..upto + 2] == tg;
    }
  }

  lemma {:induction false} SharedIffPositive(input: string, word: string, upto: nat)
    requires upto == 0 || upto + 2 <= |input|
    ensures SharedUpTo(input, word, upto) > 0 <==> exists i, j :: i < upto && TrigramAt(input, word, i, j)
  {
    if upto > 0 {
      SharedIffPositive(input, word, upto - 1);
      var p := upto - 1;
      var tg := input[p..p + 3];
      OccursIffPositive(word, tg, TrigramCount(word));
      if j :| j < TrigramCount(word) && OccursAt(word, tg, j) {
        assert TrigramAt(input, word, p, j);
      } else {
        forall j ensures !TrigramAt(input, word, p, j) {
          assert OccursAt(word, tg, j) || !TrigramAt(input, word, p, j);
        }
      }
    }
  }

  /** Counting by trigrams finds exactly the words with a common trigram. */
  lemma CountsFindSharers(input: string, word: string)
    ensures Shared(input, word) > 0 <==> ShareTrigram(input, word)
  {
    SharedIffPositive(input, word, TrigramCount(input));
    if i, j :| TrigramAt(input, word, i, j) {
      assert i < TrigramCount(input) && TrigramAt(input, word, i, j);
    }
  }

  ghost function PairsOf(i: nat, js: set<nat>): set<(nat, nat)> {
    set j | j in js :: (i, j)
  }

  lemma {:induction false} PairsCount(i: nat, js: set<nat>)
    ensures |PairsOf(i, js)| == |js|
  {
    if js == {} {
      assert PairsOf(i, js) == {};
    } else {
      var k :| k in js;
      PairsCount(i, js - {k});
      assert PairsOf(i, js) == PairsOf(i, js - {k}) + {(i, k)};
    }
  }

  ghost function OccursBefore(word: string, tg: string, upto: nat): set<nat> {
    set j: nat | j < upto && OccursAt(word, tg, j)
  }

  ghost function CommonBefore(input: string, word: string, upto: nat): set<(nat, nat)> {
    set i: nat, j: nat | i < upto && j < |word| && TrigramAt(input, word, i, j) :: (i, j)
  }

  lemma {:induction false} OccurrencesCount(word: string, tg: string, upto: nat)
    requires upto == 0 || upto + 2 <= |word|
    ensures OccurrencesUpTo(word, tg, upto) == |OccursBefore(word, tg, upto)|
  {
    if upto == 0 {
      assert OccursBefore(word, tg, upto) == {};
    } else {
      OccurrencesCount(word, tg, upto - 1);
      var more := if OccursAt(word, tg, upto - 1) then {upto - 1} else {};
      assert OccursBefore(word, tg, upto) == OccursBefore(word, tg, upto - 1) + more;
    }
  }

  lemma {:induction false} SharedCounts(input: string, word: string, upto: nat)
    requires upto == 0 || upto + 2 <= |input|
    ensures SharedUpTo(input, word, upto) == |CommonBefore(input, word, upto)|
  {
    if upto == 0 {
      assert CommonBefore(input, word, upto) == {};
    } else {
      hide ShareTrigram, Occurrences;
      SharedCounts(input, word, upto - 1);
      OneMoreRow(input, word, upto - 1);
    }
  }

  lemma RowCounts(input: string, word: string, i: nat) returns (row: set<(nat, nat)>)
    requires i + 3 <= |input|
    ensures forall p :: p in row <==> p.0 == i && p.1 < |word| && TrigramAt(input, word, i, p.1)
    ensures |row| == Occurrences(word, input[i..i + 3])
  {
    var tg := input[i..i + 3];
    var js := OccursBefore(word, tg, TrigramCount(word));
    row := PairsOf(i, js);
    forall j: nat ensures j in js <==> j < |word| && TrigramAt(input, word, i, j) {
      assert OccursAt(word, tg, j) <==> TrigramAt(input, word, i, j);
    }
    OccurrencesCount(word, tg, TrigramCount(word));
    PairsCount(i, js);
  }

  lemma OneMoreRow(input: string, word: string, i: nat)
    requires i + 3 <= |input|
    ensures |CommonBefore(input, word, i + 1)|
            == |CommonBefore(input, word, i)| + Occurrences(word, input[i..i + 3])
  {
    hide Occurrences, TrigramAt;
    var row := RowCounts(input, word, i);
    assert CommonBefore(input, word, i + 1) == CommonBefore(input, word, i) + row;
    assert CommonBefore(input, word, i) !! row;
  }

  /** Counting by trigrams counts the pairs of positions at which the two strings agree on three runes. */
  lemma CountsPairs(input: string, word: string)
    ensures Shared(input, word) == |CommonTrigrams(input, word)|
  {
    SharedCounts(input, word, TrigramCount(input));
    assert CommonTrigrams(input, word) == CommonBefore(input, word, TrigramCount(input)) by {
      forall i, j | TrigramAt(input, word, i, j) ensures i < TrigramCount(input) {}
    }
  }

  // ---------- The spell checker ----------

  class SpellChecker {
    var words: seq<string>
    var docs: seq<nat>
    var trigrams: map<string, seq<nat>>
    var ready: bool

    ghost predicate Valid()
      reads this
    {
      |words| == |docs| && IsIndex(trigrams, words)
    }

    constructor ()
      ensures Valid() && !ready
    {
      words, docs, trigrams, ready := [], [], map[], false;
    }

    /** Replaces the vocabulary and builds the index over it. */
    method LoadVocabulary(rows: seq<Entry>)
      modifies this
      ensures Valid() && ready
      ensures |words| == |rows|
      ensures forall k :: 0 <= k < |rows| ==> words[k] == rows[k].term && docs[k] == rows[k].doc
    {
      var tempWords: seq<string>, tempDocs: seq<nat>, tempTrigrams: map<string, seq<nat>> := [], [], map[];
      for idx := 0 to |rows|
        invariant |tempWords| == |tempDocs| == idx
        invariant forall k :: 0 <= k < idx ==> tempWords[k] == rows[k].term && tempDocs[k] == rows[k].doc
        invariant IsIndex(tempTrigrams, tempWords)
      {
        tempWords := tempWords + [rows[idx].term];
        tempDocs := tempDocs + [rows[idx].doc];
        tempTrigrams := AddTrigrams(tempTrigrams, tempWords);
      }
      words, docs, trigrams, ready := tempWords, tempDocs, tempTrigrams, true;
    }

    /** Lists the last word under each of its trigrams. */
    static method AddTrigrams(before: map<string, seq<nat>>, words: seq<string>)
      returns (trigrams: map<string, seq<nat>>)
      requires words != [] && IsIndex(before, words[..|words| - 1])
      ensures IsIndex(trigrams, words)
    {
      var idx := |words| - 1;
      var runes := words[idx];
      trigrams := before;
      NewWordUnlisted(trigrams, words);
      for i := 0 to TrigramCount(runes)
        invariant PartialIndex(trigrams, words, i)
      {
        var tg := runes[i..i + 3];
        ListOnce(trigrams, words, i);
        trigrams := trigrams[tg := Postings(trigrams, tg) + [idx]];
      }
    }

    /** How many trigrams (with multiplicity) each word has in common with the input. */
    method CountMatches(input: string) returns (matches: map<nat, nat>)
      requires Valid()
      ensures forall id: nat :: id in matches <==> id < |words| && Shared(input, words[id]) > 0
      ensures forall id :: id in matches ==> matches[id] == Shared(input, words[id])
    {
      matches := map[];
      for i := 0 to TrigramCount(input)
        invariant forall id: nat :: Tally(matches, id) == SharedBefore(input, words, id, i)
        invariant forall id :: id in matches ==> matches[id] > 0
      {
        var ids := Postings(trigrams, input[i..i + 3]);
        matches := AddTallies(matches, ids);
        forall id: nat ensures Tally(matches, id) == SharedBefore(input, words, id, i + 1) {
          if id >= |words| {
            assert id !in ids;
          }
        }
      }
      forall id: nat ensures Tally(matches, id) == if id < |words| then Shared(input, words[id]) else 0 {
        assert Tally(matches, id) == SharedBefore(input, words, id, TrigramCount(input));
      }
      TalliesAreMatches(matches, input, words);
    }

    /** Counts one more posting list. */
    static method AddTallies(before: map<nat, nat>, ids: seq<nat>) returns (matches: map<nat, nat>)
      requires forall id :: id in before ==> before[id] > 0
      ensures forall id: nat :: Tally(matches, id) == Tally(before, id) + Count(ids, id)
      ensures forall id :: id in matches ==> matches[id] > 0
    {
      matches := before;
      assert ids[..0] == [];
      for k := 0 to |ids|
        invariant forall id: nat :: Tally(matches, id) == Tally(before, id) + Count(ids[..k], id)
        invariant forall id :: id in matches ==> matches[id] > 0
      {
        assert ids[..k + 1] == ids[..k] + [ids[k]];
        var id := ids[k];
        matches := matches[id := Tally(matches, id) + 1];
      }
      assert ids[..|ids|] == ids;
    }

    /** The candidates in an order of decreasing count; ties in any order, as an unstable sort leaves them. */
    method TopCandidates(matches: map<nat, nat>) returns (top: seq<nat>)
      ensures IsTop(top, matches)
    {
      top := [];
      var pending := matches.Keys;
      while |top| < CANDIDATE_LIMIT && pending != {}
        invariant forall id :: id in matches <==> (id in pending || id in top)
        invariant |top| + |pending| == |matches| && |top| == |Elements(top)| <= CANDIDATE_LIMIT
        invariant Elements(top) !! pending
        invariant forall kept, left :: kept in top && left in pending ==> matches[left] <= matches[kept]
        decreases |pending|
      {
        HasGreatest(pending, matches);
        var best :| best in pending && forall id :: id in pending ==> matches[id] <= matches[best];
        assert Elements(top + [best]) == Elements(top) + {best};
        top := top + [best];
        pending := pending - {best};
      }
    }

    /** The closest of the candidates that survive the cut. Also tells which those were. */
    method Closest(input: string) returns (best: Option<nat>, ghost candidates: set<nat>)
      requires Valid()
      ensures Survivors(candidates, input, words) && IsAnswer(best, candidates, input, words, docs)
    {
      var matches := CountMatches(input);
      forall id: nat | id < |words|
        ensures Shared(input, words[id]) > 0 <==> ShareTrigram(input, words[id])
        ensures Shared(input, words[id]) == |CommonTrigrams(input, words[id])|
      {
        CountsFindSharers(input, words[id]);
        CountsPairs(input, words[id]);
      }
      assert matches.Keys == Sharers(input, words);
      var top := TopCandidates(matches);
      candidates := Elements(top);
      assert |matches| == |Sharers(input, words)|;
      best := ClosestOf(input, top);
    }

    method ClosestOf(input: string, top: seq<nat>) returns (best: Option<nat>)
      requires Valid() && forall id :: id in top ==> id < |words|
      ensures IsAnswer(best, Elements(top), input, words, docs)
    {
      best := None;
      var bestScore := -1.0;
      var minDist := 100;
      var maxAllowed := MaxAllowedDistance(input);
      for c := 0 to |top|
        invariant forall id :: id in top[..c] ==> id < |words|
        invariant IsAnswer(best, Elements(top[..c]), input, words, docs)
        invariant best.None? ==> minDist == 100
        invariant best.Some? ==> minDist == Lev(input, words[best.value]) <= maxAllowed
        invariant best.Some? ==> bestScore == 1000.0 / (minDist + 1) as real + docs[best.value] as real
      {
        assert top[..c + 1] == top[..c] + [top[c]];
        var id := top[c];
        assert id in top;
        var dist := Levenshtein(input, words[id]);
        ghost var before := best;
        if dist <= maxAllowed {
          var score := 1000.0 / (dist + 1) as real + docs[id] as real;
          if dist < minDist || (dist == minDist && score > bestScore) {
            minDist, bestScore, best := dist, score, Some(id);
          }
        }
        OneMoreCandidate(before, best, Elements(top[..c]), id, input, words, docs);
        assert Elements(top[..c + 1]) == Elements(top[..c]) + {id};
      }
      assert top[..|top|] == top;
    }

    /**
     Suggests a correction for the trimmed and lower-cased input, which is what `clean` makes of it.
     The suggestion is a closest of the words that survive the cut. Whenever at most a hundred words share a
     trigram with the input and some word lies within an allowed distance d with 3d + 3 <= |input|, it is
     a closest word of the whole vocabulary.
     */
    method Suggest(raw: string, clean: string -> string) returns (term: string)
      requires Valid()
      ensures !ready || |clean(raw)| < 4 ==> term == ""
      ensures var input := clean(raw);
              ready && |input| >= 4 ==>
                exists kept :: Survivors(kept, input, words) && Corrects(term, kept, input, words, docs)
      ensures var input := clean(raw);
              && ready && |input| >= 4 && |Sharers(input, words)| <= 100
              && (exists id: nat :: id < |words| && WithinReach(input, words[id]))
              ==> exists id: nat :: id < |words| && words[id] == term
                                    && IsClosest(id, AllIds(words), input, words, docs)
    {
      term := "";
      if !ready {
        return;
      }
      var input := clean(raw);
      if |input| < 4 {
        return;
      }
      var answer, candidates := Closest(input);
      if answer.Some? {
        term := words[answer.value];
        assert ShareTrigram(input, term);
      }
      assert Corrects(term, candidates, input, words, docs);
      if |Sharers(input, words)| <= 100 {
        AllKept(candidates, Sharers(input, words));
        if id: nat :| id < |words| && WithinReach(input, words[id]) {
          ClosestOverall(answer, id, input, words, docs);
        }
      }
    }
  }

  lemma AllKept(kept: set<nat>, all: set<nat>)
    requires kept <= all && |kept| == |all|
    ensures kept == all
  {
    assert all == kept + (all - kept);
  }

  /** Close enough to be allowed, and to have a trigram in common with the input for certain. */
  ghost predicate WithinReach(input: string, word: string) {
    CloseEnough(input, word) && 3 * Lev(input, word) + 3 <= |input|
  }

  /** The pruning by trigrams loses nothing: the best candidate is the best word. */
  lemma ClosestOverall(answer: Option<nat>, id: nat, input: string, words: seq<string>, docs: seq<nat>)
    requires |words| == |docs|
    requires IsAnswer(answer, Sharers(input, words), input, words, docs)
    requires id < |words| && WithinReach(input, words[id])
    ensures answer.Some? && IsClosest(answer.value, AllIds(words), input, words, docs)
  {
    CloseWordsShareTrigram(input, words[id]);
    assert id in Sharers(input, words);
    var k := answer.value;
    forall j | j in AllIds(words)
      ensures || Lev(input, words[k]) < Lev(input, words[j])
              || (Lev(input, words[k]) == Lev(input, words[j]) && docs[j] <= docs[k])
    {
      if j !in Sharers(input, words) && Lev(input, words[j]) <= Lev(input, words[k]) {
        CloseWordsShareTrigram(input, words[j]);
      }
    }
  }

  /** How an answer over some candidates extends to one more. */
  lemma OneMoreCandidate(before: Option<nat>, after: Option<nat>, ids: set<nat>, id: nat,
                         input: string, words: seq<string>, docs: seq<nat>)
    requires |words| == |docs| && id < |words| && forall x :: x in ids ==> x < |words|
    requires IsAnswer(before, ids, input, words, docs)
    requires
      var dist := Lev(input, words[id]);
      after ==
      if dist <= MaxAllowedDistance(input)
         && (before.None? || dist < Lev(input, words[before.value])
             || (dist == Lev(input, words[before.value]) && docs[id] > docs[before.value]))
      then Some(id) else before
    ensures IsAnswer(after, ids + {id}, input, words, docs)
  {
  }

  lemma TalliesAreMatches(matches: map<nat, nat>, input: string, words: seq<string>)
    requires forall id: nat :: Tally(matches, id) == if id < |words| then Shared(input, words[id]) else 0
    requires forall id :: id in matches ==> matches[id] > 0
    ensures forall id: nat :: id in matches <==> id < |words| && Shared(input, words[id]) > 0
    ensures forall id :: id in matches ==> matches[id] == Shared(input, words[id])
  {
    forall id: nat ensures id in matches <==> id < |words| && Shared(input, words[id]) > 0 {
      assert Tally(matches, id) == if id < |words| then Shared(input, words[id]) else 0;
    }
    forall id | id in matches ensures matches[id] == Shared(input, words[id]) {
      assert Tally(matches, id) == if id < |words| then Shared(input, words[id]) else 0;
    }
  }

  function Tally(matches: map<nat, nat>, id: nat): nat {
    if id in matches then matches[id] else 0
  }

  ghost function SharedBefore(input: string, words: seq<string>, id: nat, upto: nat): nat
    requires upto == 0 || upto + 2 <= |input|
  {
    if id < |words| then SharedUpTo(input, words[id], upto) else 0
  }

  /** The index while the last word has been listed under its first `upto` trigrams. */
  ghost predicate PartialIndex(trigrams: map<string, seq<nat>>, words: seq<string>, upto: nat)
    requires words != [] && upto <= TrigramCount(words[|words| - 1])
  {
    && (forall tg, id :: id in Postings(trigrams, tg) ==> id < |words|)
    && (forall tg, id: nat :: id < |words| - 1 ==> Count(Postings(trigrams, tg), id) == Occurrences(words[id], tg))
    && (forall tg :: Count(Postings(trigrams, tg), |words| - 1)
                     == OccurrencesUpTo(words[|words| - 1], tg, upto))
  }

  lemma NewWordUnlisted(trigrams: map<string, seq<nat>>, words: seq<string>)
    requires words != [] && IsIndex(trigrams, words[..|words| - 1])
    ensures PartialIndex(trigrams, words, 0)
  {
    forall tg ensures Count(Postings(trigrams, tg), |words| - 1) == 0 {
      assert |words| - 1 !in Postings(trigrams, tg);
    }
  }

  lemma CountAppend(ids: seq<nat>, last: nat, id: nat)
    ensures Count(ids + [last], id) == Count(ids, id) + if id == last then 1 else 0
  {
  }

  lemma ListOnce(trigrams: map<string, seq<nat>>, words: seq<string>, i: nat)
    requires words != [] && i < TrigramCount(words[|words| - 1]) && PartialIndex(trigrams, words, i)
    ensures var tg := words[|words| - 1][i..i + 3];
            PartialIndex(trigrams[tg := Postings(trigrams, tg) + [|words| - 1]], words, i + 1)
  {
    var idx := |words| - 1;
    var tg := words[idx][i..i + 3];
    var after := trigrams[tg := Postings(trigrams, tg) + [idx]];
    forall t, id | id in Postings(after, t) ensures id < |words| {
      if t == tg {
        assert Postings(after, t) == Postings(trigrams, tg) + [idx];
        assert id == idx || id in Postings(trigrams, tg);
      } else {
        assert Postings(after, t) == Postings(trigrams, t);
      }
    }
    forall t, id: nat
      ensures Count(Postings(after, t), id)
              == Count(Postings(trigrams, t), id) + if t == tg && id == idx then 1 else 0
    {
      CountAppend(Postings(trigrams, tg), idx, id);
    }
  }

  lemma HasGreatest(ids: set<nat>, counts: map<nat, nat>)
    requires ids != {} && ids <= counts.Keys
    ensures exists best :: best in ids && forall id :: id in ids ==> counts[id] <= counts[best]
    decreases |ids|
  {
    var x :| x in ids;
    if ids != {x} {
      HasGreatest(ids - {x}, counts);
      var y :| y in ids - {x} && forall id :: id in ids - {x} ==> counts[id] <= counts[y];
      assert forall id :: id in ids ==> id == x || id in ids - {x};
      assert counts[x] <= counts[y] || counts[y] <= counts[x];
    }
  }
}
