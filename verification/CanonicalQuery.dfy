/**
 The query of a normal form: without the parameters that are dropped, sorted, and escaped anew.
 */
module CanonicalQueries {
  import opened Escapes
  import opened Options
  import opened Queries
  import opened Spaces
  import opened Texts

  // ---------- Dropped parameters ----------

  const CLICKS: set<string> :=
    {"fbclid", "gclid", "dclid", "msclkid", "yclid", "igshid", "mc_cid", "mc_eid", "zanpid", "_gl"}
  const LOGINS: set<string> := {"auth", "sid", "phpsessid", "jsessionid", "expires", "expiry", "exp"}
  const FILTERS: set<string> := {"f", "filter", "sort", "order", "view", "layout", "theme", "feedviewtype", "feedsort"}
  const ORDERS: set<string> := {"sort_by", "sort_order", "dir", "direction", "mode", "type"}
  const SEARCHES: set<string> := {"q", "query", "s", "search", "action", "diff", "oldid", "printable"}
  const REFERRERS: set<string> := {"ref", "source", "t", "ref_src", "ref_url", "referer", "referrer", "context"}

  const DROPPED: set<string> := CLICKS + LOGINS + FILTERS + ORDERS + SEARCHES + REFERRERS

  predicate ShouldDropQueryParam(lower: string -> string, key: string) {
    var k := lower(TrimSpace(key));
    || k == ""
    || "utm_" <= k || "_hs" <= k || "mkt_" <= k
    || Contains(k, "token") || Contains(k, "session") || Contains(k, "signature")
    || "x-amz-" <= k
    || k in DROPPED
  }

  /** What a trimmed and lower-cased key must be for its parameter to go. */
  predicate Unwanted(k: string) {
    || k == ""
    || HasPrefix(k, ["utm_", "_hs", "mkt_", "x-amz-"]) || Mentions(k, ["token", "session", "signature"])
    || k in DROPPED
  }

  predicate HasPrefix(k: string, prefixes: seq<string>) {
    exists i :: 0 <= i < |prefixes| && prefixes[i] <= k
  }

  predicate Mentions(k: string, words: seq<string>) {
    exists i :: 0 <= i < |words| && Contains(k, words[i])
  }

  lemma UnwantedAreDropped(lower: string -> string, key: string)
    ensures ShouldDropQueryParam(lower, key) <==> Unwanted(lower(TrimSpace(key)))
  {
    hide Contains, TrimSpace, HasPrefix, Mentions;
    var k := lower(TrimSpace(key));
    PrefixesListed(k);
    WordsListed(k);
  }

  lemma PrefixesListed(k: string)
    ensures HasPrefix(k, ["utm_", "_hs", "mkt_", "x-amz-"])
            <==> "utm_" <= k || "_hs" <= k || "mkt_" <= k || "x-amz-" <= k
  {
    var prefixes := ["utm_", "_hs", "mkt_", "x-amz-"];
    assert prefixes[0] == "utm_" && prefixes[1] == "_hs" && prefixes[2] == "mkt_" && prefixes[3] == "x-amz-";
  }

  lemma WordsListed(k: string)
    ensures Mentions(k, ["token", "session", "signature"])
            <==> Contains(k, "token") || Contains(k, "session") || Contains(k, "signature")
  {
    hide Contains;
    var words := ["token", "session", "signature"];
    assert words[0] == "token" && words[1] == "session" && words[2] == "signature";
  }

  // ---------- The query ----------

  /** The values of each key, in the order in which they come. */
  function Values(ps: seq<Pair>): map<string, seq<string>> {
    if ps == [] then map[]
    else
      var m, p := Values(ps[..|ps| - 1]), ps[|ps| - 1];
      m[p.key := (if p.key in m then m[p.key] else []) + [p.value]]
  }

  function Cleaned(lower: string -> string, m: map<string, seq<string>>): map<string, seq<string>> {
    map k | k in m && !ShouldDropQueryParam(lower, k) :: Sort(Leq, m[k])
  }

  function Row(key: string, values: seq<string>): seq<Pair> {
    seq(|values|, i requires 0 <= i < |values| => Pair(key, values[i]))
  }

  function Rows(keys: seq<string>, m: map<string, seq<string>>): seq<Pair>
    requires forall k :: k in keys ==> k in m
  {
    if keys == [] then [] else Row(keys[0], m[keys[0]]) + Rows(keys[1..], m)
  }

  /** Keys in order, each with its values. */
  ghost function Encode(m: map<string, seq<string>>): seq<Pair> {
    SortedListHolds(m.Keys);
    Rows(SortedList(m.Keys), m)
  }

  /** A query from which nothing can be read stays as it is. */
  ghost function CanonicalQuery(lower: string -> string, query: Option<string>): Option<string> {
    if query.Some? && Fields(query.value) != [] then
      var cleaned := Cleaned(lower, Values(Fields(query.value)));
      if cleaned == map[] then None else Some(FieldsText(Encode(cleaned)))
    else query
  }

  // ---------- What the query amounts to ----------

  function Kept(lower: string -> string, ps: seq<Pair>): seq<Pair> {
    if ps == [] then []
    else
      var last := ps[|ps| - 1];
      Kept(lower, ps[..|ps| - 1]) + if ShouldDropQueryParam(lower, last.key) then [] else [last]
  }

  /** The bag of pairs kept, or the text as it is when nothing in it is a pair. */
  datatype Sense = Pairs(bag: multiset<Pair>) | Junk(rawQuery: string)

  function SenseOf(lower: string -> string, query: Option<string>): Sense {
    if query.None? then Pairs(multiset{})
    else if Fields(query.value) != [] then Pairs(multiset(Kept(lower, Fields(query.value))))
    else Junk(query.value)
  }

  predicate PairLeq(a: Pair, b: Pair) {
    if a.key == b.key then Leq(a.value, b.value) else Leq(a.key, b.key)
  }

  lemma PairLeqIsTotalOrder()
    ensures TotalOrder(PairLeq)
  {
    LeqIsTotalOrder();
  }

  function Count(m: map<string, seq<string>>, p: Pair): nat {
    if p.key in m then multiset(m[p.key])[p.value] else 0
  }

  lemma {:induction false} ValuesCount(ps: seq<Pair>, p: Pair)
    ensures multiset(ps)[p] == Count(Values(ps), p)
    ensures p.key in Values(ps) ==> Values(ps)[p.key] != []
  {
    if ps != [] {
      ValuesCount(ps[..|ps| - 1], p);
      assert ps == ps[..|ps| - 1] + [ps[|ps| - 1]];
    }
  }

  lemma KeptLast(lower: string -> string, before: seq<Pair>, last: Pair)
    ensures Kept(lower, before + [last])
            == if ShouldDropQueryParam(lower, last.key) then Kept(lower, before) else Kept(lower, before) + [last]
  {
    hide ShouldDropQueryParam;
    assert (before + [last])[..|before|] == before;
  }

  lemma {:induction false} KeptCount(lower: string -> string, ps: seq<Pair>, p: Pair)
    ensures multiset(Kept(lower, ps))[p] == if ShouldDropQueryParam(lower, p.key) then 0 else multiset(ps)[p]
  {
    hide ShouldDropQueryParam, Kept;
    if ps == [] {
      NothingKept(lower);
    } else {
      var before, last := ps[..|ps| - 1], ps[|ps| - 1];
      assert ps == before + [last];
      KeptCount(lower, before, p);
      KeptLast(lower, before, last);
      CountLast(before, last, p);
      CountLast(Kept(lower, before), last, p);
    }
  }

  lemma NothingKept(lower: string -> string)
    ensures Kept(lower, []) == []
  {
  }

  lemma CountLast(ps: seq<Pair>, last: Pair, p: Pair)
    ensures multiset(ps + [last])[p] == multiset(ps)[p] + if p == last then 1 else 0
  {
  }

  lemma {:induction false} RowCount(key: string, values: seq<string>, p: Pair)
    ensures multiset(Row(key, values))[p] == if p.key == key then multiset(values)[p.value] else 0
  {
    if values != [] {
      RowCount(key, values[1..], p);
      assert values == [values[0]] + values[1..];
      assert Row(key, values) == [Pair(key, values[0])] + Row(key, values[1..]);
    }
  }

  lemma {:induction false} RowsCount(keys: seq<string>, m: map<string, seq<string>>, p: Pair)
    requires Distinct(keys) && forall k :: k in keys ==> k in m
    ensures multiset(Rows(keys, m))[p] == if p.key in keys then Count(m, p) else 0
  {
    if keys != [] {
      RowsCount(keys[1..], m, p);
      RowCount(keys[0], m[keys[0]], p);
      assert keys == [keys[0]] + keys[1..];
    }
  }

  lemma {:induction false} RowsKeys(keys: seq<string>, m: map<string, seq<string>>)
    requires forall k :: k in keys ==> k in m
    ensures forall i :: 0 <= i < |Rows(keys, m)| ==> Rows(keys, m)[i].key in keys
  {
    if keys != [] { RowsKeys(keys[1..], m); }
  }

  lemma {:induction false} RowsSorted(keys: seq<string>, m: map<string, seq<string>>)
    requires Sorted(Leq, keys) && Distinct(keys)
    requires forall k :: k in keys ==> k in m && Sorted(Leq, m[k])
    ensures Sorted(PairLeq, Rows(keys, m))
  {
    if keys != [] {
      RowsSorted(keys[1..], m);
      RowsKeys(keys[1..], m);
      var row, rest := Row(keys[0], m[keys[0]]), Rows(keys[1..], m);
      assert Sorted(Leq, m[keys[0]]);
      forall i | 0 <= i < |rest|
        ensures rest[i].key != keys[0] && Leq(keys[0], rest[i].key)
      {
        var k :| 0 <= k < |keys[1..]| && keys[1..][k] == rest[i].key;
        assert keys[0] != keys[k + 1] && Leq(keys[0], keys[k + 1]);
      }
    }
  }

  /** The rebuilt query lists the kept pairs in the order of their keys, then of their values. */
  lemma EncodeSortsKept(lower: string -> string, ps: seq<Pair>)
    ensures Encode(Cleaned(lower, Values(ps))) == Sort(PairLeq, Kept(lower, ps))
    ensures WantedOnly(lower, ps, Encode(Cleaned(lower, Values(ps))))
    ensures Cleaned(lower, Values(ps)) == map[] <==> Kept(lower, ps) == []
  {
    PairLeqIsTotalOrder();
    LeqIsTotalOrder();
    var m := Cleaned(lower, Values(ps));
    SortedListHolds(m.Keys);
    forall k | k in m
      ensures Sorted(Leq, m[k]) && multiset(m[k]) == multiset(Values(ps)[k])
    {
      SortSorts(Leq, Values(ps)[k]);
    }
    RowsSorted(SortedList(m.Keys), m);
    forall p
      ensures multiset(Encode(m))[p] == multiset(Kept(lower, ps))[p]
    {
      RowsCount(SortedList(m.Keys), m, p);
      ValuesCount(ps, p);
      KeptCount(lower, ps, p);
    }
    assert multiset(Encode(m)) == multiset(Kept(lower, ps));
    SortSorts(PairLeq, Kept(lower, ps));
    SortedIsUnique(PairLeq, Encode(m), Sort(PairLeq, Kept(lower, ps)));
    CleanedEmpty(lower, ps);
    KeptAreWanted(lower, ps);
  }

  /** The pairs whose keys are not unwanted stay, as often as they were there, and no others. */
  ghost predicate WantedOnly(lower: string -> string, before: seq<Pair>, after: seq<Pair>) {
    forall p :: multiset(after)[p] == if Unwanted(lower(TrimSpace(p.key))) then 0 else multiset(before)[p]
  }

  lemma KeptAreWanted(lower: string -> string, ps: seq<Pair>)
    ensures WantedOnly(lower, ps, Kept(lower, ps))
  {
    hide ShouldDropQueryParam, Unwanted, TrimSpace;
    forall p
      ensures multiset(Kept(lower, ps))[p] == if Unwanted(lower(TrimSpace(p.key))) then 0 else multiset(ps)[p]
    {
      KeptCount(lower, ps, p);
      UnwantedAreDropped(lower, p.key);
    }
  }

  lemma CleanedEmpty(lower: string -> string, ps: seq<Pair>)
    ensures Cleaned(lower, Values(ps)) == map[] <==> Kept(lower, ps) == []
  {
    var m := Cleaned(lower, Values(ps));
    if Kept(lower, ps) != [] {
      var p := Kept(lower, ps)[0];
      assert p in multiset(Kept(lower, ps));
      KeptCount(lower, ps, p);
      ValuesCount(ps, p);
      assert p.key in m;
    }
    if k :| k in m {
      var v := Values(ps)[k];
      ValuesCount(ps, Pair(k, ""));
      ValuesCount(ps, Pair(k, v[0]));
      assert v[0] in multiset(v);
      KeptCount(lower, ps, Pair(k, v[0]));
    }
  }

  lemma QueryForm(lower: string -> string, query: Option<string>)
    requires query.Some? && Fields(query.value) != []
    ensures var kept := Kept(lower, Fields(query.value));
            CanonicalQuery(lower, query) == if kept == [] then None else Some(FieldsText(Sort(PairLeq, kept)))
  {
    hide Fields, FieldsText, Encode, Kept;
    EncodeSortsKept(lower, Fields(query.value));
  }

  lemma {:induction false} KeptAll(lower: string -> string, ps: seq<Pair>)
    requires forall i :: 0 <= i < |ps| ==> !ShouldDropQueryParam(lower, ps[i].key)
    ensures Kept(lower, ps) == ps
  {
    hide ShouldDropQueryParam;
    if ps != [] {
      KeptAll(lower, ps[..|ps| - 1]);
      assert ps == ps[..|ps| - 1] + [ps[|ps| - 1]];
    }
  }

  /** The sorted list of the kept pairs holds these pairs only, none of them to be dropped. */
  lemma SortedKept(lower: string -> string, ps: seq<Pair>)
    ensures multiset(Sort(PairLeq, Kept(lower, ps))) == multiset(Kept(lower, ps))
    ensures var s := Sort(PairLeq, Kept(lower, ps)); Kept(lower, s) == s == Sort(PairLeq, s)
  {
    PairLeqIsTotalOrder();
    var s := Sort(PairLeq, Kept(lower, ps));
    SortSorts(PairLeq, Kept(lower, ps));
    forall i | 0 <= i < |s|
      ensures !ShouldDropQueryParam(lower, s[i].key)
    {
      assert s[i] in multiset(s);
      KeptCount(lower, ps, s[i]);
    }
    KeptAll(lower, s);
    SortSorts(PairLeq, s);
    SortedIsUnique(PairLeq, s, Sort(PairLeq, s));
  }

  predicate QueryBytes(query: Option<string>) {
    query.Some? ==> Bytes(query.value)
  }

  lemma {:induction false} KeptFrom(lower: string -> string, ps: seq<Pair>)
    ensures |Kept(lower, ps)| <= |ps| && forall p :: p in Kept(lower, ps) ==> p in ps
  {
    if ps != [] { KeptFrom(lower, ps[..|ps| - 1]); }
  }

  /** The sorted list of the pairs kept is read again from its text. */
  lemma SortedKeptRead(lower: string -> string, rawQuery: string)
    requires Bytes(rawQuery) && Kept(lower, Fields(rawQuery)) != []
    ensures var s := Sort(PairLeq, Kept(lower, Fields(rawQuery)));
            s != [] && Fields(FieldsText(s)) == s && Kept(lower, s) == s == Sort(PairLeq, s)
  {
    hide Fields, FieldsText, Sort, Kept;
    var ps := Fields(rawQuery);
    var s := Sort(PairLeq, Kept(lower, ps));
    SortedKept(lower, ps);
    KeptFrom(lower, ps);
    FieldsWithin(rawQuery);
    FieldsBytes(rawQuery);
    assert |multiset(s)| == |multiset(Kept(lower, ps))| && |s| == |Kept(lower, ps)|;
    forall p | p in s ensures PairBytes(p) {
      assert p in multiset(s);
    }
    FieldsRead(s);
  }

  /** The normal form keeps the sense of a query. */
  lemma SenseKept(lower: string -> string, query: Option<string>)
    requires QueryBytes(query)
    ensures SenseOf(lower, CanonicalQuery(lower, query)) == SenseOf(lower, query)
    ensures WantedOnly(lower, FieldsIn(query), FieldsIn(CanonicalQuery(lower, query)))
  {
    hide Fields, FieldsText, Sort, Kept, WantedOnly, ShouldDropQueryParam;
    if query.Some? && Fields(query.value) != [] {
      QueryForm(lower, query);
      KeptAreWanted(lower, Fields(query.value));
      if Kept(lower, Fields(query.value)) != [] {
        SortedKeptRead(lower, query.value);
        SortedKept(lower, Fields(query.value));
        SameBagWanted(lower, Fields(query.value), Kept(lower, Fields(query.value)),
                      Sort(PairLeq, Kept(lower, Fields(query.value))));
      }
    } else {
      NothingWanted(lower);
    }
  }

  lemma NothingWanted(lower: string -> string)
    ensures WantedOnly(lower, [], [])
  {
  }

  lemma SameBagWanted(lower: string -> string, ps: seq<Pair>, a: seq<Pair>, b: seq<Pair>)
    requires WantedOnly(lower, ps, a) && multiset(a) == multiset(b)
    ensures WantedOnly(lower, ps, b)
  {
    hide Unwanted, TrimSpace;
  }

  /** The parameters that are read from a query, if there is one. */
  function FieldsIn(query: Option<string>): seq<Pair> {
    if query.Some? then Fields(query.value) else []
  }

  lemma CanonicalQueryTwice(lower: string -> string, query: Option<string>)
    requires QueryBytes(query)
    ensures CanonicalQuery(lower, CanonicalQuery(lower, query)) == CanonicalQuery(lower, query)
  {
    hide Fields, FieldsText, Sort, Kept;
    if query.Some? && Fields(query.value) != [] {
      QueryForm(lower, query);
      if Kept(lower, Fields(query.value)) != [] {
        SortedKeptRead(lower, query.value);
        QueryForm(lower, CanonicalQuery(lower, query));
      }
    }
  }

  /** Two queries have one normal form exactly when they have one sense. */
  lemma QueriesAgree(lower: string -> string, q: Option<string>, r: Option<string>)
    requires QueryBytes(q) && QueryBytes(r)
    ensures CanonicalQuery(lower, q) == CanonicalQuery(lower, r) <==> SenseOf(lower, q) == SenseOf(lower, r)
  {
    hide CanonicalQuery, SenseOf;
    SenseKept(lower, q);
    SenseKept(lower, r);
    if SenseOf(lower, q) == SenseOf(lower, r) { SameSenseSameForm(lower, q, r); }
  }

  ghost function KeptOf(lower: string -> string, query: Option<string>): seq<Pair> {
    if query.Some? then Kept(lower, Fields(query.value)) else []
  }

  lemma BagForm(lower: string -> string, q: Option<string>)
    requires SenseOf(lower, q).Pairs?
    ensures SenseOf(lower, q).bag == multiset(KeptOf(lower, q))
    ensures CanonicalQuery(lower, q)
            == if KeptOf(lower, q) == [] then None else Some(FieldsText(Sort(PairLeq, KeptOf(lower, q))))
  {
    hide Fields, FieldsText, Sort, Kept;
    if q.Some? { QueryForm(lower, q); }
  }

  lemma SameSenseSameForm(lower: string -> string, q: Option<string>, r: Option<string>)
    requires SenseOf(lower, q) == SenseOf(lower, r)
    ensures CanonicalQuery(lower, q) == CanonicalQuery(lower, r)
  {
    if SenseOf(lower, q).Pairs? {
      hide Fields, FieldsText, Sort, Kept, KeptOf, SenseOf, CanonicalQuery;
      BagForm(lower, q);
      BagForm(lower, r);
      SameBagSameList(KeptOf(lower, q), KeptOf(lower, r));
    }
  }

  lemma SameBagSameList(a: seq<Pair>, b: seq<Pair>)
    requires multiset(a) == multiset(b)
    ensures Sort(PairLeq, a) == Sort(PairLeq, b) && (a == [] <==> b == [])
  {
    hide Sort;
    PairLeqIsTotalOrder();
    assert |multiset(a)| == |a| && |multiset(b)| == |b|;
    SortSorts(PairLeq, a);
    SortSorts(PairLeq, b);
    SortedIsUnique(PairLeq, Sort(PairLeq, a), Sort(PairLeq, b));
  }

  /** A query with fields has a sense given by its kept pairs alone. */
  lemma ParsableQueries(lower: string -> string, q: Option<string>, r: Option<string>)
    requires QueryBytes(q) && QueryBytes(r)
    requires q.Some? ==> Fields(q.value) != []
    requires r.Some? ==> Fields(r.value) != []
    ensures CanonicalQuery(lower, q) == CanonicalQuery(lower, r)
            <==> multiset(KeptOf(lower, q)) == multiset(KeptOf(lower, r))
  {
    hide Fields, Kept, CanonicalQuery;
    QueriesAgree(lower, q, r);
  }

  /** A query without fields is left as it is: a URL ending in a question mark is not the one without it. */
  lemma EmptyQueryStays(lower: string -> string, rawQuery: string)
    requires Fields(rawQuery) == []
    ensures CanonicalQuery(lower, Some(rawQuery)) == Some(rawQuery) != CanonicalQuery(lower, None)
  {
  }

  // ---------- The end of a query ----------

  lemma {:induction false} NoFields(pieces: seq<string>)
    ensures FieldsOf(pieces) == [] <==> forall i :: 0 <= i < |pieces| ==> FieldOf(pieces[i]).None?
  {
    hide FieldOf;
    if pieces != [] { NoFields(pieces[..|pieces| - 1]); }
  }

  /** Text without separators and escapes behind a field makes it no junk. */
  lemma FieldWithTail(piece: string, tail: string)
    requires FieldOf(piece).Some? && '%' !in tail && ';' !in tail && '=' !in tail
    ensures FieldOf(piece + tail).Some?
  {
    hide Unescape, Cut;
    var (key, rest) := Cut(piece, '=');
    CutSplits(piece, '=');
    if rest.Some? {
      UnescapeWithTail(rest.value, tail, true);
      CutAt(key, Some(rest.value + tail), '=');
      assert piece + tail == key + (['='] + (rest.value + tail));
    } else {
      UnescapeWithTail(key, tail, true);
      CutNothing(key + tail, '=');
    }
    ConcatHas(piece, tail, ';');
  }

  lemma SplitWithTail(text: string, tail: string)
    requires '&' !in tail
    ensures var a, b := Split(text, '&'), Split(text + tail, '&');
            && |a| == |b| && (forall i :: 0 <= i < |a| - 1 ==> b[i] == a[i])
            && b[|b| - 1] == a[|a| - 1] + tail
  {
    SplitAppend(text, tail, '&');
    SplitPrefix(tail, "", '&');
    assert tail + "" == tail;
  }

  lemma TrimTail(s: string) returns (tail: string)
    ensures s == TrimEnd(s) + tail && forall i :: 0 <= i < |tail| ==> !Visible(tail[i])
  {
    hide TrimEnd, Visible;
    tail := s[|TrimEnd(s)|..];
    TrimmedOff(s);
    TailApart(s, TrimEnd(s), tail);
  }

  lemma TailApart(s: string, t: string, tail: string)
    requires t <= s && tail == s[|t|..] && forall i :: |t| <= i < |s| ==> !Visible(s[i])
    ensures s == t + tail && forall i :: 0 <= i < |tail| ==> !Visible(tail[i])
  {
    hide Visible;
    forall i | 0 <= i < |tail| ensures !Visible(tail[i]) {
      assert tail[i] == s[|t| + i];
    }
  }

  lemma InvisibleLacks(tail: string)
    requires forall i :: 0 <= i < |tail| ==> !Visible(tail[i])
    ensures '&' !in tail && '%' !in tail && ';' !in tail && '=' !in tail
  {
  }

  /** A query from which nothing can be read is none to read from without the spaces at its end. */
  lemma JunkTrimmed(rawQuery: string)
    requires Fields(rawQuery) == []
    ensures Fields(TrimEnd(rawQuery)) == []
  {
    hide Fields, TrimEnd, Visible;
    var tail := TrimTail(rawQuery);
    JunkInFront(rawQuery, TrimEnd(rawQuery), tail);
  }

  lemma JunkInFront(rawQuery: string, t: string, tail: string)
    requires rawQuery == t + tail && Fields(rawQuery) == []
    requires forall i :: 0 <= i < |tail| ==> !Visible(tail[i])
    ensures Fields(t) == []
  {
    hide FieldOf, Split, FieldsOf, Visible;
    InvisibleLacks(tail);
    SplitWithTail(t, tail);
    if !TooMany(rawQuery) {
      NoFields(Split(rawQuery, '&'));
      NoFields(Split(t, '&'));
      JunkPieces(Split(t, '&'), Split(rawQuery, '&'), tail);
    }
  }

  lemma JunkPieces(a: seq<string>, b: seq<string>, tail: string)
    requires |a| == |b| > 0 && (forall i :: 0 <= i < |a| - 1 ==> b[i] == a[i]) && b[|b| - 1] == a[|a| - 1] + tail
    requires forall i :: 0 <= i < |tail| ==> !Visible(tail[i])
    requires forall i :: 0 <= i < |b| ==> FieldOf(b[i]).None?
    ensures forall i :: 0 <= i < |a| ==> FieldOf(a[i]).None?
  {
    hide FieldOf, Visible;
    var n := |a| - 1;
    InvisibleLacks(tail);
    if FieldOf(a[n]).Some? { FieldWithTail(a[n], tail); }
    assert forall i :: 0 <= i < n ==> FieldOf(a[i]) == FieldOf(b[i]);
  }

  predicate VisibleText(query: string) {
    forall i :: 0 <= i < |query| ==> Visible(query[i]) && query[i] != '#'
  }

  /** A normal form is the junk it came from, or visible. */
  lemma QueryVisible(lower: string -> string, query: Option<string>)
    ensures var q := CanonicalQuery(lower, query);
            || q.None? || (query.Some? && Fields(query.value) == [] && q == query)
            || (q.value != "" && VisibleText(q.value))
  {
    hide Fields, FieldsText, Sort, Kept, VisibleText, CanonicalQuery;
    if query.Some? && Fields(query.value) != [] {
      QueryForm(lower, query);
      if Kept(lower, Fields(query.value)) != [] { SortedVisible(lower, Fields(query.value)); }
    } else if query.Some? {
      EmptyQueryStays(lower, query.value);
    } else {
      NoQueryStays(lower);
    }
  }

  lemma NoQueryStays(lower: string -> string)
    ensures CanonicalQuery(lower, None) == None
  {
  }

  lemma SortedVisible(lower: string -> string, ps: seq<Pair>)
    requires Kept(lower, ps) != []
    ensures var text := FieldsText(Sort(PairLeq, Kept(lower, ps)));
            text != "" && VisibleText(text)
  {
    hide FieldsText, Sort, Kept, Visible;
    var s := Sort(PairLeq, Kept(lower, ps));
    SortedKept(lower, ps);
    assert |multiset(s)| == |multiset(Kept(lower, ps))| > 0;
    FieldsTextVisible(s);
    var text := FieldsText(s);
    assert forall i :: 0 <= i < |text| ==> text[i] in text;
  }
}
