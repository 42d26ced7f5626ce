/**
 What the URL code needs of strings: the byte order, sorting, splitting at a separator, trimming.
 */
module Texts {
  import opened Options

  // ---------- Sorting by a total order ----------

  ghost predicate TotalOrder<T(!new)>(leq: (T, T) -> bool) {
    && (forall a, b :: leq(a, b) || leq(b, a))
    && (forall a, b :: leq(a, b) && leq(b, a) ==> a == b)
    && (forall a, b, c :: leq(a, b) && leq(b, c) ==> leq(a, c))
  }

  ghost predicate Sorted<T>(leq: (T, T) -> bool, s: seq<T>) {
    forall i, k :: 0 <= i < k < |s| ==> leq(s[i], s[k])
  }

  function Insert<T>(leq: (T, T) -> bool, x: T, s: seq<T>): seq<T> {
    if s == [] then [x]
    else if leq(x, s[0]) then [x] + s
    else [s[0]] + Insert(leq, x, s[1..])
  }

  function Sort<T>(leq: (T, T) -> bool, s: seq<T>): seq<T> {
    if s == [] then [] else Insert(leq, s[0], Sort(leq, s[1..]))
  }

  lemma {:induction false} InsertSorts<T(!new)>(leq: (T, T) -> bool, x: T, s: seq<T>)
    requires TotalOrder(leq) && Sorted(leq, s)
    ensures Sorted(leq, Insert(leq, x, s)) && multiset(Insert(leq, x, s)) == multiset{x} + multiset(s)
  {
    if s == [] {
    } else if leq(x, s[0]) {
      assert forall k :: 0 < k < |s| ==> leq(x, s[k]);
    } else {
      InsertSorts(leq, x, s[1..]);
      assert s == [s[0]] + s[1..];
      PutInFront(leq, x, s, Insert(leq, x, s[1..]));
    }
  }

  lemma PutInFront<T(!new)>(leq: (T, T) -> bool, x: T, s: seq<T>, rest: seq<T>)
    requires TotalOrder(leq) && Sorted(leq, s) && s != [] && !leq(x, s[0])
    requires Sorted(leq, rest) && multiset(rest) == multiset{x} + multiset(s[1..])
    ensures Sorted(leq, [s[0]] + rest)
  {
    forall k | 0 <= k < |rest|
      ensures leq(s[0], rest[k])
    {
      assert rest[k] in multiset(rest);
      assert rest[k] == x || rest[k] in s[1..];
    }
  }

  lemma {:induction false} SortSorts<T(!new)>(leq: (T, T) -> bool, s: seq<T>)
    requires TotalOrder(leq)
    ensures Sorted(leq, Sort(leq, s)) && multiset(Sort(leq, s)) == multiset(s)
  {
    if s != [] {
      SortSorts(leq, s[1..]);
      InsertSorts(leq, s[0], Sort(leq, s[1..]));
      assert s == [s[0]] + s[1..];
    }
  }

  lemma MultisetTail<T>(s: seq<T>)
    requires s != []
    ensures multiset(s[1..]) == multiset(s) - multiset{s[0]}
  {
    assert s == [s[0]] + s[1..];
  }

  lemma SameFirst<T(!new)>(leq: (T, T) -> bool, s: seq<T>, t: seq<T>)
    requires TotalOrder(leq) && Sorted(leq, s) && Sorted(leq, t) && multiset(s) == multiset(t)
    requires s != [] && t != []
    ensures s[0] == t[0]
  {
    assert s[0] in multiset(t) && t[0] in multiset(s);
    assert leq(s[0], s[0]) && leq(t[0], t[0]);
  }

  /** A bag of values has one sorted list. */
  lemma {:induction false} SortedIsUnique<T(!new)>(leq: (T, T) -> bool, s: seq<T>, t: seq<T>)
    requires TotalOrder(leq) && Sorted(leq, s) && Sorted(leq, t) && multiset(s) == multiset(t)
    ensures s == t
  {
    assert |s| == |multiset(s)| == |multiset(t)| == |t|;
    if s != [] {
      SameFirst(leq, s, t);
      MultisetTail(s);
      MultisetTail(t);
      SortedIsUnique(leq, s[1..], t[1..]);
    }
  }

  // ---------- Strings in byte order ----------

  predicate Leq(a: string, b: string) {
    a == [] || (b != [] && (a[0] < b[0] || (a[0] == b[0] && Leq(a[1..], b[1..]))))
  }

  lemma {:induction false} LeqTotal(a: string, b: string)
    ensures Leq(a, b) || Leq(b, a)
    ensures Leq(a, b) && Leq(b, a) ==> a == b
  {
    if a != [] && b != [] && a[0] == b[0] {
      LeqTotal(a[1..], b[1..]);
      assert a == [a[0]] + a[1..] && b == [b[0]] + b[1..];
    }
  }

  lemma {:induction false} LeqTransitive(a: string, b: string, c: string)
    requires Leq(a, b) && Leq(b, c)
    ensures Leq(a, c)
  {
    if a != [] && a[0] == b[0] == c[0] { LeqTransitive(a[1..], b[1..], c[1..]); }
  }

  lemma LeqIsTotalOrder()
    ensures TotalOrder(Leq)
  {
    forall a, b ensures (Leq(a, b) || Leq(b, a)) && (Leq(a, b) && Leq(b, a) ==> a == b) { LeqTotal(a, b); }
    forall a, b, c | Leq(a, b) && Leq(b, c) ensures Leq(a, c) { LeqTransitive(a, b, c); }
  }

  // ---------- The sorted list of a set ----------

  ghost function ListOf(set0: set<string>): (s: seq<string>)
    ensures multiset(s) == multiset(set0)
  {
    if set0 == {} then []
    else
      var x :| x in set0;
      [x] + ListOf(set0 - {x})
  }

  ghost function SortedList(set0: set<string>): seq<string> {
    Sort(Leq, ListOf(set0))
  }

  ghost predicate Distinct<T>(s: seq<T>) {
    forall i, k :: 0 <= i < k < |s| ==> s[i] != s[k]
  }

  lemma SortedListHolds(set0: set<string>)
    ensures Sorted(Leq, SortedList(set0)) && Distinct(SortedList(set0))
    ensures forall x :: x in SortedList(set0) <==> x in set0
  {
    LeqIsTotalOrder();
    SortSorts(Leq, ListOf(set0));
    var s := SortedList(set0);
    assert multiset(s) == multiset(set0);
    forall x ensures x in s <==> x in set0 { assert x in multiset(s) <==> x in s; }
    OnceIsDistinct(s);
  }

  lemma {:induction false} OnceIsDistinct<T>(s: seq<T>)
    requires forall x :: multiset(s)[x] <= 1
    ensures Distinct(s)
  {
    if s != [] {
      MultisetTail(s);
      OnceIsDistinct(s[1..]);
      assert s[0] !in multiset(s[1..]);
      assert s[0] !in s[1..];
    }
  }

  /** Any sorted list of these strings, each once, is that list. */
  lemma SortedListIsUnique(s: seq<string>, set0: set<string>)
    requires Sorted(Leq, s) && Distinct(s)
    requires forall x :: x in s <==> x in set0
    ensures s == SortedList(set0)
  {
    LeqIsTotalOrder();
    SortSorts(Leq, ListOf(set0));
    DistinctCounts(s);
    assert multiset(s) == multiset(set0) by {
      forall x ensures multiset(s)[x] == multiset(set0)[x] { assert x in multiset(s) <==> x in s; }
    }
    SortedIsUnique(Leq, s, SortedList(set0));
  }

  lemma {:induction false} DistinctCounts<T>(s: seq<T>)
    requires Distinct(s)
    ensures forall x :: x in s ==> multiset(s)[x] == 1
  {
    if s != [] {
      DistinctCounts(s[1..]);
      assert s == [s[0]] + s[1..];
      assert s[0] !in s[1..];
    }
  }

  // ---------- Splitting and joining ----------

  function Split(s: string, sep: char): (parts: seq<string>)
    ensures |parts| >= 1
  {
    if s == [] then [""]
    else
      var rest := Split(s[1..], sep);
      if s[0] == sep then [""] + rest else [[s[0]] + rest[0]] + rest[1..]
  }

  function Join(parts: seq<string>, sep: char): string {
    if parts == [] then ""
    else if |parts| == 1 then parts[0]
    else parts[0] + [sep] + Join(parts[1..], sep)
  }

  ghost predicate Free(parts: seq<string>, c: char) {
    forall i :: 0 <= i < |parts| ==> c !in parts[i]
  }

  lemma {:induction false} SplitIsFree(s: string, sep: char)
    ensures Free(Split(s, sep), sep)
  {
    if s != [] { SplitIsFree(s[1..], sep); }
  }

  lemma {:induction false} SplitPrefix(a: string, b: string, sep: char)
    requires sep !in a
    ensures Split(a + b, sep) == [a + Split(b, sep)[0]] + Split(b, sep)[1..]
  {
    if a == [] {
      assert a + b == b;
      assert a + Split(b, sep)[0] == Split(b, sep)[0];
    } else {
      assert (a + b)[1..] == a[1..] + b;
      SplitPrefix(a[1..], b, sep);
      assert [a[0]] + (a[1..] + Split(b, sep)[0]) == a + Split(b, sep)[0];
    }
  }

  /** The pieces `r` are those of `s` and `t`, with the last of `s` and the first of `t` in one. */
  ghost predicate Glued(s: seq<string>, t: seq<string>, r: seq<string>)
    requires s != [] && t != []
  {
    && |r| == |s| + |t| - 1
    && (forall i :: 0 <= i < |s| - 1 ==> r[i] == s[i])
    && r[|s| - 1] == s[|s| - 1] + t[0]
    && (forall i :: |s| <= i < |r| ==> r[i] == t[i - |s| + 1])
  }

  lemma GluedPiece(s: seq<string>, t: seq<string>, r: seq<string>)
    requires s != [] && t != [] && Glued(s, t, r)
    ensures Glued([""] + s, t, [""] + r)
  {
  }

  lemma GluedChar(c: char, s: seq<string>, t: seq<string>, r: seq<string>)
    requires s != [] && t != [] && Glued(s, t, r)
    ensures Glued([[c] + s[0]] + s[1..], t, [[c] + r[0]] + r[1..])
  {
    if |s| == 1 { assert [c] + (s[0] + t[0]) == ([c] + s[0]) + t[0]; }
  }

  /** Appending a text extends the last piece by its first one. */
  lemma {:induction false} SplitAppend(a: string, b: string, sep: char)
    ensures Glued(Split(a, sep), Split(b, sep), Split(a + b, sep))
  {
    if a == "" {
      assert a + b == b;
      assert "" + Split(b, sep)[0] == Split(b, sep)[0];
    } else {
      assert (a + b)[1..] == a[1..] + b;
      SplitAppend(a[1..], b, sep);
      GluedPiece(Split(a[1..], sep), Split(b, sep), Split(a[1..] + b, sep));
      GluedChar(a[0], Split(a[1..], sep), Split(b, sep), Split(a[1..] + b, sep));
    }
  }

  /** Splitting takes a joined list apart again. */
  lemma {:induction false} SplitJoin(parts: seq<string>, sep: char)
    requires parts != [] && Free(parts, sep)
    ensures Split(Join(parts, sep), sep) == parts
  {
    if |parts| == 1 {
      SplitPrefix(parts[0], "", sep);
      assert parts[0] + "" == parts[0];
    } else {
      var rest := [sep] + Join(parts[1..], sep);
      SplitJoin(parts[1..], sep);
      SplitPrefix(parts[0], rest, sep);
      assert rest[1..] == Join(parts[1..], sep);
      assert parts[0] + rest == Join(parts, sep);
      assert parts[0] + "" == parts[0];
    }
  }

  lemma {:induction false} JoinSplit(s: string, sep: char)
    ensures Join(Split(s, sep), sep) == s
  {
    if s != [] {
      JoinSplit(s[1..], sep);
      var rest := Split(s[1..], sep);
      if s[0] == sep {
        assert ([""] + rest)[1..] == rest;
      } else {
        assert ([[s[0]] + rest[0]] + rest[1..])[1..] == rest[1..];
      }
    }
  }

  /** What comes before the first separator, and after it if there is one. */
  function Cut(s: string, sep: char): (string, Option<string>) {
    if s == [] then ("", None)
    else if s[0] == sep then ("", Some(s[1..]))
    else ([s[0]] + Cut(s[1..], sep).0, Cut(s[1..], sep).1)
  }

  lemma {:induction false} CutAt(a: string, b: Option<string>, sep: char)
    requires sep !in a
    ensures Cut(a + (if b.Some? then [sep] + b.value else ""), sep) == (a, b)
  {
    var rest := if b.Some? then [sep] + b.value else "";
    if a == [] {
      assert a + rest == rest;
      assert b.Some? ==> rest[1..] == b.value;
    } else {
      CutAt(a[1..], b, sep);
      assert (a + rest)[1..] == a[1..] + rest;
      assert [a[0]] + a[1..] == a;
    }
  }

  lemma CutNothing(s: string, sep: char)
    requires sep !in s
    ensures Cut(s, sep) == (s, None)
  {
    CutAt(s, None, sep);
    assert s + "" == s;
  }

  lemma {:induction false} CutSplits(s: string, sep: char)
    ensures var (a, b) := Cut(s, sep);
            s == (if b.Some? then a + [sep] + b.value else a) && sep !in a
  {
    if s != [] { CutSplits(s[1..], sep); }
  }

  lemma {:induction false} CutIsFree(s: string, sep: char)
    ensures sep !in Cut(s, sep).0
    ensures forall c :: c in Cut(s, sep).0 ==> c in s
    ensures Cut(s, sep).1.Some? ==> forall c :: c in Cut(s, sep).1.value ==> c in s
  {
    if s != [] { CutIsFree(s[1..], sep); }
  }

  /** The last place of a character, or -1. */
  function LastIndex(s: string, c: char): (i: int)
    ensures -1 <= i < |s|
    ensures i >= 0 ==> s[i] == c && c !in s[i + 1..]
    ensures i < 0 ==> c !in s
  {
    if s == [] then -1
    else if s[|s| - 1] == c then |s| - 1
    else
      var i := LastIndex(s[..|s| - 1], c);
      assert i >= 0 ==> s[i + 1..] == s[..|s| - 1][i + 1..] + [s[|s| - 1]];
      assert s == s[..|s| - 1] + [s[|s| - 1]];
      i
  }

  lemma LastIndexAt(s: string, c: char, i: int)
    requires 0 <= i < |s| && s[i] == c && c !in s[i + 1..]
    ensures LastIndex(s, c) == i
  {
    assert s[i] in s && LastIndex(s, c) >= 0;
    NoneBehind(s, c, i);
    NoneBehind(s, c, LastIndex(s, c));
  }

  lemma NoneBehind(s: string, c: char, i: int)
    requires 0 <= i < |s| && c !in s[i + 1..]
    ensures forall k :: i < k < |s| ==> s[k] != c
  {
    forall k | i < k < |s|
      ensures s[k] != c
    {
      assert s[k] == s[i + 1..][k - i - 1];
    }
  }

  lemma ConcatHas(a: string, b: string, c: char)
    ensures c in a + b <==> c in a || c in b
  {
  }

  lemma Regroup(a: string, b: string, c: string)
    ensures a + b + c == a + (b + c)
  {
  }

  lemma NothingInFront(a: string, b: string)
    ensures "" + a + b == a + b
  {
  }

  // ---------- Case ----------

  function LowerChar(c: char): char {
    if 'A' <= c <= 'Z' then (c as int + 32) as char else c
  }

  function ToLower(s: string): (t: string)
    ensures |t| == |s|
    ensures forall c: char :: !('A' <= c <= 'Z') && !('a' <= c <= 'z') ==> (c in t <==> c in s)
  {
    if s == [] then [] else [LowerChar(s[0])] + ToLower(s[1..])
  }

  lemma {:induction false} ToLowerTwice(s: string)
    ensures ToLower(ToLower(s)) == ToLower(s)
  {
    if s != [] {
      ToLowerTwice(s[1..]);
      assert ToLower(s)[1..] == ToLower(s[1..]);
    }
  }

  lemma {:induction false} LowerIsItself(s: string)
    requires forall i :: 0 <= i < |s| ==> !('A' <= s[i] <= 'Z')
    ensures ToLower(s) == s
  {
    if s != [] { LowerIsItself(s[1..]); }
  }

  // ---------- Parts and ends of strings ----------

  predicate OccursAt(s: string, sub: string, i: nat) {
    i + |sub| <= |s| && s[i..i + |sub|] == sub
  }

  predicate Contains(s: string, sub: string) {
    exists i: nat :: i <= |s| && OccursAt(s, sub, i)
  }

  predicate EndsWith(s: string, c: char) {
    s != [] && s[|s| - 1] == c
  }

  predicate StartsWith(s: string, c: char) {
    s != [] && s[0] == c
  }

  function TrimRight(s: string, c: char): (t: string)
    ensures t <= s && !EndsWith(t, c)
    ensures t == s <==> !EndsWith(s, c)
  {
    if EndsWith(s, c) then TrimRight(s[..|s| - 1], c) else s
  }

  function TrimLeft(s: string, c: char): (t: string)
    ensures |t| <= |s| && t == s[|s| - |t|..] && !StartsWith(t, c)
  {
    if StartsWith(s, c) then TrimLeft(s[1..], c) else s
  }

  function Trim(s: string, c: char): (t: string)
    ensures !StartsWith(t, c) && !EndsWith(t, c)
  {
    TrimLeft(TrimRight(s, c), c)
  }
}
