/**
 Edit distances between rune strings: the plain Levenshtein distance of the spell checker and the
 optimal string alignment distance (adjacent transpositions allowed) of the search ranker.
 Both tables are proved to hold the minimum cost over all edit scripts.
 */
module EditDistance {
  import opened Options

  // ---------- Edit scripts ----------

  datatype Op = Keep | Replace(rune: char) | Delete | Insert(rune: char) | Swap

  /** A left-to-right script; the last operation is outermost. */
  datatype Script = Done | Then(before: Script, op: Op)

  function Init(a: string): string
    requires a != ""
  {
    a[..|a| - 1]
  }

  function Last(a: string): char
    requires a != ""
  {
    a[|a| - 1]
  }

  ghost function Append(r: Option<string>, tail: string): Option<string> {
    match r
    case None => None
    case Some(s) => Some(s + tail)
  }

  /** The string a script turns all of `a` into, if it fits `a`. */
  ghost function Apply(s: Script, a: string): Option<string> {
    match s
    case Done => if a == "" then Some("") else None
    case Then(before, Keep) => if a == "" then None else Append(Apply(before, Init(a)), [Last(a)])
    case Then(before, Replace(c)) => if a == "" then None else Append(Apply(before, Init(a)), [c])
    case Then(before, Delete) => if a == "" then None else Apply(before, Init(a))
    case Then(before, Insert(c)) => Append(Apply(before, a), [c])
    case Then(before, Swap) =>
      if |a| < 2 then None
      else Append(Apply(before, a[..|a| - 2]), [a[|a| - 1], a[|a| - 2]])
  }

  ghost function Cost(s: Script): nat {
    match s
    case Done => 0
    case Then(before, op) => Cost(before) + if op.Keep? then 0 else 1
  }

  /** Scripts without transpositions. */
  ghost predicate Plain(s: Script) {
    s.Then? ==> !s.op.Swap? && Plain(s.before)
  }

  ghost predicate Turns(s: Script, plain: bool, a: string, b: string) {
    Apply(s, a) == Some(b) && (plain ==> Plain(s))
  }

  /** `d` is the least cost of a script (a plain one, if `plain`) that turns `a` into `b`. */
  ghost predicate IsLeastCost(d: nat, plain: bool, a: string, b: string) {
    && (exists s :: Turns(s, plain, a, b) && Cost(s) == d)
    && (forall s :: Turns(s, plain, a, b) ==> d <= Cost(s))
  }

  lemma {:induction false} SomeScript(a: string, b: string) returns (s: Script)
    ensures Turns(s, true, a, b)
    decreases |a| + |b|
  {
    if b != "" {
      s := SomeScript(a, Init(b));
      s := Then(s, Insert(Last(b)));
      assert b == Init(b) + [Last(b)];
    } else if a != "" {
      s := SomeScript(Init(a), b);
      s := Then(s, Delete);
    } else {
      s := Done;
    }
  }

  lemma {:induction false} LeastCostExists(plain: bool, a: string, b: string, s: Script)
    requires Turns(s, plain, a, b)
    ensures exists d: nat :: IsLeastCost(d, plain, a, b)
    decreases Cost(s)
  {
    if t :| Turns(t, plain, a, b) && Cost(t) < Cost(s) {
      LeastCostExists(plain, a, b, t);
    } else {
      assert IsLeastCost(Cost(s), plain, a, b);
    }
  }

  lemma DistExists(plain: bool, a: string, b: string)
    ensures exists d: nat :: IsLeastCost(d, plain, a, b)
  {
    var s := SomeScript(a, b);
    LeastCostExists(plain, a, b, s);
  }

  /** The least cost of turning `a` into `b`, by plain scripts or by any. */
  ghost function Dist(plain: bool, a: string, b: string): (d: nat)
    ensures IsLeastCost(d, plain, a, b)
  {
    DistExists(plain, a, b);
    var d: nat :| IsLeastCost(d, plain, a, b);
    d
  }

  /** Levenshtein distance. */
  ghost function Lev(a: string, b: string): nat {
    Dist(true, a, b)
  }

  /** Optimal string alignment distance. */
  ghost function Osa(a: string, b: string): nat {
    Dist(false, a, b)
  }

  // ---------- The recurrence ----------

  function Min(x: int, y: int): int {
    if x <= y then x else y
  }

  function Max(x: int, y: int): int {
    if x >= y then x else y
  }

  function Mismatch(x: char, y: char): nat {
    if x == y then 0 else 1
  }

  /** The last two runes of `a[..i]` and `b[..j]` are each other's transposition. */
  predicate Swapped(a: string, b: string, i: nat, j: nat)
    requires i <= |a| && j <= |b|
  {
    i > 1 && j > 1 && a[i - 1] == b[j - 2] && a[i - 2] == b[j - 1]
  }

  /** Distance of the prefixes of lengths `i` and `j`. */
  ghost function Pre(plain: bool, a: string, b: string, i: nat, j: nat): nat
    requires i <= |a| && j <= |b|
  {
    Dist(plain, a[..i], b[..j])
  }

  lemma BestScript(plain: bool, a: string, b: string) returns (s: Script)
    ensures Turns(s, plain, a, b) && Cost(s) == Dist(plain, a, b)
  {
    assert IsLeastCost(Dist(plain, a, b), plain, a, b);
    s :| Turns(s, plain, a, b) && Cost(s) == Dist(plain, a, b);
  }

  lemma DeleteBound(plain: bool, a: string, b: string, i: nat, j: nat)
    requires 0 < i <= |a| && j <= |b|
    ensures Pre(plain, a, b, i, j) <= Pre(plain, a, b, i - 1, j) + 1
  {
    var s := BestScript(plain, a[..i - 1], b[..j]);
    assert a[..i][..i - 1] == a[..i - 1];
    assert Turns(Then(s, Delete), plain, a[..i], b[..j]);
  }

  lemma InsertBound(plain: bool, a: string, b: string, i: nat, j: nat)
    requires i <= |a| && 0 < j <= |b|
    ensures Pre(plain, a, b, i, j) <= Pre(plain, a, b, i, j - 1) + 1
  {
    var s := BestScript(plain, a[..i], b[..j - 1]);
    assert b[..j] == b[..j - 1] + [b[j - 1]];
    assert Turns(Then(s, Insert(b[j - 1])), plain, a[..i], b[..j]);
  }

  lemma ReplaceBound(plain: bool, a: string, b: string, i: nat, j: nat)
    requires 0 < i <= |a| && 0 < j <= |b|
    ensures Pre(plain, a, b, i, j) <= Pre(plain, a, b, i - 1, j - 1) + Mismatch(a[i - 1], b[j - 1])
  {
    var s := BestScript(plain, a[..i - 1], b[..j - 1]);
    assert a[..i][..i - 1] == a[..i - 1];
    assert b[..j] == b[..j - 1] + [b[j - 1]];
    var op := if a[i - 1] == b[j - 1] then Keep else Replace(b[j - 1]);
    assert Turns(Then(s, op), plain, a[..i], b[..j]);
  }

  lemma SwapBound(a: string, b: string, i: nat, j: nat)
    requires i <= |a| && j <= |b| && Swapped(a, b, i, j)
    ensures Pre(false, a, b, i, j) <= Pre(false, a, b, i - 2, j - 2) + 1
  {
    var s := BestScript(false, a[..i - 2], b[..j - 2]);
    assert a[..i][..i - 2] == a[..i - 2];
    assert b[..j] == b[..j - 2] + [b[j - 2], b[j - 1]];
    assert Turns(Then(s, Swap), false, a[..i], b[..j]);
  }

  /** What a script did before an operation that took `take` runes and left `tail`. */
  lemma BeforeTail(before: Script, plain: bool, a: string, b: string, take: nat, tail: string)
    requires take <= |a| && (plain ==> Plain(before))
    requires Append(Apply(before, a[..|a| - take]), tail) == Some(b)
    ensures |tail| <= |b| && b == b[..|b| - |tail|] + tail && Turns(before, plain, a[..|a| - take], b[..|b| - |tail|])
  {
    var v := Apply(before, a[..|a| - take]).value;
    assert b == v + tail;
    assert b[..|b| - |tail|] == v;
  }

  /** How many runes the last operation takes from the first string and leaves in the second. */
  ghost predicate Ends(op: Op, plain: bool, a: string, b: string, take: nat, leave: nat) {
    && take <= |a| && leave <= |b|
    && match op
       case Keep => take == leave == 1 && a[|a| - 1] == b[|b| - 1]
       case Replace(_) => take == leave == 1
       case Delete => take == 1 && leave == 0
       case Insert(_) => take == 0 && leave == 1
       case Swap => !plain && take == leave == 2 && Swapped(a, b, |a|, |b|)
  }

  lemma BeforeLast(s: Script, plain: bool, a: string, b: string) returns (take: nat, leave: nat)
    requires s.Then? && Turns(s, plain, a, b)
    ensures Ends(s.op, plain, a, b, take, leave)
    ensures Turns(s.before, plain, a[..|a| - take], b[..|b| - leave])
  {
    match s.op
    case Keep =>
      take, leave := 1, 1;
      BeforeTail(s.before, plain, a, b, 1, [Last(a)]);
    case Replace(c) =>
      take, leave := 1, 1;
      BeforeTail(s.before, plain, a, b, 1, [c]);
    case Delete =>
      take, leave := 1, 0;
      assert b[..|b|] == b;
    case Insert(c) =>
      take, leave := 0, 1;
      assert a[..|a|] == a;
      BeforeTail(s.before, plain, a, b, 0, [c]);
    case Swap =>
      take, leave := 2, 2;
      BeforeTail(s.before, plain, a, b, 2, [a[|a| - 1], a[|a| - 2]]);
  }

  lemma PrefixOfPrefix(a: string, i: nat, take: nat)
    requires take <= i <= |a|
    ensures a[..i][..i - take] == a[..i - take]
  {
  }

  lemma LeastOfPrefixes(s: Script, plain: bool, a: string, b: string, i: nat, j: nat)
    requires i <= |a| && j <= |b| && Turns(s, plain, a[..i], b[..j])
    ensures Pre(plain, a, b, i, j) <= Cost(s)
  {
    assert IsLeastCost(Pre(plain, a, b, i, j), plain, a[..i], b[..j]);
  }

  /** A step that the tables try: what it takes, what it leaves, and what it costs at least. */
  ghost predicate Tried(plain: bool, a: string, b: string, i: nat, j: nat, take: nat, leave: nat, cost: nat)
    requires i <= |a| && j <= |b|
  {
    && take <= i && leave <= j
    && (|| (take == 1 && leave == 0 && cost == 1)
        || (take == 0 && leave == 1 && cost == 1)
        || (take == leave == 1 && cost >= Mismatch(a[i - 1], b[j - 1]))
        || (take == leave == 2 && cost == 1 && !plain && Swapped(a, b, i, j)))
  }

  lemma EndsOfPrefixes(op: Op, plain: bool, a: string, b: string, i: nat, j: nat, take: nat, leave: nat)
    requires i <= |a| && j <= |b| && Ends(op, plain, a[..i], b[..j], take, leave)
    ensures Tried(plain, a, b, i, j, take, leave, if op.Keep? then 0 else 1)
  {
  }

  lemma LastStep(plain: bool, a: string, b: string, i: nat, j: nat) returns (take: nat, leave: nat, cost: nat)
    requires i <= |a| && j <= |b| && i + j > 0
    ensures Tried(plain, a, b, i, j, take, leave, cost)
    ensures Pre(plain, a, b, i - take, j - leave) + cost <= Pre(plain, a, b, i, j)
  {
    var s := BestScript(plain, a[..i], b[..j]);
    take, leave := BeforeLast(s, plain, a[..i], b[..j]);
    cost := if s.op.Keep? then 0 else 1;
    EndsOfPrefixes(s.op, plain, a, b, i, j, take, leave);
    PrefixOfPrefix(a, i, take);
    PrefixOfPrefix(b, j, leave);
    LeastOfPrefixes(s.before, plain, a, b, i - take, j - leave);
  }

  /** The last operation of a best script is one of the four that the tables try. */
  lemma LastOperation(plain: bool, a: string, b: string, i: nat, j: nat)
    requires i <= |a| && j <= |b| && i + j > 0
    ensures || (i > 0 && Pre(plain, a, b, i, j) >= Pre(plain, a, b, i - 1, j) + 1)
            || (j > 0 && Pre(plain, a, b, i, j) >= Pre(plain, a, b, i, j - 1) + 1)
            || (i > 0 && j > 0
                && Pre(plain, a, b, i, j) >= Pre(plain, a, b, i - 1, j - 1) + Mismatch(a[i - 1], b[j - 1]))
            || (!plain && Swapped(a, b, i, j) && Pre(plain, a, b, i, j) >= Pre(plain, a, b, i - 2, j - 2) + 1)
  {
    var take, leave, cost := LastStep(plain, a, b, i, j);
  }

  lemma BothEmpty(plain: bool, a: string, b: string)
    ensures Pre(plain, a, b, 0, 0) == 0
  {
    assert Turns(Done, plain, a[..0], b[..0]);
  }

  lemma {:induction false} Borders(plain: bool, a: string, b: string, k: nat)
    ensures k <= |a| ==> Pre(plain, a, b, k, 0) == k
    ensures k <= |b| ==> Pre(plain, a, b, 0, k) == k
  {
    if k == 0 {
      BothEmpty(plain, a, b);
    } else {
      Borders(plain, a, b, k - 1);
      if k <= |a| {
        DeleteBound(plain, a, b, k, 0);
        LastOperation(plain, a, b, k, 0);
      }
      if k <= |b| {
        InsertBound(plain, a, b, 0, k);
        LastOperation(plain, a, b, 0, k);
      }
    }
  }

  type Table = (nat, nat) -> nat

  /** Entry (i, j) of the table follows from the entries above it, left of it and diagonally before it. */
  ghost predicate Solves(f: Table, plain: bool, a: string, b: string, i: nat, j: nat)
    requires i <= |a| && j <= |b|
  {
    if i == 0 then f(i, j) == j
    else if j == 0 then f(i, j) == i
    else
      var m := Min(Min(f(i - 1, j) + 1, f(i, j - 1) + 1), f(i - 1, j - 1) + Mismatch(a[i - 1], b[j - 1]));
      f(i, j) == if !plain && Swapped(a, b, i, j) then Min(m, f(i - 2, j - 2) + 1) else m
  }

  ghost predicate IsTable(f: Table, plain: bool, a: string, b: string) {
    forall i: nat, j: nat {:trigger Solves(f, plain, a, b, i, j)} ::
      i <= |a| && j <= |b| ==> Solves(f, plain, a, b, i, j)
  }

  /** The table of the distances of all prefixes. */
  ghost function PrefixTable(plain: bool, a: string, b: string): Table {
    (i: nat, j: nat) => if i <= |a| && j <= |b| then Pre(plain, a, b, i, j) else 0
  }

  lemma PrefixTableSolves(plain: bool, a: string, b: string, i: nat, j: nat)
    requires i <= |a| && j <= |b|
    ensures Solves(PrefixTable(plain, a, b), plain, a, b, i, j)
  {
    if i > 0 && j > 0 {
      DeleteBound(plain, a, b, i, j);
      InsertBound(plain, a, b, i, j);
      ReplaceBound(plain, a, b, i, j);
      if !plain && Swapped(a, b, i, j) {
        SwapBound(a, b, i, j);
      }
      LastOperation(plain, a, b, i, j);
    } else {
      Borders(plain, a, b, Max(i, j));
    }
  }

  /** The least costs of the prefixes satisfy the recurrence that the two programs evaluate. */
  lemma DistancesFormTable(plain: bool, a: string, b: string) returns (f: Table)
    ensures IsTable(f, plain, a, b)
    ensures f(|a|, |b|) == Dist(plain, a, b)
  {
    f := PrefixTable(plain, a, b);
    forall i: nat, j: nat | i <= |a| && j <= |b|
      ensures Solves(f, plain, a, b, i, j)
    {
      PrefixTableSolves(plain, a, b, i, j);
    }
    assert a[..|a|] == a && b[..|b|] == b;
  }

  // ---------- Laws of every table that satisfies the recurrence ----------

  lemma {:induction false} TableZero(f: Table, plain: bool, a: string, b: string, i: nat, j: nat)
    requires IsTable(f, plain, a, b) && i <= |a| && j <= |b|
    ensures f(i, j) == 0 <==> a[..i] == b[..j]
    decreases i + j
  {
    assert Solves(f, plain, a, b, i, j);
    if i > 0 && j > 0 {
      TableZero(f, plain, a, b, i - 1, j - 1);
      assert a[..i] == a[..i - 1] + [a[i - 1]] && b[..j] == b[..j - 1] + [b[j - 1]];
    }
  }

  lemma {:induction false} TableSymmetric(f: Table, g: Table, plain: bool, a: string, b: string, i: nat, j: nat)
    requires IsTable(f, plain, a, b) && IsTable(g, plain, b, a) && i <= |a| && j <= |b|
    ensures f(i, j) == g(j, i)
    decreases i + j
  {
    assert Solves(f, plain, a, b, i, j) && Solves(g, plain, b, a, j, i);
    if i > 0 && j > 0 {
      TableSymmetric(f, g, plain, a, b, i - 1, j);
      TableSymmetric(f, g, plain, a, b, i, j - 1);
      TableSymmetric(f, g, plain, a, b, i - 1, j - 1);
      if Swapped(a, b, i, j) {
        TableSymmetric(f, g, plain, a, b, i - 2, j - 2);
      }
    }
  }

  lemma {:induction false} TableBounds(f: Table, plain: bool, a: string, b: string, i: nat, j: nat)
    requires IsTable(f, plain, a, b) && i <= |a| && j <= |b|
    ensures Max(i - j, j - i) <= f(i, j) <= Max(i, j)
    decreases i + j
  {
    assert Solves(f, plain, a, b, i, j);
    if i > 0 && j > 0 {
      TableBounds(f, plain, a, b, i - 1, j);
      TableBounds(f, plain, a, b, i, j - 1);
      TableBounds(f, plain, a, b, i - 1, j - 1);
      if Swapped(a, b, i, j) {
        TableBounds(f, plain, a, b, i - 2, j - 2);
      }
    }
  }

  /** Triangle inequality of the plain tables `f` from a to c, `g` from a to b, `h` from b to c. */
  lemma {:induction false} TableTriangle(f: Table, g: Table, h: Table, a: string, b: string, c: string,
                                         i: nat, j: nat, k: nat)
    requires IsTable(f, true, a, c) && IsTable(g, true, a, b) && IsTable(h, true, b, c)
    requires i <= |a| && j <= |b| && k <= |c|
    ensures f(i, k) <= g(i, j) + h(j, k)
    decreases i + j + k
  {
    assert Solves(f, true, a, c, i, k) && Solves(g, true, a, b, i, j) && Solves(h, true, b, c, j, k);
    if i > 0 { assert k == 0 ==> Solves(f, true, a, c, i - 1, k); }
    if k > 0 { assert i == 0 ==> Solves(f, true, a, c, i, k - 1); }
    if j == 0 {
      TableBounds(f, true, a, c, i, k);
    } else if i > 0 && g(i, j) == g(i - 1, j) + 1 {
      TableTriangle(f, g, h, a, b, c, i - 1, j, k);
    } else if k > 0 && h(j, k) == h(j, k - 1) + 1 {
      TableTriangle(f, g, h, a, b, c, i, j, k - 1);
    } else {
      assert i == 0 ==> Solves(g, true, a, b, i, j - 1);
      assert k == 0 ==> Solves(h, true, b, c, j - 1, k);
      var insertB := g(i, j) == g(i, j - 1) + 1;
      var deleteB := h(j, k) == h(j - 1, k) + 1;
      TableTriangle(f, g, h, a, b, c, if insertB then i else i - 1, j - 1, if deleteB then k else k - 1);
    }
  }

  /** A transposition saves at most one of the two plain operations it stands for. */
  lemma {:induction false} TableBracket(f: Table, g: Table, a: string, b: string, i: nat, j: nat)
    requires IsTable(f, false, a, b) && IsTable(g, true, a, b) && i <= |a| && j <= |b|
    ensures f(i, j) <= g(i, j) <= 2 * f(i, j)
    decreases i + j
  {
    assert Solves(f, false, a, b, i, j) && Solves(g, true, a, b, i, j);
    if i > 0 && j > 0 {
      TableBracket(f, g, a, b, i - 1, j);
      TableBracket(f, g, a, b, i, j - 1);
      TableBracket(f, g, a, b, i - 1, j - 1);
      if Swapped(a, b, i, j) {
        assert Solves(g, true, a, b, i - 1, j - 1);
        TableBracket(f, g, a, b, i - 2, j - 2);
      }
    }
  }

  // ---------- The laws of the two distances ----------

  /** Both distances separate strings, are symmetric, and lie between the length difference and the longer length. */
  lemma DistIsSemimetric(plain: bool, a: string, b: string)
    ensures Dist(plain, a, b) == 0 <==> a == b
    ensures Dist(plain, a, b) == Dist(plain, b, a)
    ensures Max(|a| - |b|, |b| - |a|) <= Dist(plain, a, b) <= Max(|a|, |b|)
  {
    var f := DistancesFormTable(plain, a, b);
    var g := DistancesFormTable(plain, b, a);
    assert a[..|a|] == a && b[..|b|] == b;
    TableZero(f, plain, a, b, |a|, |b|);
    TableSymmetric(f, g, plain, a, b, |a|, |b|);
    TableBounds(f, plain, a, b, |a|, |b|);
  }

  /** With the laws above: Levenshtein is a metric. */
  lemma LevTriangle(a: string, b: string, c: string)
    ensures Lev(a, c) <= Lev(a, b) + Lev(b, c)
  {
    var f := DistancesFormTable(true, a, c);
    var g := DistancesFormTable(true, a, b);
    var h := DistancesFormTable(true, b, c);
    TableTriangle(f, g, h, a, b, c, |a|, |b|, |c|);
  }

  /** For all strings, OSA <= Levenshtein <= 2 OSA. */
  lemma OsaBracketsLev(a: string, b: string)
    ensures Osa(a, b) <= Lev(a, b) <= 2 * Osa(a, b)
  {
    var f := DistancesFormTable(false, a, b);
    var g := DistancesFormTable(true, a, b);
    TableBracket(f, g, a, b, |a|, |b|);
  }

  /** The alignment distance, unlike Levenshtein, is no metric: the triangle inequality fails here. */
  lemma OsaTriangleFails()
    ensures Osa("ca", "abc") > Osa("ca", "ac") + Osa("ac", "abc")
  {
    TableOfSwap();
    TableOfInsertion();
    TableOfBoth();
  }

  lemma TableOfSwap()
    ensures Osa("ca", "ac") == 1
  {
    var f := DistancesFormTable(false, "ca", "ac");
    assert Solves(f, false, "ca", "ac", 0, 0) && Solves(f, false, "ca", "ac", 2, 2);
    DistIsSemimetric(false, "ca", "ac");
    assert "ca"[0] != "ac"[0];
  }

  lemma TableOfInsertion()
    ensures Osa("ac", "abc") == 1
  {
    var a, b := "ac", "abc";
    var f := DistancesFormTable(false, a, b);
    assert Solves(f, false, a, b, 0, 0) && Solves(f, false, a, b, 1, 1);
    assert Solves(f, false, a, b, 1, 2) && Solves(f, false, a, b, 2, 3);
    DistIsSemimetric(false, a, b);
  }

  lemma TableOfBoth()
    ensures Osa("ca", "abc") == 3
  {
    var a, b := "ca", "abc";
    var f := DistancesFormTable(false, a, b);
    assert Solves(f, false, a, b, 0, 0) && Solves(f, false, a, b, 0, 1) && Solves(f, false, a, b, 0, 2);
    assert Solves(f, false, a, b, 0, 3) && Solves(f, false, a, b, 1, 0) && Solves(f, false, a, b, 2, 0);
    assert Solves(f, false, a, b, 1, 1);
    assert Solves(f, false, a, b, 1, 2);
    assert Solves(f, false, a, b, 1, 3);
    assert Solves(f, false, a, b, 2, 1);
    assert Solves(f, false, a, b, 2, 2);
    assert Solves(f, false, a, b, 2, 3);
  }

  // ---------- The flat table of the search ranker ----------

  /** Row and column of the flat index `k` in a table of `cols` columns. */
  ghost function Row(k: nat, cols: nat): nat
    requires cols > 0
  {
    if k < cols then 0 else 1 + Row(k - cols, cols)
  }

  ghost function Col(k: nat, cols: nat): (j: nat)
    requires cols > 0
    ensures j < cols
  {
    if k < cols then k else Col(k - cols, cols)
  }

  lemma {:induction false} Index(i: nat, j: nat, cols: nat)
    requires j < cols
    ensures i * cols + j >= 0
    ensures Row(i * cols + j, cols) == i && Col(i * cols + j, cols) == j
  {
    if i > 0 {
      assert i * cols == (i - 1) * cols + cols;
      Index(i - 1, j, cols);
    }
  }

  lemma {:induction false} IndexInverse(k: nat, cols: nat)
    requires cols > 0
    ensures k == Row(k, cols) * cols + Col(k, cols)
  {
    if k >= cols {
      IndexInverse(k - cols, cols);
      assert Row(k, cols) * cols == Row(k - cols, cols) * cols + cols;
    }
  }

  lemma ProductMonotone(i: nat, j: nat, cols: nat)
    requires i <= j
    ensures i * cols <= j * cols
  {
  }

  /** What the flat table must hold at index `k`. */
  ghost function Cell(f: Table, cols: nat, k: nat): nat
    requires cols > 0
  {
    f(Row(k, cols), Col(k, cols))
  }

  lemma CellAt(f: Table, rows: nat, cols: nat, i: nat, j: nat)
    requires i < rows && j < cols
    ensures 0 <= i * cols + j < rows * cols
    ensures Cell(f, cols, i * cols + j) == f(i, j)
  {
    Index(i, j, cols);
    ProductMonotone(i + 1, rows, cols);
    assert (i + 1) * cols == i * cols + cols;
  }

  ghost predicate Filled(f: Table, cols: nat, dp: seq<nat>, upto: nat)
    requires cols > 0
  {
    forall k :: 0 <= k < upto && k < |dp| ==> dp[k] == Cell(f, cols, k)
  }

  /** Column 0 is right in the index range. */
  ghost predicate ColumnSet(cols: nat, dp: seq<nat>, from: nat, upto: nat)
    requires cols > 0
  {
    forall k :: from <= k < upto && k < |dp| && Col(k, cols) == 0 ==> dp[k] == Row(k, cols)
  }

  method DamerauLevenshteinDistanceRunes(a: string, b: string) returns (distance: nat)
    ensures distance == Osa(a, b)
  {
    ghost var f := DistancesFormTable(false, a, b);
    var rows, cols := |a| + 1, |b| + 1;
    var dp := new nat[rows * cols](_ => 0);
    FillBorder(a, b, dp, f);
    for i := 1 to rows
      invariant i * cols <= dp.Length
      invariant Filled(f, cols, dp[..], i * cols)
      invariant ColumnSet(cols, dp[..], i * cols, dp.Length)
    {
      FillRow(a, b, dp, f, i);
      ProductMonotone(i + 1, rows, cols);
    }
    CellAt(f, rows, cols, |a|, |b|);
    assert rows * cols - 1 == |a| * cols + |b|;
    distance := dp[rows * cols - 1];
  }

  method FillBorder(a: string, b: string, dp: array<nat>, ghost f: Table)
    requires dp.Length == (|a| + 1) * (|b| + 1)
    requires IsTable(f, false, a, b)
    modifies dp
    ensures Filled(f, |b| + 1, dp[..], |b| + 1)
    ensures ColumnSet(|b| + 1, dp[..], |b| + 1, dp.Length)
  {
    var rows, cols := |a| + 1, |b| + 1;
    for i := 0 to rows
      invariant 0 <= i * cols <= dp.Length
      invariant ColumnSet(cols, dp[..], 0, i * cols)
    {
      CellAt(f, rows, cols, i, 0);
      dp[i * cols] := i;
      ProductMonotone(i + 1, rows, cols);
      assert (i + 1) * cols == i * cols + cols;
      forall k | 0 <= k < (i + 1) * cols && k < dp.Length && Col(k, cols) == 0
        ensures dp[k] == Row(k, cols)
      {
        FirstOfRow(k, i, cols);
      }
    }
    ProductMonotone(1, rows, cols);
    for j := 0 to cols
      invariant ColumnSet(cols, dp[..], 0, dp.Length)
      invariant forall k :: 0 <= k < j ==> dp[k] == k
    {
      dp[j] := j;
    }
    forall k: nat | k < cols ensures dp[k] == Cell(f, cols, k) {
      assert Solves(f, false, a, b, 0, k);
    }
  }

  lemma FirstOfRow(k: nat, i: nat, cols: nat)
    requires cols > 0 && Col(k, cols) == 0 && k < i * cols + cols
    ensures k < i * cols || (k == i * cols && Row(k, cols) == i)
  {
    IndexInverse(k, cols);
    if Row(k, cols) <= i {
      ProductMonotone(Row(k, cols), i, cols);
    } else {
      ProductMonotone(i + 1, Row(k, cols), cols);
    }
    Index(i, 0, cols);
  }

  method FillRow(a: string, b: string, dp: array<nat>, ghost f: Table, i: nat)
    requires dp.Length == (|a| + 1) * (|b| + 1)
    requires IsTable(f, false, a, b) && 1 <= i <= |a|
    requires Filled(f, |b| + 1, dp[..], i * (|b| + 1))
    requires ColumnSet(|b| + 1, dp[..], i * (|b| + 1), dp.Length)
    modifies dp
    ensures Filled(f, |b| + 1, dp[..], (i + 1) * (|b| + 1))
    ensures ColumnSet(|b| + 1, dp[..], (i + 1) * (|b| + 1), dp.Length)
  {
    var cols := |b| + 1;
    CellAt(f, |a| + 1, cols, i, |b|);
    CellAt(f, |a| + 1, cols, i, 0);
    Index(i, 0, cols);
    assert Solves(f, false, a, b, i, 0);
    assert i * cols + 0 == i * cols;
    assert (i + 1) * cols == i * cols + cols;
    for j := 1 to cols
      invariant Filled(f, cols, dp[..], i * cols + j)
      invariant ColumnSet(cols, dp[..], i * cols + j, dp.Length)
    {
      dp[i * cols + j] := FillCell(a, b, dp, f, i, j);
    }
  }

  /** The value of one inner cell, from the three or four cells it depends on. */
  method FillCell(a: string, b: string, dp: array<nat>, ghost f: Table, i: nat, j: nat) returns (m: nat)
    requires 1 <= i <= |a| && 1 <= j <= |b|
    requires dp.Length == (|a| + 1) * (|b| + 1)
    requires 0 <= i * (|b| + 1) + j < dp.Length
    requires Solves(f, false, a, b, i, j)
    requires Filled(f, |b| + 1, dp[..], i * (|b| + 1) + j)
    ensures m == Cell(f, |b| + 1, i * (|b| + 1) + j)
  {
    var cols := |b| + 1;
    CellAt(f, |a| + 1, cols, i, j);
    CellAt(f, |a| + 1, cols, i - 1, j);
    CellAt(f, |a| + 1, cols, i, j - 1);
    CellAt(f, |a| + 1, cols, i - 1, j - 1);
    assert (i - 1) * cols == i * cols - cols;
    var cost := 0;
    if a[i - 1] != b[j - 1] {
      cost := 1;
    }
    var del := dp[(i - 1) * cols + j] + 1;
    var ins := dp[i * cols + (j - 1)] + 1;
    var sub := dp[(i - 1) * cols + (j - 1)] + cost;
    m := del;
    if ins < m {
      m := ins;
    }
    if sub < m {
      m := sub;
    }
    if i > 1 && j > 1 && a[i - 1] == b[j - 2] && a[i - 2] == b[j - 1] {
      CellAt(f, |a| + 1, cols, i - 2, j - 2);
      assert (i - 2) * cols == i * cols - 2 * cols;
      var trans := dp[(i - 2) * cols + (j - 2)] + 1;
      if trans < m {
        m := trans;
      }
    }
  }

  // ---------- The two-dimensional table of the spell checker ----------

  ghost predicate RowFilled(d: array2<nat>, f: Table, i: nat)
    requires i < d.Length0
    reads d
  {
    forall j :: 0 <= j < d.Length1 ==> d[i, j] == f(i, j)
  }

  method Levenshtein(a: string, b: string) returns (distance: nat)
    ensures distance == Lev(a, b)
  {
    ghost var f := DistancesFormTable(true, a, b);
    assert Solves(f, true, a, b, |a|, |b|);
    if |a| == 0 {
      return |b|;
    }
    if |b| == 0 {
      return |a|;
    }
    var d := new nat[|a| + 1, |b| + 1]((i, j) => 0);
    for i := 0 to |a| + 1
      invariant forall k :: 0 <= k < i ==> d[k, 0] == k
    {
      d[i, 0] := i;
    }
    for j := 0 to |b| + 1
      invariant forall k :: 0 <= k <= |a| ==> d[k, 0] == k
      invariant forall k :: 0 <= k < j ==> d[0, k] == k
    {
      d[0, j] := j;
    }
    forall j | 0 <= j <= |b| ensures d[0, j] == f(0, j) {
      assert Solves(f, true, a, b, 0, j);
    }
    for i := 1 to |a| + 1
      invariant forall k :: i <= k <= |a| ==> d[k, 0] == k
      invariant RowFilled(d, f, i - 1)
    {
      FillRowOf(a, b, d, f, i);
    }
    distance := d[|a|, |b|];
  }

  /** One row of the table from the row above it. */
  method FillRowOf(a: string, b: string, d: array2<nat>, ghost f: Table, i: nat)
    requires 1 <= i <= |a| && d.Length0 == |a| + 1 && d.Length1 == |b| + 1
    requires IsTable(f, true, a, b)
    requires RowFilled(d, f, i - 1) && d[i, 0] == i
    modifies d
    ensures RowFilled(d, f, i)
    ensures forall k, l :: 0 <= k <= |a| && 0 <= l <= |b| && k != i ==> d[k, l] == old(d[k, l])
  {
    assert Solves(f, true, a, b, i, 0);
    for j := 1 to |b| + 1
      invariant forall k, l :: 0 <= k <= |a| && 0 <= l <= |b| && k != i ==> d[k, l] == old(d[k, l])
      invariant forall l :: 0 <= l < j ==> d[i, l] == f(i, l)
    {
      var cost := 1;
      if a[i - 1] == b[j - 1] {
        cost := 0;
      }
      assert Solves(f, true, a, b, i, j);
      d[i, j] := Min(Min(d[i - 1, j] + 1, d[i, j - 1] + 1), d[i - 1, j - 1] + cost);
    }
  }
}
