/**
 The in-memory part of the page ranking job: the link graph is built from the edge rows of
 the database and scored by fifteen rounds of damped power iteration over two buffers.
 Scores are real numbers.
 */
module PageRank {
  import opened Sums

  const DAMPING := 0.85
  const ITERATIONS := 15

  /** A link row as the database returns it: page identifiers, not positions. */
  datatype Row = Row(source: int, target: int)

  /** A link between two positions of the page list. */
  datatype Edge = Edge(src: nat, dst: nat)

  ghost predicate WellFormed(n: nat, edges: seq<Edge>) {
    forall e :: e in edges ==> e.src < n && e.dst < n
  }

  // ---------- Specification: the graph ----------

  /** The last position of `id` in the page list: the position table keeps the last writer. */
  ghost function Position(ids: seq<int>, id: int): (k: nat)
    requires id in ids
    ensures k < |ids| && ids[k] == id
    ensures forall j :: k < j < |ids| ==> ids[j] != id
  {
    if ids[|ids| - 1] == id then |ids| - 1 else Position(ids[..|ids| - 1], id)
  }

  /** The position is the one that the position table keeps for its page. */
  predicate LastHolder(ids: seq<int>, k: int) {
    0 <= k < |ids| && forall j :: k < j < |ids| ==> ids[j] != ids[k]
  }

  /** How many rows lead from the page `source` to the page at position `i`. */
  ghost function RowsInto(ids: seq<int>, rows: seq<Row>, source: int, i: nat): nat
    requires i < |ids|
  {
    if LastHolder(ids, i) then multiset(rows)[Row(source := source, target := ids[i])] else 0
  }

  /** The rows that lead from the page `source` to known pages, by their numbers. */
  ghost function RowsFrom(ids: seq<int>, rows: seq<Row>, source: int): set<nat> {
    set r: nat | r < |rows| && rows[r].source == source && rows[r].target in ids
  }

  /** The rows whose two ends are both known pages, as edges between positions. */
  ghost function Resolve(ids: seq<int>, rows: seq<Row>): (edges: seq<Edge>)
    ensures WellFormed(|ids|, edges)
  {
    if rows == [] then []
    else
      var r := rows[|rows| - 1];
      var before := Resolve(ids, rows[..|rows| - 1]);
      if r.source in ids && r.target in ids
      then before + [Edge(Position(ids, r.source), Position(ids, r.target))]
      else before
  }

  ghost function OutDegree(edges: seq<Edge>, j: nat): nat {
    if edges == [] then 0
    else OutDegree(edges[..|edges| - 1], j) + (if edges[|edges| - 1].src == j then 1 else 0)
  }

  /** The sources of the edges into position `i`, in row order, one entry an edge. */
  ghost function Inbound(edges: seq<Edge>, i: nat): seq<nat> {
    if edges == [] then []
    else
      var e := edges[|edges| - 1];
      Inbound(edges[..|edges| - 1], i) + (if e.dst == i then [e.src] else [])
  }

  // ---------- Specification: one damped round ----------

  /** What position `j` hands to each page it links to. */
  ghost function Share(edges: seq<Edge>, x: seq<real>, j: nat): real {
    if OutDegree(edges, j) == 0 then 0.0 else Part(At(x, j), OutDegree(edges, j))
  }

  ghost function ShareSum(edges: seq<Edge>, x: seq<real>, sources: seq<nat>): real {
    if sources == [] then 0.0
    else ShareSum(edges, x, sources[..|sources| - 1]) + Share(edges, x, sources[|sources| - 1])
  }

  ghost function DanglingAt(edges: seq<Edge>, x: seq<real>, i: int): real {
    if i >= 0 && OutDegree(edges, i) == 0 then At(x, i) else 0.0
  }

  ghost function Dangling(edges: seq<Edge>, x: seq<real>, n: nat): real {
    Sum(i => DanglingAt(edges, x, i), n)
  }

  /** The undamped flow into position `i`. */
  ghost function Flow(n: nat, edges: seq<Edge>, x: seq<real>, i: int): real
    requires n > 0
  {
    if i < 0 then 0.0
    else ShareSum(edges, x, Inbound(edges, i)) + Part(Dangling(edges, x, n), n)
  }

  ghost function Damped(score: real): real {
    0.85 * score
  }

  ghost function Iterate(n: nat, edges: seq<Edge>, x: seq<real>): (y: seq<real>)
    requires n > 0
    ensures |y| == n
  {
    seq(n, i => (1.0 - DAMPING) + Damped(Flow(n, edges, x, i)))
  }

  ghost function Repeat<T>(f: T -> T, x: T, k: nat): T {
    if k == 0 then x else f(Repeat(f, x, k - 1))
  }

  lemma {:induction false} RepeatAdds<T>(f: T -> T, x: T, j: nat, k: nat)
    ensures Repeat(f, Repeat(f, x, j), k) == Repeat(f, x, j + k)
  {
    if k > 0 { RepeatAdds(f, x, j, k - 1); }
  }

  lemma {:induction false} RepeatFixed<T>(f: T -> T, p: T, k: nat)
    requires f(p) == p
    ensures Repeat(f, p, k) == p
  {
    if k > 0 { RepeatFixed(f, p, k - 1); }
  }

  ghost function Iteration(n: nat, edges: seq<Edge>): seq<real> -> seq<real>
    requires n > 0
  {
    x => Iterate(n, edges, x)
  }

  lemma PowerLength(n: nat, edges: seq<Edge>, x: seq<real>, k: nat)
    requires n > 0 && |x| == n
    ensures |Repeat(Iteration(n, edges), x, k)| == n
  {
  }

  ghost function Power(n: nat, edges: seq<Edge>, x: seq<real>, k: nat): (y: seq<real>)
    requires n > 0 && |x| == n
    ensures |y| == n
  {
    PowerLength(n, edges, x, k);
    Repeat(Iteration(n, edges), x, k)
  }

  ghost function Ones(n: nat): (x: seq<real>)
    ensures |x| == n
  {
    seq(n, i => 1.0)
  }

  ghost function Total(x: seq<real>): real {
    Sum(i => At(x, i), |x|)
  }

  /** L1 distance of two score vectors of length `n`. */
  ghost function Distance(x: seq<real>, y: seq<real>, n: nat): real {
    Sum(i => Abs(At(x, i) - At(y, i)), n)
  }

  ghost predicate FixedPoint(n: nat, edges: seq<Edge>, p: seq<real>)
    requires n > 0
  {
    |p| == n && Iterate(n, edges, p) == p
  }

  /** A distance multiplied `k` times by the damping factor: 0.85^k * d. */
  ghost function Shrink(d: real, k: nat): real {
    if k == 0 then d else Damped(Shrink(d, k - 1))
  }

  // ---------- The implementation ----------

  method BuildGraph(ids: seq<int>, rows: seq<Row>)
    returns (outDegree: array<nat>, inbound: array<seq<nat>>)
    ensures outDegree.Length == inbound.Length == |ids|
    ensures forall j :: 0 <= j < |ids| ==> outDegree[j] == OutDegree(Resolve(ids, rows), j)
    ensures forall i :: 0 <= i < |ids| ==> inbound[i] == Inbound(Resolve(ids, rows), i)
    ensures forall i, j :: 0 <= i < |ids| && 0 <= j < |ids| ==>
              multiset(inbound[i])[j] == if LastHolder(ids, j) then RowsInto(ids, rows, ids[j], i) else 0
    ensures forall j :: 0 <= j < |ids| ==>
              outDegree[j] == if LastHolder(ids, j) then |RowsFrom(ids, rows, ids[j])| else 0
  {
    var n := |ids|;
    var idToIndex: map<int, nat> := map[];
    for k := 0 to n
      invariant forall id :: id in idToIndex <==> id in ids[..k]
      invariant forall id :: id in idToIndex ==> idToIndex[id] == Position(ids[..k], id)
    {
      assert ids[..k + 1] == ids[..k] + [ids[k]];
      assert ids[..k + 1][..k] == ids[..k];
      idToIndex := idToIndex[ids[k] := k];
    }
    assert ids[..n] == ids;
    outDegree := new nat[n](_ => 0);
    inbound := new seq<nat>[n](_ => []);
    assert rows[..0] == [];
    for r := 0 to |rows|
      invariant outDegree.Length == inbound.Length == n
      invariant forall j :: 0 <= j < n ==> outDegree[j] == OutDegree(Resolve(ids, rows[..r]), j)
      invariant forall i :: 0 <= i < n ==> inbound[i] == Inbound(Resolve(ids, rows[..r]), i)
    {
      assert rows[..r + 1][..r] == rows[..r];
      ghost var before, after := Resolve(ids, rows[..r]), Resolve(ids, rows[..r + 1]);
      if rows[r].source in idToIndex && rows[r].target in idToIndex {
        var src, dst := idToIndex[rows[r].source], idToIndex[rows[r].target];
        assert after == before + [Edge(src, dst)];
        assert after[..|after| - 1] == before;
        outDegree[src] := outDegree[src] + 1;
        inbound[dst] := inbound[dst] + [src];
      } else {
        assert after == before;
      }
    }
    assert rows[..|rows|] == rows;
    RowsDecide(ids, rows);
  }

  /** The damped score that flows into one position. */
  method NextScore(outDegree: array<nat>, sources: seq<nat>, scores: array<real>, danglingSum: real,
                   ghost edges: seq<Edge>, ghost i: nat)
    returns (score: real)
    requires outDegree.Length == scores.Length > i
    requires WellFormed(outDegree.Length, edges)
    requires forall j :: 0 <= j < outDegree.Length ==> outDegree[j] == OutDegree(edges, j)
    requires sources == Inbound(edges, i)
    requires danglingSum == Dangling(edges, scores[..], scores.Length)
    ensures score == Iterate(scores.Length, edges, scores[..])[i]
  {
    InboundSources(edges, i);
    var sum := 0.0;
    for s := 0 to |sources|
      invariant sum == ShareSum(edges, scores[..], sources[..s])
    {
      var j := sources[s];
      assert j in sources;
      assert sources[..s + 1][..s] == sources[..s];
      PartIsQuotient(scores[j], outDegree[j]);
      sum := sum + scores[j] / outDegree[j] as real;
    }
    assert sources[..|sources|] == sources;
    PartIsQuotient(danglingSum, scores.Length);
    score := (1.0 - DAMPING) + DAMPING * (sum + danglingSum / scores.Length as real);
  }

  /** One round: fills `newScores` from `scores`. */
  method Round(outDegree: array<nat>, inbound: array<seq<nat>>, scores: array<real>, newScores: array<real>,
               ghost edges: seq<Edge>)
    requires outDegree.Length == inbound.Length == scores.Length == newScores.Length > 0
    requires scores != newScores
    requires WellFormed(outDegree.Length, edges)
    requires forall j :: 0 <= j < outDegree.Length ==> outDegree[j] == OutDegree(edges, j)
    requires forall i :: 0 <= i < inbound.Length ==> inbound[i] == Inbound(edges, i)
    modifies newScores
    ensures newScores[..] == Iterate(scores.Length, edges, scores[..])
  {
    var n := scores.Length;
    ghost var x := scores[..];
    var danglingSum := 0.0;
    for i := 0 to n
      invariant danglingSum == Dangling(edges, x, i)
    {
      assert DanglingAt(edges, x, i) == if outDegree[i] == 0 then scores[i] else 0.0;
      if outDegree[i] == 0 {
        danglingSum := danglingSum + scores[i];
      }
    }
    for i := 0 to n
      invariant scores[..] == x
      invariant forall k :: 0 <= k < i ==> newScores[k] == Iterate(n, edges, x)[k]
    {
      newScores[i] := NextScore(outDegree, inbound[i], scores, danglingSum, edges, i);
    }
  }

  method PowerIterate(outDegree: array<nat>, inbound: array<seq<nat>>, ghost edges: seq<Edge>)
    returns (scores: array<real>)
    requires outDegree.Length == inbound.Length > 0
    requires WellFormed(outDegree.Length, edges)
    requires forall j :: 0 <= j < outDegree.Length ==> outDegree[j] == OutDegree(edges, j)
    requires forall i :: 0 <= i < inbound.Length ==> inbound[i] == Inbound(edges, i)
    ensures scores.Length == outDegree.Length
    ensures scores[..] == Power(outDegree.Length, edges, Ones(outDegree.Length), ITERATIONS)
  {
    var n := outDegree.Length;
    scores := new real[n](_ => 1.0);
    var newScores := new real[n](_ => 0.0);
    assert scores[..] == Ones(n) == Power(n, edges, Ones(n), 0);
    for iter := 0 to ITERATIONS
      invariant scores.Length == newScores.Length == n
      invariant fresh(scores) && fresh(newScores) && scores != newScores
      invariant scores[..] == Power(n, edges, Ones(n), iter)
    {
      PowerStep(n, edges, Ones(n), iter + 1);
      Advance(outDegree, inbound, scores, newScores, edges);
    }
  }

  /** One pass of the outer loop: the new scores are computed and copied back. */
  method Advance(outDegree: array<nat>, inbound: array<seq<nat>>, scores: array<real>, newScores: array<real>,
                 ghost edges: seq<Edge>)
    requires outDegree.Length == inbound.Length == scores.Length == newScores.Length > 0
    requires scores != newScores
    requires WellFormed(outDegree.Length, edges)
    requires forall j :: 0 <= j < outDegree.Length ==> outDegree[j] == OutDegree(edges, j)
    requires forall i :: 0 <= i < inbound.Length ==> inbound[i] == Inbound(edges, i)
    modifies scores, newScores
    ensures scores[..] == Iterate(scores.Length, edges, old(scores[..]))
  {
    Round(outDegree, inbound, scores, newScores, edges);
    CopyScores(newScores, scores);
  }

  method CopyScores(from: array<real>, to: array<real>)
    requires from.Length == to.Length && from != to
    modifies to
    ensures to[..] == from[..]
  {
    for i := 0 to from.Length
      invariant to[..i] == from[..i]
    {
      to[i] := from[i];
    }
    assert to[..] == to[..to.Length] && from[..] == from[..to.Length];
  }

  /** Every source in an inbound list is a known position with out-degree at least one. */
  lemma {:induction false} InboundSources(edges: seq<Edge>, i: nat)
    ensures forall s :: s in Inbound(edges, i) ==>
              OutDegree(edges, s) >= 1 && exists e :: e in edges && e.src == s && e.dst == i
  {
    if edges != [] {
      var e, before := edges[|edges| - 1], edges[..|edges| - 1];
      InboundSources(before, i);
      assert e in edges;
      forall s | s in Inbound(edges, i)
        ensures OutDegree(edges, s) >= 1 && exists e :: e in edges && e.src == s && e.dst == i
      {
        if s in Inbound(before, i) {
          var e' :| e' in before && e'.src == s && e'.dst == i;
          assert e' in edges;
        }
      }
    }
  }

  // ---------- Rows and edges ----------

  lemma PositionHolds(ids: seq<int>, id: int, k: nat)
    requires id in ids && k < |ids|
    ensures Position(ids, id) == k <==> ids[k] == id && LastHolder(ids, k)
  {
  }

  /** A source occurs among the inbound links of a page as often as rows lead from it to that page. */
  lemma {:induction false} RowsBecomeInbound(ids: seq<int>, rows: seq<Row>, i: nat, j: nat)
    requires i < |ids| && j < |ids|
    ensures multiset(Inbound(Resolve(ids, rows), i))[j]
            == if LastHolder(ids, j) then RowsInto(ids, rows, ids[j], i) else 0
  {
    if rows != [] {
      var before, r := rows[..|rows| - 1], rows[|rows| - 1];
      RowsBecomeInbound(ids, before, i, j);
      assert rows == before + [r];
      if r.source in ids && r.target in ids {
        PositionHolds(ids, r.source, j);
        PositionHolds(ids, r.target, i);
        var edges := Resolve(ids, before);
        assert Resolve(ids, rows)[..|edges|] == edges;
      }
    }
  }

  /** The out-degree of a page counts the rows that lead from it to known pages. */
  lemma {:induction false} RowsBecomeDegree(ids: seq<int>, rows: seq<Row>, j: nat)
    requires j < |ids|
    ensures OutDegree(Resolve(ids, rows), j) == if LastHolder(ids, j) then |RowsFrom(ids, rows, ids[j])| else 0
  {
    if rows == [] {
      assert RowsFrom(ids, rows, ids[j]) == {};
    } else {
      var before, r := rows[..|rows| - 1], rows[|rows| - 1];
      RowsBecomeDegree(ids, before, j);
      var known := r.source == ids[j] && r.target in ids;
      assert RowsFrom(ids, rows, ids[j])
          == RowsFrom(ids, before, ids[j]) + if known then {|rows| - 1} else {};
      if r.source in ids && r.target in ids {
        PositionHolds(ids, r.source, j);
        var edges := Resolve(ids, before);
        assert Resolve(ids, rows)[..|edges|] == edges;
      }
    }
  }

  lemma RowsDecide(ids: seq<int>, rows: seq<Row>)
    ensures forall i, j :: 0 <= i < |ids| && 0 <= j < |ids| ==>
              multiset(Inbound(Resolve(ids, rows), i))[j]
              == if LastHolder(ids, j) then RowsInto(ids, rows, ids[j], i) else 0
    ensures forall j :: 0 <= j < |ids| ==>
              OutDegree(Resolve(ids, rows), j)
              == if LastHolder(ids, j) then |RowsFrom(ids, rows, ids[j])| else 0
  {
    forall j | 0 <= j < |ids|
      ensures OutDegree(Resolve(ids, rows), j)
              == if LastHolder(ids, j) then |RowsFrom(ids, rows, ids[j])| else 0
    {
      RowsBecomeDegree(ids, rows, j);
    }
    forall i, j | 0 <= i < |ids| && 0 <= j < |ids|
      ensures multiset(Inbound(Resolve(ids, rows), i))[j]
              == if LastHolder(ids, j) then RowsInto(ids, rows, ids[j], i) else 0
    {
      RowsBecomeInbound(ids, rows, i, j);
    }
  }

  // ---------- Exchanging the double sum ----------

  ghost function Occurrences(s: seq<nat>, j: nat): nat {
    multiset(s)[j]
  }

  /** The out-degree of `j` is the number of times `j` occurs in all the inbound lists. */
  lemma {:induction false} OutDegreeCountsInbound(n: nat, edges: seq<Edge>, j: nat)
    requires WellFormed(n, edges)
    ensures OutDegree(edges, j) as real
            == Sum(i => if i < 0 then 0.0 else Occurrences(Inbound(edges, i), j) as real, n)
  {
    var count := (es: seq<Edge>) => ((i: int) => if i < 0 then 0.0 else Occurrences(Inbound(es, i), j) as real);
    if edges == [] {
      SumConstant(count([]), 0.0, n);
    } else {
      var e, before := edges[|edges| - 1], edges[..|edges| - 1];
      assert e in edges;
      OutDegreeCountsInbound(n, before, j);
      var delta := if e.src == j then 1.0 else 0.0;
      SumBump(count(before), count(edges), e.dst, delta, n);
      SumCongruence(count(before), i => if i < 0 then 0.0 else Occurrences(Inbound(before, i), j) as real, n);
    }
    SumCongruence(count(edges), i => if i < 0 then 0.0 else Occurrences(Inbound(edges, i), j) as real, n);
  }

  /** Weights `w` handed along every edge, summed by source. */
  ghost function WeightOf(edges: seq<Edge>, w: int -> real, j: int): real {
    if j < 0 then 0.0 else Times(w(j), OutDegree(edges, j))
  }

  ghost function WeightSum(w: int -> real, sources: seq<nat>): real {
    if sources == [] then 0.0 else WeightSum(w, sources[..|sources| - 1]) + w(sources[|sources| - 1])
  }

  ghost function ReceivedBy(edges: seq<Edge>, w: int -> real, i: int): real {
    if i < 0 then 0.0 else WeightSum(w, Inbound(edges, i))
  }

  ghost function EdgeSum(edges: seq<Edge>, w: int -> real): real {
    if edges == [] then 0.0
    else EdgeSum(edges[..|edges| - 1], w) + w(edges[|edges| - 1].src)
  }

  lemma InboundStep(edges: seq<Edge>, w: int -> real, i: nat)
    requires edges != []
    ensures var e := edges[|edges| - 1];
            ReceivedBy(edges, w, i)
            == ReceivedBy(edges[..|edges| - 1], w, i) + (if i == e.dst then w(e.src) else 0.0)
  {
    var e, before := edges[|edges| - 1], edges[..|edges| - 1];
    var ins := Inbound(edges, i);
    if i == e.dst {
      assert ins[..|ins| - 1] == Inbound(before, i);
    } else {
      assert ins == Inbound(before, i);
    }
  }

  lemma WeightStep(edges: seq<Edge>, w: int -> real, j: nat)
    requires edges != []
    ensures var e := edges[|edges| - 1];
            WeightOf(edges, w, j)
            == WeightOf(edges[..|edges| - 1], w, j) + (if j == e.src then w(e.src) else 0.0)
  {
  }

  lemma {:induction false} ReceivedIsEdgeSum(n: nat, edges: seq<Edge>, w: int -> real)
    requires WellFormed(n, edges)
    ensures Sum(i => ReceivedBy(edges, w, i), n) == EdgeSum(edges, w)
  {
    if edges == [] {
      SumConstant(i => ReceivedBy(edges, w, i), 0.0, n);
    } else {
      var e, before := edges[|edges| - 1], edges[..|edges| - 1];
      assert e in edges;
      ReceivedIsEdgeSum(n, before, w);
      forall i | 0 <= i < n
        ensures ReceivedBy(edges, w, i) == ReceivedBy(before, w, i) + (if i == e.dst then w(e.src) else 0.0)
      {
        InboundStep(edges, w, i);
      }
      SumBump(i => ReceivedBy(before, w, i), i => ReceivedBy(edges, w, i), e.dst, w(e.src), n);
    }
  }

  lemma {:induction false} SentIsEdgeSum(n: nat, edges: seq<Edge>, w: int -> real)
    requires WellFormed(n, edges)
    ensures Sum(j => WeightOf(edges, w, j), n) == EdgeSum(edges, w)
  {
    if edges == [] {
      SumConstant(j => WeightOf(edges, w, j), 0.0, n);
    } else {
      var e, before := edges[|edges| - 1], edges[..|edges| - 1];
      assert e in edges;
      SentIsEdgeSum(n, before, w);
      forall j | 0 <= j < n
        ensures WeightOf(edges, w, j) == WeightOf(before, w, j) + (if j == e.src then w(e.src) else 0.0)
      {
        WeightStep(edges, w, j);
      }
      SumBump(j => WeightOf(before, w, j), j => WeightOf(edges, w, j), e.src, w(e.src), n);
    }
  }

  /** Summing over receivers what they receive is summing over senders what they send. */
  lemma ExchangeSums(n: nat, edges: seq<Edge>, w: int -> real)
    requires WellFormed(n, edges)
    ensures Sum(i => ReceivedBy(edges, w, i), n) == Sum(j => WeightOf(edges, w, j), n)
  {
    ReceivedIsEdgeSum(n, edges, w);
    SentIsEdgeSum(n, edges, w);
  }

  lemma {:induction false} ShareSumIsWeightSum(edges: seq<Edge>, x: seq<real>, sources: seq<nat>)
    ensures ShareSum(edges, x, sources) == WeightSum(j => if j < 0 then 0.0 else Share(edges, x, j), sources)
  {
    if sources != [] {
      ShareSumIsWeightSum(edges, x, sources[..|sources| - 1]);
    }
  }

  /** The score an edge sender hands out in all is its score, unless it has no link to hand it to. */
  lemma SentOrDangling(edges: seq<Edge>, x: seq<real>, w: int -> real, j: nat)
    requires w(j) == Share(edges, x, j)
    ensures At(x, j) == WeightOf(edges, w, j) + DanglingAt(edges, x, j)
  {
  }

  /** The undamped flow neither creates nor destroys score, for every graph and every vector. */
  lemma FlowConserves(n: nat, edges: seq<Edge>, x: seq<real>)
    requires n > 0 && WellFormed(n, edges) && |x| == n
    ensures Sum(i => Flow(n, edges, x, i), n) == Total(x)
  {
    var w := (j: int) => if j < 0 then 0.0 else Share(edges, x, j);
    var d := Part(Dangling(edges, x, n), n);
    forall i | 0 <= i < n
      ensures Flow(n, edges, x, i) == ReceivedBy(edges, w, i) + d
    {
      ShareSumIsWeightSum(edges, x, Inbound(edges, i));
    }
    SumAdd(i => ReceivedBy(edges, w, i), i => d, i => Flow(n, edges, x, i), n);
    SumOfCopies(i => d, d, n);
    ExchangeSums(n, edges, w);
    forall j | 0 <= j < n
      ensures At(x, j) == WeightOf(edges, w, j) + DanglingAt(edges, x, j)
    {
      SentOrDangling(edges, x, w, j);
    }
    SumAdd(j => WeightOf(edges, w, j), j => DanglingAt(edges, x, j), j => At(x, j), n);
  }

  // ---------- Mass and bounds ----------

  /** A round maps total score T to 0.15 N + 0.85 T. */
  lemma RoundTotal(n: nat, edges: seq<Edge>, x: seq<real>)
    requires n > 0 && WellFormed(n, edges) && |x| == n
    ensures Total(Iterate(n, edges, x)) == (1.0 - DAMPING) * n as real + DAMPING * Total(x)
  {
    var base := (i: int) => 1.0 - DAMPING;
    SumConstant(base, 1.0 - DAMPING, n);
    var damped := DampedSum(n, edges, x);
    IterateSums(n, edges, x, base, damped);
  }

  lemma DampedSum(n: nat, edges: seq<Edge>, x: seq<real>) returns (damped: int -> real)
    requires n > 0 && WellFormed(n, edges) && |x| == n
    ensures forall i :: 0 <= i < n ==> damped(i) == Damped(Flow(n, edges, x, i))
    ensures Sum(damped, n) == DAMPING * Total(x)
  {
    damped := (i: int) => Damped(Flow(n, edges, x, i));
    SumScale(i => Flow(n, edges, x, i), damped, DAMPING, n);
    FlowConserves(n, edges, x);
  }

  lemma IterateSums(n: nat, edges: seq<Edge>, x: seq<real>, base: int -> real, damped: int -> real)
    requires n > 0
    requires forall i :: 0 <= i < n ==> base(i) == 1.0 - DAMPING && damped(i) == Damped(Flow(n, edges, x, i))
    ensures Total(Iterate(n, edges, x)) == Sum(base, n) + Sum(damped, n)
  {
    var y := Iterate(n, edges, x);
    SumAdd(base, damped, i => At(y, i), n);
  }

  /** Starting from all ones, the total stays exactly N in every round. */
  lemma {:induction false} TotalIsPageCount(n: nat, edges: seq<Edge>, k: nat)
    requires n > 0 && WellFormed(n, edges)
    ensures Total(Power(n, edges, Ones(n), k)) == n as real
  {
    if k == 0 {
      SumConstant(i => At(Ones(n), i), 1.0, n);
    } else {
      TotalIsPageCount(n, edges, k - 1);
      RoundTotal(n, edges, Power(n, edges, Ones(n), k - 1));
    }
  }

  lemma {:induction false} ShareSumNonnegative(edges: seq<Edge>, x: seq<real>, sources: seq<nat>)
    requires forall i :: 0 <= i < |x| ==> x[i] >= 0.0
    ensures ShareSum(edges, x, sources) >= 0.0
  {
    if sources != [] {
      ShareSumNonnegative(edges, x, sources[..|sources| - 1]);
      var j := sources[|sources| - 1];
      if OutDegree(edges, j) != 0 { PartNonnegative(At(x, j), OutDegree(edges, j)); }
    }
  }

  lemma FlowNonnegative(n: nat, edges: seq<Edge>, x: seq<real>, i: nat)
    requires n > 0
    requires forall i :: 0 <= i < |x| ==> x[i] >= 0.0
    ensures Flow(n, edges, x, i) >= 0.0
  {
    ShareSumNonnegative(edges, x, Inbound(edges, i));
    SumConstant(j => 0.0, 0.0, n);
    SumMonotone(j => 0.0, j => DanglingAt(edges, x, j), n);
    PartNonnegative(Dangling(edges, x, n), n);
  }

  lemma FlowAtMostTotal(n: nat, edges: seq<Edge>, x: seq<real>, i: nat)
    requires n > 0 && WellFormed(n, edges) && |x| == n && i < n
    requires forall j :: 0 <= j < n ==> x[j] >= 0.0
    ensures 0.0 <= Flow(n, edges, x, i) <= Total(x)
  {
    var flow := j => Flow(n, edges, x, j);
    forall j | 0 <= j < n ensures flow(j) >= 0.0 {
      FlowNonnegative(n, edges, x, j);
    }
    SummandBound(flow, i, n);
    SumCongruence(flow, j => Flow(n, edges, x, j), n);
    FlowConserves(n, edges, x);
  }

  /** After at least one round every score lies in [0.15, 0.85 N + 0.15]. */
  lemma {:induction false} ScoreBounds(n: nat, edges: seq<Edge>, k: nat, i: nat)
    requires n > 0 && WellFormed(n, edges) && i < n
    ensures Power(n, edges, Ones(n), k)[i] >= 0.0
    ensures k > 0 ==> 1.0 - DAMPING <= Power(n, edges, Ones(n), k)[i] <= DAMPING * n as real + (1.0 - DAMPING)
  {
    if k > 0 {
      var x := Power(n, edges, Ones(n), k - 1);
      forall j: nat | j < n ensures x[j] >= 0.0 {
        ScoreBounds(n, edges, k - 1, j);
      }
      FlowAtMostTotal(n, edges, x, i);
      TotalIsPageCount(n, edges, k - 1);
    }
  }

  // ---------- More links, more score ----------

  /** Every known page has at least as many rows to the page at `k` as to the one at `i`. */
  ghost predicate LinkedAtLeast(ids: seq<int>, rows: seq<Row>, i: nat, k: nat)
    requires i < |ids| && k < |ids|
  {
    forall source :: source in ids ==> RowsInto(ids, rows, source, i) <= RowsInto(ids, rows, source, k)
  }

  /** And some known page has more. */
  ghost predicate LinkedMore(ids: seq<int>, rows: seq<Row>, i: nat, k: nat)
    requires i < |ids| && k < |ids|
  {
    && LinkedAtLeast(ids, rows, i, k)
    && exists source :: source in ids && RowsInto(ids, rows, source, i) < RowsInto(ids, rows, source, k)
  }

  lemma {:induction false} ShareSumConcat(edges: seq<Edge>, x: seq<real>, a: seq<nat>, b: seq<nat>)
    ensures ShareSum(edges, x, a + b) == ShareSum(edges, x, a) + ShareSum(edges, x, b)
  {
    hide Share;
    if b == [] {
      assert a + b == a;
    } else {
      assert (a + b)[..|a + b| - 1] == a + b[..|b| - 1];
      ShareSumConcat(edges, x, a, b[..|b| - 1]);
    }
  }

  /** The sum of shares does not depend on the order of the sources. */
  lemma ShareSumWithout(edges: seq<Edge>, x: seq<real>, front: seq<nat>, j: nat, back: seq<nat>)
    ensures ShareSum(edges, x, front + [j] + back) == ShareSum(edges, x, front + back) + Share(edges, x, j)
  {
    hide Share;
    ShareSumConcat(edges, x, front + [j], back);
    ShareSumConcat(edges, x, front, [j]);
    ShareSumConcat(edges, x, front, back);
    assert [j][..0] == [];
    assert ShareSum(edges, x, []) == 0.0 && ShareSum(edges, x, [j]) == Share(edges, x, j);
  }

  /** Every source of `a` occurs in `b` at least as often. */
  ghost predicate Within(a: seq<nat>, b: seq<nat>) {
    forall j: nat :: Occurrences(a, j) <= Occurrences(b, j)
  }

  lemma OccurrencesAround(front: seq<nat>, last: nat, back: seq<nat>, j: nat)
    ensures Occurrences(front + [last] + back, j) == Occurrences(front + back, j) + if j == last then 1 else 0
    ensures Occurrences(front + [last], j) == Occurrences(front, j) + if j == last then 1 else 0
  {
    assert multiset(front + [last] + back) == multiset(front) + multiset{last} + multiset(back);
    assert multiset(front + back) == multiset(front) + multiset(back);
  }

  /** What one list holds can be taken out of another that holds as much. */
  lemma TakeOut(before: seq<nat>, last: nat, b: seq<nat>) returns (front: seq<nat>, back: seq<nat>)
    requires Within(before + [last], b)
    ensures b == front + [last] + back && Within(before, front + back)
  {
    hide Occurrences;
    OccurrencesAround(before, last, [], last);
    OccursOnce(b, last);
    var p :| 0 <= p < |b| && b[p] == last;
    front, back := b[..p], b[p + 1..];
    assert b == front + [last] + back;
    forall j: nat ensures Occurrences(before, j) <= Occurrences(front + back, j) {
      OccurrencesAround(front, last, back, j);
      OccurrencesAround(before, last, [], j);
    }
  }

  lemma OccursOnce(b: seq<nat>, j: nat)
    ensures Occurrences(b, j) > 0 <==> j in b
  {
  }

  lemma {:induction false} ShorterWithin(a: seq<nat>, b: seq<nat>, j: nat)
    requires Within(a, b) && Occurrences(a, j) < Occurrences(b, j)
    ensures |a| < |b|
  {
    hide Occurrences;
    if a != [] {
      var before, last := a[..|a| - 1], a[|a| - 1];
      assert a == before + [last];
      var front, back := TakeOut(before, last, b);
      OccurrencesAround(front, last, back, j);
      OccurrencesAround(before, last, [], j);
      ShorterWithin(before, front + back, j);
    } else {
      OccursOnce(b, j);
      OccursOnce(a, j);
    }
  }

  ghost predicate AllPositive(edges: seq<Edge>, x: seq<real>, sources: seq<nat>) {
    forall j :: j in sources ==> Share(edges, x, j) > 0.0
  }

  /** With positive shares only, more sources make a larger sum. */
  lemma {:induction false} ShareSumGrows(edges: seq<Edge>, x: seq<real>, a: seq<nat>, b: seq<nat>)
    requires Within(a, b) && AllPositive(edges, x, b)
    ensures ShareSum(edges, x, a) <= ShareSum(edges, x, b)
    ensures |a| < |b| ==> ShareSum(edges, x, a) < ShareSum(edges, x, b)
    decreases |a|, |b|
  {
    hide Share;
    if a != [] {
      var before, last := a[..|a| - 1], a[|a| - 1];
      assert a == before + [last];
      var front, back := TakeOut(before, last, b);
      assert AllPositive(edges, x, front + back);
      ShareSumWithout(edges, x, front, last, back);
      ShareSumGrows(edges, x, before, front + back);
    } else if b != [] {
      assert b[|b| - 1] in b;
      assert AllPositive(edges, x, b[..|b| - 1]);
      ShareSumGrows(edges, x, a, b[..|b| - 1]);
    }
  }

  lemma PositiveShares(n: nat, edges: seq<Edge>, x: seq<real>, i: nat)
    requires WellFormed(n, edges) && |x| == n && forall j :: 0 <= j < n ==> x[j] > 0.0
    ensures AllPositive(edges, x, Inbound(edges, i))
  {
    InboundSources(edges, i);
    forall j | j in Inbound(edges, i) ensures Share(edges, x, j) > 0.0 {
      var q := Part(x[j], OutDegree(edges, j));
      if q <= 0.0 {
        TimesIsProduct(q, OutDegree(edges, j));
        ScaleMonotone(OutDegree(edges, j) as real, q, 0.0);
      }
    }
  }

  /** The links of one page are among those of another. */
  lemma InboundGrows(ids: seq<int>, rows: seq<Row>, i: nat, k: nat)
    requires i < |ids| && k < |ids| && LinkedAtLeast(ids, rows, i, k)
    ensures var edges := Resolve(ids, rows);
            && Within(Inbound(edges, i), Inbound(edges, k))
            && (LinkedMore(ids, rows, i, k) ==> |Inbound(edges, i)| < |Inbound(edges, k)|)
  {
    hide Resolve, Inbound, RowsInto, LastHolder;
    var edges := Resolve(ids, rows);
    RowsDecide(ids, rows);
    forall j: nat ensures Occurrences(Inbound(edges, i), j) <= Occurrences(Inbound(edges, k), j) {
      if j in Inbound(edges, i) {
        InboundSources(edges, i);
        assert 0 <= j < |ids|;
      }
    }
    if LinkedMore(ids, rows, i, k) {
      var source :| source in ids && RowsInto(ids, rows, source, i) < RowsInto(ids, rows, source, k);
      var j := Position(ids, source);
      PositionHolds(ids, source, j);
      ShorterWithin(Inbound(edges, i), Inbound(edges, k), j);
    }
  }

  /** Whoever links to the page at `i` links to the one at `k`: then that one scores at least as much, or more. */
  lemma MoreLinksMoreScore(ids: seq<int>, rows: seq<Row>, rounds: nat, i: nat, k: nat)
    requires i < |ids| && k < |ids| && LinkedAtLeast(ids, rows, i, k)
    ensures var x := Power(|ids|, Resolve(ids, rows), Ones(|ids|), rounds);
            x[i] <= x[k] && (rounds > 0 && LinkedMore(ids, rows, i, k) ==> x[i] < x[k])
  {
    if rounds > 0 {
      var n, edges := |ids|, Resolve(ids, rows);
      var x := Power(n, edges, Ones(n), rounds - 1);
      PowerStep(n, edges, Ones(n), rounds);
      forall j | 0 <= j < n ensures x[j] > 0.0 { ScoreBounds(n, edges, rounds - 1, j); }
      InboundGrows(ids, rows, i, k);
      PositiveShares(n, edges, x, k);
      ShareSumGrows(edges, x, Inbound(edges, i), Inbound(edges, k));
    }
  }

  // ---------- Contraction ----------

  ghost function Gap(x: seq<real>, y: seq<real>, n: nat): (z: seq<real>)
    ensures |z| == n
  {
    seq(n, i => Abs(At(x, i) - At(y, i)))
  }

  lemma {:induction false} ShareSumGap(edges: seq<Edge>, x: seq<real>, y: seq<real>, sources: seq<nat>, n: nat)
    requires |x| == |y| == n
    ensures Abs(ShareSum(edges, x, sources) - ShareSum(edges, y, sources))
            <= ShareSum(edges, Gap(x, y, n), sources)
  {
    if sources != [] {
      var j := sources[|sources| - 1];
      ShareSumGap(edges, x, y, sources[..|sources| - 1], n);
      if OutDegree(edges, j) != 0 {
        PartGap(At(x, j), At(y, j), OutDegree(edges, j));
      }
    }
  }

  lemma {:induction false} DanglingGap(edges: seq<Edge>, x: seq<real>, y: seq<real>, n: nat, k: nat)
    requires |x| == |y| == n
    ensures Abs(Dangling(edges, x, k) - Dangling(edges, y, k)) <= Dangling(edges, Gap(x, y, n), k)
  {
    if k > 0 {
      DanglingGap(edges, x, y, n, k - 1);
    }
  }

  /** The flows of two vectors differ at a position by at most the flow of their gap. */
  lemma FlowGap(n: nat, edges: seq<Edge>, x: seq<real>, y: seq<real>, i: nat)
    requires n > 0 && |x| == |y| == n
    ensures Abs(Flow(n, edges, x, i) - Flow(n, edges, y, i)) <= Flow(n, edges, Gap(x, y, n), i)
  {
    ShareSumGap(edges, x, y, Inbound(edges, i), n);
    DanglingGap(edges, x, y, n, n);
    PartGap(Dangling(edges, x, n), Dangling(edges, y, n), n);
    PartMonotone(Abs(Dangling(edges, x, n) - Dangling(edges, y, n)), Dangling(edges, Gap(x, y, n), n), n);
  }

  lemma RoundGap(n: nat, edges: seq<Edge>, x: seq<real>, y: seq<real>, i: nat)
    requires n > 0 && |x| == |y| == n && i < n
    ensures Abs(Iterate(n, edges, x)[i] - Iterate(n, edges, y)[i]) <= DAMPING * Flow(n, edges, Gap(x, y, n), i)
  {
    FlowGap(n, edges, x, y, i);
  }

  /** One round brings any two vectors closer by the damping factor, for every graph. */
  lemma Contraction(n: nat, edges: seq<Edge>, x: seq<real>, y: seq<real>)
    requires n > 0 && WellFormed(n, edges) && |x| == |y| == n
    ensures Distance(Iterate(n, edges, x), Iterate(n, edges, y), n) <= DAMPING * Distance(x, y, n)
  {
    var z := Gap(x, y, n);
    var x', y' := Iterate(n, edges, x), Iterate(n, edges, y);
    forall i | 0 <= i < n
      ensures Abs(At(x', i) - At(y', i)) <= DAMPING * Flow(n, edges, z, i)
    {
      RoundGap(n, edges, x, y, i);
    }
    SumScaledBound(i => Abs(At(x', i) - At(y', i)), i => Flow(n, edges, z, i), DAMPING, n);
    FlowConserves(n, edges, z);
    SumCongruence(i => At(z, i), i => Abs(At(x, i) - At(y, i)), n);
  }

  lemma {:induction false} RoundsContract(n: nat, edges: seq<Edge>, x: seq<real>, y: seq<real>, k: nat)
    requires n > 0 && WellFormed(n, edges) && |x| == |y| == n
    ensures Distance(Power(n, edges, x, k), Power(n, edges, y, k), n) <= Shrink(Distance(x, y, n), k)
  {
    if k > 0 {
      RoundsContract(n, edges, x, y, k - 1);
      Contraction(n, edges, Power(n, edges, x, k - 1), Power(n, edges, y, k - 1));
    }
  }

  lemma PowerStep(n: nat, edges: seq<Edge>, x: seq<real>, k: nat)
    requires n > 0 && |x| == n && k > 0
    ensures Power(n, edges, x, k) == Iterate(n, edges, Power(n, edges, x, k - 1))
  {
  }

  lemma FixedPointStays(n: nat, edges: seq<Edge>, p: seq<real>, k: nat)
    requires n > 0 && FixedPoint(n, edges, p)
    ensures Power(n, edges, p, k) == p
  {
    RepeatFixed(Iteration(n, edges), p, k);
  }

  lemma DistanceZero(x: seq<real>, y: seq<real>, n: nat)
    requires |x| == |y| == n && Distance(x, y, n) <= 0.0
    ensures x == y
  {
    forall i | 0 <= i < n ensures x[i] == y[i] {
      SummandBound(j => Abs(At(x, j) - At(y, j)), i, n);
    }
  }

  /** No graph has two different rankings that a round leaves alone. */
  lemma FixedPointUnique(n: nat, edges: seq<Edge>, p: seq<real>, q: seq<real>)
    requires n > 0 && WellFormed(n, edges)
    requires FixedPoint(n, edges, p) && FixedPoint(n, edges, q)
    ensures p == q
  {
    Contraction(n, edges, p, q);
    DistanceZero(p, q, n);
  }

  // ---------- A bound that assumes no fixed point ----------

  lemma PowerAdds(n: nat, edges: seq<Edge>, x: seq<real>, j: nat, k: nat)
    requires n > 0 && |x| == n
    ensures Power(n, edges, Power(n, edges, x, j), k) == Power(n, edges, x, j + k)
  {
    RepeatAdds(Iteration(n, edges), x, j, k);
  }

  lemma {:induction false} ShrinkMonotone(d: real, e: real, k: nat)
    requires d <= e
    ensures Shrink(d, k) <= Shrink(e, k)
  {
    if k > 0 { ShrinkMonotone(d, e, k - 1); }
  }

  /** Two nonnegative vectors are no further apart than their totals added. */
  lemma DistanceAtMostTotals(x: seq<real>, y: seq<real>, n: nat)
    requires |x| == |y| == n
    requires forall i :: 0 <= i < n ==> x[i] >= 0.0 && y[i] >= 0.0
    ensures Distance(x, y, n) <= Total(x) + Total(y)
  {
    SumAdd(i => At(x, i), i => At(y, i), i => At(x, i) + At(y, i), n);
    SumMonotone(i => Abs(At(x, i) - At(y, i)), i => At(x, i) + At(y, i), n);
  }

  lemma StaysNearStart(n: nat, edges: seq<Edge>, more: nat)
    requires n > 0 && WellFormed(n, edges)
    ensures Distance(Power(n, edges, Ones(n), more), Ones(n), n) <= 2.0 * n as real
  {
    var later := Power(n, edges, Ones(n), more);
    forall i: nat | i < n ensures later[i] >= 0.0 && Ones(n)[i] >= 0.0 {
      ScoreBounds(n, edges, more, i);
    }
    DistanceAtMostTotals(later, Ones(n), n);
    TotalIsPageCount(n, edges, more);
    TotalIsPageCount(n, edges, 0);
  }

  /** After `k` rounds, however many more rounds were run, the scores would move by at most 0.85^k * 2 N. */
  lemma FurtherRoundsMoveLittle(n: nat, edges: seq<Edge>, k: nat, more: nat)
    requires n > 0 && WellFormed(n, edges)
    ensures Distance(Power(n, edges, Ones(n), more + k), Power(n, edges, Ones(n), k), n)
            <= Shrink(2.0 * n as real, k)
  {
    var later := Power(n, edges, Ones(n), more);
    PowerAdds(n, edges, Ones(n), more, k);
    RoundsContract(n, edges, later, Ones(n), k);
    StaysNearStart(n, edges, more);
    ShrinkMonotone(Distance(later, Ones(n), n), 2.0 * n as real, k);
  }

  // ---------- The whole job ----------

  /** Ranks the pages: the scores of all the known pages, in page order. */
  method ComputeScores(ids: seq<int>, rows: seq<Row>) returns (scores: seq<real>)
    ensures |scores| == |ids|
    ensures ids != [] ==> scores == Power(|ids|, Resolve(ids, rows), Ones(|ids|), 15)
    ensures Total(scores) == |ids| as real
    ensures forall i :: 0 <= i < |ids| ==> 0.15 <= scores[i] <= 0.85 * |ids| as real + 0.15
    ensures forall i, k :: 0 <= i < |ids| && 0 <= k < |ids| && LinkedAtLeast(ids, rows, i, k) ==>
              scores[i] <= scores[k]
    ensures forall i, k :: 0 <= i < |ids| && 0 <= k < |ids| && LinkedMore(ids, rows, i, k) ==>
              scores[i] < scores[k]
  {
    if |ids| == 0 {
      return [];
    }
    var outDegree, inbound := BuildGraph(ids, rows);
    var final := PowerIterate(outDegree, inbound, Resolve(ids, rows));
    scores := final[..];
    TotalIsPageCount(|ids|, Resolve(ids, rows), ITERATIONS);
    forall i: nat | i < |ids| ensures 0.15 <= scores[i] <= 0.85 * |ids| as real + 0.15 {
      ScoreBounds(|ids|, Resolve(ids, rows), ITERATIONS, i);
    }
    forall i, k | 0 <= i < |ids| && 0 <= k < |ids| && LinkedAtLeast(ids, rows, i, k)
      ensures scores[i] <= scores[k] && (LinkedMore(ids, rows, i, k) ==> scores[i] < scores[k])
    {
      MoreLinksMoreScore(ids, rows, ITERATIONS, i, k);
    }
  }
}
