/**
 The path of a structural fingerprint: variable segments become placeholders.
 */
module Fingerprints {
  import opened Escapes
  import opened Options
  import opened Texts

  // ---------- Path segments ----------

  predicate Digits(s: string) {
    forall i :: 0 <= i < |s| ==> IsDigit(s[i])
  }

  predicate Hex(s: string) {
    forall i :: 0 <= i < |s| ==> IsDigit(s[i]) || IsHexLetter(s[i])
  }

  predicate ContainsHexLetter(s: string) {
    exists i :: 0 <= i < |s| && IsHexLetter(s[i])
  }

  predicate IsUuid(s: string) {
    && |s| == 36
    && Hex(s[..8]) && s[8] == '-' && Hex(s[9..13]) && s[13] == '-' && Hex(s[14..18]) && s[18] == '-'
    && Hex(s[19..23]) && s[23] == '-' && Hex(s[24..])
  }

  predicate IsDate(s: string) {
    |s| == 10 && Digits(s[..4]) && s[4] == '-' && Digits(s[5..7]) && s[7] == '-' && Digits(s[8..])
  }

  predicate IsHash(s: string) {
    Hex(s) && ContainsHexLetter(s)
  }

  /** The placeholder of the first pattern that matches, from the most specific to the most general. */
  function Placeholder(s: string): Option<string> {
    if IsUuid(s) then Some("{uuid}")
    else if |s| == 64 && IsHash(s) then Some("{sha256}")
    else if |s| == 40 && IsHash(s) then Some("{sha1}")
    else if |s| == 32 && IsHash(s) then Some("{md5}")
    else if |s| == 24 && IsHash(s) then Some("{oid}")
    else if |s| >= 8 && IsHash(s) then Some("{hex}")
    else if IsDate(s) then Some("{date}")
    else if (|s| == 10 || |s| == 13) && Digits(s) then Some("{ts}")
    else if s != "" && Digits(s) then Some("{num}")
    else None
  }

  function NormalizeSegment(s: string): string {
    var p := Placeholder(s);
    if p.Some? then p.value else s
  }

  /** What starts with a character no pattern allows is not replaced. */
  lemma BracesStay(s: string)
    requires s != "" && s[0] == '{'
    ensures Placeholder(s) == None
  {
    assert !IsDigit(s[0]) && !IsHexLetter(s[0]);
    assert |s| == 36 ==> s[..8][0] == '{';
    assert |s| == 10 ==> s[..4][0] == '{';
  }

  lemma PlaceholderShape(s: string)
    requires Placeholder(s).Some?
    ensures var p := Placeholder(s).value;
            p != "" && p[0] == '{' && '/' !in p && '?' !in p && '#' !in p && '%' !in p
  {
  }

  /** Placeholders are not replaced again. */
  lemma NormalizeSegmentTwice(s: string)
    ensures NormalizeSegment(NormalizeSegment(s)) == NormalizeSegment(s)
    ensures NormalizeSegment(s) == "" <==> s == ""
  {
    if Placeholder(s).Some? {
      PlaceholderShape(s);
      BracesStay(Placeholder(s).value);
    }
  }

  /**
   The patterns exclude each other, so that their order does not matter, but for lengths: numbers are told
   from hashes by a letter, from timestamps by their length, and hashes from each other by theirs.
   */
  lemma SegmentClasses(s: string)
    ensures IsUuid(s) ==> Placeholder(s) == Some("{uuid}")
    ensures IsDate(s) ==> Placeholder(s) == Some("{date}")
    ensures IsHash(s) && |s| >= 8 ==>
              Placeholder(s) == Some(if |s| == 64 then "{sha256}" else if |s| == 40 then "{sha1}"
                                     else if |s| == 32 then "{md5}" else if |s| == 24 then "{oid}" else "{hex}")
    ensures s != "" && Digits(s)
            ==> Placeholder(s) == Some(if |s| == 10 || |s| == 13 then "{ts}" else "{num}")
    ensures IsHash(s) && |s| < 8 ==> Placeholder(s) == None
    ensures Placeholder(s) == None
            <==> !IsUuid(s) && !IsDate(s) && !(s != "" && Digits(s)) && !(|s| >= 8 && IsHash(s))
  {
    if |s| == 36 { assert Digits(s) ==> IsDigit(s[8]); assert Hex(s) ==> IsDigit(s[8]) || IsHexLetter(s[8]); }
    if |s| == 10 { assert Digits(s) ==> IsDigit(s[4]); assert Hex(s) ==> IsDigit(s[4]) || IsHexLetter(s[4]); }
    if IsHash(s) {
      var i :| 0 <= i < |s| && IsHexLetter(s[i]);
      assert !IsDigit(s[i]);
    }
  }

  /** Hexadecimal groups of 8, 4, 4, 4 and 12 make a UUID. */
  lemma UuidGroups(a: string, b: string, c: string, d: string, e: string)
    requires |a| == 8 && |b| == |c| == |d| == 4 && |e| == 12
    ensures var s := a + "-" + b + "-" + c + "-" + d + "-" + e;
            Placeholder(s) == Some("{uuid}") <==> Hex(a) && Hex(b) && Hex(c) && Hex(d) && Hex(e)
  {
    hide Hex, IsHash, Digits, IsDate;
    var s := a + "-" + b + "-" + c + "-" + d + "-" + e;
    assert s[..8] == a && s[9..13] == b && s[14..18] == c && s[19..23] == d && s[24..] == e;
  }

  /** Groups of 4, 2 and 2 digits make a date. */
  lemma DateGroups(a: string, b: string, c: string)
    requires |a| == 4 && |b| == |c| == 2
    ensures var s := a + "-" + b + "-" + c;
            Placeholder(s) == Some("{date}") <==> Digits(a) && Digits(b) && Digits(c)
  {
    var s := a + "-" + b + "-" + c;
    assert s[4] == '-' && !IsDigit('-') && !IsHexLetter('-');
    assert s[..4] == a && s[5..7] == b && s[8..] == c;
  }

  // ---------- Paths ----------

  function NormalizeAll(segments: seq<string>): seq<string> {
    seq(|segments|, i requires 0 <= i < |segments| => NormalizeSegment(segments[i]))
  }

  /** What a fingerprint tells of a path. */
  datatype Shape = NoPath | Root | Segments(classes: seq<string>, trailing: bool)

  function ShapeOf(path: string): Shape {
    if path == "" then NoPath
    else if Trim(path, '/') == "" then Root
    else Segments(NormalizeAll(Split(Trim(path, '/'), '/')), EndsWith(path, '/'))
  }

  function Printed(shape: Shape): string {
    match shape
    case NoPath => ""
    case Root => "/"
    case Segments(classes, trailing) => if trailing then "/" + Join(classes, '/') + "/" else "/" + Join(classes, '/')
  }

  /** A path without slashes at its ends, segment by segment, with one slash in front and at most one behind. */
  function FingerprintPath(path: string): string {
    Printed(ShapeOf(path))
  }

  /** Segments without slashes, each in normal form, with something at either end. */
  ghost predicate GoodShape(shape: Shape) {
    shape.Segments? ==>
      && shape.classes != [] && Free(shape.classes, '/')
      && shape.classes[0] != "" && shape.classes[|shape.classes| - 1] != ""
      && NormalizeAll(shape.classes) == shape.classes
  }

  lemma {:induction false} SplitEnds(s: string, sep: char)
    requires s != ""
    ensures Split(s, sep)[0] == "" <==> StartsWith(s, sep)
    ensures Split(s, sep)[|Split(s, sep)| - 1] == "" <==> EndsWith(s, sep)
  {
    if |s| > 1 {
      SplitEnds(s[1..], sep);
    } else {
      assert s[1..] == "";
    }
  }

  lemma {:induction false} JoinEnds(parts: seq<string>, sep: char)
    requires parts != [] && Free(parts, sep) && parts[0] != "" && parts[|parts| - 1] != ""
    ensures var s := Join(parts, sep);
            s != "" && !StartsWith(s, sep) && !EndsWith(s, sep)
  {
    if |parts| > 1 {
      var s := Join(parts, sep);
      assert parts[0][0] == s[0];
      EndOfJoin(parts, sep);
      assert parts[|parts| - 1][|parts[|parts| - 1]| - 1] == s[|s| - 1];
    }
  }

  lemma {:induction false} EndOfJoin(parts: seq<string>, sep: char)
    requires parts != [] && parts[|parts| - 1] != ""
    ensures var s, last := Join(parts, sep), parts[|parts| - 1];
            s != "" && s[|s| - 1] == last[|last| - 1]
  {
    if |parts| > 1 { EndOfJoin(parts[1..], sep); }
  }

  lemma TrimSlash()
    ensures Trim("/", '/') == ""
  {
    assert "/"[..0] == "";
    assert TrimRight("/", '/') == "";
  }

  lemma SegmentsStayGood(segments: seq<string>, c: char)
    requires c in "/?#" && Free(segments, c)
    ensures var classes := NormalizeAll(segments);
            && Free(classes, c) && NormalizeAll(classes) == classes
            && forall i :: 0 <= i < |segments| ==> (classes[i] == "" <==> segments[i] == "")
  {
    var classes := NormalizeAll(segments);
    forall i | 0 <= i < |segments|
      ensures c !in classes[i] && NormalizeSegment(classes[i]) == classes[i]
      ensures classes[i] == "" <==> segments[i] == ""
    {
      NormalizeSegmentTwice(segments[i]);
      if Placeholder(segments[i]).Some? { PlaceholderShape(segments[i]); }
    }
  }

  lemma ShapeIsGood(path: string)
    ensures GoodShape(ShapeOf(path))
  {
    var trimmed := Trim(path, '/');
    if path != "" && trimmed != "" { SegmentsAreGood(trimmed, EndsWith(path, '/')); }
  }

  lemma SegmentsAreGood(trimmed: string, trailing: bool)
    requires trimmed != "" && !StartsWith(trimmed, '/') && !EndsWith(trimmed, '/')
    ensures GoodShape(Segments(NormalizeAll(Split(trimmed, '/')), trailing))
  {
    SplitIsFree(trimmed, '/');
    SplitEnds(trimmed, '/');
    SegmentsStayGood(Split(trimmed, '/'), '/');
  }

  /** A printed shape reads back as that shape. */
  lemma ShapeRoundTrip(shape: Shape)
    requires GoodShape(shape)
    ensures ShapeOf(Printed(shape)) == shape
  {
    match shape
    case NoPath =>
    case Root => TrimSlash();
    case Segments(classes, trailing) =>
      var inner := Join(classes, '/');
      JoinEnds(classes, '/');
      TrimAround(inner, trailing);
      SplitJoin(classes, '/');
  }

  lemma TrimAround(inner: string, trailing: bool)
    requires inner != "" && !StartsWith(inner, '/') && !EndsWith(inner, '/')
    ensures var path := if trailing then "/" + inner + "/" else "/" + inner;
            Trim(path, '/') == inner && EndsWith(path, '/') == trailing
  {
    var rooted := "/" + inner;
    assert !EndsWith(rooted, '/') && StartsWith(rooted, '/') && rooted[1..] == inner;
    assert TrimLeft(rooted, '/') == TrimLeft(inner, '/') == inner;
    assert TrimRight(rooted, '/') == rooted;
    if trailing {
      var path := rooted + "/";
      assert path[..|path| - 1] == rooted;
      assert TrimRight(path, '/') == TrimRight(rooted, '/');
    }
  }

  lemma FingerprintPathTwice(path: string)
    ensures FingerprintPath(FingerprintPath(path)) == FingerprintPath(path)
  {
    ShapeIsGood(path);
    ShapeRoundTrip(ShapeOf(path));
    ShapeIsGood(FingerprintPath(path));
  }

  /** Two paths have one fingerprint exactly when their segments fall into the same classes. */
  lemma PathsCollide(p: string, q: string)
    ensures FingerprintPath(p) == FingerprintPath(q) <==> ShapeOf(p) == ShapeOf(q)
  {
    ShapeIsGood(p);
    ShapeIsGood(q);
    ShapeRoundTrip(ShapeOf(p));
    ShapeRoundTrip(ShapeOf(q));
  }

  /** What stands between the slashes of a path, without those at its ends. */
  function Parts(path: string): seq<string> {
    Split(Trim(path, '/'), '/')
  }

  /** Segment by segment a placeholder or the segment itself, with the slash that was at the end. */
  lemma SegmentsReplaced(path: string)
    ensures var f := FingerprintPath(path);
            && (path == "" <==> f == "")
            && (path != "" && Trim(path, '/') == "" ==> f == "/")
            && (Trim(path, '/') != "" ==>
                  && StartsWith(f, '/') && (EndsWith(f, '/') <==> EndsWith(path, '/'))
                  && |Parts(f)| == |Parts(path)|
                  && forall i :: 0 <= i < |Parts(path)| ==>
                       Parts(f)[i] == if Placeholder(Parts(path)[i]).Some? then Placeholder(Parts(path)[i]).value
                                      else Parts(path)[i])
  {
    hide Placeholder, Split;
    if Trim(path, '/') != "" {
      ShapeIsGood(path);
      var classes := NormalizeAll(Parts(path));
      JoinEnds(classes, '/');
      TrimAround(Join(classes, '/'), EndsWith(path, '/'));
      SplitJoin(classes, '/');
    }
  }

  // ---------- What the path does not hold ----------

  lemma {:induction false} JoinLacks(parts: seq<string>, sep: char, c: char)
    requires c != sep && Free(parts, c)
    ensures c !in Join(parts, sep)
  {
    if |parts| > 1 { JoinLacks(parts[1..], sep, c); }
  }

  lemma {:induction false} SplitLacks(s: string, sep: char, c: char)
    requires c !in s
    ensures Free(Split(s, sep), c)
  {
    if s != "" { SplitLacks(s[1..], sep, c); }
  }

  lemma TrimLacks(s: string, sep: char, c: char)
    requires c !in s
    ensures c !in Trim(s, sep)
  {
    var t := TrimRight(s, sep);
    assert forall i :: 0 <= i < |t| ==> t[i] == s[i];
    assert Trim(s, sep) == t[|t| - |Trim(s, sep)|..];
  }

  lemma FingerprintPathLacks(path: string, c: char)
    requires c in "?#" && c !in path
    ensures c !in FingerprintPath(path)
  {
    ShapeIsGood(path);
    var shape := ShapeOf(path);
    if shape.Segments? {
      TrimLacks(path, '/', c);
      SplitLacks(Trim(path, '/'), '/', c);
      SegmentsStayGood(Split(Trim(path, '/'), '/'), c);
      JoinLacks(shape.classes, '/', c);
    }
  }

  // ---------- Escapes in a path ----------

  function Percents(s: string): nat {
    if s == "" then 0 else Percents(s[1..]) + if s[0] == '%' then 1 else 0
  }

  lemma {:induction false} PercentsConcat(a: string, b: string)
    ensures Percents(a + b) == Percents(a) + Percents(b)
  {
    if a == "" {
      assert a + b == b;
    } else {
      assert (a + b)[1..] == a[1..] + b;
      PercentsConcat(a[1..], b);
    }
  }

  lemma {:induction false} PercentsFound(s: string)
    ensures Percents(s) > 0 <==> '%' in s
  {
    if s != "" { PercentsFound(s[1..]); }
  }

  /** No pattern matches a segment with a percent sign. */
  lemma NoPercentMatches(s: string)
    requires Placeholder(s).Some?
    ensures '%' !in s
  {
    if IsUuid(s) {
      assert s == s[..8] + [s[8]] + s[9..13] + [s[13]] + s[14..18] + [s[18]] + s[19..23] + [s[23]] + s[24..];
    } else if IsDate(s) {
      assert s == s[..4] + [s[4]] + s[5..7] + [s[7]] + s[8..];
    }
  }

  lemma NormalizePercents(s: string)
    ensures Percents(NormalizeSegment(s)) == Percents(s)
  {
    if Placeholder(s).Some? {
      NoPercentMatches(s);
      PlaceholderShape(s);
      PercentsFound(s);
      PercentsFound(Placeholder(s).value);
    }
  }

  function PercentSum(parts: seq<string>): nat {
    if parts == [] then 0 else Percents(parts[0]) + PercentSum(parts[1..])
  }

  lemma {:induction false} PercentsOfJoin(parts: seq<string>)
    ensures Percents(Join(parts, '/')) == PercentSum(parts)
  {
    if |parts| > 1 {
      PercentsOfJoin(parts[1..]);
      PercentsConcat(parts[0] + "/", Join(parts[1..], '/'));
      PercentsConcat(parts[0], "/");
      PercentsFound("/");
    }
  }

  lemma {:induction false} NormalizedPercents(parts: seq<string>)
    ensures PercentSum(NormalizeAll(parts)) == PercentSum(parts)
  {
    if parts != [] {
      NormalizePercents(parts[0]);
      assert NormalizeAll(parts)[1..] == NormalizeAll(parts[1..]);
      NormalizedPercents(parts[1..]);
    }
  }

  lemma {:induction false} TrimRightPercents(s: string)
    ensures Percents(TrimRight(s, '/')) == Percents(s)
    ensures forall k :: |TrimRight(s, '/')| <= k < |s| ==> s[k] == '/'
  {
    if EndsWith(s, '/') {
      var before := s[..|s| - 1];
      TrimRightPercents(before);
      assert s == before + "/";
      PercentsConcat(before, "/");
      PercentsFound("/");
    }
  }

  lemma {:induction false} TrimLeftPercents(s: string)
    ensures Percents(TrimLeft(s, '/')) == Percents(s)
  {
    if StartsWith(s, '/') { TrimLeftPercents(s[1..]); }
  }

  /** Taking the fingerprint of a path keeps its percent signs. */
  lemma FingerprintPathPercents(path: string)
    ensures Percents(FingerprintPath(path)) == Percents(path)
  {
    var t := Trim(path, '/');
    TrimRightPercents(path);
    TrimLeftPercents(TrimRight(path, '/'));
    PercentsFound("/");
    if path != "" && t != "" {
      var classes := NormalizeAll(Split(t, '/'));
      JoinSplit(t, '/');
      PercentsOfJoin(Split(t, '/'));
      NormalizedPercents(Split(t, '/'));
      PercentsOfJoin(classes);
      PercentsConcat("/", Join(classes, '/'));
      PercentsConcat("/" + Join(classes, '/'), "/");
    }
  }

  /** What two piecewise unescaped texts share: the pieces, unescaped one by one, with as many percent signs. */
  ghost predicate Piecewise(ps: seq<string>, xs: seq<string>) {
    |xs| == |ps| && forall i :: 0 <= i < |ps| ==> UnescapesTo(ps[i], xs[i])
  }

  ghost predicate UnescapesTo(p: string, x: string) {
    Unescape(p, false) == Some(x) && Percents(x) == Percents(p)
  }

  /** Unescaping adds no percent sign; where it loses none, every escape was one of a percent sign. */
  lemma {:induction false} UnescapePieces(p: string)
    requires Unescape(p, false).Some?
    ensures var x := Unescape(p, false).value;
            && Percents(x) <= Percents(p)
            && (Percents(x) == Percents(p) ==> Piecewise(Split(p, '/'), Split(x, '/')))
  {
    if p != "" {
      if p[0] == '%' {
        UnescapePieces(p[3..]);
        EscapeInFront(p);
      } else {
        UnescapePieces(p[1..]);
        CharInFront(p);
      }
    }
  }

  lemma EscapeInFront(p: string)
    requires StartsWithEscape(p) && Unescape(p, false).Some?
    requires var x' := Unescape(p[3..], false).value;
             && Percents(x') <= Percents(p[3..])
             && (Percents(x') == Percents(p[3..]) ==> Piecewise(Split(p[3..], '/'), Split(x', '/')))
    ensures var x := Unescape(p, false).value;
            && Percents(x) <= Percents(p)
            && (Percents(x) == Percents(p) ==> Piecewise(Split(p, '/'), Split(x, '/')))
  {
    var x, x' := Unescape(p, false).value, Unescape(p[3..], false).value;
    assert x[1..] == x';
    assert p == p[..3] + p[3..];
    EscapeHasOne(p[..3]);
    PercentsConcat(p[..3], p[3..]);
    if Percents(x) == Percents(p) {
      var ps, xs := Split(p[3..], '/'), Split(x', '/');
      SplitPrefix(p[..3], p[3..], '/');
      assert UnescapesTo(ps[0], xs[0]);
      EscapeExtends(p[..3], ps[0], xs[0]);
      assert [x[0]] + xs[0] == "%" + xs[0];
      forall i | 0 <= i < |Split(p, '/')|
        ensures UnescapesTo(Split(p, '/')[i], Split(x, '/')[i])
      {
        if i > 0 { assert UnescapesTo(ps[i], xs[i]); }
      }
    }
  }

  lemma EscapeExtends(escape: string, p: string, x: string)
    requires |escape| == 3 && StartsWithEscape(escape) && UnescapesTo(p, x)
    requires EscapedChar(escape) == '%'
    ensures UnescapesTo(escape + p, "%" + x)
  {
    var q := escape + p;
    assert q[3..] == p && q[..3] == escape;
    assert ("%" + x)[1..] == x;
    EscapeHasOne(escape);
    PercentsConcat(escape, p);
    PercentsConcat("%", x);
  }

  lemma EscapeHasOne(escape: string)
    requires |escape| == 3 && StartsWithEscape(escape)
    ensures Percents(escape) == 1
  {
    PercentsFound(escape[1..]);
  }

  lemma CharInFront(p: string)
    requires p != "" && p[0] != '%' && Unescape(p, false).Some?
    requires var x' := Unescape(p[1..], false).value;
             && Percents(x') <= Percents(p[1..])
             && (Percents(x') == Percents(p[1..]) ==> Piecewise(Split(p[1..], '/'), Split(x', '/')))
    ensures var x := Unescape(p, false).value;
            && Percents(x) <= Percents(p)
            && (Percents(x) == Percents(p) ==> Piecewise(Split(p, '/'), Split(x, '/')))
  {
    var x, x' := Unescape(p, false).value, Unescape(p[1..], false).value;
    assert x[1..] == x' && x[0] == p[0];
    if Percents(x) == Percents(p) {
      var ps, xs := Split(p[1..], '/'), Split(x', '/');
      assert UnescapesTo(ps[0], xs[0]);
      assert ([p[0]] + ps[0])[1..] == ps[0] && ([p[0]] + xs[0])[1..] == xs[0];
      assert UnescapesTo("", "");
      assert UnescapesTo([p[0]] + ps[0], [p[0]] + xs[0]);
      forall i | 0 <= i < |Split(p, '/')|
        ensures UnescapesTo(Split(p, '/')[i], Split(x, '/')[i])
      {
        if p[0] == '/' {
          if i > 0 { assert UnescapesTo(ps[i - 1], xs[i - 1]); }
        } else if i > 0 {
          assert UnescapesTo(ps[i], xs[i]);
        }
      }
    }
  }

  // ---------- Pieces of a fingerprinted path ----------

  lemma PrefixPieces(p: string, f: string, i: nat)
    requires p <= f && i < |Split(p, '/')|
    ensures i < |Split(f, '/')| && Split(p, '/')[i] <= Split(f, '/')[i]
    ensures i < |Split(p, '/')| - 1 ==> Split(p, '/')[i] == Split(f, '/')[i]
  {
    SplitAppend(p, f[|p|..], '/');
    assert p + f[|p|..] == f;
  }

  lemma {:induction false} SlashesSplit(z: string)
    requires forall k :: 0 <= k < |z| ==> z[k] == '/'
    ensures forall i :: 0 <= i < |Split(z, '/')| ==> Split(z, '/')[i] == ""
  {
    if z != "" { SlashesSplit(z[1..]); }
  }

  lemma RootedPieces(y: string)
    ensures Split("/" + y, '/') == [""] + Split(y, '/')
  {
    assert ("/" + y)[1..] == y;
  }

  /** The pieces of a printed list of segments. */
  lemma PrintedPieces(classes: seq<string>, trailing: bool)
    requires GoodShape(Segments(classes, trailing))
    ensures Split(Printed(Segments(classes, trailing)), '/') == [""] + classes + if trailing then [""] else []
  {
    var inner := Join(classes, '/');
    SplitJoin(classes, '/');
    RootedPieces(inner);
    if trailing { SlashBehind("/" + inner); }
  }

  lemma GluedToNothing(s: seq<string>, r: seq<string>)
    requires s != [] && Glued(s, ["", ""], r)
    ensures r == s + [""]
  {
    assert s[|s| - 1] + "" == s[|s| - 1];
  }

  lemma SlashBehind(s: string)
    ensures Split(s + "/", '/') == Split(s, '/') + [""]
  {
    SplitAppend(s, "/", '/');
    RootedPieces("");
    assert "/" + "" == "/";
    GluedToNothing(Split(s, '/'), Split(s + "/", '/'));
  }

  lemma OneSlashOff(r: string)
    requires |r| >= 2 && r[0] == '/' && r[1] != '/'
    ensures TrimLeft(r, '/') == r[1..]
  {
    assert !StartsWith(r[1..], '/');
  }

  lemma TrimOneSlash(x: string)
    requires |x| >= 2 && x[0] == '/' && x[1] != '/'
    ensures var t := Trim(x, '/');
            t != "" && |t| < |x| && x[1..|t| + 1] == t && forall k :: |t| + 1 <= k < |x| ==> x[k] == '/'
  {
    var r := TrimRight(x, '/');
    TrimRightPercents(x);
    assert |r| >= 2 && r == x[..|r|];
    OneSlashOff(r);
  }

  /** Behind one slash, the pieces of a path that are not empty are its segments. */
  lemma TrimmedPieces(x: string, i: nat)
    requires |x| >= 2 && x[0] == '/' && x[1] != '/'
    requires 0 < i < |Split(x, '/')| && Split(x, '/')[i] != ""
    ensures var t := Trim(x, '/');
            t != "" && i - 1 < |Split(t, '/')| && Split(x, '/')[i] == Split(t, '/')[i - 1]
  {
    var z := SlashesAround(x);
    RootedPieces(Trim(x, '/') + z);
    PiecesBeforeSlashes(Trim(x, '/'), z, i - 1);
  }

  lemma SlashesAround(x: string) returns (z: string)
    requires |x| >= 2 && x[0] == '/' && x[1] != '/'
    ensures Trim(x, '/') != "" && x == "/" + (Trim(x, '/') + z) && forall k :: 0 <= k < |z| ==> z[k] == '/'
  {
    TrimOneSlash(x);
    z := CutAround(x, Trim(x, '/'));
  }

  lemma CutAround(x: string, t: string) returns (z: string)
    requires x != "" && x[0] == '/' && |t| < |x| && x[1..|t| + 1] == t
    requires forall k :: |t| + 1 <= k < |x| ==> x[k] == '/'
    ensures x == "/" + (t + z) && forall k :: 0 <= k < |z| ==> z[k] == '/'
  {
    z := x[|t| + 1..];
    assert x[1..] == t + z;
  }

  lemma PiecesBeforeSlashes(t: string, z: string, k: nat)
    requires forall i :: 0 <= i < |z| ==> z[i] == '/'
    requires k < |Split(t + z, '/')| && Split(t + z, '/')[k] != ""
    ensures k < |Split(t, '/')| && Split(t + z, '/')[k] == Split(t, '/')[k]
  {
    SplitAppend(t, z, '/');
    SlashesSplit(z);
    GluedToBlanks(Split(t, '/'), Split(z, '/'), Split(t + z, '/'), k);
  }

  lemma GluedToBlanks(s: seq<string>, blanks: seq<string>, r: seq<string>, k: nat)
    requires s != [] && blanks != [] && Glued(s, blanks, r)
    requires forall i :: 0 <= i < |blanks| ==> blanks[i] == ""
    requires k < |r| && r[k] != ""
    ensures k < |s| && r[k] == s[k]
  {
    assert s[|s| - 1] + "" == s[|s| - 1];
  }

  lemma FingerprintPieces(x: string, i: nat)
    requires |x| >= 2 && x[0] == '/' && x[1] != '/'
    requires 0 < i < |Split(x, '/')| && Split(x, '/')[i] != ""
    ensures i < |Split(FingerprintPath(x), '/')|
    ensures Split(FingerprintPath(x), '/')[i] == NormalizeSegment(Split(x, '/')[i])
  {
    TrimmedPieces(x, i);
    var classes, trailing := NormalizeAll(Split(Trim(x, '/'), '/')), EndsWith(x, '/');
    ShapeIsGood(x);
    assert ShapeOf(x) == Segments(classes, trailing);
    PrintedPieces(classes, trailing);
    assert classes[i - 1] == NormalizeSegment(Split(x, '/')[i]);
  }

  /** A fingerprinted path has something between its first two slashes. */
  lemma SecondPiece(x: string)
    ensures |Split(FingerprintPath(x), '/')| > 2 ==> Split(FingerprintPath(x), '/')[1] != ""
  {
    ShapeIsGood(x);
    RootedPieces("");
    assert "/" + "" == "/";
    if ShapeOf(x).Segments? {
      PrintedPieces(ShapeOf(x).classes, ShapeOf(x).trailing);
    }
  }

  lemma {:induction false} PieceWith(s: string, c: char) returns (i: nat)
    requires c != '/' && c in s
    ensures i < |Split(s, '/')| && c in Split(s, '/')[i]
  {
    if s[0] == c {
      i := 0;
    } else {
      i := PieceWith(s[1..], c);
      if s[0] == '/' { i := i + 1; }
    }
  }

  /** A path text that starts the fingerprint of what it stands for has no escapes. */
  lemma EscapesDoNotStay(p: string)
    requires StartsWith(p, '/') && Unescape(p, false).Some?
    requires p <= FingerprintPath(Unescape(p, false).value)
    ensures '%' !in p
  {
    if '%' in p {
      var x := Unescape(p, false).value;
      var f := FingerprintPath(x);
      PercentsConcat(p, f[|p|..]);
      assert p + f[|p|..] == f;
      FingerprintPathPercents(x);
      UnescapePieces(p);
      var i := PieceWith(p, '%');
      StaysShort(p, x, f, i);
      assert false;
    }
  }

  lemma StaysShort(p: string, x: string, f: string, i: nat)
    requires StartsWith(p, '/') && Unescape(p, false) == Some(x) && f == FingerprintPath(x) && p <= f
    requires '%' in p && Piecewise(Split(p, '/'), Split(x, '/'))
    requires i < |Split(p, '/')|
    ensures '%' !in Split(p, '/')[i]
  {
    var ps, xs, fs := Split(p, '/'), Split(x, '/'), Split(f, '/');
    assert UnescapesTo(ps[i], xs[i]);
    UnescapeShortens(ps[i], false);
    if '%' in ps[i] {
      PercentsFound(ps[i]);
      PercentsFound(xs[i]);
      assert i > 0;
      OneSlashInFront(p, x, f);
      FingerprintPieces(x, i);
      if Placeholder(xs[i]).Some? { NoPercentMatches(xs[i]); }
      PrefixPieces(p, f, i);
    }
  }

  lemma OneSlashInFront(p: string, x: string, f: string)
    requires StartsWith(p, '/') && '%' in p && Unescape(p, false) == Some(x) && f == FingerprintPath(x) && p <= f
    requires Piecewise(Split(p, '/'), Split(x, '/'))
    ensures |x| >= 2 && x[0] == '/' && x[1] != '/'
  {
    SecondPieceFilled(p, x, f);
    assert UnescapesTo(Split(p, '/')[1], Split(x, '/')[1]);
    SomethingIsLeft(Split(p, '/')[1]);
    SlashStaysInFront(p);
    SecondPieceInFront(x);
  }

  lemma SomethingIsLeft(p: string)
    requires p != "" && Unescape(p, false).Some?
    ensures Unescape(p, false).value != ""
  {
  }

  lemma SlashStaysInFront(p: string)
    requires StartsWith(p, '/') && Unescape(p, false).Some?
    ensures StartsWith(Unescape(p, false).value, '/')
  {
  }

  lemma SecondPieceInFront(x: string)
    requires StartsWith(x, '/') && |Split(x, '/')| >= 2 && Split(x, '/')[1] != ""
    ensures |x| >= 2 && x[1] != '/'
  {
    RootedPieces(x[1..]);
    assert "/" + x[1..] == x;
    if x[1..] != "" { SplitEnds(x[1..], '/'); }
  }

  lemma SecondPieceFilled(p: string, x: string, f: string)
    requires StartsWith(p, '/') && '%' in p && Unescape(p, false) == Some(x) && f == FingerprintPath(x) && p <= f
    requires Piecewise(Split(p, '/'), Split(x, '/'))
    ensures |Split(p, '/')| >= 2 && Split(p, '/')[1] != ""
  {
    RootedPieces(p[1..]);
    assert "/" + p[1..] == p;
    if |Split(p, '/')| > 2 {
      PrefixPieces(p, f, 1);
      PrefixPieces(p, f, 2);
      SecondPiece(x);
    } else {
      var i := PieceWith(p, '%');
    }
  }

  // ---------- Computing the path ----------

  /** Overwrites the segments that match a pattern. */
  method NormalizeSegments(segments: array<string>)
    modifies segments
    ensures segments[..] == NormalizeAll(old(segments[..]))
    ensures forall k :: 0 <= k < segments.Length ==>
              segments[k] == if Placeholder(old(segments[k])).Some? then Placeholder(old(segments[k])).value
                             else old(segments[k])
  {
    for i := 0 to segments.Length
      invariant forall k :: 0 <= k < i ==> segments[k] == NormalizeSegment(old(segments[k]))
      invariant forall k :: i <= k < segments.Length ==> segments[k] == old(segments[k])
    {
      var placeholder := Placeholder(segments[i]);
      if placeholder.Some? { segments[i] := placeholder.value; }
    }
  }

  /** Splits a trimmed path, and puts placeholders into the array of its segments. */
  method NormalizeParts(parts: seq<string>) returns (normalized: seq<string>)
    ensures normalized == NormalizeAll(parts)
  {
    var segments := new string[|parts|](i requires 0 <= i < |parts| => parts[i]);
    assert segments[..] == parts;
    NormalizeSegments(segments);
    normalized := segments[..];
  }

  method NormalizePath(path: string) returns (normalized: string)
    ensures normalized == FingerprintPath(path)
  {
    TrimSlash();
    if path == "" || path == "/" { return path; }
    var trimmed := Trim(path, '/');
    if trimmed == "" { return "/"; }
    var classes := NormalizeParts(Split(trimmed, '/'));
    normalized := "/" + Join(classes, '/');
    if EndsWith(path, '/') { normalized := normalized + "/"; }
    assert ShapeOf(path) == Segments(classes, EndsWith(path, '/'));
    assert Printed(Segments(classes, EndsWith(path, '/'))) == normalized;
  }
}
