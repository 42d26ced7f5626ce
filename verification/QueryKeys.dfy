/**
 The keys of a raw query, and the text that a fingerprint makes of them: sorted, joined with
 ampersands, and not escaped again.
 */
module QueryKeys {
  import opened Escapes
  import opened Options
  import opened Queries
  import opened Texts

  // ---------- Keys ----------

  /** The key of one piece between ampersands, if the piece is a parameter at all. */
  function KeyOf(piece: string): Option<string> {
    if FieldOf(piece).Some? then Some(FieldOf(piece).value.key) else None
  }

  function Keys(rawQuery: string): set<string> {
    if TooMany(rawQuery) then {}
    else set piece | piece in Split(rawQuery, '&') && KeyOf(piece).Some? :: KeyOf(piece).value
  }

  /** The query of the fingerprint, and whether there is one. */
  ghost function KeyText(rawQuery: string): Option<string> {
    var keys := SortedList(Keys(rawQuery));
    if rawQuery == "" || keys == [] then None else Some(Join(keys, '&'))
  }

  /** A piece that is read as the key it is. */
  predicate GoodPiece(p: string) {
    p != "" && '=' !in p && ';' !in p && '+' !in p && '%' !in p
  }

  /** A key text that is written again as it stands. */
  ghost predicate GoodPieces(text: string) {
    var pieces := Split(text, '&');
    !TooMany(text) && Sorted(Leq, pieces) && Distinct(pieces) && forall i :: 0 <= i < |pieces| ==> GoodPiece(pieces[i])
  }

  lemma GoodPieceIsKey(p: string)
    requires GoodPiece(p)
    ensures KeyOf(p) == Some(p)
  {
    CutAt(p, None, '=');
    assert p + "" == p;
    UnescapeShortens(p, true);
  }

  /** A key is no longer than its piece, and as long only if the piece has no value and no escape. */
  lemma KeyIsShorter(p: string)
    requires KeyOf(p).Some?
    ensures |KeyOf(p).value| <= |p|
    ensures |KeyOf(p).value| == |p| ==> '=' !in p && '%' !in p && KeyOf(p) == Unescape(p, true)
  {
    CutSplits(p, '=');
    UnescapeShortens(Cut(p, '=').0, true);
  }

  // ---------- Which key texts stay ----------

  function Size(parts: seq<string>): nat {
    if parts == [] then 0 else Size(parts[..|parts| - 1]) + |parts[|parts| - 1]| + 1
  }

  lemma {:induction false} SizeConcat(a: seq<string>, b: seq<string>)
    ensures Size(a + b) == Size(a) + Size(b)
  {
    if b == [] {
      assert a + b == a;
    } else {
      assert (a + b)[..|a + b| - 1] == a + b[..|b| - 1];
      SizeConcat(a, b[..|b| - 1]);
    }
  }

  lemma {:induction false} JoinSize(parts: seq<string>, sep: char)
    requires parts != []
    ensures |Join(parts, sep)| + 1 == Size(parts)
  {
    assert parts == [parts[0]] + parts[1..];
    SizeConcat([parts[0]], parts[1..]);
    assert Size([parts[0]]) == Size([]) + |parts[0]| + 1;
    if |parts| > 1 { JoinSize(parts[1..], sep); }
  }

  ghost predicate HasPiece(pieces: seq<string>, key: string) {
    exists k :: 0 <= k < |pieces| && KeyOf(pieces[k]) == Some(key)
  }

  /** Every one of the keys is the key of one of the pieces. */
  ghost predicate From(keys: seq<string>, pieces: seq<string>) {
    forall x :: x in keys ==> HasPiece(pieces, x)
  }

  predicate KeepsLength(p: string) {
    KeyOf(p).Some? && |KeyOf(p).value| == |p|
  }

  lemma TakeOut(keys: seq<string>, i: nat) returns (rest: seq<string>)
    requires i < |keys| && Distinct(keys)
    ensures Distinct(rest) && Size(keys) == Size(rest) + |keys[i]| + 1
    ensures forall x :: x in rest ==> x in keys && x != keys[i]
  {
    rest := keys[..i] + keys[i + 1..];
    assert keys == (keys[..i] + [keys[i]]) + keys[i + 1..];
    SizeConcat(keys[..i] + [keys[i]], keys[i + 1..]);
    SizeConcat(keys[..i], [keys[i]]);
    assert Size([keys[i]]) == Size([]) + |keys[i]| + 1;
    SizeConcat(keys[..i], keys[i + 1..]);
  }

  lemma FromEarlier(keys: seq<string>, pieces: seq<string>)
    requires From(keys, pieces) && pieces != []
    requires forall x :: x in keys ==> KeyOf(pieces[|pieces| - 1]) != Some(x)
    ensures From(keys, pieces[..|pieces| - 1])
  {
    var before := pieces[..|pieces| - 1];
    forall x | x in keys
      ensures HasPiece(before, x)
    {
      assert HasPiece(pieces, x);
      var k :| 0 <= k < |pieces| && KeyOf(pieces[k]) == Some(x);
      assert before[k] == pieces[k];
    }
  }

  /** Different keys take no more room than the pieces, and as much only if every piece keeps its length. */
  lemma {:induction false} KeysFit(keys: seq<string>, pieces: seq<string>)
    requires Distinct(keys) && From(keys, pieces)
    ensures Size(keys) <= Size(pieces)
    ensures Size(keys) == Size(pieces) ==> forall k :: 0 <= k < |pieces| ==> KeepsLength(pieces[k])
    decreases |pieces|
  {
    if keys == [] {
      assert pieces != [] ==> Size(pieces) > 0;
    } else {
      assert HasPiece(pieces, keys[0]);
      var last, before := pieces[|pieces| - 1], pieces[..|pieces| - 1];
      assert Size(pieces) == Size(before) + |last| + 1;
      if KeyOf(last).Some? && KeyOf(last).value in keys {
        var i :| 0 <= i < |keys| && keys[i] == KeyOf(last).value;
        var rest := TakeOut(keys, i);
        assert From(rest, pieces);
        FromEarlier(rest, pieces);
        KeysFit(rest, before);
        KeyIsShorter(last);
        forall k | 0 <= k < |pieces| && Size(keys) == Size(pieces)
          ensures KeepsLength(pieces[k])
        {
          assert k < |before| ==> KeepsLength(before[k]);
        }
      } else {
        FromEarlier(keys, pieces);
        KeysFit(keys, before);
      }
    }
  }

  lemma KeysComeFrom(rawQuery: string)
    ensures From(SortedList(Keys(rawQuery)), Split(rawQuery, '&')) && Distinct(SortedList(Keys(rawQuery)))
  {
    SortedListHolds(Keys(rawQuery));
    var keys, pieces := SortedList(Keys(rawQuery)), Split(rawQuery, '&');
    forall x | x in keys
      ensures HasPiece(pieces, x)
    {
      assert x in Keys(rawQuery);
      var piece :| piece in pieces && KeyOf(piece).Some? && KeyOf(piece).value == x;
      var k :| 0 <= k < |pieces| && pieces[k] == piece;
      assert KeyOf(pieces[k]) == Some(x);
    }
  }

  /** No key text is longer than its query. */
  lemma KeyTextIsShorter(rawQuery: string)
    requires KeyText(rawQuery).Some?
    ensures |KeyText(rawQuery).value| <= |rawQuery|
    ensures |KeyText(rawQuery).value| == |rawQuery| ==>
              forall k :: 0 <= k < |Split(rawQuery, '&')| ==> KeepsLength(Split(rawQuery, '&')[k])
  {
    var keys, pieces := SortedList(Keys(rawQuery)), Split(rawQuery, '&');
    KeysComeFrom(rawQuery);
    KeysFit(keys, pieces);
    JoinSize(keys, '&');
    JoinSize(pieces, '&');
    JoinSplit(rawQuery, '&');
  }

  /** Good pieces are read as keys and written as they were. */
  lemma GoodPiecesStay(text: string)
    requires GoodPieces(text)
    ensures KeyText(text) == Some(text)
  {
    var pieces := Split(text, '&');
    forall i | 0 <= i < |pieces| ensures KeyOf(pieces[i]) == Some(pieces[i]) { GoodPieceIsKey(pieces[i]); }
    forall x ensures x in pieces <==> x in Keys(text) {
      if x in pieces { assert KeyOf(x).value in Keys(text); }
    }
    SortedListIsUnique(pieces, Keys(text));
    JoinSplit(text, '&');
    assert text != "" by { assert GoodPiece(pieces[0]); }
  }

  lemma PlainPiece(p: string)
    requires KeepsLength(p) && '&' !in p
    ensures p != "" && '=' !in p && ';' !in p && '%' !in p
    ensures '&' !in KeyOf(p).value && '+' !in KeyOf(p).value
  {
    KeyIsShorter(p);
    UnescapePlus(p);
  }

  /** Pieces that all keep their lengths give keys without ampersands and plus signs. */
  lemma PlainKeys(text: string)
    requires !TooMany(text) && forall k :: 0 <= k < |Split(text, '&')| ==> KeepsLength(Split(text, '&')[k])
    ensures var keys := SortedList(Keys(text));
            Free(keys, '&') && Free(keys, '+') && keys != []
  {
    var keys, pieces := SortedList(Keys(text)), Split(text, '&');
    SortedListHolds(Keys(text));
    KeysComeFrom(text);
    SplitIsFree(text, '&');
    forall i | 0 <= i < |keys|
      ensures '&' !in keys[i] && '+' !in keys[i]
    {
      assert keys[i] in keys;
      assert HasPiece(pieces, keys[i]);
      var k :| 0 <= k < |pieces| && KeyOf(pieces[k]) == Some(keys[i]);
      PlainPiece(pieces[k]);
    }
    assert KeyOf(pieces[0]).value in Keys(text);
  }

  lemma StayingTextIsGood(text: string)
    requires KeyText(text) == Some(text)
    ensures GoodPieces(text)
  {
    var keys := SortedList(Keys(text));
    KeyTextIsShorter(text);
    NoKeyText(text);
    PlainKeys(text);
    SplitJoin(keys, '&');
    SortedListHolds(Keys(text));
    SplitIsFree(text, '&');
    assert Split(text, '&') == keys;
    forall i | 0 <= i < |keys| ensures GoodPiece(keys[i]) { PlainPiece(keys[i]); }
  }

  /** A query is its own key text exactly when its pieces are good. */
  lemma KeyTextStays(text: string)
    ensures KeyText(text) == Some(text) <==> GoodPieces(text)
  {
    if GoodPieces(text) { GoodPiecesStay(text); }
    if KeyText(text) == Some(text) { StayingTextIsGood(text); }
  }

  // ---------- Collisions ----------

  lemma NoKeyText(rawQuery: string)
    ensures KeyText(rawQuery) == None <==> Keys(rawQuery) == {}
    ensures KeyText(rawQuery).Some? ==> KeyText(rawQuery) == Some(Join(SortedList(Keys(rawQuery)), '&'))
  {
    SortedListHolds(Keys(rawQuery));
    var keys := SortedList(Keys(rawQuery));
    assert keys != [] ==> keys[0] in keys;
    assert keys == [] ==> forall k :: k !in Keys(rawQuery);
    assert rawQuery == "" ==> Split(rawQuery, '&') == [""];
  }

  /** The keys, cut at the ampersands in them. */
  function Pieces(keys: seq<string>): (pieces: seq<string>)
    ensures pieces == [] <==> keys == []
  {
    if keys == [] then [] else Split(keys[0], '&') + Pieces(keys[1..])
  }

  ghost function KeyPieces(q: string): seq<string> {
    Pieces(SortedList(Keys(q)))
  }

  lemma GluedApart(s: seq<string>, t: seq<string>, r: seq<string>)
    requires s != [] && Glued(s, [""] + t, r)
    ensures r == s + t
  {
    assert s[|s| - 1] + "" == s[|s| - 1];
  }

  lemma SplitBetween(a: string, b: string)
    ensures Split(a + "&" + b, '&') == Split(a, '&') + Split(b, '&')
  {
    var tail := "&" + b;
    assert tail[1..] == b && Split(tail, '&') == [""] + Split(b, '&');
    assert a + tail == a + "&" + b;
    SplitAppend(a, tail, '&');
    GluedApart(Split(a, '&'), Split(b, '&'), Split(a + tail, '&'));
  }

  /** Reading the joined keys back finds their pieces. */
  lemma {:induction false} PiecesOfJoin(keys: seq<string>)
    requires keys != []
    ensures Split(Join(keys, '&'), '&') == Pieces(keys)
  {
    if |keys| > 1 {
      PiecesOfJoin(keys[1..]);
      SplitBetween(keys[0], Join(keys[1..], '&'));
    }
  }

  function TextOf(keys: seq<string>): Option<string> {
    if keys == [] then None else Some(Join(keys, '&'))
  }

  lemma TextsAgree(a: seq<string>, b: seq<string>)
    ensures TextOf(a) == TextOf(b) <==> Pieces(a) == Pieces(b)
  {
    if a != [] && b != [] {
      PiecesOfJoin(a);
      PiecesOfJoin(b);
      JoinSplit(Join(a, '&'), '&');
      JoinSplit(Join(b, '&'), '&');
    }
  }

  lemma KeyTextOf(q: string)
    ensures KeyText(q) == TextOf(SortedList(Keys(q)))
  {
    NoKeyText(q);
    var keys := SortedList(Keys(q));
    SortedListHolds(Keys(q));
    if keys != [] { assert keys[0] in Keys(q); }
  }

  /** Two queries have one key text exactly when their sorted keys have the same pieces. */
  lemma KeyTextsAgree(q: string, r: string)
    ensures KeyText(q) == KeyText(r) <==> KeyPieces(q) == KeyPieces(r)
  {
    KeyTextOf(q);
    KeyTextOf(r);
    TextsAgree(SortedList(Keys(q)), SortedList(Keys(r)));
  }

  ghost predicate NoAmpersand(keys: set<string>) {
    forall k :: k in keys ==> '&' !in k
  }

  lemma KeyListApart(q: string)
    requires Keys(q) != {} && NoAmpersand(Keys(q))
    ensures var keys := SortedList(Keys(q));
            Split(Join(keys, '&'), '&') == keys && forall k :: k in keys <==> k in Keys(q)
  {
    SortedListHolds(Keys(q));
    var keys := SortedList(Keys(q));
    var k :| k in Keys(q);
    assert k in keys;
    assert forall i :: 0 <= i < |keys| ==> keys[i] in keys;
    SplitJoin(keys, '&');
  }

  /** Two queries without ampersands in their keys have one key text exactly when they have the same keys. */
  lemma KeyTextsCollide(q: string, r: string)
    requires NoAmpersand(Keys(q)) && NoAmpersand(Keys(r))
    ensures KeyText(q) == KeyText(r) <==> Keys(q) == Keys(r)
  {
    NoKeyText(q);
    NoKeyText(r);
    if Keys(q) != {} && Keys(r) != {} && KeyText(q) == KeyText(r) {
      var a, b := SortedList(Keys(q)), SortedList(Keys(r));
      KeyListApart(q);
      KeyListApart(r);
      forall k ensures k in Keys(q) <==> k in Keys(r) { assert k in a <==> k in b; }
    }
  }

  // ---------- Keys that do not read back ----------

  predicate Plain(s: string) {
    '&' !in s && '=' !in s && ';' !in s && '+' !in s && '%' !in s
  }

  lemma {:induction false} UnescapeAfter(a: string, b: string)
    requires Plain(a)
    ensures Unescape(a + b, true)
            == if Unescape(b, true).Some? then Some(a + Unescape(b, true).value) else None
  {
    if a == "" {
      assert a + b == b;
      assert Unescape(b, true).Some? ==> a + Unescape(b, true).value == Unescape(b, true).value;
    } else {
      assert (a + b)[1..] == a[1..] + b;
      UnescapeAfter(a[1..], b);
      if Unescape(b, true).Some? {
        assert [a[0]] + (a[1..] + Unescape(b, true).value) == a + Unescape(b, true).value;
      }
    }
  }

  lemma EscapeBefore(escape: string, c: char, b: string)
    requires |escape| == 3 && StartsWithEscape(escape) && Unescape(b, true) == Some(b)
    requires EscapedChar(escape) == c
    ensures Unescape(escape + b, true) == Some([c] + b)
  {
    var rest := escape + b;
    assert rest[3..] == b && forall k :: 0 <= k < 3 ==> rest[k] == escape[k];
  }

  /** An escape in the middle of a plain text. */
  lemma UnescapeInside(a: string, escape: string, c: char, b: string)
    requires Plain(a) && Plain(b)
    requires |escape| == 3 && StartsWithEscape(escape)
    requires EscapedChar(escape) == c
    ensures Unescape(a + escape + b, true) == Some(a + [c] + b)
  {
    UnescapeShortens(b, true);
    EscapeBefore(escape, c, b);
    var rest := escape + b;
    UnescapeAfter(a, rest);
    assert a + rest == a + escape + b && a + ([c] + b) == a + [c] + b;
  }

  lemma OnePiece(q: string, key: string)
    requires q != "" && '&' !in q && KeyOf(q) == Some(key)
    ensures Keys(q) == {key} && KeyText(q) == Some(key)
  {
    SplitPrefix(q, "", '&');
    assert q + "" == q;
    assert Split(q, '&') == [q];
    SortedListIsUnique([key], Keys(q));
  }

  lemma EscapedKey(a: string, escape: string, c: char, b: string)
    requires Plain(a) && Plain(b)
    requires |escape| == 3 && StartsWithEscape(escape) && Plain(escape[1..])
    requires EscapedChar(escape) == c
    ensures var q := a + escape + b;
            Keys(q) == {a + [c] + b} && KeyText(q) == Some(a + [c] + b)
  {
    var q := a + escape + b;
    UnescapeInside(a, escape, c, b);
    assert forall x :: x in q ==> x in a || x == '%' || x in escape[1..] || x in b;
    CutAt(q, None, '=');
    assert q + "" == q;
    OnePiece(q, a + [c] + b);
  }

  /** The pair of keys a, b and the one key "a&b" have one text: the keys are not escaped again. */
  lemma AmpersandsCollide(a: string, b: string)
    requires Plain(a) && Plain(b) && a != "" && b != "" && a != b && Leq(a, b)
    ensures Keys(a + "%26" + b) == {a + "&" + b} && Keys(a + "&" + b) == {a, b}
    ensures KeyText(a + "%26" + b) == KeyText(a + "&" + b) == Some(a + "&" + b)
  {
    EscapedKey(a, "%26", '&', b);
    TwoPieces(a, b);
    TwoKeys(a, b);
    GoodPiecesStay(a + "&" + b);
  }

  lemma TwoPieces(a: string, b: string)
    requires Free([a, b], '&')
    ensures Split(a + "&" + b, '&') == [a, b]
  {
    SplitJoin([a, b], '&');
    assert Join([b], '&') == b && [a, b][1..] == [b];
    assert Join([a, b], '&') == a + "&" + b;
  }

  lemma TwoKeys(a: string, b: string)
    requires GoodPiece(a) && GoodPiece(b) && Split(a + "&" + b, '&') == [a, b]
    ensures Keys(a + "&" + b) == {a, b}
  {
    GoodPieceIsKey(a);
    GoodPieceIsKey(b);
    assert KeyOf([a, b][0]) == Some(a) && KeyOf([a, b][1]) == Some(b);
  }

  /** A key with an escaped equality sign is written raw, and cut there when it is read again. */
  lemma EqualsSignChanges(a: string, b: string)
    requires Plain(a) && Plain(b)
    ensures KeyText(a + "%3D" + b) == Some(a + "=" + b) && !GoodPieces(a + "=" + b)
  {
    EscapedKey(a, "%3D", '=', b);
    var t := a + "=" + b;
    SplitPrefix(t, "", '&');
    assert t + "" == t;
    assert Split(t, '&') == [t] && t[|a|] == '=';
  }

  /** An empty key leaves a question mark behind, and nothing when that is read again. */
  lemma EmptyKeyChanges(v: string)
    requires Plain(v)
    ensures KeyText("=" + v) == Some("") && !GoodPieces("")
  {
    var q := "=" + v;
    assert q == "" + ("=" + v);
    CutAt("", Some(v), '=');
    UnescapeShortens(v, true);
    OnePiece(q, "");
  }
}
