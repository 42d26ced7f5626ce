/**
 Query parameters as url.ParseQuery reads them and Values.Encode writes them.
 */
module Queries {
  import opened Escapes
  import opened Options
  import opened Texts

  /** More parameters than this are not read at all. */
  const MAX_PARAMS := 10000

  datatype Pair = Pair(key: string, value: string)

  /** One piece between ampersands, if it is a parameter at all. */
  function FieldOf(piece: string): Option<Pair> {
    var (key, rest) := Cut(piece, '=');
    var value := if rest.Some? then rest.value else "";
    if piece == "" || ';' in piece || Unescape(key, true).None? || Unescape(value, true).None? then None
    else Some(Pair(Unescape(key, true).value, Unescape(value, true).value))
  }

  function FieldsOf(pieces: seq<string>): seq<Pair> {
    if pieces == [] then []
    else
      var last := FieldOf(pieces[|pieces| - 1]);
      FieldsOf(pieces[..|pieces| - 1]) + if last.Some? then [last.value] else []
  }

  predicate TooMany(rawQuery: string) {
    |Split(rawQuery, '&')| > MAX_PARAMS
  }

  function Fields(rawQuery: string): seq<Pair> {
    if TooMany(rawQuery) then [] else FieldsOf(Split(rawQuery, '&'))
  }

  // ---------- Writing ----------

  function PairText(p: Pair): string {
    Escape(p.key, InQuery) + "=" + Escape(p.value, InQuery)
  }

  function PairTexts(ps: seq<Pair>): seq<string> {
    seq(|ps|, i requires 0 <= i < |ps| => PairText(ps[i]))
  }

  function FieldsText(ps: seq<Pair>): string {
    Join(PairTexts(ps), '&')
  }

  predicate PairBytes(p: Pair) {
    Bytes(p.key) && Bytes(p.value)
  }

  lemma EscapedQueryChars(s: string)
    ensures '=' !in Escape(s, InQuery) && ';' !in Escape(s, InQuery) && '&' !in Escape(s, InQuery)
  {
    EscapeIsEscaped(s, InQuery);
    assert !Escaped('=', InQuery) && !Escaped(';', InQuery) && !Escaped('&', InQuery);
  }

  lemma PairTextHas(p: Pair, c: char)
    ensures c in PairText(p) <==> c in Escape(p.key, InQuery) || c == '=' || c in Escape(p.value, InQuery)
  {
    ConcatHas(Escape(p.key, InQuery) + "=", Escape(p.value, InQuery), c);
    ConcatHas(Escape(p.key, InQuery), "=", c);
  }

  /** A pair is read again from its text. */
  lemma PairReads(p: Pair)
    requires PairBytes(p)
    ensures FieldOf(PairText(p)) == Some(p) && '&' !in PairText(p)
  {
    hide Escape;
    var key, value := Escape(p.key, InQuery), Escape(p.value, InQuery);
    EscapedQueryChars(p.key);
    EscapedQueryChars(p.value);
    PairTextHas(p, ';');
    PairTextHas(p, '&');
    EscapeRoundTrip(p.key, InQuery);
    EscapeRoundTrip(p.value, InQuery);
    CutAt(key, Some(value), '=');
    assert PairText(p) == key + (['='] + value);
  }

  lemma {:induction false} FieldsOfTexts(ps: seq<Pair>)
    requires forall p :: p in ps ==> PairBytes(p)
    ensures FieldsOf(PairTexts(ps)) == ps
  {
    hide PairText, FieldOf, Escape;
    if ps != [] {
      var before := ps[..|ps| - 1];
      FieldsOfTexts(before);
      assert PairTexts(ps)[..|ps| - 1] == PairTexts(before);
      PairReads(ps[|ps| - 1]);
    }
  }

  /** Fields written out are read again, as long as there are not too many. */
  lemma FieldsRead(ps: seq<Pair>)
    requires ps != [] && |ps| <= MAX_PARAMS && forall p :: p in ps ==> PairBytes(p)
    ensures Fields(FieldsText(ps)) == ps
  {
    forall i | 0 <= i < |ps| ensures '&' !in PairTexts(ps)[i] {
      assert ps[i] in ps;
      PairReads(ps[i]);
    }
    SplitJoin(PairTexts(ps), '&');
    FieldsOfTexts(ps);
  }

  lemma {:induction false} FieldsFit(pieces: seq<string>)
    ensures |FieldsOf(pieces)| <= |pieces|
  {
    if pieces != [] { FieldsFit(pieces[..|pieces| - 1]); }
  }

  lemma FieldsWithin(rawQuery: string)
    ensures |Fields(rawQuery)| <= MAX_PARAMS
  {
    FieldsFit(Split(rawQuery, '&'));
  }

  // ---------- Bytes ----------

  lemma {:induction false} SplitBytes(s: string, sep: char)
    requires Bytes(s)
    ensures forall i :: 0 <= i < |Split(s, sep)| ==> Bytes(Split(s, sep)[i])
  {
    if s != "" { SplitBytes(s[1..], sep); }
  }

  lemma FieldBytes(piece: string)
    requires Bytes(piece) && FieldOf(piece).Some?
    ensures PairBytes(FieldOf(piece).value)
  {
    var (key, rest) := Cut(piece, '=');
    var value := if rest.Some? then rest.value else "";
    CutSplits(piece, '=');
    assert Bytes(key) && Bytes(value) by {
      assert forall i :: 0 <= i < |key| ==> key[i] == piece[i];
      assert rest.Some? ==> forall i :: 0 <= i < |value| ==> value[i] == piece[|key| + 1 + i];
    }
    UnescapeBytes(key, true);
    UnescapeBytes(value, true);
  }

  lemma {:induction false} FieldsOfBytes(pieces: seq<string>)
    requires forall i :: 0 <= i < |pieces| ==> Bytes(pieces[i])
    ensures forall p :: p in FieldsOf(pieces) ==> PairBytes(p)
  {
    if pieces != [] {
      FieldsOfBytes(pieces[..|pieces| - 1]);
      if FieldOf(pieces[|pieces| - 1]).Some? { FieldBytes(pieces[|pieces| - 1]); }
    }
  }

  lemma FieldsBytes(rawQuery: string)
    requires Bytes(rawQuery)
    ensures forall p :: p in Fields(rawQuery) ==> PairBytes(p)
  {
    SplitBytes(rawQuery, '&');
    FieldsOfBytes(Split(rawQuery, '&'));
  }

  // ---------- The characters of a written query ----------

  lemma PairTextVisible(p: Pair)
    ensures forall c :: c in PairText(p) ==> Visible(c) && c != '#'
  {
    EscapeIsEscaped(p.key, InQuery);
    EscapeIsEscaped(p.value, InQuery);
    forall c | c in PairText(p) ensures Visible(c) && c != '#' {
      PairTextHas(p, c);
      if c != '=' { EscapedIsVisible(c, InQuery); }
    }
  }

  lemma {:induction false} JoinVisible(parts: seq<string>, sep: char)
    requires Visible(sep) && sep != '#'
    requires forall i :: 0 <= i < |parts| ==> forall c :: c in parts[i] ==> Visible(c) && c != '#'
    ensures forall c :: c in Join(parts, sep) ==> Visible(c) && c != '#'
  {
    if |parts| > 1 { JoinVisible(parts[1..], sep); }
  }

  lemma FieldsTextVisible(ps: seq<Pair>)
    ensures forall c :: c in FieldsText(ps) ==> Visible(c) && c != '#'
    ensures ps != [] ==> FieldsText(ps) != ""
  {
    forall i | 0 <= i < |ps| ensures forall c :: c in PairTexts(ps)[i] ==> Visible(c) && c != '#' {
      PairTextVisible(ps[i]);
    }
    JoinVisible(PairTexts(ps), '&');
    if ps != [] { assert '=' in PairText(ps[0]) && PairTexts(ps)[0] == PairText(ps[0]); }
  }
}
