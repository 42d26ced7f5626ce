/**
 URLs whose fingerprints move or collide, because they are written unescaped.
 */
module FingerprintCases {
  import opened Escapes
  import opened Fingerprints
  import opened FingerprintTexts
  import opened Options
  import opened Queries
  import opened QueryKeys
  import opened Texts
  import opened Urls

  /** A text on the host h. */
  function AtH(path: string, q: Option<string>, fragment: Option<string>): string {
    "http://h" + path + QueryText(q) + FragmentText(fragment)
  }

  predicate Written(path: string, q: Option<string>) {
    && path != "" && path[0] == '/' && '?' !in path && '#' !in path && (q.Some? ==> '#' !in q.value)
    && !HasControl(path) && (q.Some? ==> !HasControl(q.value))
  }

  lemma SchemeAndHost(lib: Lib, scheme: string, h: string)
    requires scheme == "http" && h == "h"
    ensures ValidScheme(scheme) && ToLower(scheme) == scheme && ParseAuthority(lib, h) == Some((NoUser, h))
    ensures !HasControl(scheme + ":" + "//" + h) && '/' !in h && '?' !in h && '#' !in h
  {
    hide ToLower, ParseAuthority, ParseHost, Cut;
    LowerIsItself(scheme);
    CutNothing(h, ':');
    assert PlainHost(h) by { assert h[0] == 'h' && HostChar(h[0]); }
    PlainHostStays(lib, h);
    NoUserParsed(lib, h);
  }

  lemma NoControl(a: string, b: string)
    ensures HasControl(a + b) <==> HasControl(a) || HasControl(b)
  {
    var s := a + b;
    if i :| 0 <= i < |a| && (a[i] < ' ' || a[i] == '\U{007F}') { assert s[i] == a[i]; }
    if i :| 0 <= i < |b| && (b[i] < ' ' || b[i] == '\U{007F}') { assert s[|a| + i] == b[i]; }
    if i :| 0 <= i < |s| && (s[i] < ' ' || s[i] == '\U{007F}') {
      assert if i < |a| then s[i] == a[i] else s[i] == b[i - |a|];
    }
  }

  /** The parts of a text on h. */
  lemma ParseWritten(lib: Lib, scheme: string, h: string, path: string, q: Option<string>, fragment: Option<string>)
    requires scheme == "http" && h == "h" && Written(path, q) && Unescape(path, false).Some?
    ensures Parse(lib, AtH(path, q, fragment))
            == if fragment.Some? && Unescape(fragment.value, false).None? then None
               else Some(Url(scheme, Authority(NoUser, h, path), q))
    ensures AtH(path, q, fragment) == SchemeText(scheme) + ("//" + h + path) + QueryText(q) + FragmentText(fragment)
  {
    hide ToLower, ParseAuthority, Unescape, HasControl, ValidScheme, ParseHier, ParseBody, Parse;
    var hier := "//" + h + path;
    var body := SchemeText(scheme) + hier + QueryText(q);
    SchemeAndHost(lib, scheme, h);
    Lacks(scheme, h, path, q);
    TextApart(lib, body, fragment);
    BodyApart(lib, scheme, hier, q);
    HierApart(lib, h, path);
    AtHParts(scheme, h, path, QueryText(q), FragmentText(fragment));
  }

  lemma AtHParts(scheme: string, h: string, path: string, query: string, fragment: string)
    requires scheme == "http" && h == "h"
    ensures "http://h" + path + query + fragment == scheme + ":" + ("//" + h + path) + query + fragment
    ensures SchemeText(scheme) == scheme + ":"
  {
    assert "http://h" == scheme + ":" + "//" + h;
  }

  lemma Lacks(scheme: string, h: string, path: string, q: Option<string>)
    requires scheme == "http" && h == "h" && Written(path, q)
    ensures var body := SchemeText(scheme) + ("//" + h + path) + QueryText(q);
            '#' !in body && '?' !in "//" + h + path && !HasControl(body)
  {
    hide HasControl;
    var body := SchemeText(scheme) + ("//" + h + path) + QueryText(q);
    assert body == (scheme + ":" + "//" + h) + (path + QueryText(q));
    PlainFront(scheme + ":" + "//" + h);
    NoControl(scheme + ":" + "//" + h, path + QueryText(q));
    NoControl(path, QueryText(q));
    if q.Some? {
      NoControl("?", q.value);
      PlainFront("?");
    } else {
      PlainFront("");
    }
  }

  lemma PlainFront(s: string)
    requires forall i :: 0 <= i < |s| ==> Visible(s[i])
    ensures !HasControl(s)
  {
  }

  /** The fingerprint of a text on h is one as well. */
  lemma FingerprintAtH(lib: Lib, path: string, x: string, q: Option<string>, fragment: Option<string>)
    requires Written(path, q) && Unescape(path, false) == Some(x)
    requires fragment.Some? ==> Unescape(fragment.value, false).Some?
    ensures FingerprintOf(lib, AtH(path, q, fragment))
            == AtH(FingerprintPath(x), KeyText(if q.Some? then q.value else ""), None)
  {
    hide FingerprintPath, KeyText, Unescape, Written, Parse;
    ParseWritten(lib, "http", "h", path, q, fragment);
    FrontAtH(Url("http", Authority(NoUser, "h", path), q));
    EmptyTail("http://h" + FingerprintPath(x), QueryText(KeyText(if q.Some? then q.value else "")));
    Regroup("http://h", FingerprintPath(x), QueryText(KeyText(if q.Some? then q.value else "")));
  }

  lemma EmptyTail(a: string, b: string)
    ensures a + b + "" == a + b
  {
  }

  lemma FrontAtH(u: Url)
    requires u.scheme == "http" && u.hier.Authority? && u.hier.host == "h"
    ensures Front(u) == "http://h"
  {
  }

  // ---------- Paths ----------

  /** A path of one segment that no pattern matches stays. */
  lemma OneSegment(path: string, segment: string)
    requires path == "/" + segment && segment != "" && '/' !in segment && Placeholder(segment) == None
    ensures FingerprintPath(path) == path
  {
    assert segment[0] in segment && segment[|segment| - 1] in segment;
    TrimAround(segment, false);
    SplitAlone(segment);
    SegmentStays(segment);
    ShapeOfOne(path, Trim(path, '/'));
  }

  lemma SegmentStays(segment: string)
    requires Placeholder(segment) == None
    ensures NormalizeAll([segment]) == [segment] && Printed(Segments([segment], false)) == "/" + segment
  {
  }

  lemma ShapeOfOne(path: string, trimmed: string)
    requires trimmed == Trim(path, '/') && trimmed != "" && !EndsWith(path, '/')
    requires Split(trimmed, '/') == [trimmed] && NormalizeAll([trimmed]) == [trimmed]
    ensures FingerprintPath(path) == Printed(Segments([trimmed], false))
  {
  }

  lemma SplitAlone(s: string)
    requires '/' !in s
    ensures Split(s, '/') == [s]
  {
    SplitPrefix(s, "", '/');
    assert s + "" == s;
  }

  /** A short segment that begins with the letter a is no number and no hash. */
  lemma ShortStays(path: string, segment: string)
    requires path == "/" + segment && segment != "" && segment[0] == 'a' && |segment| < 8 && '/' !in segment
    ensures FingerprintPath(path) == path
  {
    assert !Digits(segment) by { assert !IsDigit(segment[0]); }
    OneSegment(path, segment);
  }

  lemma UnescapeEnd(a: string, escape: string, c: char, b: string)
    requires '%' !in a && '%' !in b && |escape| == 3 && StartsWithEscape(escape) && EscapedChar(escape) == c
    ensures Unescape(a + escape + b, false) == Some(a + [c] + b)
  {
    hide Unescape;
    UnescapeShortens(b, false);
    EscapeInPath(escape, c, b);
    var rest := escape + b;
    UnescapeBehind(a, rest, [c] + b);
    assert a + rest == a + escape + b && a + ([c] + b) == a + [c] + b;
  }

  lemma KnownEscape(e: string, c: char)
    requires || (e == "%25" && c == '%') || (e == "%23" && c == '#')
             || (e == "%3F" && c == '?') || (e == "%01" && c == '\U{0001}')
    ensures StartsWithEscape(e) && EscapedChar(e) == c && |e| == 3
  {
    assert e[0] == '%' && HexValue(e[1]) <= 3;
  }

  lemma EscapeInPath(escape: string, c: char, b: string)
    requires |escape| == 3 && StartsWithEscape(escape) && EscapedChar(escape) == c
    requires Unescape(b, false) == Some(b)
    ensures Unescape(escape + b, false) == Some([c] + b)
  {
    var rest := escape + b;
    assert rest[3..] == b && forall k :: 0 <= k < 3 ==> rest[k] == escape[k];
  }

  lemma {:induction false} UnescapeBehind(a: string, b: string, x: string)
    requires '%' !in a && Unescape(b, false) == Some(x)
    ensures Unescape(a + b, false) == Some(a + x)
  {
    if a == "" {
      assert a + b == b && a + x == x;
    } else {
      assert (a + b)[1..] == a[1..] + b;
      UnescapeBehind(a[1..], b, x);
      assert [a[0]] + (a[1..] + x) == a + x;
    }
  }

  lemma OneGoodPiece(key: string)
    requires '&' !in key && GoodPiece(key)
    ensures GoodPieces(key)
  {
    SplitPrefix(key, "", '&');
    assert key + "" == key;
  }

  lemma AtHDiffers(path: string, q: Option<string>, r: Option<string>)
    requires AtH(path, q, None) == AtH(path, r, None)
    ensures q == r
  {
    var front := "http://h" + path;
    assert front + QueryText(q) + "" == front + QueryText(q) && front + QueryText(r) + "" == front + QueryText(r);
    assert (front + QueryText(q))[|front|..] == QueryText(q) && (front + QueryText(r))[|front|..] == QueryText(r);
    assert q.Some? ==> QueryText(q)[1..] == q.value;
    assert r.Some? ==> QueryText(r)[1..] == r.value;
  }

  /** A path that unescaping and fingerprinting leave alone. */
  predicate Steady(path: string) {
    '%' !in path && FingerprintPath(path) == path
  }

  // ---------- Collisions ----------

  /** http://h/a%3Fb and http://h/a?b share a fingerprint, though neither shape nor keys are the same. */
  lemma QuestionMarkCollides(lib: Lib, path: string, x: string, plain: string, q: string)
    requires path == "/a%3Fb" && x == "/a?b" && plain == "/a" && q == "b"
    ensures FingerprintOf(lib, AtH(path, None, None)) == FingerprintOf(lib, AtH(plain, Some(q), None))
    ensures Unescape(path, false) == Some(x) && Unescape(plain, false) == Some(plain)
    ensures ShapeOf(x) != ShapeOf(plain) && KeyText("") != KeyText(q)
  {
    hide Unescape, FingerprintPath, KeyText, ShapeOf, FingerprintOf;
    var front, escape := path[..2], path[2..5];
    assert path == front + escape + "b" && x == front + ['?'] + "b";
    KnownEscape(escape, '?');
    UnescapeEnd(front, escape, '?', "b");
    UnescapeShortens(plain, false);
    ShortStays(x, x[1..]);
    ShortStays(plain, plain[1..]);
    FingerprintAtH(lib, path, x, None, None);
    FingerprintAtH(lib, plain, plain, Some(q), None);
    OneGoodPiece(q);
    KeyTextStays(q);
    NormalQuery(None);
    PathsCollide(x, plain);
    assert "http://h" + x + "" + "" == "http://h" + plain + ("?" + q) + "";
  }

  // ---------- Second fingerprints ----------

  /** A key text that is not its own moves. */
  lemma KeyMoves(lib: Lib, path: string, q: string, key: string)
    requires Steady(path) && Written(path, Some(q)) && Written(path, Some(key))
    requires KeyText(q) == Some(key) && !GoodPieces(key)
    ensures FingerprintOf(lib, AtH(path, Some(q), None)) == AtH(path, Some(key), None)
    ensures FingerprintOf(lib, AtH(path, Some(key), None)) != AtH(path, Some(key), None)
  {
    hide Unescape, FingerprintPath, KeyText, FingerprintOf, GoodPieces, AtH, Written;
    UnescapeShortens(path, false);
    FingerprintAtH(lib, path, path, Some(q), None);
    FingerprintAtH(lib, path, path, Some(key), None);
    KeyTextStays(key);
    if KeyText(key) != Some(key) && AtH(path, KeyText(key), None) == AtH(path, Some(key), None) {
      AtHDiffers(path, KeyText(key), Some(key));
    }
  }

  /** http://h/a?=1 gives http://h/a? and then another text. */
  lemma EmptyKeyMoves(lib: Lib, path: string, v: string)
    requires path == "/a" && v == "1"
    ensures FingerprintOf(lib, AtH(path, Some("=" + v), None)) == AtH(path, Some(""), None)
    ensures FingerprintOf(lib, AtH(path, Some(""), None)) != AtH(path, Some(""), None)
  {
    hide KeyText, FingerprintPath, FingerprintOf, AtH, GoodPieces;
    ShortStays(path, path[1..]);
    EmptyKeyChanges(v);
    KeyMoves(lib, path, "=" + v, "");
  }

  /** http://h/a?x%3Dy, whose key is x=y, gives http://h/a?x=y and then another text. */
  lemma EqualsSignMoves(lib: Lib, path: string, a: string, b: string)
    requires path == "/a" && a == "x" && b == "y"
    ensures FingerprintOf(lib, AtH(path, Some(a + "%3D" + b), None)) == AtH(path, Some(a + "=" + b), None)
    ensures FingerprintOf(lib, AtH(path, Some(a + "=" + b), None)) != AtH(path, Some(a + "=" + b), None)
  {
    hide KeyText, FingerprintPath, FingerprintOf, AtH, GoodPieces;
    ShortStays(path, path[1..]);
    EqualsSignChanges(a, b);
    KeyMoves(lib, path, a + "%3D" + b, a + "=" + b);
  }

  /** http://h/a%2525 gives http://h/a%25 and then http://h/a%. */
  lemma PercentMoves(lib: Lib, path: string, x: string, y: string)
    requires path == "/a%2525" && x == "/a%25" && y == "/a%"
    ensures FingerprintOf(lib, AtH(path, None, None)) == AtH(x, None, None)
    ensures FingerprintOf(lib, AtH(x, None, None)) == AtH(y, None, None) != AtH(x, None, None)
  {
    hide Unescape, FingerprintPath, KeyText, FingerprintOf, AtH;
    assert path == path[..2] + path[2..5] + "25" && x == path[..2] + ['%'] + "25";
    KnownEscape(path[2..5], '%');
    KnownEscape(x[2..5], '%');
    UnescapeEnd(path[..2], path[2..5], '%', "25");
    assert x == x[..2] + x[2..5] + "" && y == x[..2] + ['%'] + "";
    UnescapeEnd(x[..2], x[2..5], '%', "");
    ShortStays(x, x[1..]);
    ShortStays(y, y[1..]);
    NormalQuery(None);
    FingerprintAtH(lib, path, x, None, None);
    FingerprintAtH(lib, x, y, None, None);
    LengthAtH(x);
    LengthAtH(y);
  }

  lemma LengthAtH(path: string)
    ensures |AtH(path, None, None)| == 8 + |path|
  {
  }

  /** http://h/a%23b gives http://h/a#b and then http://h/a. */
  lemma NumberSignMoves(lib: Lib, path: string, x: string, y: string)
    requires path == "/a%23b" && x == "/a#b" && y == "/a"
    ensures FingerprintOf(lib, AtH(path, None, None)) == AtH(x, None, None)
    ensures FingerprintOf(lib, AtH(x, None, None)) == AtH(y, None, None) != AtH(x, None, None)
  {
    hide Unescape, FingerprintPath, KeyText, FingerprintOf, AtH;
    assert path == path[..2] + path[2..5] + "b" && x == path[..2] + ['#'] + "b";
    KnownEscape(path[2..5], '#');
    UnescapeEnd(path[..2], path[2..5], '#', "b");
    UnescapeShortens(y, false);
    UnescapeShortens("b", false);
    ShortStays(x, x[1..]);
    ShortStays(y, y[1..]);
    NormalQuery(None);
    FingerprintAtH(lib, path, x, None, None);
    FingerprintAtH(lib, y, y, None, Some("b"));
    FragmentInPath(x, y, "b");
    LengthAtH(x);
    LengthAtH(y);
  }

  lemma FragmentInPath(x: string, y: string, fragment: string)
    requires x == y + "#" + fragment
    ensures AtH(x, None, None) == AtH(y, None, Some(fragment))
  {
  }

  /** A key with a number sign becomes a fragment. */
  lemma KeyWithFragment(path: string, a: string, fragment: string)
    ensures AtH(path, Some(a + "#" + fragment), None) == AtH(path, Some(a), Some(fragment))
  {
  }

  lemma TwoEscapes(a: string, e: string, f: string)
    requires Plain(a) && |e| == 3 && StartsWithEscape(e) && |f| == 3 && StartsWithEscape(f)
    ensures Unescape(a + e + f, true) == Some(a + [EscapedChar(e)] + [EscapedChar(f)])
  {
    NothingToUnescape();
    assert f[3..] == "" && Unescape(f[3..], true) == Some("");
    assert [EscapedChar(f)] + "" == [EscapedChar(f)] && Unescape(f, true) == Some([EscapedChar(f)]);
    var rest := e + f;
    assert rest[3..] == f && forall k :: 0 <= k < 3 ==> rest[k] == e[k];
    assert StartsWithEscape(rest) && EscapedChar(rest) == EscapedChar(e);
    assert Unescape(rest, true) == Some([EscapedChar(e)] + [EscapedChar(f)]);
    UnescapeAfter(a, rest);
    assert a + rest == a + e + f;
    assert a + ([EscapedChar(e)] + [EscapedChar(f)]) == a + [EscapedChar(e)] + [EscapedChar(f)];
  }

  lemma TwoEscapesKey(a: string, e: string, f: string)
    requires Plain(a) && a != "" && |e| == 3 && StartsWithEscape(e) && |f| == 3 && StartsWithEscape(f)
    requires Plain(e[1..]) && Plain(f[1..])
    ensures KeyText(a + e + f) == Some(a + [EscapedChar(e)] + [EscapedChar(f)])
  {
    hide Unescape;
    var q := a + e + f;
    TwoEscapes(a, e, f);
    NothingToUnescape();
    assert forall c :: c in q ==> c in a || c == '%' || c in e[1..] || c in f[1..];
    CutNothing(q, '=');
    OnePiece(q, a + [EscapedChar(e)] + [EscapedChar(f)]);
  }

  lemma NothingToUnescape()
    ensures Unescape("", true) == Some("")
  {
  }

  /** http://h/a?x%23%25 gives http://h/a?x#%, which does not parse and stays. */
  lemma BadFragmentStays(lib: Lib, path: string, a: string, q: string)
    requires path == "/a" && a == "x" && q == a + "%23" + "%25"
    ensures FingerprintOf(lib, AtH(path, Some(q), None)) == AtH(path, Some(a + "#" + "%"), None)
    ensures FingerprintOf(lib, AtH(path, Some(a + "#" + "%"), None)) == AtH(path, Some(a + "#" + "%"), None)
  {
    hide KeyText, FingerprintPath, Parse, AtH, Unescape;
    ShortStays(path, path[1..]);
    UnescapeShortens(path, false);
    KnownEscape("%23", '#');
    KnownEscape("%25", '%');
    TwoEscapesKey(a, "%23", "%25");
    FingerprintAtH(lib, path, path, Some(q), None);
    ParseWritten(lib, "http", "h", path, Some(a), Some("%"));
    PercentAlone();
    KeyWithFragment(path, a, "%");
  }

  lemma PercentAlone()
    ensures Unescape("%", false) == None
  {
  }

  /** http://h/a?x%23%01 gives a text with a control character behind #, and then http://h/a?x. */
  lemma ControlFragmentMoves(lib: Lib, path: string, a: string, q: string, c: string)
    requires path == "/a" && a == "x" && q == a + "%23" + "%01" && c == ['\U{0001}']
    ensures FingerprintOf(lib, AtH(path, Some(q), None)) == AtH(path, Some(a + "#" + c), None)
    ensures FingerprintOf(lib, AtH(path, Some(a + "#" + c), None)) == AtH(path, Some(a), None)
  {
    hide KeyText, FingerprintPath, Parse, AtH, Unescape;
    ShortStays(path, path[1..]);
    UnescapeShortens(path, false);
    UnescapeShortens(c, false);
    KnownEscape("%23", '#');
    KnownEscape("%01", '\U{0001}');
    TwoEscapesKey(a, "%23", "%01");
    FingerprintAtH(lib, path, path, Some(q), None);
    OneGoodPiece(a);
    KeyTextStays(a);
    FingerprintAtH(lib, path, path, Some(a), Some(c));
    KeyWithFragment(path, a, c);
  }

  // ---------- Hosts ----------

  /** A text with an escape in its authority is not its own fingerprint. */
  lemma EscapedHostMoves(lib: Lib, text: string)
    requires Valid(lib) && Parse(lib, text).Some? && SplitScheme(Cut(text, '#').0).Some?
    requires var (scheme, rest) := SplitScheme(Cut(text, '#').0).value;
             scheme != "" && "//" <= Cut(rest, '?').0 && '%' in Cut(Cut(rest, '?').0[2..], '/').0
    ensures FingerprintOf(lib, text) != text
  {
    hide Parse, FingerprintOf, SplitScheme, Cut;
    FixedTexts(lib, text);
    if Normal(text) { CutNothing(text, '#'); }
  }

  predicate SomeHost(scheme: string, h: string, x: string, path: string) {
    && scheme == "http" && h == "%E4%B8%96" && path == "/a"
    && |x| == 3 && x[0] as int == 0xE4 && x[1] as int == 0xB8 && x[2] as int == 0x96
  }

  lemma SomeHostReads(lib: Lib, h: string, x: string)
    requires h == "%E4%B8%96" && |x| == 3 && x[0] as int == 0xE4 && x[1] as int == 0xB8 && x[2] as int == 0x96
    ensures ParseHost(lib, h) == Some(x) && '@' !in h
  {
    hide UnescapeHost, Cut, HexValue;
    HighBytes();
    HostStep("%96", "", "");
    assert "%96" + "" == "%96" && [EscapedChar("%96")] + "" == [x[2]];
    HostStep("%B8", "%96", [x[2]]);
    HostStep("%E4", "%B8" + "%96", [x[1]] + [x[2]]);
    assert h == "%E4" + ("%B8" + "%96") && x == [x[0]] + ([x[1]] + [x[2]]);
    CutNothing(h, ':');
    assert '[' !in h;
  }

  lemma HighBytes()
    ensures UnescapeHost("") == Some("")
    ensures StartsWithEscape("%E4") && EscapedChar("%E4") as int == 0xE4
    ensures StartsWithEscape("%B8") && EscapedChar("%B8") as int == 0xB8
    ensures StartsWithEscape("%96") && EscapedChar("%96") as int == 0x96
  {
  }

  lemma HostStep(e: string, rest: string, x: string)
    requires |e| == 3 && StartsWithEscape(e) && EscapedChar(e) as int >= 128 && UnescapeHost(rest) == Some(x)
    ensures UnescapeHost(e + rest) == Some([EscapedChar(e)] + x)
  {
    var s := e + rest;
    assert s[3..] == rest && forall k :: 0 <= k < 3 ==> s[k] == e[k];
  }

  /** http://%E4%B8%96/a, a normal form that CanonicalizeURL gives, has the unescaped host in its fingerprint. */
  lemma SomeHostMoves(lib: Lib, scheme: string, h: string, x: string, path: string)
    requires SomeHost(scheme, h, x, path)
    ensures FingerprintOf(lib, SchemeText(scheme) + ("//" + h + path)) == scheme + "://" + x + path
    ensures scheme + "://" + x + path != SchemeText(scheme) + ("//" + h + path)
  {
    hide Parse, FingerprintPath, KeyText, Unescape, Fingerprint;
    SomeHostParses(lib, scheme, h, x, path);
    ShortStays(path, path[1..]);
    NormalQuery(None);
    SomeHostFingerprint(Url(scheme, Authority(NoUser, x, path), None), path);
  }

  lemma SomeHostParses(lib: Lib, scheme: string, h: string, x: string, path: string)
    requires SomeHost(scheme, h, x, path)
    ensures Parse(lib, SchemeText(scheme) + ("//" + h + path)) == Some(Url(scheme, Authority(NoUser, x, path), None))
    ensures Unescape(path, false) == Some(path)
  {
    hide ParseHost, ParseHier, ParseBody, ParseAuthority, Unescape, Cut, ToLower;
    var hier := "//" + h + path;
    var body := SchemeText(scheme) + hier;
    assert body + QueryText(None) == body && body + FragmentText(None) == body;
    SomeHostReads(lib, h, x);
    NoUserParsed(lib, h);
    LowerIsItself(scheme);
    TextApart(lib, body, None);
    BodyApart(lib, scheme, hier, None);
    HierApart(lib, h, path);
    UnescapeShortens(path, false);
  }

  lemma SomeHostFingerprint(u: Url, path: string)
    requires u.scheme != "" && u.hier.Authority? && u.hier.path == path && u.query.None?
    requires Unescape(path, false) == Some(path) && FingerprintPath(path) == path && KeyText("") == None
    ensures Fingerprint(u) == u.scheme + "://" + u.hier.host + path
  {
    hide FingerprintPath, KeyText;
    assert Tail(u) == path + "" == path;
  }
}
