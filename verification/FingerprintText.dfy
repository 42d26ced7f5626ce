/**
 Structural fingerprints of whole URLs: the text is taken apart, its path and its query keys are
 normalized, and the parts are written again, unescaped and without the user.
 */
module FingerprintTexts {
  import opened Escapes
  import opened Fingerprints
  import opened Options
  import opened Queries
  import opened QueryKeys
  import opened Texts
  import opened Urls

  // ---------- The fingerprint ----------

  function Front(u: Url): string {
    (if u.scheme == "" then "" else u.scheme + "://") + HostOf(u)
  }

  /** What a fingerprint keeps of path and query. */
  ghost function Tail(u: Url): string {
    FingerprintPath(PathOf(u)) + QueryText(KeyText(RawQuery(u)))
  }

  ghost function Fingerprint(u: Url): string {
    Front(u) + Tail(u)
  }

  /** The fingerprint of a text: a text that does not parse is its own. */
  ghost function FingerprintOf(lib: Lib, text: string): string {
    var u := Parse(lib, text);
    if u.None? then text else Fingerprint(u.value)
  }

  lemma FingerprintFront(x: string)
    ensures FingerprintPath(x) == "" <==> x == ""
    ensures var f := FingerprintPath(x); x != "" ==> f[0] == '/' && (|f| > 1 ==> f[1] != '/')
  {
    hide Join, NormalizeAll, Split, Trim, TrimRight;
    ShapeIsGood(x);
    if ShapeOf(x).Segments? { JoinFront(ShapeOf(x).classes); }
  }

  lemma JoinFront(classes: seq<string>)
    requires classes != [] && classes[0] != "" && Free(classes, '/')
    ensures Join(classes, '/') != "" && Join(classes, '/')[0] != '/'
  {
    assert Join(classes, '/')[..|classes[0]|] == classes[0];
    assert classes[0][0] in classes[0];
  }

  /** A tail begins with a single slash, or with a question mark, or is empty. */
  lemma TailFront(u: Url)
    ensures Tail(u) != "" ==> Tail(u)[0] == '/' || Tail(u)[0] == '?'
    ensures |Tail(u)| > 1 && Tail(u)[0] == '/' ==> Tail(u)[1] != '/'
  {
    hide FingerprintPath, KeyText, PathOf;
    FingerprintFront(PathOf(u));
  }

  // ---------- Texts that are their own fingerprints ----------

  predicate NormalPath(p: string) {
    '%' !in p && FingerprintPath(p) == p
  }

  predicate Breaks(c: char) {
    c == '/' || c == '?' || c == '#'
  }

  /**
   No fragment, a lower-case scheme or none, neither user nor escapes in the authority, a path in normal
   form without escapes, and good pieces in the query.
   */
  ghost predicate Normal(text: string) {
    && '#' !in text && SplitScheme(text).Some?
    && var (scheme, rest) := SplitScheme(text).value;
       NormalParts(scheme, Cut(rest, '?').0, Cut(rest, '?').1)
  }

  ghost predicate NormalParts(scheme: string, h: string, q: Option<string>) {
    && (q.Some? ==> GoodPieces(q.value))
    && if scheme == "" then NormalPath(h)
       else
         && ToLower(scheme) == scheme && "//" <= h
         && var (a, path) := Cut(h[2..], '/');
            '@' !in a && '%' !in a && NormalPath(RootedPath(path))
  }

  lemma NormalQuery(q: Option<string>)
    requires q.Some? ==> GoodPieces(q.value)
    ensures KeyText(if q.Some? then q.value else "") == q
  {
    if q.Some? {
      KeyTextStays(q.value);
    } else {
      assert Split("", '&') == [""] && KeyOf("") == None;
    }
  }

  /** What a text that parses is written of, and when it is in normal form. */
  lemma NormalIs(lib: Lib, text: string)
    returns (scheme: string, h: string, q: Option<string>, fragment: Option<string>)
    requires Parse(lib, text).Some?
    ensures scheme == "" || ValidScheme(scheme)
    ensures text == SchemeText(scheme) + h + QueryText(q) + FragmentText(fragment)
    ensures '#' !in h && '?' !in h && (q.Some? ==> '#' !in q.value)
    ensures Parse(lib, text) == WithHier(ToLower(scheme), ParseHier(lib, scheme != "", h), q)
    ensures Normal(text) <==> fragment.None? && NormalParts(scheme, h, q)
  {
    hide NormalParts, ParseHier, HasControl, ToLower, Cut, ValidScheme, SplitScheme;
    scheme, h, q, fragment := PartsOf(lib, text);
    var body := SchemeText(scheme) + h + QueryText(q);
    ConcatHas(SchemeText(scheme) + h, QueryText(q), '#');
    ConcatHas(SchemeText(scheme), h, '#');
    if q.Some? { ConcatHas("?", q.value, '#'); }
    QueryApart(h, q);
    ConcatHas(body, FragmentText(fragment), '#');
    if fragment.None? { assert text == body; }
  }

  lemma NormalRelative(lib: Lib, h: string)
    requires NormalPath(h) && ParseHier(lib, false, h).Some?
    ensures ParseHier(lib, false, h) == Some(PathOnly(h)) && Unescape(h, false) == Some(h)
  {
    hide FingerprintPath, ParseAuthority, Cut;
    FingerprintFront(h);
    UnescapeShortens(h, false);
  }

  lemma NormalAbsolute(lib: Lib, h: string)
    requires Valid(lib) && ParseHier(lib, true, h).Some? && "//" <= h
    requires var (a, path) := Cut(h[2..], '/');
             '@' !in a && '%' !in a && NormalPath(RootedPath(path))
    ensures var u := ParseHier(lib, true, h).value;
            && u.Authority? && h == "//" + u.host + u.path
            && Unescape(u.path, false) == Some(u.path) && NormalPath(u.path)
  {
    hide FingerprintPath, ParseAuthority, ParseHost, ParseHier, Cut;
    var a, path := AuthorityParts(lib, h);
    NoUserParsed(lib, a);
    HostShortens(lib, a);
    UnescapeShortens(path, false);
  }

  lemma PlainlyWritten(scheme: string, host: string, path: string, query: string)
    ensures scheme + "://" + host + (path + query) == scheme + ":" + ("//" + host + path) + query
  {
  }

  lemma NormalPartsStay(lib: Lib, text: string, scheme: string, h: string, q: Option<string>, u: Url)
    requires Valid(lib) && NormalParts(scheme, h, q)
    requires text == SchemeText(scheme) + h + QueryText(q)
    requires ParseHier(lib, scheme != "", h) == Some(u.hier) && u.scheme == ToLower(scheme) && u.query == q
    ensures Fingerprint(u) == text
  {
    hide FingerprintPath, KeyText, GoodPieces, Cut, ParseHier, ToLower;
    NormalQuery(q);
    if scheme == "" {
      NormalRelative(lib, h);
      NothingInFront(h, QueryText(q));
      NothingInFront("", h + QueryText(q));
    } else {
      NormalAbsolute(lib, h);
      PlainlyWritten(scheme, u.hier.host, u.hier.path, QueryText(q));
    }
  }

  lemma NormalStays(lib: Lib, text: string)
    requires Valid(lib) && Parse(lib, text).Some? && Normal(text)
    ensures FingerprintOf(lib, text) == text
  {
    hide ParseHier, Normal, ValidScheme, Parse, NormalParts, Fingerprint, ToLower, QueryText;
    var scheme, h, q, fragment := NormalIs(lib, text);
    assert text == SchemeText(scheme) + h + QueryText(q) + "";
    NormalPartsStay(lib, text, scheme, h, q, Parse(lib, text).value);
  }

  /** Two ways to read one text overlap. */
  lemma Overlap(a: string, x: string, b: string, y: string)
    requires a + x == b + y
    ensures |a| <= |b| ==> a <= b
    ensures |b| < |a| ==> y != "" && a[|b|] == y[0]
    ensures |a| == |b| ==> x == y
  {
    var whole := a + x;
    assert |a| <= |b| ==> whole[..|b|][..|a|] == a;
    if |b| < |a| { assert whole[|b|] == a[|b|] && whole[|b|] == y[0]; }
    assert whole[|a|..] == x && whole[|b|..] == y;
  }

  /** What follows the path, the query or the fragment, cannot make up for a path that is cut short. */
  lemma PathIsPrefix(p: string, f: string, tail: string, query: Option<string>)
    requires p + tail == f + QueryText(query)
    ensures '?' !in p ==> p <= f
  {
    Overlap(p, tail, f, QueryText(query));
    if |f| < |p| { assert p[|f|] == '?'; }
  }

  lemma PathIsAll(p: string, f: string, tail: string, query: Option<string>)
    requires p <= f && p + tail == f + QueryText(query)
    requires tail == "" || tail[0] == '?' || tail[0] == '#'
    ensures '?' !in f && '#' !in f ==> p == f && tail == QueryText(query)
  {
    Overlap(f, QueryText(query), p, tail);
    if |p| < |f| { assert f[|p|] == '?' || f[|p|] == '#'; }
  }

  lemma SameTail(a: string, b: string, x: string, y: string)
    requires a + x == b + y && |a| == |b|
    ensures a == b && x == y
  {
    assert (a + x)[..|a|] == a && (b + y)[..|b|] == b;
    assert (a + x)[|a|..] == x && (b + y)[|b|..] == y;
  }

  /** The path, the query and the fragment of a text that is its own fingerprint. */
  lemma StayingTail(p: string, x: string, query: Option<string>, key: Option<string>, fragment: string)
    requires (p != "" ==> p[0] == '/') && '?' !in p && '#' !in p && Unescape(p, false) == Some(x)
    requires key == KeyText(if query.Some? then query.value else "")
    requires fragment == "" || fragment[0] == '#'
    requires p + (QueryText(query) + fragment) == FingerprintPath(x) + QueryText(key)
    ensures '%' !in p && FingerprintPath(p) == p && fragment == "" && key == query
  {
    var f, tail := FingerprintPath(x), QueryText(query) + fragment;
    PathIsPrefix(p, f, tail, key);
    if p != "" { EscapesDoNotStay(p); }
    UnescapeShortens(p, false);
    FingerprintPathLacks(p, '?');
    FingerprintPathLacks(p, '#');
    PathIsAll(p, f, tail, key);
    StayingQuery(query, key, fragment);
  }

  lemma StayingQuery(query: Option<string>, key: Option<string>, fragment: string)
    requires key == KeyText(if query.Some? then query.value else "")
    requires fragment == "" || fragment[0] == '#'
    requires QueryText(query) + fragment == QueryText(key)
    ensures fragment == "" && key == query
  {
    if query.None? {
      assert QueryText(query) + fragment == fragment;
    } else {
      KeyWithFragment(query.value, key, fragment);
      KeyTextIsShorter(query.value);
    }
  }

  lemma KeyWithFragment(query: string, key: Option<string>, fragment: string)
    requires ("?" + query) + fragment == QueryText(key)
    ensures key.Some? && key.value == query + fragment
    ensures fragment == "" ==> key.value == query
  {
    var whole := ("?" + query) + fragment;
    assert whole[0] == '?' && whole[1..] == query + fragment;
    assert key.Some? ==> QueryText(key)[1..] == key.value;
  }

  // ---------- Texts that stay are in normal form ----------

  /** Two texts that are cut at the first slash, question mark or number sign. */
  lemma HostsApart(a: string, x: string, b: string, y: string)
    requires a + x == b + y
    requires forall i :: 0 <= i < |a| ==> !Breaks(a[i])
    requires forall i :: 0 <= i < |b| ==> !Breaks(b[i])
    requires (x != "" ==> Breaks(x[0])) && (y != "" ==> Breaks(y[0]))
    ensures a == b && x == y
  {
    Overlap(a, x, b, y);
    Overlap(b, y, a, x);
    SameTail(a, b, x, y);
  }

  lemma HostOfAuthority(lib: Lib, a: string)
    requires Valid(lib) && ParseAuthority(lib, a).Some?
    ensures HostOK(ParseAuthority(lib, a).value.1)
    ensures forall i :: 0 <= i < |ParseAuthority(lib, a).value.1| ==>
              ParseAuthority(lib, a).value.1[i] != '@' && !Breaks(ParseAuthority(lib, a).value.1[i])
  {
    hide ParseHost, HostOK, ParseUser;
    var s := a[LastIndex(a, '@') + 1..];
    HostParsed(lib, s);
    HostLacks(ParseHost(lib, s).value);
  }

  /** What can follow the authority in a text. */
  lemma BreaksBehind(path: string, q: Option<string>, fragment: Option<string>)
    requires path == "" || path[0] == '/'
    ensures var x := path + (QueryText(q) + FragmentText(fragment));
            x != "" ==> Breaks(x[0])
  {
  }

  /** An authority that stays has no user and no escapes. */
  lemma StayingAuthority(lib: Lib, a: string, x: string, y: string)
    requires Valid(lib) && ParseAuthority(lib, a).Some?
    requires a + x == ParseAuthority(lib, a).value.1 + y
    requires forall i :: 0 <= i < |a| ==> !Breaks(a[i])
    requires (x != "" ==> Breaks(x[0])) && (y != "" ==> Breaks(y[0]))
    ensures '@' !in a && '%' !in a && x == y
  {
    hide ParseAuthority, ParseHost;
    var host := ParseAuthority(lib, a).value.1;
    HostOfAuthority(lib, a);
    HostsApart(a, x, host, y);
    NoUserParsed(lib, a);
    HostShortens(lib, a);
  }

  lemma StayingAbsolute(lib: Lib, h: string, q: Option<string>, fragment: Option<string>, u: Url)
    requires Valid(lib) && '?' !in h && '#' !in h && u.query == q && u.scheme != ""
    requires ParseHier(lib, true, h) == Some(u.hier)
    requires h + (QueryText(q) + FragmentText(fragment)) == "//" + (HostOf(u) + Tail(u))
    requires ToLower(u.scheme) == u.scheme
    ensures fragment.None? && NormalParts(u.scheme, h, q)
  {
    hide Tail, ParseAuthority, Unescape, Cut, ParseHier, NormalParts, NormalPath, GoodPieces, QueryText, FragmentText;
    hide ToLower, Breaks, RootedPath;
    DoubleSlash(h, q, fragment, HostOf(u) + Tail(u));
    var a, path := AuthorityParts(lib, h);
    var rest := QueryText(q) + FragmentText(fragment);
    AuthorityLacks(h, a, path);
    BreaksBehind(path, q, fragment);
    TailBreaks(u);
    SlashesOff(h, a, path, rest, HostOf(u) + Tail(u));
    StayingAuthority(lib, a, path + rest, Tail(u));
    StayingPath(path, q, fragment, u);
    AbsoluteIsNormal(u.scheme, h, q, a, path);
  }

  lemma TailBreaks(u: Url)
    ensures Tail(u) != "" ==> Breaks(Tail(u)[0])
  {
    hide Tail;
    TailFront(u);
  }

  lemma AuthorityLacks(h: string, a: string, path: string)
    requires h == "//" + a + path && '/' !in a && '?' !in h && '#' !in h
    ensures forall i :: 0 <= i < |a| ==> !Breaks(a[i])
    ensures '?' !in path && '#' !in path
  {
    assert forall i :: 0 <= i < |a| ==> a[i] == h[2 + i] && a[i] in a;
    assert forall i :: 0 <= i < |path| ==> path[i] == h[2 + |a| + i];
  }

  lemma AbsoluteIsNormal(scheme: string, h: string, q: Option<string>, a: string, path: string)
    requires scheme != "" && ToLower(scheme) == scheme && "//" <= h && '@' !in a && '%' !in a
    requires a == Cut(h[2..], '/').0 && path == RootedPath(Cut(h[2..], '/').1)
    requires NormalPath(path) && (q.Some? ==> GoodPieces(q.value))
    ensures NormalParts(scheme, h, q)
  {
    hide Cut, NormalPath, GoodPieces, ToLower, RootedPath;
  }

  lemma SlashesOff(h: string, a: string, path: string, rest: string, y: string)
    requires h == "//" + a + path && h + rest == "//" + y
    ensures a + (path + rest) == y
  {
    assert ("//" + y)[2..] == y && (h + rest)[2..] == a + (path + rest);
  }

  /** A text whose scheme is followed by two slashes has them before its query. */
  lemma DoubleSlash(h: string, q: Option<string>, fragment: Option<string>, y: string)
    requires h + (QueryText(q) + FragmentText(fragment)) == "//" + y
    ensures "//" <= h
  {
    var x := h + (QueryText(q) + FragmentText(fragment));
    assert x[0] == '/' && x[1] == '/';
    if |h| >= 2 { assert h[0] == x[0] && h[1] == x[1] && h[..2] == "//"; }
  }

  lemma StayingPath(path: string, q: Option<string>, fragment: Option<string>, u: Url)
    requires (path != "" ==> path[0] == '/') && '?' !in path && '#' !in path && Unescape(path, false).Some?
    requires u.query == q && PathOf(u) == Unescaped(path)
    requires path + (QueryText(q) + FragmentText(fragment)) == Tail(u)
    ensures fragment.None? && NormalPath(path) && (q.Some? ==> GoodPieces(q.value))
  {
    hide Unescape, FingerprintPath, KeyText, GoodPieces;
    var key := KeyText(RawQuery(u));
    StayingTail(path, Unescaped(path), q, key, FragmentText(fragment));
    if q.Some? { KeyTextStays(q.value); }
  }

  lemma StayingRelative(lib: Lib, h: string, q: Option<string>, fragment: Option<string>, u: Url)
    requires Valid(lib) && '?' !in h && '#' !in h && u.query == q && u.scheme == ""
    requires ParseHier(lib, false, h) == Some(u.hier)
    requires h + (QueryText(q) + FragmentText(fragment)) == HostOf(u) + Tail(u)
    ensures fragment.None? && NormalParts("", h, q)
  {
    hide Tail, ParseAuthority, FingerprintPath, KeyText, Cut, GoodPieces;
    TailFront(u);
    if u.hier.Authority? {
      DoubleSlashMoves(lib, h, q, fragment, u);
    } else {
      assert h + (QueryText(q) + FragmentText(fragment)) == Tail(u);
      RelativeFront(h, q, fragment, u);
      StayingPath(h, q, fragment, u);
    }
  }

  /** A path that stays begins with a slash. */
  lemma RelativeFront(h: string, q: Option<string>, fragment: Option<string>, u: Url)
    requires '?' !in h && u.hier == PathOnly(h) && Unescape(h, false).Some?
    requires h + (QueryText(q) + FragmentText(fragment)) == Tail(u)
    ensures h != "" ==> h[0] == '/'
  {
    hide FingerprintPath, KeyText;
    if h != "" {
      var x := h + (QueryText(q) + FragmentText(fragment));
      assert x[0] == h[0] == Tail(u)[0];
      TailFront(u);
      assert h[0] in h;
    }
  }

  /** A fingerprint does not begin with two slashes. */
  lemma SingleSlash(host: string, tail: string)
    requires forall i :: 0 <= i < |host| ==> !Breaks(host[i])
    requires |tail| > 1 && tail[0] == '/' ==> tail[1] != '/'
    ensures var y := host + tail;
            |y| > 1 ==> y[0] != '/' || y[1] != '/'
  {
    var y := host + tail;
    if host != "" { assert y[0] == host[0]; } else { assert y == tail; }
  }

  lemma DoubleSlashMoves(lib: Lib, h: string, q: Option<string>, fragment: Option<string>, u: Url)
    requires Valid(lib) && ParseHier(lib, false, h) == Some(u.hier) && u.hier.Authority?
    ensures h + (QueryText(q) + FragmentText(fragment)) != HostOf(u) + Tail(u)
  {
    hide Tail, ParseAuthority, Unescape;
    var a := Cut(h[2..], '/').0;
    CutSplits(h[2..], '/');
    HostOfAuthority(lib, a);
    TailFront(u);
    SingleSlash(HostOf(u), Tail(u));
    var x := h + (QueryText(q) + FragmentText(fragment));
    assert "//" <= h && x[0] == h[0] && x[1] == h[1];
  }

  lemma SchemeOff(scheme: string, lower: string, h: string, rest: string, y: string)
    requires |scheme| == |lower| && scheme != ""
    requires SchemeText(scheme) + h + rest == lower + "://" + y
    ensures scheme == lower && h + rest == "//" + y
  {
    assert SchemeText(scheme) + h + rest == scheme + (":" + (h + rest));
    assert lower + "://" + y == lower + (":" + ("//" + y));
    SameTail(scheme, lower, ":" + (h + rest), ":" + ("//" + y));
    assert (":" + (h + rest))[1..] == h + rest && (":" + ("//" + y))[1..] == "//" + y;
  }

  lemma StayingParts(lib: Lib, text: string, scheme: string, h: string, q: Option<string>, fragment: Option<string>,
                     u: Url)
    requires Valid(lib) && '?' !in h && '#' !in h
    requires text == SchemeText(scheme) + h + QueryText(q) + FragmentText(fragment) && text == Fingerprint(u)
    requires ParseHier(lib, scheme != "", h) == Some(u.hier) && u.scheme == ToLower(scheme) && u.query == q
    ensures fragment.None? && NormalParts(scheme, h, q)
  {
    hide ParseHier, NormalParts, Tail, HostOf, QueryText, FragmentText, ToLower;
    var rest := QueryText(q) + FragmentText(fragment);
    Regroup(SchemeText(scheme) + h, QueryText(q), FragmentText(fragment));
    assert text == SchemeText(scheme) + h + rest;
    if scheme == "" {
      NothingInFront(h, rest);
      NothingInFront(HostOf(u), Tail(u));
      StayingRelative(lib, h, q, fragment, u);
    } else {
      Regroup(u.scheme + "://", HostOf(u), Tail(u));
      SchemeOff(scheme, u.scheme, h, rest, HostOf(u) + Tail(u));
      StayingAbsolute(lib, h, q, fragment, u);
    }
  }

  lemma StayingIsNormal(lib: Lib, text: string)
    requires Valid(lib) && Parse(lib, text).Some? && FingerprintOf(lib, text) == text
    ensures Normal(text)
  {
    hide ParseHier, Normal, ValidScheme, Parse, NormalParts, Fingerprint, ToLower;
    var scheme, h, q, fragment := NormalIs(lib, text);
    StayingParts(lib, text, scheme, h, q, fragment, Parse(lib, text).value);
  }

  /** A text that parses is its own fingerprint exactly when it is in normal form. */
  lemma FixedTexts(lib: Lib, text: string)
    requires Valid(lib) && Parse(lib, text).Some?
    ensures FingerprintOf(lib, text) == text <==> Normal(text)
  {
    if Normal(text) { NormalStays(lib, text); }
    if FingerprintOf(lib, text) == text { StayingIsNormal(lib, text); }
  }

  // ---------- The second fingerprint ----------

  predicate SafeHost(h: string) {
    forall i :: 0 <= i < |h| ==> h[i] != '@' && !Breaks(h[i])
  }

  /** What a parsed URL holds: a lower-case scheme and a host without the characters that end one. */
  lemma ParsedParts(lib: Lib, text: string)
    requires Valid(lib) && Parse(lib, text).Some?
    ensures var u := Parse(lib, text).value;
            && (u.scheme != "" ==> ValidScheme(u.scheme)) && ToLower(u.scheme) == u.scheme
            && SafeHost(HostOf(u)) && (HostOf(u) == "" || exists a :: ParseHost(lib, a) == Some(HostOf(u)))
  {
    hide Parse, ParseHier, ParseHost, HasControl, SplitScheme, SafeHost;
    var scheme, h, q, fragment := PartsOf(lib, text);
    ToLowerTwice(scheme);
    if scheme != "" { LowerScheme(scheme); }
    HostParts(lib, scheme != "", h);
  }

  lemma HostParts(lib: Lib, absolute: bool, h: string)
    requires Valid(lib) && ParseHier(lib, absolute, h).Some?
    ensures var hier := ParseHier(lib, absolute, h).value;
            var host := if hier.Authority? then hier.host else "";
            SafeHost(host) && (host == "" || exists a :: ParseHost(lib, a) == Some(host))
  {
    hide ParseHost, ParseUser, Cut, Unescape;
    var hier := ParseHier(lib, absolute, h).value;
    if hier.Authority? && StartsWith(h, '/') {
      var a := Cut(h[2..], '/').0;
      HostOfAuthority(lib, a);
      assert ParseHost(lib, a[LastIndex(a, '@') + 1..]) == Some(hier.host);
    }
  }

  lemma {:induction false} LowerChars(s: string)
    requires forall i :: 0 <= i < |s| ==> SchemeChar(s[i])
    ensures forall i :: 0 <= i < |s| ==> SchemeChar(ToLower(s)[i])
  {
    if s != "" { LowerChars(s[1..]); }
  }

  lemma LowerScheme(s: string)
    requires ValidScheme(s)
    ensures ValidScheme(ToLower(s))
  {
    LowerChars(s);
  }

  /** The fingerprint parses again. */
  ghost predicate Rereads(lib: Lib, u: Url) {
    var (body, fragment) := Cut(Tail(u), '#');
    && !HasControl(Front(u) + body) && ParseHost(lib, HostOf(u)).Some?
    && Unescape(Cut(body, '?').0, false).Some?
    && (fragment.Some? ==> Unescape(fragment.value, false).Some?)
  }

  /** Nothing that is written unescaped is read as something else. */
  ghost predicate Settled(u: Url) {
    var (body, fragment) := Cut(Tail(u), '#');
    var (path, q) := Cut(body, '?');
    fragment.None? && '%' !in HostOf(u) && NormalPath(path) && (q.Some? ==> GoodPieces(q.value))
  }

  /** The fingerprint of a URL with a scheme, in the parts in which it is read again. */
  lemma WrittenAgain(u: Url, body: string, fragment: Option<string>, path: string, q: Option<string>)
    requires ValidScheme(u.scheme) && SafeHost(HostOf(u))
    requires Cut(Tail(u), '#') == (body, fragment) && Cut(body, '?') == (path, q)
    ensures path == "" || path[0] == '/'
    ensures '?' !in "//" + HostOf(u) + path
    ensures var front := SchemeText(u.scheme) + ("//" + HostOf(u) + path) + QueryText(q);
            && Fingerprint(u) == front + FragmentText(fragment) && '#' !in front
            && front == Front(u) + body
  {
    hide Tail, Cut, SafeHost, HostOf, QueryText, FragmentText, ValidScheme;
    TailParts(Tail(u), body, fragment, path, q);
    TailFront(u);
    SafeHostLacks(HostOf(u));
    assert path != "" ==> path[0] == Tail(u)[0];
    SchemeLacks(u.scheme);
    Regroup3(u.scheme, HostOf(u), path, QueryText(q), FragmentText(fragment));
    LackAll("//", HostOf(u), path, '?');
    LackAll(u.scheme + "://", HostOf(u), body, '#');
  }

  lemma SafeHostLacks(h: string)
    requires SafeHost(h)
    ensures '?' !in h && '#' !in h && '/' !in h && '@' !in h
  {
    assert forall i :: 0 <= i < |h| ==> !Breaks(h[i]);
  }

  lemma LackAll(a: string, b: string, c: string, x: char)
    requires x !in a && x !in b && x !in c
    ensures x !in a + b + c
  {
  }

  lemma Regroup3(scheme: string, host: string, path: string, query: string, fragment: string)
    ensures scheme + "://" + host + (path + query + fragment)
            == scheme + ":" + ("//" + host + path) + query + fragment
    ensures scheme + ":" + ("//" + host + path) + query == scheme + "://" + host + (path + query)
  {
  }

  lemma ReadAgain(lib: Lib, u: Url)
    requires ValidScheme(u.scheme) && ToLower(u.scheme) == u.scheme && SafeHost(HostOf(u))
    ensures Parse(lib, Fingerprint(u)).Some? <==> Rereads(lib, u)
    ensures Normal(Fingerprint(u)) <==> Settled(u)
  {
    hide Tail, ParseHost, Unescape, HasControl, GoodPieces, Cut, ToLower, ParseHier, ValidScheme, NormalPath;
    var (body, fragment) := Cut(Tail(u), '#');
    var (path, q) := Cut(body, '?');
    WrittenAgain(u, body, fragment, path, q);
    var h := "//" + HostOf(u) + path;
    var front := SchemeText(u.scheme) + h + QueryText(q);
    TextApart(lib, front, fragment);
    BodyApart(lib, u.scheme, h, q);
    HierApart(lib, HostOf(u), path);
    NoUserParsed(lib, HostOf(u));
    NormalAgain(u, h, front, fragment, path, q);
  }

  lemma NormalAgain(u: Url, h: string, front: string, fragment: Option<string>, path: string, q: Option<string>)
    requires ValidScheme(u.scheme) && ToLower(u.scheme) == u.scheme && SafeHost(HostOf(u))
    requires path == "" || path[0] == '/'
    requires h == "//" + HostOf(u) + path && '?' !in h && front == SchemeText(u.scheme) + h + QueryText(q)
    requires Fingerprint(u) == front + FragmentText(fragment) && '#' !in front
    ensures Normal(Fingerprint(u))
            <==> fragment.None? && '%' !in HostOf(u) && NormalPath(path) && (q.Some? ==> GoodPieces(q.value))
  {
    hide Tail, GoodPieces, Cut, ToLower, NormalPath, Fingerprint, SplitScheme, ValidScheme, SafeHost, RootedPath;
    SafeHostLacks(HostOf(u));
    SchemeLacks(u.scheme);
    ConcatHas(front, FragmentText(fragment), '#');
    if fragment.None? {
      var rest := h + QueryText(q);
      assert Fingerprint(u) == SchemeText(u.scheme) + rest;
      SchemeApart(u.scheme, rest);
      QueryApart(h, q);
      PathApart(HostOf(u), path);
      assert h[2..] == HostOf(u) + path;
    }
  }

  // ---------- Without a scheme ----------

  /** The same for a URL with a host and without a scheme, whose fingerprint is read as a path, or with a scheme. */
  ghost predicate BareRereads(u: Url) {
    var (body, fragment) := Cut(Tail(u), '#');
    && !HasControl(Front(u) + body) && (fragment.Some? ==> Unescape(fragment.value, false).Some?)
    && BareHierReads(HostOf(u), Cut(body, '?').0)
  }

  /** Host and path, written without slashes in front and read again. */
  predicate BareHierReads(host: string, path: string) {
    var (name, port) := Cut(host, ':');
    if port.None? then Unescape(host + path, false).Some?
    else ValidScheme(name) && (port.value == "" && path != "" ==> Unescape(path, false).Some?)
  }

  lemma NoScheme(host: string, x: string)
    requires ':' !in host && (x != "" ==> Breaks(x[0])) && SafeHost(host)
    ensures SplitScheme(host + x) == Some(("", host + x))
  {
    hide Cut, ValidScheme, SafeHost;
    var (scheme, rest) := Cut(host + x, ':');
    CutSplits(host + x, ':');
    if rest.Some? {
      BreakBeforeColon(host, x, scheme, rest.value);
      if ValidScheme(scheme) {
        SchemeLacks(scheme);
        assert false;
      }
    }
  }

  lemma BreakBeforeColon(host: string, x: string, scheme: string, rest: string)
    requires ':' !in host && (x != "" ==> Breaks(x[0])) && host + x == scheme + [':'] + rest
    ensures |host| < |scheme| && Breaks(scheme[|host|])
  {
    Regroup(scheme, [':'], rest);
    Overlap(scheme, [':'] + rest, host, x);
    Overlap(host, x, scheme, [':'] + rest);
  }

  lemma SchemeOfHost(name: string, port: string, x: string)
    requires ':' !in name
    ensures SplitScheme(name + ":" + port + x)
            == if name == "" then None
               else if ValidScheme(name) then Some((name, port + x)) else Some(("", name + ":" + port + x))
  {
    hide ValidScheme;
    CutAt(name, Some(port + x), ':');
    assert name + ":" + port + x == name + ([':'] + (port + x));
  }

  /** The fingerprint of a URL without a scheme, in the parts in which it is read again. */
  lemma WrittenBare(u: Url, body: string, fragment: Option<string>, path: string, q: Option<string>)
    requires u.scheme == "" && SafeHost(HostOf(u))
    requires Cut(Tail(u), '#') == (body, fragment) && Cut(body, '?') == (path, q)
    ensures (path == "" || path[0] == '/') && !("//" <= path) && '?' !in HostOf(u) + path
    ensures var front := HostOf(u) + path + QueryText(q);
            Fingerprint(u) == front + FragmentText(fragment) && '#' !in front && front == Front(u) + body
  {
    hide Tail, Cut, SafeHost, HostOf, QueryText, FragmentText;
    TailParts(Tail(u), body, fragment, path, q);
    TailFront(u);
    SafeHostLacks(HostOf(u));
    assert path != "" ==> path[0] == Tail(u)[0];
    assert |path| > 1 ==> path[1] == Tail(u)[1];
    ConcatHas(HostOf(u), path, '?');
    ConcatHas(HostOf(u), body, '#');
    Regroup(HostOf(u), path, QueryText(q));
    Regroup(HostOf(u), body, FragmentText(fragment));
    assert Front(u) == HostOf(u) by { assert "" + HostOf(u) == HostOf(u); }
  }

  lemma TailParts(tail: string, body: string, fragment: Option<string>, path: string, q: Option<string>)
    requires Cut(tail, '#') == (body, fragment) && Cut(body, '?') == (path, q)
    ensures tail == body + FragmentText(fragment) && body == path + QueryText(q)
    ensures '#' !in body && '?' !in path && path <= tail
  {
    hide Cut;
    CutSplits(tail, '#');
    CutSplits(body, '?');
    if q.Some? { assert path + QueryText(q) == path + ['?'] + q.value; }
    if fragment.Some? { assert body + FragmentText(fragment) == body + ['#'] + fragment.value; }
  }

  lemma BareHierRead(lib: Lib, host: string, path: string)
    requires SafeHost(host) && host != "" && ':' !in host && (path == "" || path[0] == '/')
    ensures ParseHier(lib, false, host + path)
            == if Unescape(host + path, false).None? then None else Some(PathOnly(host + path))
  {
    hide Unescape, Cut;
    SafeHostLacks(host);
    PathApart(host, path);
    assert (host + path)[0] == host[0] && host[0] in host;
  }

  lemma SchemeHierRead(lib: Lib, port: string, path: string)
    requires '/' !in port && (path == "" || path[0] == '/') && !("//" <= path)
    ensures ParseHier(lib, true, port + path).Some?
            <==> (port == "" && path != "" ==> Unescape(path, false).Some?)
    ensures !("//" <= port + path)
  {
    hide Unescape, Cut;
    if port == "" {
      assert port + path == path;
    } else {
      assert (port + path)[0] == port[0] && port[0] in port;
    }
  }

  lemma ColonIsRefused(lib: Lib, host: string, path: string)
    requires SafeHost(host) && ':' in host && (path == "" || path[0] == '/')
    ensures ParseHier(lib, false, host + path) == None
  {
    hide Unescape, Cut;
    SafeHostLacks(host);
    PathApart(host, path);
    assert (host + path)[0] == host[0] && host[0] in host;
  }

  lemma NotNormal(h: string)
    requires h != "" && h[0] != '/'
    ensures !NormalPath(h)
  {
    FingerprintFront(h);
  }

  /** What a host with a colon, a path and a query are read as, with no slashes in front. */
  lemma BareBodyRead(lib: Lib, host: string, path: string, q: Option<string>)
    requires SafeHost(host) && host != "" && (path == "" || path[0] == '/') && !("//" <= path) && '?' !in host + path
    ensures var front := host + path + QueryText(q);
            && (ParseBody(lib, front).Some? <==> BareHierReads(host, path))
            && (SplitScheme(front).Some? ==>
                  var (scheme, rest) := SplitScheme(front).value;
                  !NormalParts(scheme, Cut(rest, '?').0, Cut(rest, '?').1))
  {
    hide Unescape, Cut, ParseHier, NormalPath, ToLower, SplitScheme;
    var x := path + QueryText(q);
    var (name, port) := Cut(host, ':');
    Regroup(host, path, QueryText(q));
    CutSplits(host, ':');
    QueryApart(host + path, q);
    SafeHostLacks(host);
    assert (host + path)[0] == host[0] && host[0] in host;
    NotNormal(host + path);
    if port.None? {
      NoScheme(host, x);
      BareHierRead(lib, host, path);
    } else {
      assert host == name + ":" + port.value;
      SchemeOfHost(name, port.value, x);
      ColonIsRefused(lib, host, path);
      var h := port.value + path;
      assert '?' !in h by { assert forall i :: 0 <= i < |h| ==> h[i] == (host + path)[|name| + 1 + i]; }
      QueryApart(h, q);
      Regroup(port.value, path, QueryText(q));
      SchemeHierRead(lib, port.value, path);
    }
  }

  lemma ReadBare(lib: Lib, u: Url)
    requires u.scheme == "" && SafeHost(HostOf(u)) && HostOf(u) != ""
    ensures Parse(lib, Fingerprint(u)).Some? <==> BareRereads(u)
    ensures !Normal(Fingerprint(u))
  {
    hide Tail, Unescape, HasControl, Cut, ParseBody, SplitScheme, NormalParts, BareHierReads, Fingerprint, Front;
    var (body, fragment) := Cut(Tail(u), '#');
    var (path, q) := Cut(body, '?');
    WrittenBare(u, body, fragment, path, q);
    var front := HostOf(u) + path + QueryText(q);
    TextApart(lib, front, fragment);
    BareBodyRead(lib, HostOf(u), path, q);
    ConcatHas(front, FragmentText(fragment), '#');
    if fragment.None? { assert front + FragmentText(fragment) == front; }
  }

  lemma ReadRelative(lib: Lib, u: Url)
    requires u.scheme == "" && HostOf(u) == ""
    ensures Parse(lib, Fingerprint(u)).Some? <==> Rereads(lib, u)
    ensures Normal(Fingerprint(u)) <==> Settled(u)
  {
    hide Tail, Unescape, HasControl, Cut, SplitScheme, Fingerprint, Front, GoodPieces, NormalPath, ParseHost, ParseHier;
    var (body, fragment) := Cut(Tail(u), '#');
    var (path, q) := Cut(body, '?');
    WrittenBare(u, body, fragment, path, q);
    NoHost(lib);
    NothingInFront(path, QueryText(q));
    var front := path + QueryText(q);
    TextApart(lib, front, fragment);
    BreaksBehind(path, q, None);
    NoScheme("", front);
    assert "" + front == front;
    RelativeReads(lib, path);
    QueryApart(path, q);
    ConcatHas(front, FragmentText(fragment), '#');
    if fragment.None? { assert front + FragmentText(fragment) == front; }
  }

  lemma RelativeReads(lib: Lib, path: string)
    requires (path == "" || path[0] == '/') && !("//" <= path)
    ensures ParseHier(lib, false, path).Some? <==> Unescape(path, false).Some?
  {
  }

  /**
   The fingerprint of a fingerprint is that fingerprint exactly when it does not parse, or nothing
   written unescaped in it is read as something else. A host without a scheme is always read as something else.
   */
  lemma FingerprintTwice(lib: Lib, text: string)
    requires Valid(lib) && Parse(lib, text).Some?
    ensures var u := Parse(lib, text).value;
            FingerprintOf(lib, Fingerprint(u)) == Fingerprint(u)
            <==> if u.scheme == "" && HostOf(u) != "" then !BareRereads(u) else !Rereads(lib, u) || Settled(u)
  {
    hide Fingerprint, Rereads, Settled, Parse, Normal, BareRereads;
    var u := Parse(lib, text).value;
    ParsedParts(lib, text);
    if u.scheme != "" {
      ReadAgain(lib, u);
    } else if HostOf(u) == "" {
      ReadRelative(lib, u);
    } else {
      ReadBare(lib, u);
    }
    if Parse(lib, Fingerprint(u)).Some? { FixedTexts(lib, Fingerprint(u)); }
  }

  lemma HostStays(lib: Lib, text: string)
    requires Valid(lib) && Parse(lib, text).Some?
    ensures var host := HostOf(Parse(lib, text).value);
            '[' !in host && '%' !in host ==> ParseHost(lib, host) == Some(host)
  {
    hide Parse, ParseHost, PlainHost;
    var host := HostOf(Parse(lib, text).value);
    ParsedParts(lib, text);
    if host == "" {
      NoHost(lib);
    } else if '[' !in host && '%' !in host {
      var a :| ParseHost(lib, a) == Some(host);
      PlainUnlessBracketed(lib, a);
      PlainHostStays(lib, host);
    }
  }

  lemma NoHost(lib: Lib)
    ensures ParseHost(lib, "") == Some("")
  {
  }

  /** The fingerprint of `u` ends in this key text, and is not read as another one. */
  ghost predicate KeyStays(u: Url, key: string) {
    var (before, fragment) := Cut(key, '#');
    if fragment.Some? then
      HasControl(Front(u) + (FingerprintPath(PathOf(u)) + ("?" + before))) || Unescape(fragment.value, false).None?
    else HasControl(Fingerprint(u)) || GoodPieces(key)
  }

  /** With nothing in host and path that is read as something else, the keys decide. */
  lemma KeysDecide(lib: Lib, text: string)
    requires Valid(lib) && Parse(lib, text).Some?
    requires var u := Parse(lib, text).value;
             && (u.scheme != "" || HostOf(u) == "")
             && '[' !in HostOf(u) && '%' !in HostOf(u)
             && '?' !in PathOf(u) && '#' !in PathOf(u) && '%' !in PathOf(u)
    ensures var u := Parse(lib, text).value;
            var key := KeyText(RawQuery(u));
            FingerprintOf(lib, Fingerprint(u)) == Fingerprint(u) <==> key.None? || KeyStays(u, key.value)
  {
    hide Parse, FingerprintOf, FingerprintPath, KeyText, ParseHost, PathOf, HostOf, Settled, Rereads, KeyStays;
    var u := Parse(lib, text).value;
    FingerprintTwice(lib, text);
    HostStays(lib, text);
    FingerprintPathLacks(PathOf(u), '?');
    FingerprintPathLacks(PathOf(u), '#');
    FingerprintPathKeepsPercents(PathOf(u));
    FingerprintPathTwice(PathOf(u));
    HashInKey(lib, u);
  }

  lemma HashInKey(lib: Lib, u: Url)
    requires var f := FingerprintPath(PathOf(u));
             '?' !in f && '#' !in f && '%' !in f && FingerprintPath(f) == f
    requires ParseHost(lib, HostOf(u)).Some? && '%' !in HostOf(u)
    ensures var key := KeyText(RawQuery(u));
            !Rereads(lib, u) || Settled(u) <==> key.None? || KeyStays(u, key.value)
  {
    hide FingerprintPath, KeyText, Cut, HasControl, ParseHost, GoodPieces, HostOf, Front, Unescape, PathOf;
    var f, key := FingerprintPath(PathOf(u)), KeyText(RawQuery(u));
    CutNothing(f, '#');
    CutNothing(f, '?');
    UnescapeShortens(f, false);
    if key.None? {
      assert Tail(u) == f;
    } else {
      var (before, fragment) := Cut(key.value, '#');
      KeyParts(f, key.value, before, fragment);
      CutSplits(key.value, '#');
      Regroup(Front(u), f, "?" + before);
    }
  }

  /** A tail comes apart at the first number sign and the first question mark. */
  lemma KeyParts(f: string, key: string, before: string, fragment: Option<string>)
    requires '?' !in f && '#' !in f && Cut(key, '#') == (before, fragment)
    ensures Cut(f + ("?" + key), '#') == (f + ("?" + before), fragment)
    ensures Cut(f + ("?" + before), '?') == (f, Some(before))
    ensures fragment.None? ==> before == key
  {
    hide Cut;
    CutSplits(key, '#');
    ConcatHas(f, "?" + before, '#');
    ConcatHas("?", before, '#');
    CutAt(f + ("?" + before), fragment, '#');
    FragmentBehind(f, key, before, fragment);
    QueryApart(f, Some(before));
  }

  lemma FragmentBehind(f: string, key: string, before: string, fragment: Option<string>)
    requires key == if fragment.Some? then before + ['#'] + fragment.value else before
    ensures f + ("?" + key) == f + ("?" + before) + if fragment.Some? then ['#'] + fragment.value else ""
  {
  }

  lemma FingerprintPathKeepsPercents(path: string)
    requires '%' !in path
    ensures '%' !in FingerprintPath(path)
  {
    FingerprintPathPercents(path);
    PercentsFound(path);
    PercentsFound(FingerprintPath(path));
  }

  // ---------- Collisions ----------

  lemma SchemesApart(a: string, x: string, b: string, y: string)
    requires ValidScheme(a) && ValidScheme(b) && a + "://" + x == b + "://" + y
    ensures a == b && x == y
  {
    hide SplitScheme;
    SchemeApart(a, "//" + x);
    SchemeApart(b, "//" + y);
    assert a + "://" + x == SchemeText(a) + ("//" + x) && b + "://" + y == SchemeText(b) + ("//" + y);
    assert ("//" + x)[2..] == x && ("//" + y)[2..] == y;
  }

  /** A fingerprint with a scheme is none without. */
  lemma SchemeOrNone(scheme: string, x: string, host: string, tail: string)
    requires ValidScheme(scheme) && SafeHost(host)
    requires (tail != "" ==> Breaks(tail[0])) && (|tail| > 1 && tail[0] == '/' ==> tail[1] != '/')
    ensures scheme + "://" + x != host + tail
  {
    if scheme + "://" + x == host + tail { SlashesInTail(scheme, x, host, tail); }
  }

  lemma SlashesInTail(scheme: string, x: string, host: string, tail: string)
    requires ValidScheme(scheme) && SafeHost(host) && (tail != "" ==> Breaks(tail[0]))
    requires scheme + "://" + x == host + tail
    ensures tail == "//" + x
  {
    SchemeLacks(scheme);
    assert scheme + "://" + x == scheme + ":" + ("//" + x);
    HostsApart(scheme + ":", "//" + x, host, tail);
  }

  /** A fingerprint tells scheme, host and tail. */
  lemma FrontsApart(u: Url, v: Url)
    requires (u.scheme != "" ==> ValidScheme(u.scheme)) && (v.scheme != "" ==> ValidScheme(v.scheme))
    requires SafeHost(HostOf(u)) && SafeHost(HostOf(v))
    ensures Fingerprint(u) == Fingerprint(v)
            <==> u.scheme == v.scheme && HostOf(u) == HostOf(v) && Tail(u) == Tail(v)
  {
    hide Tail, ValidScheme, HostOf;
    TailFront(u);
    TailFront(v);
    var x, y := HostOf(u) + Tail(u), HostOf(v) + Tail(v);
    Regroup(u.scheme + "://", HostOf(u), Tail(u));
    Regroup(v.scheme + "://", HostOf(v), Tail(v));
    NothingInFront(HostOf(u), Tail(u));
    NothingInFront(HostOf(v), Tail(v));
    if x == y { HostsApart(HostOf(u), Tail(u), HostOf(v), Tail(v)); }
    if u.scheme != "" && v.scheme != "" {
      if Fingerprint(u) == Fingerprint(v) { SchemesApart(u.scheme, x, v.scheme, y); }
    } else if u.scheme != "" {
      SchemeOrNone(u.scheme, x, HostOf(v), Tail(v));
    } else if v.scheme != "" {
      SchemeOrNone(v.scheme, y, HostOf(u), Tail(u));
    }
  }

  /** The printed path up to the first question mark in it. */
  function PathFront(u: Url): string {
    Cut(FingerprintPath(PathOf(u)), '?').0
  }

  /** What follows the first question mark of the fingerprint, if there is one: keys, or more of the path and keys. */
  ghost function BehindQuestionMark(u: Url): Option<string> {
    var rest, key := Cut(FingerprintPath(PathOf(u)), '?').1, KeyText(RawQuery(u));
    if rest.Some? then Some(rest.value + QueryText(key)) else key
  }

  lemma TailCut(f: string, key: Option<string>, front: string, rest: Option<string>)
    requires Cut(f, '?') == (front, rest)
    ensures Cut(f + QueryText(key), '?')
            == (front, if rest.Some? then Some(rest.value + QueryText(key)) else key)
  {
    hide Cut;
    CutSplits(f, '?');
    if rest.Some? {
      QueryApart(front, Some(rest.value + QueryText(key)));
      assert f + QueryText(key) == front + ("?" + (rest.value + QueryText(key)));
    } else {
      QueryApart(front, key);
    }
  }

  lemma TailsAgree(u: Url, v: Url)
    ensures Tail(u) == Tail(v) <==> PathFront(u) == PathFront(v) && BehindQuestionMark(u) == BehindQuestionMark(v)
  {
    hide FingerprintPath, KeyText, Cut;
    TailCut(FingerprintPath(PathOf(u)), KeyText(RawQuery(u)), PathFront(u), Cut(FingerprintPath(PathOf(u)), '?').1);
    TailCut(FingerprintPath(PathOf(v)), KeyText(RawQuery(v)), PathFront(v), Cut(FingerprintPath(PathOf(v)), '?').1);
    CutSplits(Tail(u), '?');
    CutSplits(Tail(v), '?');
  }

  /**
   Any two texts that parse share a fingerprint exactly when they share scheme, host, the printed path
   up to its first question mark, and what follows the first question mark.
   */
  lemma FingerprintsAgree(lib: Lib, s: string, t: string)
    requires Valid(lib) && Parse(lib, s).Some? && Parse(lib, t).Some?
    ensures var u, v := Parse(lib, s).value, Parse(lib, t).value;
            FingerprintOf(lib, s) == FingerprintOf(lib, t)
            <==> u.scheme == v.scheme && HostOf(u) == HostOf(v)
                 && PathFront(u) == PathFront(v) && BehindQuestionMark(u) == BehindQuestionMark(v)
  {
    hide Fingerprint, Parse, PathFront, BehindQuestionMark, ValidScheme, ParseHost;
    var u, v := Parse(lib, s).value, Parse(lib, t).value;
    ParsedParts(lib, s);
    ParsedParts(lib, t);
    FrontsApart(u, v);
    TailsAgree(u, v);
  }

  /**
   As long as no path holds a question mark, they share it exactly when they share scheme, host, path
   shape and the pieces of their keys; and without ampersands in keys, exactly when they share the keys.
   */
  lemma FingerprintsCollide(lib: Lib, s: string, t: string)
    requires Valid(lib) && Parse(lib, s).Some? && Parse(lib, t).Some?
    requires '?' !in PathOf(Parse(lib, s).value) && '?' !in PathOf(Parse(lib, t).value)
    ensures var u, v := Parse(lib, s).value, Parse(lib, t).value;
            && (FingerprintOf(lib, s) == FingerprintOf(lib, t)
                <==> u.scheme == v.scheme && HostOf(u) == HostOf(v) && ShapeOf(PathOf(u)) == ShapeOf(PathOf(v))
                     && KeyPieces(RawQuery(u)) == KeyPieces(RawQuery(v)))
            && (NoAmpersand(Keys(RawQuery(u))) && NoAmpersand(Keys(RawQuery(v))) ==>
                  (KeyPieces(RawQuery(u)) == KeyPieces(RawQuery(v)) <==> Keys(RawQuery(u)) == Keys(RawQuery(v))))
  {
    hide Parse, FingerprintOf, ShapeOf, KeyPieces, Keys, FingerprintPath, KeyText, Cut;
    var u, v := Parse(lib, s).value, Parse(lib, t).value;
    FingerprintsAgree(lib, s, t);
    FingerprintPathLacks(PathOf(u), '?');
    FingerprintPathLacks(PathOf(v), '?');
    CutNothing(FingerprintPath(PathOf(u)), '?');
    CutNothing(FingerprintPath(PathOf(v)), '?');
    PathsCollide(PathOf(u), PathOf(v));
    KeyTextsAgree(RawQuery(u), RawQuery(v));
    if NoAmpersand(Keys(RawQuery(u))) && NoAmpersand(Keys(RawQuery(v))) {
      KeyTextsCollide(RawQuery(u), RawQuery(v));
    }
  }

  // ---------- Computing it ----------

  method SortedQueryKeys(params: set<string>) returns (keys: seq<string>)
    ensures keys == SortedList(params)
  {
    keys := [];
    var rest := params;
    while rest != {}
      invariant rest <= params && Distinct(keys)
      invariant forall k :: k in keys <==> k in params && k !in rest
      decreases rest
    {
      var k :| k in rest;
      rest := rest - {k};
      keys := keys + [k];
    }
    LeqIsTotalOrder();
    SortSorts(Leq, keys);
    ghost var unsorted := keys;
    keys := Sort(Leq, keys);
    DistinctCounts(unsorted);
    forall x ensures x in keys <==> x in params { assert x in multiset(keys) <==> x in multiset(unsorted); }
    forall x ensures multiset(keys)[x] <= 1 { assert x in multiset(unsorted) <==> x in unsorted; }
    OnceIsDistinct(keys);
    SortedListIsUnique(keys, params);
  }

  method BuildFingerprint(u: Url, path: string) returns (text: string)
    ensures text == Front(u) + path + QueryText(KeyText(RawQuery(u)))
  {
    text := "";
    if u.scheme != "" { text := u.scheme + "://"; }
    text := text + HostOf(u) + path;
    if RawQuery(u) != "" {
      var keys := SortedQueryKeys(Keys(RawQuery(u)));
      if |keys| > 0 { text := text + ("?" + Join(keys, '&')); }
    }
  }

  method FingerprintURL(lib: Lib, rawURL: string) returns (text: string)
    ensures text == FingerprintOf(lib, rawURL)
  {
    var u := Parse(lib, rawURL);
    if u.None? { return rawURL; }
    var path := NormalizePath(PathOf(u.value));
    text := BuildFingerprint(u.value, path);
    Regroup(Front(u.value), path, QueryText(KeyText(RawQuery(u.value))));
  }
}
