/**
 URLs whose normal forms are not stable, or differ where one would not expect it.
 */
module CanonicalCases {
  import opened CanonicalHosts
  import opened CanonicalPaths
  import opened CanonicalQueries
  import opened CanonicalUrls
  import opened Escapes
  import opened Options
  import opened Queries
  import opened Spaces
  import opened Texts
  import opened Urls

  /** A text with scheme http: what stands behind it, query and fragment. */
  function Http(h: string, q: Option<string>, fragment: Option<string>): string {
    "http:" + h + QueryText(q) + FragmentText(fragment)
  }

  predicate ReadableHier(h: string, q: Option<string>) {
    '?' !in h && Readable(h) && (q.Some? ==> Readable(q.value))
  }

  lemma HttpParses(lib: Lib, scheme: string, h: string, q: Option<string>, fragment: Option<string>)
    requires scheme == "http" && ReadableHier(h, q)
    requires fragment.Some? ==> Unescape(fragment.value, false).Some?
    ensures Parse(lib, Http(h, q, fragment)) == WithHier(scheme, ParseHier(lib, true, h), q)
  {
    hide ParseHier, Unescape, Parse, Readable;
    SchemeLiterals(scheme);
    ParseReadable(lib, scheme, h, q, fragment);
    assert "http:" == SchemeText(scheme);
  }

  /** Nothing is trimmed off a text with something visible at its end. */
  lemma HttpIsTrimmed(text: string, last: char)
    requires |text| > 5 && text[..5] == "http:" && text[|text| - 1] == last && Visible(last)
    ensures TrimSpace(text) == text != ""
  {
    hide TrimEnd, TrimSpace;
    assert text[0] == text[..5][0] == 'h';
    VisibleFront(text);
    VisibleEnd(text);
  }

  /** The normal form of a text with scheme http. */
  lemma HttpNormal(lib: Lib, h: string, q: Option<string>, fragment: Option<string>, hier: Hier)
    requires ReadableHier(h, q) && ParseHier(lib, true, h) == Some(hier)
    requires fragment.Some? ==> Unescape(fragment.value, false).Some?
    requires var text := Http(h, q, fragment); TrimSpace(text) == text != ""
    ensures Parse(lib, Http(h, q, fragment)) == Some(Url("http", hier, q))
    ensures CanonicalizeURL(lib, Http(h, q, fragment)) == NormalForm(lib.lower, Url("http", hier, q))
  {
    hide Parse, TrimSpace, ParseHier, NormalForm, Unescape, ReadableHier, Http;
    HttpParses(lib, "http", h, q, fragment);
  }

  /** A URL that parses and is not stable changes in the second pass. */
  lemma Changes(lib: Lib, rawURL: string, u: Url)
    requires Valid(lib) && Bytes(rawURL) && TrimSpace(rawURL) == rawURL != "" && Parse(lib, rawURL) == Some(u)
    requires Supported(u.scheme) && !Stable(lib, u)
    ensures CanonicalizeURL(lib, rawURL) == NormalForm(lib.lower, u)
    ensures CanonicalizeURL(lib, CanonicalizeURL(lib, rawURL).text) != CanonicalizeURL(lib, rawURL)
  {
    hide Stable, Parse, TrimSpace, Valid;
    CanonicalizeTwice(lib, rawURL);
  }

  // ---------- Spaces at the end ----------

  /** http:foo #x becomes "http:foo ", with a space that the second pass trims. */
  lemma OpaqueSpace(lib: Lib, text: string, fragment: string)
    requires Valid(lib) && text == "foo " && fragment == "x"
    ensures var rawURL := Http(text, None, Some(fragment));
            && CanonicalizeURL(lib, rawURL) == Canonical("http:" + text, "")
            && CanonicalizeURL(lib, "http:" + text) != CanonicalizeURL(lib, rawURL)
  {
    hide TrimSpace, Parse, Valid, Unescape, CanonicalizeURL, Stable, ParseHier, NormalForm, Bytes, HasControl;
    var rawURL := Http(text, None, Some(fragment));
    UnescapeShortens(fragment, false);
    assert rawURL == "http:foo #x";
    HttpIsTrimmed(rawURL, 'x');
    OpaqueReads(lib, text, rawURL);
    var u := Url("http", Opaque(text), None);
    HttpNormal(lib, text, None, Some(fragment), u.hier);
    OpaqueForm(lib, u, text);
    Changes(lib, rawURL, u);
  }

  lemma OpaqueReads(lib: Lib, text: string, rawURL: string)
    requires text == "foo " && rawURL == "http:foo #x"
    ensures ReadableHier(text, None) && ParseHier(lib, true, text) == Some(Opaque(text)) && Bytes(rawURL)
  {
  }

  lemma OpaqueForm(lib: Lib, u: Url, text: string)
    requires u == Url("http", Opaque(text), None) && EndsWith(text, ' ')
    ensures NormalForm(lib.lower, u) == Canonical("http:" + text, "") && !Stable(lib, u)
  {
    hide EndSpace, Hostname, TrimWww;
    SpaceAtTheEnd(text);
    NoHostname();
    assert Text(NormalUrl(lib.lower, u)) == "http:" + text;
  }

  lemma SpaceAtTheEnd(s: string)
    requires EndsWith(s, ' ')
    ensures EndsInSpace(s)
  {
    assert s[|s| - 1..] == " ";
  }

  /** http://h/?a;b #x: a query without parameters keeps its space, which the second pass trims. */
  lemma JunkSpace(lib: Lib, h: string, path: string, q: string, fragment: string)
    requires Valid(lib) && h == "h" && path == "/" && q == "a;b " && fragment == "x"
    ensures var rawURL := Http("//" + h + path, Some(q), Some(fragment));
            && CanonicalizeURL(lib, rawURL).Canonical?
            && CanonicalizeURL(lib, CanonicalizeURL(lib, rawURL).text) != CanonicalizeURL(lib, rawURL)
  {
    hide TrimSpace, Parse, Valid, Unescape, CanonicalizeURL, ParseHier, Stable, ParseAuthority, Bytes, HasControl;
    hide ReadableHier, NormalForm;
    var rawURL := Http("//" + h + path, Some(q), Some(fragment));
    UnescapeShortens(fragment, false);
    UnescapeShortens(path, false);
    assert rawURL == "http://h/?a;b #x";
    HttpIsTrimmed(rawURL, 'x');
    PlainHostReads(lib, h);
    HierApart(lib, h, path);
    JunkReads("//" + h + path, q, rawURL);
    var u := Url("http", Authority(NoUser, h, path), Some(q));
    HttpNormal(lib, "//" + h + path, Some(q), Some(fragment), u.hier);
    JunkIsUnstable(lib, u, q);
    Changes(lib, rawURL, u);
  }

  lemma JunkReads(h: string, q: string, rawURL: string)
    requires h == "//h/" && q == "a;b " && rawURL == "http://h/?a;b #x"
    ensures ReadableHier(h, Some(q)) && Bytes(rawURL)
  {
  }

  lemma JunkIsUnstable(lib: Lib, u: Url, q: string)
    requires u.query == Some(q) && EndsWith(q, ' ') && '&' !in q && ';' in q
    ensures !Stable(lib, u)
  {
    hide EndSpace, Fields, CanonicalQuery;
    SpaceAtTheEnd(q);
    JunkQuery(q);
    EmptyQueryStays(lib.lower, q);
  }

  lemma PlainHostReads(lib: Lib, h: string)
    requires h == "h"
    ensures ParseAuthority(lib, h) == Some((NoUser, h))
  {
    hide ParseAuthority, ParseHost, Cut;
    CutNothing(h, ':');
    assert PlainHost(h) by { assert h[0] == 'h' && HostChar(h[0]); }
    PlainHostStays(lib, h);
    NoUserParsed(lib, h);
  }

  lemma JunkQuery(q: string)
    requires '&' !in q && ';' in q
    ensures Fields(q) == []
  {
    hide FieldsOf, Split, FieldOf;
    SplitPrefix(q, "", '&');
    EmptySplit();
    assert q + "" == q && Split(q, '&') == [q];
    SemicolonIsJunk(q);
    NoFields([q]);
  }

  lemma EmptySplit()
    ensures Split("", '&') == [""]
  {
  }

  lemma SemicolonIsJunk(q: string)
    requires ';' in q
    ensures FieldOf(q) == None
  {
  }

  // ---------- Paths that are read as an authority ----------

  /** http:/%2Ffoo/ becomes http://foo, whose host is foo. */
  lemma SlashesReadAsAuthority(lib: Lib, path: string)
    requires Valid(lib) && path == "/%2Ffoo/"
    ensures var rawURL := Http(path, None, None);
            && CanonicalizeURL(lib, rawURL) == Canonical("http:" + "//foo", "")
            && CanonicalizeURL(lib, "http:" + "//foo") != CanonicalizeURL(lib, rawURL)
  {
    hide TrimSpace, Parse, Valid, Unescape, CanonicalizeURL, PathText, ParseHier, Stable, NormalForm, Bytes, HasControl;
    hide ReadableHier;
    var rawURL := Http(path, None, None);
    assert rawURL == "http:/%2Ffoo/";
    EscapedSlash(path, "//foo/");
    ReadsPath(lib, path, rawURL);
    HttpIsTrimmed(rawURL, '/');
    SlashesTrimmed(path, "//foo/", "//foo");
    var u := Url("http", PathOnly(path), None);
    HttpNormal(lib, path, None, None, u.hier);
    SlashesForm(lib, u, path, "//foo");
    Changes(lib, rawURL, u);
  }

  lemma ReadsPath(lib: Lib, path: string, rawURL: string)
    requires path == "/%2Ffoo/" && rawURL == "http:/%2Ffoo/" && Unescape(path, false).Some?
    ensures ReadableHier(path, None) && Bytes(rawURL) && ParseHier(lib, true, path) == Some(PathOnly(path))
  {
    hide Unescape, Cut;
    assert path[1] == '%';
  }

  lemma SlashesForm(lib: Lib, u: Url, path: string, t: string)
    requires u == Url("http", PathOnly(path), None) && PathText(path) == t == "//foo"
    ensures NormalForm(lib.lower, u) == Canonical("http:" + t, "") && !Stable(lib, u)
  {
    hide PathText, Cut, Hostname, TrimWww, ParseAuthority, Unescape;
    assert t[2..] == "foo" && t[..2] == "//";
    CutNothing(t[2..], '/');
    NoHostname();
    assert Text(NormalUrl(lib.lower, u)) == "http:" + t;
  }

  lemma EscapedSlash(path: string, x: string)
    requires path == "/%2Ffoo/" && x == "//foo/"
    ensures Unescape(path, false) == Some(x)
  {
    hide Unescape, HexValue;
    var rest := path[4..];
    UnescapeShortens(rest, false);
    SlashEscape(path[1..], rest);
    assert path == [path[0]] + path[1..] && x == ['/'] + (['/'] + rest);
    PlainCharFirst(path, path[1..], ['/'] + rest);
  }

  lemma SlashEscape(s: string, rest: string)
    requires s == "%2F" + rest && Unescape(rest, false) == Some(rest)
    ensures Unescape(s, false) == Some(['/'] + rest)
  {
    assert s[3..] == rest && s[0] == '%' && s[1] == '2' && s[2] == 'F';
    assert EscapedChar(s) == '/';
  }

  lemma PlainCharFirst(s: string, rest: string, x: string)
    requires s != "" && s[0] != '%' && s[1..] == rest && Unescape(rest, false) == Some(x)
    ensures Unescape(s, false) == Some([s[0]] + x)
  {
  }

  lemma SlashesTrimmed(path: string, x: string, t: string)
    requires Unescape(path, false) == Some(x) && x == t + "/" && t == "//foo"
    ensures PathText(path) == t
  {
    hide Unescape, Escape;
    assert x[..|t|] == t;
    assert TrimRight(x, '/') == TrimRight(t, '/') == t;
    EscapeNothing(t, InPath);
  }

  // ---------- Spellings of a path ----------

  /** http://h/(a) and http://h/(a)/ agree on the trimmed path, but not on its spelling. */
  lemma ParenthesesMatter(lower: string -> string, p: string, q: string, user: User, host: string)
    requires p == "/(a)" && q == "/(a)/"
    ensures TrimRight(Unescaped(p), '/') == TrimRight(Unescaped(q), '/') == p
    ensures PathText(p) == p && PathText(q) == Escape(p, InPath) == "/" + "%28" + "a" + "%29"
    ensures !HiersAgree(lower, "http", Authority(user, host, p), Authority(user, host, q))
  {
    hide Unescape, Escape;
    UnescapeShortens(p, false);
    UnescapeShortens(q, false);
    assert q == p + "/";
    SlashBehindSegment(p);
    TrimmedOnce(p);
    EscapeParentheses(p);
    assert |PathText(q)| != |p|;
  }

  lemma TrimmedOnce(x: string)
    requires !EndsWith(x, '/')
    ensures TrimRight(x, '/') == x == TrimRight(x + "/", '/')
  {
    assert (x + "/")[..|x|] == x;
  }

  lemma EscapeParentheses(p: string)
    requires p == "/(a)"
    ensures Escape(p, InPath) == "/" + "%28" + "a" + "%29"
  {
    hide Escape;
    assert p == "/" + ("(" + ("a" + (")" + "")));
    EscapeOne("/", "(" + ("a" + (")" + "")));
    EscapeOne("(", "a" + (")" + ""));
    EscapeOne("a", ")" + "");
    EscapeOne(")", "");
    EscapeNothing("", InPath);
    Parentheses();
  }

  lemma EscapeOne(c: string, rest: string)
    requires |c| == 1
    ensures Escape(c + rest, InPath) == EscapeChar(c[0], InPath) + Escape(rest, InPath)
  {
    assert (c + rest)[1..] == rest;
  }

  lemma Parentheses()
    ensures EscapeChar('/', InPath) == "/" && EscapeChar('a', InPath) == "a"
    ensures EscapeChar('(', InPath) == "%28" && EscapeChar(')', InPath) == "%29"
  {
  }

  /** So it is with http://h/a%2Fb, which stays, and http://h/a%2Fb/, which becomes http://h/a/b. */
  lemma EscapedSlashMatters(lower: string -> string, p: string, q: string, x: string, user: User, host: string)
    requires p == "/a%2Fb" && q == "/a%2Fb/" && x == "/a/b"
    ensures TrimRight(Unescaped(p), '/') == TrimRight(Unescaped(q), '/') == x
    ensures PathText(p) == p && PathText(q) == x
    ensures !HiersAgree(lower, "http", Authority(user, host, p), Authority(user, host, q))
  {
    hide Unescape, Escape;
    SlashInside(p, "b");
    SlashInside(q, "b/");
    assert x + "/" == "/a" + (['/'] + "b/") && x == "/a" + (['/'] + "b");
    SlashBehindSegment(x);
    TrimmedOnce(x);
    EscapeNothing(x, InPath);
  }

  lemma SlashInside(p: string, rest: string)
    requires p == "/a%2F" + rest && '%' !in rest
    ensures Unescape(p, false) == Some("/a" + (['/'] + rest))
  {
    hide Unescape;
    UnescapeShortens(rest, false);
    SlashEscape(p[2..], rest);
    PlainCharFirst(p[1..], p[2..], ['/'] + rest);
    PlainCharFirst(p, p[1..], ['a'] + (['/'] + rest));
    assert "/a" + (['/'] + rest) == ['/'] + (['a'] + (['/'] + rest));
  }

  // ---------- Addresses ----------

  /** http://[fe80::abcd]/ becomes http://fe80::abcd/, which does not parse. */
  lemma AddressNotTakenBack(lib: Lib, a: string, path: string)
    requires Valid(lib) && a == "fe80::abcd" && path == "/" && lib.address(a) == Some(a)
    ensures var rawURL := Http("//" + ("[" + a + "]") + path, None, None);
            && CanonicalizeURL(lib, rawURL).Canonical?
            && CanonicalizeURL(lib, rawURL).text == "http:" + ("//" + a + path)
            && CanonicalizeURL(lib, CanonicalizeURL(lib, rawURL).text) == Unparsable
  {
    hide TrimSpace, Parse, Valid, Unescape, CanonicalizeURL, ParseHier, ParseAuthority, Bytes, HasControl, Hostname;
    hide ReadableHier, Stable, Port, NormalForm, PathText;
    var host := "[" + a + "]";
    var rawURL := Http("//" + host + path, None, None);
    assert rawURL == "http://[fe80::abcd]/";
    UnescapeShortens(path, false);
    AddressReads(lib, a, host);
    HierApart(lib, host, path);
    HttpIsTrimmed(rawURL, '/');
    RootStays(path);
    ReadsAddress("//" + host + path, rawURL);
    var u := Url("http", Authority(NoUser, host, path), None);
    HttpNormal(lib, "//" + host + path, None, None, u.hier);
    NormalAddress(lib, u, a, path);
    assert a[4] == ':' && ':' in a;
    CanonicalizeTwice(lib, rawURL);
  }

  lemma ReadsAddress(h: string, rawURL: string)
    requires h == "//[fe80::abcd]/" && rawURL == "http://[fe80::abcd]/"
    ensures ReadableHier(h, None) && Bytes(rawURL)
  {
  }

  lemma RootStays(path: string)
    requires path == "/"
    ensures PathText(path) == path
  {
    hide Unescape;
    UnescapeShortens(path, false);
    assert path[..0] == "" && TrimRight(path, '/') == "";
  }

  lemma AddressReads(lib: Lib, a: string, host: string)
    requires a == "fe80::abcd" && host == "[" + a + "]" && lib.address(a) == Some(a)
    ensures ParseAuthority(lib, host) == Some((NoUser, host)) && Hostname(host) == a && Port(host) == ""
    ensures '/' !in host
  {
    hide ParseHost, Hostname, Port, TwoColons, HostChar, ToLower, Escape;
    BracketReads(lib, a, host);
    assert '@' !in host && '/' !in host;
    NoUserParsed(lib, host);
    assert host == "[" + a + "]" + "";
    assert a[4] == ':' && a[5] == ':';
    TwoColonsAt(a);
    AddressChars(a);
    BracketedHostname(host, a, "");
  }

  lemma BracketReads(lib: Lib, a: string, host: string)
    requires host == "[" + a + "]" && '[' !in a && lib.address(a) == Some(a)
    ensures ParseHost(lib, host) == Some(host)
  {
    var i := |a| + 1;
    assert host[i] == ']' && host[i + 1..] == "" && host[1..i] == a && host[1..] == a + "]";
    LastIndexAt(host, ']', i);
    assert "[" + a + "]" + "" == host;
  }

  lemma TwoColonsAt(a: string)
    requires |a| > 5 && a[4] == ':' && a[5] == ':'
    ensures TwoColons(a)
  {
  }

  lemma AddressChars(a: string)
    requires a == "fe80::abcd"
    ensures forall i :: 0 <= i < |a| ==> HostChar(a[i])
    ensures Escape(a, InHost) == a && ToLower(a) == a
  {
    hide ToLower, Escape;
    LowerIsItself(a);
    EscapeNothing(a, InHost);
  }

  lemma NormalAddress(lib: Lib, u: Url, a: string, path: string)
    requires Valid(lib) && a == "fe80::abcd"
    requires u.hier == Authority(NoUser, "[" + a + "]", path) && PathText(path) == path
    requires u.scheme == "http" && u.query.None? && Hostname("[" + a + "]") == a && Port("[" + a + "]") == ""
    ensures NormalForm(lib.lower, u).text == "http:" + ("//" + a + path)
  {
    hide ToLower, Escape, Hostname, Port, PathText, CanonicalQuery;
    NoQueryStays(lib.lower);
    AddressChars(a);
    assert LowersText(lib.lower, a);
    var c := CanonicalHost(lib.lower, u.scheme, "[" + a + "]");
    assert c == a;
    assert "" + Escape(c, InHost) == a;
    assert Text(NormalUrl(lib.lower, u)) == "http:" + ("//" + ("" + a) + path) + "";
  }
}
