/**
 Whole URLs and their normal forms, worked out.
 */
module CanonicalExamples {
  import opened CanonicalCases
  import opened CanonicalHosts
  import opened CanonicalPaths
  import opened CanonicalQueries
  import opened CanonicalUrls
  import opened Escapes
  import opened Options
  import opened Queries
  import opened Spaces
  import opened Texts
  import opened Urls

  // ---------- Parameters that go ----------

  /** http://h/?id=1&utm_source=x becomes http://h/?id=1. */
  lemma TrackingDropped(lib: Lib, h: string, path: string, q: string)
    requires Valid(lib) && h == "h" && path == "/" && q == "id=1" + "&" + "utm_source=x"
    ensures CanonicalizeURL(lib, Http("//" + h + path, Some(q), None))
            == Canonical(Http("//" + h + path, Some("id=1"), None), h)
  {
    hide TrimSpace, Parse, Valid, Unescape, CanonicalizeURL, ParseHier, ParseAuthority, Bytes, HasControl, Fields;
    hide ReadableHier, NormalForm, CanonicalQuery, Http, QueryText, Visible, CanonicalHost, PathText;
    EndsVisibly('x');
    var rawURL := Http("//" + h + path, Some(q), None);
    UnescapeShortens(path, false);
    HttpEnds("//" + h + path, q);
    HttpIsTrimmed(rawURL, 'x');
    PlainHostReads(lib, h);
    HierApart(lib, h, path);
    TrackingReads("//" + h + path, q);
    var u := Url("http", Authority(NoUser, h, path), Some(q));
    HttpNormal(lib, "//" + h + path, Some(q), None, u.hier);
    OneGoes(lib, q);
    TrackingForm(lib, u, h, path);
  }

  lemma HttpEnds(h: string, q: string)
    requires q != ""
    ensures var text := Http(h, Some(q), None);
            |text| > 5 && text[..5] == "http:" && text[|text| - 1] == q[|q| - 1]
  {
    var text := Http(h, Some(q), None);
    assert text == "http:" + (h + "?" + q);
  }

  lemma EndsVisibly(c: char)
    requires c == 'x'
    ensures Visible(c)
  {
  }

  lemma TrackingReads(h: string, q: string)
    requires h == "//h/" && q == "id=1&utm_source=x"
    ensures ReadableHier(h, Some(q))
  {
  }

  lemma TrackingForm(lib: Lib, u: Url, h: string, path: string)
    requires Valid(lib) && h == "h" && path == "/" && u.hier == Authority(NoUser, h, path) && u.scheme == "http"
    requires CanonicalQuery(lib.lower, u.query) == Some("id=1")
    ensures NormalForm(lib.lower, u) == Canonical(Http("//" + h + path, Some("id=1"), None), h)
  {
    hide CanonicalHost, Escape, Hostname, PathText, CanonicalQuery, TrimWww, Lowers, Addresses;
    RootStays(path);
    ShortHost(lib, h);
    var n := NormalUrl(lib.lower, u);
    assert n == Url("http", Authority(NoUser, h, path), Some("id=1"));
    assert "" + Escape(h, InHost) == h;
    assert Text(n) == "http:" + ("//" + ("" + h) + path) + QueryText(Some("id=1"));
    assert Http("//" + h + path, Some("id=1"), None) == "http:" + ("//" + h + path) + QueryText(Some("id=1"));
  }

  lemma ShortHost(lib: Lib, h: string)
    requires Valid(lib) && h == "h"
    ensures CanonicalHost(lib.lower, "http", h) == h && Escape(h, InHost) == h && TrimWww(Hostname(h)) == h
  {
    hide CanonicalHost, Hostname, Escape, ToLower, TrimWww, Lowers, Addresses;
    PortRule(lib.lower, "http", h, "");
    AsciiLower(lib.lower, h);
    LowerIsItself(h);
    EscapeNothing(h, InHost);
    HostRoundTrip(h, "");
    ShortName(h);
  }

  lemma ShortName(h: string)
    requires |h| < 4
    ensures TrimWww(h) == h
  {
  }

  lemma OneGoes(lib: Lib, q: string)
    requires Valid(lib) && q == "id=1" + "&" + "utm_source=x"
    ensures CanonicalQuery(lib.lower, Some(q)) == Some("id=1")
  {
    hide Fields, FieldsText, Sort, Kept, CanonicalQuery, ShouldDropQueryParam, PairText, Bytes, Lowers, Addresses;
    var id, utm := Pair("id", "1"), Pair("utm_source", "x");
    PairWritten(id, "id=1");
    PairWritten(utm, "utm_source=x");
    TwoWritten(id, utm, q);
    OneWritten(id);
    AsciiPairs(id, utm);
    FieldsRead([id, utm]);
    KeysTell(lib.lower);
    OneKept(lib.lower, id, utm);
    QueryForm(lib.lower, Some(q));
    SortOne(id);
  }

  lemma PairWritten(p: Pair, text: string)
    requires text == p.key + "=" + p.value
    requires forall i :: 0 <= i < |p.key| ==> p.key[i] == '_' || IsLetter(p.key[i])
    requires forall i :: 0 <= i < |p.value| ==> IsDigit(p.value[i]) || IsLetter(p.value[i])
    ensures PairText(p) == text
  {
    EscapeNothing(p.key, InQuery);
    EscapeNothing(p.value, InQuery);
  }

  lemma TwoWritten(a: Pair, b: Pair, q: string)
    requires q == PairText(a) + "&" + PairText(b)
    ensures FieldsText([a, b]) == q
  {
    hide PairText;
    assert PairTexts([a, b]) == [PairText(a), PairText(b)];
    TwoJoined(PairText(a), PairText(b));
  }

  lemma TwoJoined(a: string, b: string)
    ensures Join([a, b], '&') == a + "&" + b
  {
    assert [a, b][1..] == [b];
    assert Join([b], '&') == b;
  }

  lemma OneWritten(a: Pair)
    ensures FieldsText([a]) == PairText(a)
  {
    hide PairText;
    assert PairTexts([a]) == [PairText(a)];
  }

  lemma AsciiPairs(a: Pair, b: Pair)
    requires a == Pair("id", "1") && b == Pair("utm_source", "x")
    ensures forall p :: p in [a, b] ==> PairBytes(p)
  {
  }

  lemma KeysTell(lower: string -> string)
    requires Lowers(lower)
    ensures !ShouldDropQueryParam(lower, "id") && ShouldDropQueryParam(lower, "utm_source")
  {
    hide TrimSpace, ToLower, Lowers, Contains, DROPPED;
    KeyStays(lower, "id");
    KeyStays(lower, "utm_source");
    NotMentioned("id", "token");
    NotMentioned("id", "session");
    NotMentioned("id", "signature");
    NotListed("id");
  }

  /** A key in lower-case letters and underscores is trimmed and lower-cased into itself. */
  lemma KeyStays(lower: string -> string, key: string)
    requires Lowers(lower) && key != "" && forall i :: 0 <= i < |key| ==> key[i] == '_' || 'a' <= key[i] <= 'z'
    ensures lower(TrimSpace(key)) == key
  {
    hide TrimSpace, TrimEnd, ToLower;
    VisibleFront(key);
    VisibleEnd(key);
    assert LowersText(lower, key);
    LowerIsItself(key);
  }

  lemma NotMentioned(k: string, word: string)
    requires |k| < |word|
    ensures !Contains(k, word)
  {
  }

  lemma NotListed(k: string)
    requires |k| == 2
    ensures k !in DROPPED
  {
    hide CLICKS, LOGINS, FILTERS, ORDERS, SEARCHES, REFERRERS;
    NotAClick(k);
    NotALogin(k);
    NoView(k);
    NoSearch(k);
    NoReferrer(k);
  }

  lemma NotAClick(k: string)
    requires |k| == 2
    ensures k !in CLICKS
  {
  }

  lemma NotALogin(k: string)
    requires |k| == 2
    ensures k !in LOGINS
  {
  }

  lemma NoView(k: string)
    requires |k| == 2
    ensures k !in FILTERS && k !in ORDERS
  {
  }

  lemma NoSearch(k: string)
    requires |k| == 2
    ensures k !in SEARCHES
  {
  }

  lemma NoReferrer(k: string)
    requires |k| == 2
    ensures k !in REFERRERS
  {
  }

  lemma OneKept(lower: string -> string, a: Pair, b: Pair)
    requires !ShouldDropQueryParam(lower, a.key) && ShouldDropQueryParam(lower, b.key)
    ensures Kept(lower, [a, b]) == [a]
  {
    hide ShouldDropQueryParam;
    assert [a, b][..1] == [a] && [a][..0] == [];
    assert Kept(lower, []) == [] && Kept(lower, [a]) == [a];
  }

  lemma SortOne(a: Pair)
    ensures Sort(PairLeq, [a]) == [a]
  {
    PairLeqIsTotalOrder();
    SortSorts(PairLeq, [a]);
    SortedIsUnique(PairLeq, [a], Sort(PairLeq, [a]));
  }

  // ---------- A URL in which everything changes ----------

  /** The parts of a URL and of its normal form. */
  datatype Case = Case(scheme: string, host: string, path: string, query: string)

  ghost predicate Given(c: Case) {
    && c.scheme == "HTTP" && c.host == "WWW.h" + ":" + "80" && c.path == "/a" + "/"
    && c.query == "bb=2" + "&" + "aa=1"
  }

  /** HTTP://WWW.h:80/a/?bb=2&aa=1#f becomes http://www.h/a?aa=1&bb=2, of domain h. */
  lemma EverythingChanges(lib: Lib, c: Case)
    requires Valid(lib) && Given(c)
    ensures CanonicalizeURL(lib, SchemeText(c.scheme) + ("//" + c.host + c.path) + QueryText(Some(c.query)) + "#f")
            == Canonical("http:" + ("//" + "www.h" + "/a") + ("?" + ("aa=1" + "&" + "bb=2")), "h")
  {
    hide TrimSpace, Parse, Unescape, ParseHier, ParseAuthority, Bytes, HasControl, NormalForm, ToLower;
    hide Readable, Lowers, Addresses, CanonicalQuery, ValidScheme;
    var h := "//" + c.host + c.path;
    var rawURL := SchemeText(c.scheme) + h + QueryText(Some(c.query)) + "#f";
    UnescapeShortens("f", false);
    UnescapeShortens(c.path, false);
    UpperScheme(c.scheme);
    UpperHost(lib, c.host);
    HierApart(lib, c.host, c.path);
    PartsReadable(h, c);
    ParseReadable(lib, c.scheme, h, Some(c.query), Some("f"));
    Untrimmed(rawURL, h, c);
    var u := Url("http", Authority(NoUser, c.host, c.path), Some(c.query));
    assert FragmentText(Some("f")) == "#f";
    assert Parse(lib, rawURL) == Some(u);
    FormFound(lib, u, c);
  }

  lemma LowerStep(s: string, rest: string, low: string, t: string)
    requires s != "" && s[1..] == rest && ToLower(rest) == low && t == [LowerChar(s[0])] + low
    ensures ToLower(s) == t
  {
  }

  lemma UpperScheme(scheme: string)
    requires scheme == "HTTP"
    ensures ValidScheme(scheme) && ToLower(scheme) == "http"
  {
    hide ToLower;
    LowerIsItself("");
    LowerStep("P", "", "", "p");
    LowerStep("TP", "P", "p", "tp");
    LowerStep("TTP", "TP", "tp", "ttp");
    LowerStep(scheme, "TTP", "ttp", "http");
  }

  lemma UpperName(name: string)
    requires name == "WWW.h"
    ensures ToLower(name) == "www.h"
  {
    hide ToLower;
    LowerIsItself(".h");
    LowerStep("W.h", ".h", ".h", "w.h");
    LowerStep("WW.h", "W.h", "w.h", "ww.h");
    LowerStep(name, "WW.h", "ww.h", "www.h");
  }

  lemma NameChars(name: string)
    requires name == "WWW.h"
    ensures HostText(name) && ':' !in name && '[' !in name && '/' !in name && '@' !in name && '%' !in name
  {
  }

  lemma UpperHost(lib: Lib, host: string)
    requires host == "WWW.h" + ":" + "80"
    ensures ParseAuthority(lib, host) == Some((NoUser, host)) && '/' !in host
  {
    hide ParseAuthority, ParseHost, Cut, HostText;
    NameChars("WWW.h");
    PortCut("WWW.h", "80");
    HostCharsAround("WWW.h", "80");
    ConcatHas("WWW.h", ":80", '/');
    PlainHostStays(lib, host);
    NoUserParsed(lib, host);
  }

  lemma HostCharsAround(name: string, port: string)
    requires HostText(name) && AllDigits(port)
    requires '[' !in name && '@' !in name && '%' !in name
    ensures var host := name + ":" + port; HostText(host) && '[' !in host && '@' !in host && '%' !in host
  {
  }

  lemma PartsReadable(h: string, c: Case)
    requires Given(c) && h == "//" + c.host + c.path
    ensures Readable(h) && '?' !in h && Readable(c.query)
  {
    hide Readable;
    FrontReadable(h);
    QueryIsReadable(c.query);
  }

  lemma FrontReadable(h: string)
    requires h == "//WWW.h:80/a/"
    ensures Readable(h) && '?' !in h
  {
  }

  lemma QueryIsReadable(q: string)
    requires q == "bb=2&aa=1"
    ensures Readable(q)
  {
  }

  /** Nothing visible is trimmed off. */
  lemma Untrimmed(rawURL: string, h: string, c: Case)
    requires c.scheme == "HTTP" && rawURL == SchemeText(c.scheme) + h + QueryText(Some(c.query)) + "#f"
    ensures TrimSpace(rawURL) == rawURL != ""
  {
    hide TrimSpace, TrimEnd;
    var front := SchemeText(c.scheme) + h + QueryText(Some(c.query));
    assert rawURL == front + "#f" && rawURL[|rawURL| - 1] == 'f';
    assert SchemeText(c.scheme)[0] == 'H' && rawURL[0] == 'H';
    VisibleFront(rawURL);
    VisibleEnd(rawURL);
  }

  lemma FormFound(lib: Lib, u: Url, c: Case)
    requires Valid(lib) && Given(c) && u == Url("http", Authority(NoUser, c.host, c.path), Some(c.query))
    ensures NormalForm(lib.lower, u)
            == Canonical("http:" + ("//" + "www.h" + "/a") + ("?" + ("aa=1" + "&" + "bb=2")), "h")
  {
    hide CanonicalQuery, CanonicalHost, PathText, Escape, Hostname, TrimWww, Lowers, Addresses;
    NameFound(lib, c.host);
    PathFound(c.path);
    QueryFoundSorted(lib, c.query);
    var n := NormalUrl(lib.lower, u);
    assert n == Url("http", Authority(NoUser, "www.h", "/a"), Some("aa=1" + "&" + "bb=2"));
    assert "" + Escape("www.h", InHost) == "www.h";
    assert Text(n) == "http:" + ("//" + ("" + "www.h") + "/a") + ("?" + ("aa=1" + "&" + "bb=2"));
  }

  lemma NameFound(lib: Lib, host: string)
    requires Valid(lib) && host == "WWW.h" + ":" + "80"
    ensures CanonicalHost(lib.lower, "http", host) == "www.h" && Escape("www.h", InHost) == "www.h"
    ensures TrimWww(Hostname("www.h")) == "h"
  {
    hide CanonicalHost, Hostname, Escape, ToLower, TrimWww, Lowers, Addresses;
    NameLowered(lib, "WWW.h", "www.h");
    PortRule(lib.lower, "http", "WWW.h", "80");
    LowNameStays("www.h");
  }

  lemma NameLowered(lib: Lib, name: string, low: string)
    requires Valid(lib) && name == "WWW.h" && low == "www.h"
    ensures lib.lower(name) == low && ':' !in name && !StartsWith(name, '[')
  {
    hide ToLower, Lowers, Addresses;
    NameChars(name);
    AsciiName(name);
    AsciiLower(lib.lower, name);
    UpperName(name);
  }

  lemma AsciiName(name: string)
    requires name == "WWW.h"
    ensures forall i :: 0 <= i < |name| ==> name[i] as int < 128
  {
  }

  lemma LowNameStays(name: string)
    requires name == "www.h"
    ensures Escape(name, InHost) == name && TrimWww(Hostname(name)) == "h"
  {
    hide Escape, Hostname, TrimWww;
    LowName(name);
    EscapeNothing(name, InHost);
    HostRoundTrip(name, "");
    WwwOff(name);
  }

  lemma WwwOff(name: string)
    requires name == "www.h"
    ensures TrimWww(name) == "h"
  {
    assert name[4..] == "h" && name[..4] == "www.";
  }

  lemma LowName(name: string)
    requires name == "www.h"
    ensures ':' !in name && !StartsWith(name, '[')
    ensures forall i :: 0 <= i < |name| ==> !MustEscape(name[i], InHost) && name[i] != ' '
  {
  }

  lemma AsciiLower(lower: string -> string, s: string)
    requires Lowers(lower) && forall i :: 0 <= i < |s| ==> s[i] as int < 128
    ensures lower(s) == ToLower(s)
  {
    assert LowersText(lower, s);
  }

  lemma PathFound(path: string)
    requires path == "/a" + "/"
    ensures PathText(path) == "/a"
  {
    hide Unescape, Escape;
    UnescapeShortens(path, false);
    SlashBehindSegment("/a");
    EscapeNothing("/a", InPath);
  }

  lemma QueryFoundSorted(lib: Lib, q: string)
    requires Valid(lib) && q == "bb=2" + "&" + "aa=1"
    ensures CanonicalQuery(lib.lower, Some(q)) == Some("aa=1" + "&" + "bb=2")
  {
    hide Fields, FieldsText, Sort, Kept, CanonicalQuery, ShouldDropQueryParam, PairText, Bytes, Lowers, Addresses;
    var a, b := Pair("aa", "1"), Pair("bb", "2");
    PairWritten(a, "aa=1");
    PairWritten(b, "bb=2");
    TwoWritten(b, a, q);
    TwoWritten(a, b, "aa=1" + "&" + "bb=2");
    PlainPairs(a, b);
    FieldsRead([b, a]);
    BothStay(lib.lower);
    KeptAll(lib.lower, [b, a]);
    QueryForm(lib.lower, Some(q));
    SortTwo(a, b);
  }

  lemma PlainPairs(a: Pair, b: Pair)
    requires a == Pair("aa", "1") && b == Pair("bb", "2")
    ensures forall p :: p in [b, a] ==> PairBytes(p)
  {
  }

  lemma BothStay(lower: string -> string)
    requires Lowers(lower)
    ensures !ShouldDropQueryParam(lower, "aa") && !ShouldDropQueryParam(lower, "bb")
  {
    hide TrimSpace, ToLower, Lowers, ShouldDropQueryParam;
    KeyStays(lower, "aa");
    KeyStays(lower, "bb");
    ShortKeyStays(lower, "aa");
    ShortKeyStays(lower, "bb");
  }

  lemma ShortKeyStays(lower: string -> string, k: string)
    requires |k| == 2 && lower(TrimSpace(k)) == k
    ensures !ShouldDropQueryParam(lower, k)
  {
    hide TrimSpace, Contains, DROPPED;
    NotMentioned(k, "token");
    NotMentioned(k, "session");
    NotMentioned(k, "signature");
    NotListed(k);
  }

  lemma SortTwo(a: Pair, b: Pair)
    requires a == Pair("aa", "1") && b == Pair("bb", "2")
    ensures Sort(PairLeq, [b, a]) == [a, b]
  {
    hide Sort;
    PairLeqIsTotalOrder();
    SortSorts(PairLeq, [b, a]);
    assert PairLeq(a, b);
    assert multiset([b, a]) == multiset([a, b]);
    SortedIsUnique(PairLeq, [a, b], Sort(PairLeq, [b, a]));
  }
}
