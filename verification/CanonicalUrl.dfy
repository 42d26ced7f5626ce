/**
 Normal forms of crawled URLs, from text to text: which texts are left alone by a second normalization,
 and which share a normal form.
 */
module CanonicalUrls {
  import opened CanonicalHosts
  import opened CanonicalPaths
  import opened CanonicalQueries
  import opened Escapes
  import opened Options
  import opened Queries
  import opened Spaces
  import opened Texts
  import opened Urls

  datatype Result = Canonical(text: string, domain: string) | Unsupported(scheme: string) | Unparsable | Empty

  predicate Supported(scheme: string) {
    scheme == "http" || scheme == "https"
  }

  function NormalHier(lower: string -> string, scheme: string, h: Hier): Hier {
    match h
    case Opaque(_) => h
    case PathOnly(path) => PathOnly(PathText(path))
    case Authority(user, host, path) => Authority(user, CanonicalHost(lower, scheme, host), PathText(path))
  }

  ghost function NormalUrl(lower: string -> string, u: Url): Url {
    Url(u.scheme, NormalHier(lower, u.scheme, u.hier), CanonicalQuery(lower, u.query))
  }

  function DomainOf(u: Url): string {
    TrimWww(Hostname(HostOf(u)))
  }

  ghost function NormalForm(lower: string -> string, u: Url): (r: Result)
    ensures r.Canonical?
  {
    var n := NormalUrl(lower, u);
    Canonical(Text(n), DomainOf(n))
  }

  ghost function CanonicalizeURL(lib: Lib, rawURL: string): Result {
    var text := TrimSpace(rawURL);
    if text == "" then Empty
    else
      var u := Parse(lib, text);
      if u.None? then Unparsable
      else if !Supported(u.value.scheme) then Unsupported(u.value.scheme)
      else NormalForm(lib.lower, u.value)
  }

  /** The domain of a URL that has not been normalized. */
  function ExtractDomain(lib: Lib, rawURL: string): string {
    var u := Parse(lib, rawURL);
    if u.None? then "" else TrimWww(lib.lower(Hostname(HostOf(u.value))))
  }

  // ---------- Parsed URLs ----------

  predicate Readable(s: string) {
    '#' !in s && !HasControl(s) && Bytes(s)
  }

  ghost predicate HierOK(h: Hier) {
    match h
    case Opaque(text) => text != "" && !StartsWith(text, '/') && '?' !in text && Readable(text)
    case PathOnly(path) => PathOK(path) && StartsWith(path, '/') && !("//" <= path)
    case Authority(user, host, path) =>
      UserBytes(user) && HostOK(host) && Bytes(host) && PathOK(path) && (path == "" || path[0] == '/')
  }

  ghost predicate UrlOK(u: Url) {
    Supported(u.scheme) && HierOK(u.hier) && (u.query.Some? ==> Readable(u.query.value))
  }

  lemma SchemeLiterals(scheme: string)
    requires Supported(scheme)
    ensures ValidScheme(scheme) && ToLower(scheme) == scheme && Readable(SchemeText(scheme))
    ensures SchemeText(scheme) == scheme + ":" && Visible(scheme[0])
  {
    hide ToLower;
    assert forall i :: 0 <= i < |scheme| ==> 'a' <= scheme[i] <= 'z';
    LowerIsItself(scheme);
    LettersAreReadable(scheme);
  }

  lemma LettersAreReadable(s: string)
    requires forall i :: 0 <= i < |s| ==> 'a' <= s[i] <= 'z'
    ensures Readable(s + ":")
  {
  }

  lemma ReadablePart(s: string, a: string, b: string)
    requires Readable(s) && s == a + b
    ensures Readable(a) && Readable(b)
  {
    assert forall i :: 0 <= i < |a| ==> a[i] == s[i];
    assert forall i :: 0 <= i < |b| ==> b[i] == s[|a| + i];
  }

  lemma ReadableConcat(a: string, b: string)
    requires Readable(a) && Readable(b)
    ensures Readable(a + b)
  {
  }

  lemma HostParsedBytes(lib: Lib, s: string)
    requires Valid(lib) && Bytes(s) && ParseHost(lib, s).Some?
    ensures HostOK(ParseHost(lib, s).value) && Bytes(ParseHost(lib, s).value)
  {
    hide ParseHost, HostOK, AddressOf;
    HostParsed(lib, s);
    if '[' in s {
      var a, port := BracketHostParsed(lib, s);
      var inner :| s == "[" + inner + "]" + port && AddressOf(inner, a);
      AddressBytes(s, inner, a, port);
    } else {
      PlainHostParsed(lib, s);
      UnescapeHostBytes(s);
    }
  }

  lemma AddressBytes(s: string, inner: string, a: string, port: string)
    requires Bytes(s) && s == "[" + inner + "]" + port && AddressOf(inner, a)
    ensures Bytes("[" + a + "]" + port)
  {
    hide TwoColons;
    assert forall i :: 0 <= i < |inner| ==> inner[i] == s[1 + i];
    assert forall i :: 0 <= i < |port| ==> port[i] == s[2 + |inner| + i];
  }

  lemma UserParsedBytes(info: string)
    requires Bytes(info) && ParseUser(info).Some?
    ensures UserBytes(ParseUser(info).value)
  {
    hide Unescape, Cut;
    var (name, password) := Cut(info, ':');
    CutSplits(info, ':');
    assert forall i :: 0 <= i < |name| ==> name[i] == info[i];
    UnescapeBytes(name, false);
    if password.Some? {
      assert forall i :: 0 <= i < |password.value| ==> password.value[i] == info[|name| + 1 + i];
      UnescapeBytes(password.value, false);
    }
  }

  lemma AuthorityParsed(lib: Lib, a: string)
    requires Valid(lib) && Bytes(a) && ParseAuthority(lib, a).Some?
    ensures var (user, host) := ParseAuthority(lib, a).value;
            UserBytes(user) && HostOK(host) && Bytes(host)
  {
    hide ParseHost, ParseUser, HostOK;
    var i := LastIndex(a, '@');
    assert Bytes(a[i + 1..]);
    HostParsedBytes(lib, a[i + 1..]);
    if i >= 0 {
      assert Bytes(a[..i]);
      UserParsedBytes(a[..i]);
    }
  }

  lemma HierParsed(lib: Lib, h: string)
    requires Valid(lib) && Readable(h) && '?' !in h && ParseHier(lib, true, h).Some?
    ensures HierOK(ParseHier(lib, true, h).value)
  {
    hide ParseAuthority, Unescape, Cut, HostOK;
    if "//" <= h {
      var a, path := AuthorityParts(lib, h);
      assert forall i :: 0 <= i < |a| ==> a[i] == h[2 + i];
      assert forall i :: 0 <= i < |path| ==> path[i] == h[2 + |a| + i];
      AuthorityParsed(lib, a);
    } else if h == "" {
      NoAuthority();
    }
  }

  lemma NoAuthority()
    ensures HierOK(Authority(NoUser, "", ""))
  {
    assert PlainHost("");
  }

  lemma UrlParsed(lib: Lib, text: string)
    requires Valid(lib) && Bytes(text) && Parse(lib, text).Some? && Supported(Parse(lib, text).value.scheme)
    ensures UrlOK(Parse(lib, text).value)
  {
    hide Parse, ParseHier, HierOK, ToLower, SplitScheme, HasControl;
    var scheme, h, q, fragment := PartsOf(lib, text);
    var body := SchemeText(scheme) + h + QueryText(q);
    assert Bytes(body) by { assert forall i :: 0 <= i < |body| ==> body[i] == text[i]; }
    ReadablePart(body, SchemeText(scheme) + h, QueryText(q));
    ReadablePart(SchemeText(scheme) + h, SchemeText(scheme), h);
    if q.Some? { ReadablePart(QueryText(q), "?", q.value); }
    LowerOfNothing();
    HierParsed(lib, h);
  }

  lemma LowerOfNothing()
    ensures ToLower("") == ""
  {
  }

  // ---------- The text of a normal form ----------

  /** The text between scheme and query: never empty, and visible unless it is opaque. */
  predicate HierTextOK(h: Hier, text: string) {
    && text != "" && '?' !in text && Readable(text)
    && (!h.Opaque? ==> Plainly(text) && text[0] == '/')
  }

  lemma PlainIsReadable(s: string)
    requires Plainly(s)
    ensures '?' !in s && Readable(s)
  {
  }

  lemma EscapeIsPlain(s: string, mode: Mode)
    ensures Plainly(Escape(s, mode))
  {
    hide Escape, Escaped;
    var e := Escape(s, mode);
    EscapeIsEscaped(s, mode);
    forall i | 0 <= i < |e| ensures Visible(e[i]) && e[i] != '?' && e[i] != '#' {
      assert e[i] in e;
      EscapedIsVisible(e[i], mode);
    }
  }

  lemma UserTextIsPlain(user: User)
    ensures Plainly(UserText(user))
  {
    hide Escape;
    match user
    case NoUser =>
    case Name(name) => EscapeIsPlain(name, InUser);
    case Login(name, password) =>
      EscapeIsPlain(name, InUser);
      EscapeIsPlain(password, InUser);
  }

  lemma PlainConcat(a: string, b: string)
    requires Plainly(a) && Plainly(b)
    ensures Plainly(a + b)
  {
  }

  lemma NormalHierText(lower: string -> string, scheme: string, h: Hier)
    requires HierOK(h)
    ensures HierTextOK(h, HierText(NormalHier(lower, scheme, h)))
  {
    hide Escape, CanonicalHost, PathText, Plainly, Readable, UserText, HostOK, PathOK;
    match h
    case Opaque(_) =>
    case PathOnly(path) =>
      PathTextTwice(path);
      PathTextFront(path);
      PlainIsReadable(PathText(path));
    case Authority(user, host, path) =>
      var c := CanonicalHost(lower, scheme, host);
      PathTextTwice(path);
      PathTextFront(path);
      UserTextIsPlain(user);
      EscapeIsPlain(c, InHost);
      AuthorityTextIsPlain(UserText(user), Escape(c, InHost), PathText(path));
      PlainIsReadable("//" + (UserText(user) + Escape(c, InHost)) + PathText(path));
  }

  lemma SlashesArePlain()
    ensures Plainly("//")
  {
  }

  lemma AuthorityTextIsPlain(user: string, host: string, path: string)
    requires Plainly(user) && Plainly(host) && Plainly(path)
    ensures Plainly("//" + (user + host) + path)
  {
    hide Plainly;
    SlashesArePlain();
    PlainConcat(user, host);
    PlainConcat("//", user + host);
    PlainConcat("//" + (user + host), path);
  }

  /** What has a normal form: the HTTP(S) URLs, and the normal form has their scheme. */
  lemma AcceptedTexts(lib: Lib, rawURL: string)
    requires Valid(lib)
    ensures var u := Parse(lib, TrimSpace(rawURL));
            var r := CanonicalizeURL(lib, rawURL);
            && (r.Canonical? <==> u.Some? && (u.value.scheme == "http" || u.value.scheme == "https"))
            && (r.Canonical? ==> SchemeText(u.value.scheme) <= r.text)
            && (r.Unparsable? ==> u.None?)
  {
    hide TrimSpace, Parse, NormalUrl, Hostname, TrimWww;
    if TrimSpace(rawURL) == "" { NothingParsed(lib); }
    if CanonicalizeURL(lib, rawURL).Canonical? {
      var n := NormalUrl(lib.lower, Parse(lib, TrimSpace(rawURL)).value);
      NormalScheme(lib.lower, Parse(lib, TrimSpace(rawURL)).value);
      Regroup(SchemeText(n.scheme), HierText(n.hier), QueryText(n.query));
    }
  }

  lemma NormalScheme(lower: string -> string, u: Url)
    ensures NormalUrl(lower, u).scheme == u.scheme
  {
  }

  lemma NothingParsed(lib: Lib)
    ensures Parse(lib, "").Some? ==> Parse(lib, "").value.scheme == ""
  {
  }

  // ---------- The second pass ----------

  /** What the first pass leaves at the end of the text, where nothing is escaped. */
  ghost predicate SpaceBehindUrl(lower: string -> string, u: Url) {
    var q := CanonicalQuery(lower, u.query);
    if q.Some? then EndsInSpace(q.value) else u.hier.Opaque? && EndsInSpace(u.hier.text)
  }

  /** What is left of hier and query text when spaces at the end are trimmed. */
  ghost function TrimmedQuery(q: Option<string>): Option<string> {
    if q.Some? then Some(TrimEnd(q.value)) else None
  }

  ghost function TrimmedHier(h: string, q: Option<string>): string {
    if q.Some? then h else TrimEnd(h)
  }

  lemma TrimText(scheme: string, h: string, q: Option<string>)
    requires Supported(scheme)
    ensures TrimSpace(SchemeText(scheme) + h + QueryText(q))
            == SchemeText(scheme) + TrimmedHier(h, q) + QueryText(TrimmedQuery(q))
  {
    hide TrimEnd, TrimSpace, Visible;
    var text := SchemeText(scheme) + h + QueryText(q);
    SchemeLiterals(scheme);
    assert text[0] == scheme[0];
    VisibleFront(text);
    Separators();
    if q.Some? {
      assert text == SchemeText(scheme) + h + ['?'] + q.value;
      TrimEndBehind(SchemeText(scheme) + h, '?', q.value);
      assert QueryText(TrimmedQuery(q)) == ['?'] + TrimEnd(q.value);
    } else {
      assert text == scheme + [':'] + h;
      TrimEndBehind(scheme, ':', h);
      assert scheme + [':'] + TrimEnd(h) == SchemeText(scheme) + TrimEnd(h) + "";
    }
  }

  lemma Separators()
    ensures Visible('?') && Visible(':')
  {
  }

  lemma ReadablePrefix(s: string, t: string)
    requires Readable(s) && t <= s
    ensures Readable(t)
  {
    assert forall i :: 0 <= i < |t| ==> t[i] == s[i];
  }

  /** Parsing a text with nothing in it that ends or spoils a part. */
  lemma ParseReadable(lib: Lib, scheme: string, h: string, q: Option<string>, fragment: Option<string>)
    requires ValidScheme(scheme) && Readable(h) && '?' !in h && (q.Some? ==> Readable(q.value))
    requires fragment.Some? ==> Unescape(fragment.value, false).Some?
    ensures Parse(lib, SchemeText(scheme) + h + QueryText(q) + FragmentText(fragment))
            == WithHier(ToLower(scheme), ParseHier(lib, true, h), q)
  {
    hide ParseHier, Parse, ToLower, ParseBody, Unescape, Readable, ValidScheme, QueryText, FragmentText;
    var body := SchemeText(scheme) + h + QueryText(q);
    SchemeReadable(scheme);
    QueryTextReadable(q);
    ReadableConcat(SchemeText(scheme), h);
    ReadableConcat(SchemeText(scheme) + h, QueryText(q));
    ReadableLacks(body);
    TextApart(lib, body, fragment);
    BodyApart(lib, scheme, h, q);
  }

  lemma SchemeReadable(scheme: string)
    requires ValidScheme(scheme)
    ensures Readable(SchemeText(scheme))
  {
  }

  lemma ReadableLacks(s: string)
    requires Readable(s)
    ensures '#' !in s && !HasControl(s)
  {
  }

  lemma QueryTextReadable(q: Option<string>)
    requires q.Some? ==> Readable(q.value)
    ensures Readable(QueryText(q))
  {
    hide Readable;
    QuestionMarkIsReadable();
    if q.Some? { ReadableConcat("?", q.value); }
  }

  /** Parsing the trimmed text of a normal form again. */
  lemma ParseTrimmed(lib: Lib, scheme: string, h: string, q: Option<string>)
    requires Supported(scheme) && Readable(h) && '?' !in h && (q.Some? ==> Readable(q.value))
    ensures Parse(lib, TrimSpace(SchemeText(scheme) + h + QueryText(q)))
            == WithHier(scheme, ParseHier(lib, true, TrimmedHier(h, q)), TrimmedQuery(q))
    ensures TrimSpace(SchemeText(scheme) + h + QueryText(q)) != ""
  {
    hide TrimEnd, TrimSpace, ParseHier, Parse, Readable, TrimmedHier, QueryText, SchemeText, Unescape;
    TrimText(scheme, h, q);
    TrimmedIsReadable(h, q);
    if q.Some? { ReadablePrefix(q.value, TrimEnd(q.value)); }
    ParseReadable(lib, scheme, TrimmedHier(h, q), TrimmedQuery(q), None);
    var text := SchemeText(scheme) + TrimmedHier(h, q) + QueryText(TrimmedQuery(q));
    assert text + FragmentText(None) == text;
    SchemeLiterals(scheme);
  }

  lemma QuestionMarkIsReadable()
    ensures Readable("?") && Readable("")
  {
  }

  lemma TextsApart(scheme: string, h: string, q: Option<string>, h': string, q': Option<string>)
    requires '?' !in h && '?' !in h'
    ensures SchemeText(scheme) + h + QueryText(q) == SchemeText(scheme) + h' + QueryText(q')
            <==> h == h' && q == q'
  {
    hide Cut;
    var s, t := h + QueryText(q), h' + QueryText(q');
    Regroup(SchemeText(scheme), h, QueryText(q));
    Regroup(SchemeText(scheme), h', QueryText(q'));
    if SchemeText(scheme) + s == SchemeText(scheme) + t {
      assert (SchemeText(scheme) + s)[|SchemeText(scheme)|..] == s;
      assert (SchemeText(scheme) + t)[|SchemeText(scheme)|..] == t;
    }
    QueryApart(h, q);
    QueryApart(h', q');
  }

  lemma NormalQueryOK(lower: string -> string, query: Option<string>)
    requires query.Some? ==> Readable(query.value)
    ensures var q := CanonicalQuery(lower, query);
            && (q.Some? ==> Readable(q.value))
            && CanonicalQuery(lower, TrimmedQuery(q)) == TrimmedQuery(q)
  {
    hide CanonicalQuery, Fields, TrimEnd, HasControl, Visible;
    var q := CanonicalQuery(lower, query);
    QueryVisible(lower, query);
    CanonicalQueryTwice(lower, query);
    if q.Some? {
      if query.Some? && Fields(query.value) == [] && q == query {
        JunkTrimmed(query.value);
        EmptyQueryStays(lower, TrimEnd(query.value));
      } else {
        VisibleQueryStays(q.value);
      }
    }
  }

  lemma VisibleQueryStays(q: string)
    requires q != "" && VisibleText(q)
    ensures Readable(q) && TrimEnd(q) == q
  {
    VisibleEnd(q);
  }

  /** What a second normalization makes of a normal form. */
  lemma SecondPass(lib: Lib, u: Url)
    requires Valid(lib) && UrlOK(u)
    ensures var n := NormalUrl(lib.lower, u);
            var second := ParseHier(lib, true, TrimmedHier(HierText(n.hier), n.query));
            CanonicalizeURL(lib, Text(n))
            == if second.None? then Unparsable
               else var v := Url(u.scheme, NormalHier(lib.lower, u.scheme, second.value), TrimmedQuery(n.query));
                    Canonical(Text(v), DomainOf(v))
  {
    hide CanonicalQuery, TrimEnd, TrimSpace, ParseHier, Parse, NormalHier, HierText, HierOK, Readable, Valid;
    var n := NormalUrl(lib.lower, u);
    NormalHierText(lib.lower, u.scheme, u.hier);
    NormalQueryOK(lib.lower, u.query);
    ParseTrimmed(lib, u.scheme, HierText(n.hier), n.query);
  }

  /** When the path of a URL without an authority begins with two slashes: what is then read as one is that text. */
  ghost predicate ReadsAlike(lib: Lib, scheme: string, path: string)
    requires |path| >= 2
  {
    var (a, rest) := Cut(path[2..], '/');
    var authority := ParseAuthority(lib, a);
    && rest.Some? && authority.Some?
    && var host := CanonicalHost(lib.lower, scheme, authority.value.1);
       AuthorityText(authority.value.0, host) == a && TrimWww(Hostname(host)) == ""
  }

  /** What a normal form must be for a second normalization to leave it alone. */
  ghost predicate Stable(lib: Lib, u: Url) {
    && !SpaceBehindUrl(lib.lower, u)
    && match u.hier
       case Opaque(_) => true
       case PathOnly(path) => "//" <= PathText(path) ==> ReadsAlike(lib, u.scheme, PathText(path))
       case Authority(_, host, _) => ':' !in Hostname(host)
  }

  /** Which hier text is read as itself, with the same domain. */
  ghost predicate HierStays(lib: Lib, scheme: string, text: string, domain: string) {
    var h := ParseHier(lib, true, text);
    && h.Some? && HierText(NormalHier(lib.lower, scheme, h.value)) == text
    && DomainOf(Url(scheme, NormalHier(lib.lower, scheme, h.value), None)) == domain
  }

  lemma HierParsedText(lib: Lib, text: string)
    requires Valid(lib) && Readable(text) && '?' !in text && ParseHier(lib, true, text).Some?
    ensures forall lower, scheme :: '?' !in HierText(NormalHier(lower, scheme, ParseHier(lib, true, text).value))
  {
    hide ParseHier, HierOK, HierText, NormalHier, Readable;
    HierParsed(lib, text);
    forall lower, scheme
      ensures '?' !in HierText(NormalHier(lower, scheme, ParseHier(lib, true, text).value))
    {
      NormalHierText(lower, scheme, ParseHier(lib, true, text).value);
    }
  }

  /** The second pass gives the first result exactly when nothing is trimmed and the hier text stays. */
  lemma SecondPassStays(lib: Lib, u: Url)
    requires Valid(lib) && UrlOK(u)
    ensures var n := NormalUrl(lib.lower, u);
            var text, h := HierText(n.hier), TrimmedHier(HierText(n.hier), n.query);
            CanonicalizeURL(lib, Text(n)) == NormalForm(lib.lower, u)
            <==> && TrimmedQuery(n.query) == n.query && ParseHier(lib, true, h).Some?
                 && HierText(NormalHier(lib.lower, u.scheme, ParseHier(lib, true, h).value)) == text
                 && DomainOf(Url(u.scheme, NormalHier(lib.lower, u.scheme, ParseHier(lib, true, h).value), None))
                    == DomainOf(n)
  {
    hide CanonicalQuery, TrimEnd, TrimSpace, ParseHier, NormalHier, HierText, HierOK, CanonicalizeURL, Readable, Valid;
    var n := NormalUrl(lib.lower, u);
    var text, h := HierText(n.hier), TrimmedHier(HierText(n.hier), n.query);
    SecondPass(lib, u);
    NormalHierText(lib.lower, u.scheme, u.hier);
    if ParseHier(lib, true, h).Some? {
      TrimmedIsReadable(text, n.query);
      HierParsedText(lib, h);
      TextsApart(u.scheme, text, n.query,
                 HierText(NormalHier(lib.lower, u.scheme, ParseHier(lib, true, h).value)), TrimmedQuery(n.query));
    }
  }

  lemma TrimmedIsReadable(text: string, q: Option<string>)
    requires Readable(text) && '?' !in text
    ensures Readable(TrimmedHier(text, q)) && '?' !in TrimmedHier(text, q)
  {
    hide TrimEnd;
    var h := TrimmedHier(text, q);
    assert h <= text;
    ReadablePrefix(text, h);
    assert forall i :: 0 <= i < |h| ==> h[i] == text[i];
  }

  lemma NoHostname()
    ensures TrimWww(Hostname("")) == ""
  {
    hide Hostname;
    HostRoundTrip("", "");
  }

  /** An opaque text stays unless spaces behind it are trimmed. */
  lemma OpaqueStays(lib: Lib, scheme: string, text: string, trimmed: string)
    requires HierOK(Opaque(text)) && trimmed <= text
    ensures var h := ParseHier(lib, true, trimmed);
            && h.Some?
            && (HierText(NormalHier(lib.lower, scheme, h.value)) == text <==> trimmed == text)
            && (trimmed == text ==> NormalHier(lib.lower, scheme, h.value) == Opaque(text))
  {
    hide Escape, PathText, Readable, CanonicalHost;
    if trimmed == "" {
      var v := NormalHier(lib.lower, scheme, ParseHier(lib, true, trimmed).value);
      assert HierText(v)[0] == '/';
    }
  }

  /** A path is read as one, unless it begins with two slashes. */
  lemma PathOnlyStays(lib: Lib, scheme: string, path: string)
    requires HierOK(PathOnly(path))
    ensures HierStays(lib, scheme, PathText(path), "")
            <==> ("//" <= PathText(path) ==> ReadsAlike(lib, scheme, PathText(path)))
  {
    hide PathText, Unescape, CanonicalHost, Escape, Hostname;
    PathTextTwice(path);
    PathTextFront(path);
    NoHostname();
    if "//" <= PathText(path) { DoubleSlashStays(lib, scheme, path); }
  }

  lemma DoubleSlashStays(lib: Lib, scheme: string, path: string)
    requires HierOK(PathOnly(path)) && "//" <= PathText(path)
    ensures HierStays(lib, scheme, PathText(path), "") <==> ReadsAlike(lib, scheme, PathText(path))
  {
    hide PathText, Unescape, CanonicalHost, Escape, Hostname, ParseAuthority, Cut, AuthorityText, TrimWww;
    var pt := PathText(path);
    var (a, rest) := Cut(pt[2..], '/');
    CutSplits(pt[2..], '/');
    var behind := RootedPath(rest);
    assert pt == "//" + a + behind;
    if rest.Some? { RestOfPathText(path, "//" + a, behind); }
    HierApart(lib, a, behind);
    NothingIsPath();
    if ParseAuthority(lib, a).Some? {
      var (user, host) := ParseAuthority(lib, a).value;
      var text := AuthorityText(user, CanonicalHost(lib.lower, scheme, host));
      AuthorityTextsDiffer(text, PathText(behind), a, behind);
    }
  }

  lemma NothingIsPath()
    ensures PathText("") == "/" && PathOK("")
  {
    assert Escape("", InPath) == "";
    assert Escape("/"[1..], InPath) == "";
  }

  /** Behind the slashes, a text without a slash is followed by the path or by the root. */
  lemma AuthorityTextsDiffer(text: string, written: string, a: string, behind: string)
    requires '/' !in a && StartsWith(written, '/') && (behind != "" ==> written == behind)
    ensures "//" + text + written == "//" + a + behind <==> text == a && behind != ""
  {
    var x, y := "//" + text + written, "//" + a + behind;
    if behind == "" {
      assert x[2 + |text|] == '/';
      assert y[2..] == a;
    } else {
      assert x[2..] == text + written && y[2..] == a + behind;
      assert (text + written)[..|text|] == text && (a + behind)[..|a|] == a;
    }
  }

  /** Without a colon in its name a host is read as itself. */
  lemma AuthorityStays(lib: Lib, scheme: string, user: User, host: string, path: string)
    requires Valid(lib) && HierOK(Authority(user, host, path))
    ensures var n := NormalHier(lib.lower, scheme, Authority(user, host, path));
            && (':' !in Hostname(host) ==> ParseHier(lib, true, HierText(n)) == Some(n)
                                           && NormalHier(lib.lower, scheme, n) == n)
            && (':' in Hostname(host) ==> ParseHier(lib, true, HierText(n)) == None)
  {
    hide PathText, Unescape, CanonicalHost, Escape, Hostname, ParseHier, ParseHost, HostOK, UserText, PathOK, UserBytes;
    hide ParseAuthority;
    var c := CanonicalHost(lib.lower, scheme, host);
    PathTextTwice(path);
    PathTextFront(path);
    UserTextLacksSlash(user);
    EscapeHasNone(c);
    ConcatHas(UserText(user), Escape(c, InHost), '/');
    HierApart(lib, AuthorityText(user, c), PathText(path));
    AuthorityReads(lib, user, Escape(c, InHost));
    PathTextReads(path);
    ParsedHostname(host);
    if ':' in Hostname(host) {
      BracketedCanonicalHost(lib, scheme, host);
    } else {
      PlainCanonicalHost(lib.lower, scheme, host);
      EscapedHostReads(lib, c);
    }
  }

  lemma PathTextReads(path: string)
    requires PathOK(path)
    ensures Unescape(PathText(path), false).Some?
  {
    hide PathText, Unescape;
    PathTextTwice(path);
  }

  lemma NonOpaqueTrimmed(h: Hier, text: string, q: Option<string>)
    requires HierTextOK(h, text) && !h.Opaque?
    ensures TrimmedHier(text, q) == text
  {
    hide TrimEnd;
    VisibleEnd(text);
  }

  lemma QueryTrimmed(q: Option<string>)
    ensures TrimmedQuery(q) == q <==> (q.Some? ==> !EndsInSpace(q.value))
  {
    hide TrimEnd;
  }

  /** A normal form is its own normal form, with the same domain, exactly when it is stable. */
  lemma NormalFormStays(lib: Lib, u: Url)
    requires Valid(lib) && UrlOK(u)
    ensures CanonicalizeURL(lib, Text(NormalUrl(lib.lower, u))) == NormalForm(lib.lower, u) <==> Stable(lib, u)
  {
    hide CanonicalQuery, ParseHier, HierText, CanonicalizeURL, Readable, Valid, PathText, Hostname, CanonicalHost;
    hide ReadsAlike, TrimWww, NormalForm, EndsInSpace, TrimEnd, HostOK, PathOK;
    var n := NormalUrl(lib.lower, u);
    SecondPassStays(lib, u);
    NormalHierText(lib.lower, u.scheme, u.hier);
    QueryTrimmed(n.query);
    NoHostname();
    match u.hier
    case Opaque(text) =>
      OpaqueStays(lib, u.scheme, text, TrimmedHier(text, n.query));
      OpaqueTrimmed(text, n.query);
    case PathOnly(path) =>
      NonOpaqueTrimmed(u.hier, HierText(n.hier), n.query);
      PathOnlyStays(lib, u.scheme, path);
      PathIsHierText(path);
    case Authority(user, host, path) =>
      NonOpaqueTrimmed(u.hier, HierText(n.hier), n.query);
      AuthorityStays(lib, u.scheme, user, host, path);
  }

  lemma PathIsHierText(path: string)
    ensures HierText(PathOnly(PathText(path))) == PathText(path)
  {
  }

  lemma OpaqueTrimmed(text: string, q: Option<string>)
    ensures HierText(Opaque(text)) == text && TrimmedHier(text, q) <= text
    ensures TrimmedHier(text, q) == text <==> (q.None? ==> !EndsInSpace(text))
  {
    hide TrimEnd;
  }

  /** What a text that has a normal form is read as. */
  lemma CanonicalParsed(lib: Lib, rawURL: string) returns (u: Url)
    requires Valid(lib) && Bytes(rawURL) && CanonicalizeURL(lib, rawURL).Canonical?
    ensures Parse(lib, TrimSpace(rawURL)) == Some(u) && UrlOK(u)
    ensures CanonicalizeURL(lib, rawURL) == NormalForm(lib.lower, u)
  {
    hide Parse, TrimSpace, UrlOK, NormalForm;
    u := Parse(lib, TrimSpace(rawURL)).value;
    TrimBytes(rawURL);
    UrlParsed(lib, TrimSpace(rawURL));
  }

  /**
   A second normalization gives the same text and domain exactly when the normal form is stable: it does
   not end in a space, and its host name has no colon, or, without an authority, its path is not read as
   one. Addresses in brackets lose them and are not accepted a second time.
   */
  lemma CanonicalizeTwice(lib: Lib, rawURL: string)
    requires Valid(lib) && Bytes(rawURL) && CanonicalizeURL(lib, rawURL).Canonical?
    ensures var first, u := CanonicalizeURL(lib, rawURL), Parse(lib, TrimSpace(rawURL)).value;
            && (CanonicalizeURL(lib, first.text) == first <==> Stable(lib, u))
            && (u.hier.Authority? && ':' in Hostname(u.hier.host) ==> CanonicalizeURL(lib, first.text) == Unparsable)
  {
    hide Parse, TrimSpace, UrlOK, CanonicalizeURL, Stable, Hostname, Valid;
    var u := CanonicalParsed(lib, rawURL);
    NormalFormStays(lib, u);
    if u.hier.Authority? && ':' in Hostname(u.hier.host) { AddressRejected(lib, u); }
  }

  lemma AddressRejected(lib: Lib, u: Url)
    requires Valid(lib) && UrlOK(u) && u.hier.Authority? && ':' in Hostname(u.hier.host)
    ensures CanonicalizeURL(lib, Text(NormalUrl(lib.lower, u))) == Unparsable
  {
    hide CanonicalQuery, ParseHier, HierText, CanonicalizeURL, Readable, Valid, PathText, Hostname, CanonicalHost;
    hide TrimEnd, HostOK, PathOK, UserBytes;
    var n := NormalUrl(lib.lower, u);
    SecondPass(lib, u);
    NormalHierText(lib.lower, u.scheme, u.hier);
    NonOpaqueTrimmed(u.hier, HierText(n.hier), n.query);
    AuthorityStays(lib, u.scheme, u.hier.user, u.hier.host, u.hier.path);
  }

  /** For a URL with a host and, if it has a query, with a parameter in it, the colon decides. */
  lemma ColonDecides(lib: Lib, rawURL: string)
    requires Valid(lib) && Bytes(rawURL) && CanonicalizeURL(lib, rawURL).Canonical?
    requires Parse(lib, TrimSpace(rawURL)).value.hier.Authority?
    requires var q := Parse(lib, TrimSpace(rawURL)).value.query; q.Some? ==> Fields(q.value) != []
    ensures var first, u := CanonicalizeURL(lib, rawURL), Parse(lib, TrimSpace(rawURL)).value;
            CanonicalizeURL(lib, first.text) == first <==> ':' !in Hostname(u.hier.host)
  {
    hide Parse, TrimSpace, CanonicalizeURL, Hostname, Valid, CanonicalQuery, Fields, EndsInSpace;
    CanonicalizeTwice(lib, rawURL);
    var u := CanonicalParsed(lib, rawURL);
    QueryVisible(lib.lower, u.query);
    var q := CanonicalQuery(lib.lower, u.query);
    if q.Some? { VisibleEnd(q.value); }
  }

  // ---------- Parameters ----------

  /** What stands between the first question mark and the fragment. */
  function QueryOf(text: string): Option<string> {
    Cut(Cut(text, '#').0, '?').1
  }

  lemma QueryFound(front: string, q: Option<string>, fragment: Option<string>)
    requires '?' !in front && '#' !in front + QueryText(q)
    ensures QueryOf(front + QueryText(q) + FragmentText(fragment)) == q
  {
    hide Cut;
    CutAt(front + QueryText(q), fragment, '#');
    QueryApart(front, q);
  }

  lemma QueryOfGiven(lib: Lib, text: string)
    requires Parse(lib, text).Some?
    ensures QueryOf(text) == Parse(lib, text).value.query
  {
    hide Parse, ParseHier, HasControl, Cut, SplitScheme, ToLower, QueryOf;
    var scheme, h, q, fragment := PartsOf(lib, text);
    if scheme != "" { SchemeLacks(scheme); }
    ConcatHas(SchemeText(scheme), h, '?');
    QueryFound(SchemeText(scheme) + h, q, fragment);
  }

  lemma QueryOfNormal(lower: string -> string, u: Url)
    requires UrlOK(u)
    ensures QueryOf(Text(NormalUrl(lower, u))) == CanonicalQuery(lower, u.query)
  {
    hide CanonicalQuery, QueryOf, NormalHier, HierText, HierOK, Readable, Plainly, SchemeText, TrimEnd;
    var n := NormalUrl(lower, u);
    NormalHierText(lower, u.scheme, u.hier);
    NormalQueryOK(lower, u.query);
    QueryReadable(u.scheme, HierText(n.hier), n.query);
  }

  lemma QueryReadable(scheme: string, h: string, q: Option<string>)
    requires Supported(scheme) && Readable(h) && '?' !in h && (q.Some? ==> Readable(q.value))
    ensures QueryOf(SchemeText(scheme) + h + QueryText(q)) == q
  {
    hide Readable, QueryOf, QueryText, Supported, ValidScheme;
    var front := SchemeText(scheme) + h;
    SchemeLiterals(scheme);
    SchemeLacks(scheme);
    QueryTextReadable(q);
    ConcatHas(scheme + ":", h, '?');
    ReadableConcat(SchemeText(scheme), h);
    ReadableConcat(front, QueryText(q));
    ReadableLacks(front + QueryText(q));
    QueryFound(front, q, None);
    assert front + QueryText(q) + FragmentText(None) == front + QueryText(q);
  }

  /**
   The parameters that can be read from the normal form are those of the given text, each as often as
   there, but for the ones whose trimmed and lower-cased key is empty, begins or is as listed, or
   mentions tokens, sessions or signatures.
   */
  lemma ParametersKept(lib: Lib, rawURL: string)
    requires Valid(lib) && Bytes(rawURL) && CanonicalizeURL(lib, rawURL).Canonical?
    ensures var before := FieldsIn(QueryOf(TrimSpace(rawURL)));
            var after := FieldsIn(QueryOf(CanonicalizeURL(lib, rawURL).text));
            forall p: Pair ::
              var k := lib.lower(TrimSpace(p.key));
              multiset(after)[p]
              == if k == "" || HasPrefix(k, ["utm_", "_hs", "mkt_", "x-amz-"])
                    || Mentions(k, ["token", "session", "signature"]) || k in DROPPED
                 then 0 else multiset(before)[p]
  {
    hide Parse, TrimSpace, CanonicalizeURL, UrlOK, Valid, Fields, CanonicalQuery, QueryOf, HasPrefix, Mentions;
    var u := CanonicalParsed(lib, rawURL);
    QueryOfGiven(lib, TrimSpace(rawURL));
    QueryOfNormal(lib.lower, u);
    QueryIsBytes(u);
    SenseKept(lib.lower, u.query);
  }

  lemma QueryIsBytes(u: Url)
    requires UrlOK(u)
    ensures QueryBytes(u.query)
  {
  }

  // ---------- URLs with one normal form ----------

  lemma NameBytes(host: string)
    requires Bytes(host)
    ensures Bytes(Hostname(host))
  {
    hide LastIndex, AllDigits, Bytes;
    var s := StripPort(host).0;
    if s != host { SliceBytes(host, 0, LastIndex(host, ':')); }
    if Hostname(host) != s { SliceBytes(s, 1, |s| - 1); }
  }

  lemma SliceBytes(s: string, i: nat, j: nat)
    requires Bytes(s) && i <= j <= |s|
    ensures Bytes(s[i..j]) && (i == 0 ==> s[i..j] == s[..j])
  {
  }

  lemma CanonicalHostBytes(lower: string -> string, scheme: string, host: string)
    requires Lowers(lower) && Bytes(host)
    ensures Bytes(CanonicalHost(lower, scheme, host))
  {
    hide Hostname, Port;
    NameBytes(host);
    LowersTwice(lower, Hostname(host));
  }

  lemma AtSignTells(user: User, x: string)
    requires UserBytes(user) && '@' !in x
    ensures '@' in UserText(user) + x <==> !user.NoUser?
  {
    hide UserText, UserBytes;
    if user.NoUser? {
      NoUserText();
      assert "" + x == x;
    } else {
      var info := UserReads(user);
      AtSignBehind(info, x);
    }
  }

  /** User and host come apart at the last at-sign. */
  lemma UsersApart(user: User, x: string, other: User, y: string)
    requires UserBytes(user) && UserBytes(other) && '@' !in x && '@' !in y
    ensures UserText(user) + x == UserText(other) + y <==> user == other && x == y
  {
    hide UserText, UserBytes, ParseUser;
    AtSignTells(user, x);
    AtSignTells(other, y);
    if UserText(user) + x == UserText(other) + y {
      if user.NoUser? {
        NoUserText();
        assert "" + x == x && "" + y == y;
      } else {
        var info := UserReads(user);
        var info' := UserReads(other);
        AtSignBehind(info, x);
        AtSignBehind(info', y);
        var s := info + "@" + x;
        assert s[..|info|] == info && s[|info| + 1..] == x;
        assert (info' + "@" + y)[..|info'|] == info' && (info' + "@" + y)[|info'| + 1..] == y;
      }
    }
  }

  lemma NoUserText()
    ensures UserText(NoUser) == ""
  {
  }

  lemma AtSignBehind(info: string, x: string)
    requires '@' !in x
    ensures '@' in info + "@" + x && LastIndex(info + "@" + x, '@') == |info|
  {
    var s := info + "@" + x;
    assert s[|info|] == '@' && s[|info| + 1..] == x;
    LastIndexAt(s, '@', |info|);
  }

  lemma AuthoritiesApart(lower: string -> string, scheme: string, user: User, host: string, other: User, host': string)
    requires Lowers(lower) && UserBytes(user) && UserBytes(other) && Bytes(host) && Bytes(host')
    ensures var c, c' := CanonicalHost(lower, scheme, host), CanonicalHost(lower, scheme, host');
            AuthorityText(user, c) == AuthorityText(other, c') <==> user == other && c == c'
  {
    hide CanonicalHost, UserText, UserBytes, Escape, Lowers;
    var c, c' := CanonicalHost(lower, scheme, host), CanonicalHost(lower, scheme, host');
    CanonicalHostBytes(lower, scheme, host);
    CanonicalHostBytes(lower, scheme, host');
    EscapeHasNone(c);
    EscapeHasNone(c');
    UsersApart(user, Escape(c, InHost), other, Escape(c', InHost));
    if Escape(c, InHost) == Escape(c', InHost) { EscapeInjective(c, c', InHost); }
  }

  lemma PathsApart(a: string, p: string, b: string, q: string)
    requires '/' !in a && '/' !in b && StartsWith(p, '/') && StartsWith(q, '/')
    ensures "//" + a + p == "//" + b + q <==> a == b && p == q
  {
    hide Cut;
    PathApart(a, p);
    PathApart(b, q);
    if "//" + a + p == "//" + b + q {
      assert ("//" + a + p)[2..] == a + p && ("//" + b + q)[2..] == b + q;
    }
  }

  /**
   Which hierarchies have one text: the same opaque text, the same path text, or the same user, hosts
   with one text and the same path text; or a path that is written like an authority.
   */
  ghost predicate HiersAgree(lower: string -> string, scheme: string, h: Hier, k: Hier) {
    match (h, k)
    case (Opaque(s), Opaque(t)) => s == t
    case (PathOnly(p), PathOnly(q)) => PathText(p) == PathText(q)
    case (Authority(user, host, p), Authority(other, host', q)) =>
      && user == other && PathText(p) == PathText(q)
      && (SameHost(lower, scheme, host, host') || Swallows(lower, scheme, host, host')
          || Swallows(lower, scheme, host', host))
    case (PathOnly(p), Authority(_, _, _)) => PathText(p) == HierText(NormalHier(lower, scheme, k))
    case (Authority(_, _, _), PathOnly(q)) => PathText(q) == HierText(NormalHier(lower, scheme, h))
    case _ => false
  }

  lemma HierTextsAgree(lower: string -> string, scheme: string, h: Hier, k: Hier)
    requires Lowers(lower) && HierOK(h) && HierOK(k)
    ensures HierText(NormalHier(lower, scheme, h)) == HierText(NormalHier(lower, scheme, k))
            <==> HiersAgree(lower, scheme, h, k)
  {
    hide CanonicalHost, PathText, Readable, HostOK, PathOK, UserBytes, AuthorityText, SameHost, Swallows, Lowers;
    NormalHierText(lower, scheme, h);
    NormalHierText(lower, scheme, k);
    match (h, k)
    case (Authority(user, host, p), Authority(other, host', q)) =>
      BothAuthorities(lower, scheme, user, host, p, other, host', q);
    case _ =>
  }

  lemma BothAuthorities(lower: string -> string, scheme: string, user: User, host: string, p: string,
                        other: User, host': string, q: string)
    requires Lowers(lower) && HierOK(Authority(user, host, p)) && HierOK(Authority(other, host', q))
    ensures HierText(NormalHier(lower, scheme, Authority(user, host, p)))
            == HierText(NormalHier(lower, scheme, Authority(other, host', q)))
            <==> HiersAgree(lower, scheme, Authority(user, host, p), Authority(other, host', q))
  {
    hide CanonicalHost, PathText, HostOK, UserBytes, UserText, SameHost, Swallows, Lowers, Escape;
    var c, c' := CanonicalHost(lower, scheme, host), CanonicalHost(lower, scheme, host');
    PathTextFront(p);
    PathTextFront(q);
    UserTextLacksSlash(user);
    UserTextLacksSlash(other);
    EscapeHasNone(c);
    EscapeHasNone(c');
    PathsApart(AuthorityText(user, c), PathText(p), AuthorityText(other, c'), PathText(q));
    AuthoritiesApart(lower, scheme, user, host, other, host');
    HostsAgree(lower, scheme, host, host');
  }

  /**
   Two texts have one normal form exactly when they agree on scheme and the sense of the query, and
   their hierarchies on user, host and path text.
   */
  lemma EqualIffAgree(lib: Lib, s: string, t: string)
    requires Valid(lib) && Bytes(s) && CanonicalizeURL(lib, s).Canonical?
    requires Bytes(t) && CanonicalizeURL(lib, t).Canonical?
    ensures var u, v := Parse(lib, TrimSpace(s)).value, Parse(lib, TrimSpace(t)).value;
            CanonicalizeURL(lib, s).text == CanonicalizeURL(lib, t).text
            <==> u.scheme == v.scheme && SenseOf(lib.lower, u.query) == SenseOf(lib.lower, v.query)
                 && HiersAgree(lib.lower, u.scheme, u.hier, v.hier)
  {
    hide Parse, TrimSpace, CanonicalizeURL, HiersAgree, SenseOf, CanonicalQuery, HierText, NormalHier, HierOK, Lowers;
    var u := CanonicalParsed(lib, s);
    var v := CanonicalParsed(lib, t);
    NormalTextsAgree(lib.lower, u, v);
  }

  lemma NormalTextsAgree(lower: string -> string, u: Url, v: Url)
    requires Lowers(lower) && UrlOK(u) && UrlOK(v)
    ensures Text(NormalUrl(lower, u)) == Text(NormalUrl(lower, v))
            <==> u.scheme == v.scheme && SenseOf(lower, u.query) == SenseOf(lower, v.query)
                 && HiersAgree(lower, u.scheme, u.hier, v.hier)
  {
    hide HiersAgree, SenseOf, CanonicalQuery, HierText, NormalHier, HierOK, Lowers, SplitScheme;
    var n, m := NormalUrl(lower, u), NormalUrl(lower, v);
    NormalHierText(lower, u.scheme, u.hier);
    NormalHierText(lower, v.scheme, v.hier);
    QueriesAgree(lower, u.query, v.query);
    SchemeLiterals(u.scheme);
    SchemeLiterals(v.scheme);
    SchemeApart(u.scheme, HierText(n.hier) + QueryText(n.query));
    SchemeApart(v.scheme, HierText(m.hier) + QueryText(m.query));
    Regroup(SchemeText(u.scheme), HierText(n.hier), QueryText(n.query));
    Regroup(SchemeText(v.scheme), HierText(m.hier), QueryText(m.query));
    if u.scheme == v.scheme {
      HierTextsAgree(lower, u.scheme, u.hier, v.hier);
      TextsApart(u.scheme, HierText(n.hier), n.query, HierText(m.hier), m.query);
    }
  }

  /** With host names without colons and no path in a spelling of its own, the unescaped and trimmed paths decide. */
  lemma OrdinaryHiersAgree(lower: string -> string, scheme: string, h: Hier, k: Hier)
    requires Lowers(lower) && HierOK(h) && HierOK(k) && h.Authority? && k.Authority?
    requires ':' !in Hostname(h.host) && ':' !in Hostname(k.host) && !OwnSpelling(h.path) && !OwnSpelling(k.path)
    ensures HiersAgree(lower, scheme, h, k)
            <==> && h.user == k.user && SameHost(lower, scheme, h.host, k.host)
                 && TrimRight(Unescaped(h.path), '/') == TrimRight(Unescaped(k.path), '/')
  {
    hide CanonicalHost, PathText, HostOK, UserBytes, SameHost, Swallows, Lowers, Hostname, OwnSpelling, Unescape;
    PathsAgree(h.path, k.path);
    CanonicalPathsAgree(Unescaped(h.path), Unescaped(k.path));
    HostsAgree(lower, scheme, h.host, k.host);
  }

  // ---------- Domains ----------

  /**
   The domain returned with the normal form is the one that ExtractDomain finds in the trimmed text exactly
   when the bare host name does not read as a host and a port, or comes with a port of its own.
   */
  lemma DomainsAgree(lib: Lib, rawURL: string)
    requires Valid(lib) && Bytes(rawURL) && CanonicalizeURL(lib, rawURL).Canonical?
    ensures var u := Parse(lib, TrimSpace(rawURL)).value;
            CanonicalizeURL(lib, rawURL).domain == ExtractDomain(lib, TrimSpace(rawURL))
            <==> !(EffectivePort(u.scheme, Port(HostOf(u))) == "" && EndsInPort(lib.lower(Hostname(HostOf(u)))))
  {
    hide Parse, TrimSpace, CanonicalizeURL, Lowers, EndsInPort, Hostname, Port, TrimWww, UrlOK;
    var u := CanonicalParsed(lib, rawURL);
    DomainFound(lib, u);
  }

  lemma DomainFound(lib: Lib, u: Url)
    requires Valid(lib) && UrlOK(u)
    ensures DomainOf(NormalUrl(lib.lower, u)) == TrimWww(lib.lower(Hostname(HostOf(u))))
            <==> !(EffectivePort(u.scheme, Port(HostOf(u))) == "" && EndsInPort(lib.lower(Hostname(HostOf(u)))))
  {
    hide Lowers, EndsInPort, Hostname, Port, TrimWww, HostOK, PathText;
    var host := HostOf(u);
    var h, p := lib.lower(Hostname(host)), EffectivePort(u.scheme, Port(host));
    LowerOfName(lib.lower, host, u);
    DomainOfText(h, p);
    if !u.hier.Authority? {
      NoHostname();
      NoName(lib.lower);
    }
  }

  lemma NoName(lower: string -> string)
    requires Lowers(lower)
    ensures lower(Hostname("")) == "" && TrimWww("") == "" && Port("") == "" && !EndsInPort("")
  {
    hide Hostname, Port;
    HostRoundTrip("", "");
    assert LowersText(lower, "");
  }

  lemma LowerOfName(lower: string -> string, host: string, u: Url)
    requires Lowers(lower) && host == HostOf(u) && HierOK(u.hier)
    ensures !StartsWith(lower(Hostname(host)), '[')
  {
    hide Hostname, HostOK, Lowers;
    if u.hier.Authority? {
      ParsedHostname(host);
      if Hostname(host) == "" { NoLower(lower); } else { LowerFront(lower, Hostname(host)); }
    } else {
      NoName(lower);
    }
  }

  lemma NoLower(lower: string -> string)
    requires Lowers(lower)
    ensures lower("") == ""
  {
    assert LowersText(lower, "");
  }
}
