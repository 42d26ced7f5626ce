/**
 URLs as net/url of Go 1.26 takes them apart and writes them. Paths are kept as they are written.
 */
module Urls {
  import opened Escapes
  import opened Options
  import opened Texts

  // ---------- What is taken from other libraries ----------

  /**
   `lower` is Unicode lower-casing; `address` is what the text between brackets stands for, if that is
   an IPv6 address.
   */
  datatype Lib = Lib(lower: string -> string, address: string -> Option<string>)

  /** An ASCII character that is no letter. */
  predicate Mark(c: char) {
    c as int < 128 && !IsLetter(c)
  }

  predicate TwoColons(a: string) {
    exists i, k :: 0 <= i < k < |a| && a[i] == ':' && a[k] == ':'
  }

  ghost predicate LowersAround(lower: string -> string, a: string, c: char, b: string) {
    lower(a + [c] + b) == lower(a) + [c] + lower(b)
  }

  ghost predicate LowersText(lower: string -> string, s: string) {
    && lower(lower(s)) == lower(s)
    && (lower(s) == "" <==> s == "")
    && (Bytes(s) ==> Bytes(lower(s)))
    && (forall c :: Mark(c) && c in lower(s) ==> c in s)
    && ((forall i :: 0 <= i < |s| ==> s[i] as int < 128) ==> lower(s) == ToLower(s))
  }

  /** Lower-casing acts on the texts between marks, and on ASCII letters as usual. */
  ghost predicate Lowers(lower: string -> string) {
    && (forall s :: LowersText(lower, s))
    && (forall a, c, b :: Mark(c) ==> LowersAround(lower, a, c, b))
  }

  /** An address has at least two colons and no character that no host has; only escapes are changed. */
  ghost predicate Addresses(address: string -> Option<string>) {
    forall s :: address(s).Some? ==> AddressOf(s, address(s).value)
  }

  ghost predicate AddressOf(s: string, a: string) {
    && TwoColons(a) && a[0] != '[' && (forall i :: 0 <= i < |a| ==> HostChar(a[i]) || a[i] == ' ')
    && |a| <= |s| && (|a| == |s| <==> '%' !in s) && ('%' !in s ==> a == s) && (Bytes(s) ==> Bytes(a))
  }

  ghost predicate Valid(lib: Lib) {
    Lowers(lib.lower) && Addresses(lib.address)
  }

  /** ASCII letters in lower case, and any text that could be an address: an example of such a library. */
  lemma AsciiLib() returns (lib: Lib)
    ensures Valid(lib) && lib.lower == ToLower && forall s :: PlainAddress(s) ==> lib.address(s) == Some(s)
  {
    lib := Lib(ToLower, s => if PlainAddress(s) then Some(s) else None);
    forall s ensures LowersText(ToLower, s) {
      ToLowerTwice(s);
      LowerActsOnChars(s);
    }
    forall a, c, b | Mark(c) ensures LowersAround(ToLower, a, c, b) {
      LowerConcat(a + [c], b);
      LowerConcat(a, [c]);
      LowerOfMark(c);
    }
    forall s | lib.address(s).Some? ensures AddressOf(s, s) {
      assert '%' !in s by { assert forall i :: 0 <= i < |s| ==> s[i] != '%'; }
    }
  }

  predicate PlainAddress(s: string) {
    TwoColons(s) && s[0] != '[' && forall i :: 0 <= i < |s| ==> HostChar(s[i]) && s[i] != '%'
  }

  lemma {:induction false} LowerActsOnChars(s: string)
    ensures |ToLower(s)| == |s| && (Bytes(s) ==> Bytes(ToLower(s)))
    ensures forall c :: Mark(c) && c in ToLower(s) ==> c in s
  {
    if s != "" {
      LowerActsOnChars(s[1..]);
      assert s == [s[0]] + s[1..];
      assert Bytes(s) ==> Bytes(s[1..]);
    }
  }

  lemma {:induction false} LowerConcat(a: string, b: string)
    ensures ToLower(a + b) == ToLower(a) + ToLower(b)
  {
    if a == "" {
      assert a + b == b;
    } else {
      assert (a + b)[1..] == a[1..] + b;
      LowerConcat(a[1..], b);
    }
  }

  lemma LowerOfMark(c: char)
    requires Mark(c)
    ensures ToLower([c]) == [c]
  {
    LowerIsItself([c]);
  }

  // ---------- The parts of a URL ----------

  datatype User = NoUser | Name(name: string) | Login(name: string, password: string)

  /** Either an opaque text, or a path, or an authority and a path. */
  datatype Hier = Opaque(text: string) | PathOnly(path: string) | Authority(user: User, host: string, path: string)

  /** `query` is None without a question mark; the fragment is not kept. */
  datatype Url = Url(scheme: string, hier: Hier, query: Option<string>)

  /** The path that is written as `p`. */
  function Unescaped(p: string): string {
    if Unescape(p, false).Some? then Unescape(p, false).value else ""
  }

  function WrittenPath(u: Url): string {
    if u.hier.Opaque? then "" else u.hier.path
  }

  function PathOf(u: Url): string {
    Unescaped(WrittenPath(u))
  }

  function HostOf(u: Url): string {
    if u.hier.Authority? then u.hier.host else ""
  }

  function RawQuery(u: Url): string {
    if u.query.Some? then u.query.value else ""
  }

  // ---------- Writing ----------

  function QueryText(query: Option<string>): string {
    if query.Some? then "?" + query.value else ""
  }

  function FragmentText(fragment: Option<string>): string {
    if fragment.Some? then "#" + fragment.value else ""
  }

  function SchemeText(scheme: string): string {
    if scheme == "" then "" else scheme + ":"
  }

  function UserText(user: User): string {
    match user
    case NoUser => ""
    case Name(name) => Escape(name, InUser) + "@"
    case Login(name, password) => Escape(name, InUser) + ":" + Escape(password, InUser) + "@"
  }

  function AuthorityText(user: User, host: string): string {
    UserText(user) + Escape(host, InHost)
  }

  function HierText(h: Hier): string {
    match h
    case Opaque(text) => text
    case PathOnly(path) => path
    case Authority(user, host, path) => "//" + AuthorityText(user, host) + path
  }

  function Text(u: Url): string {
    SchemeText(u.scheme) + HierText(u.hier) + QueryText(u.query)
  }

  // ---------- Reading ----------

  predicate SchemeChar(c: char) {
    IsLetter(c) || IsDigit(c) || c == '+' || c == '-' || c == '.'
  }

  predicate ValidScheme(s: string) {
    s != "" && IsLetter(s[0]) && forall i :: 0 <= i < |s| ==> SchemeChar(s[i])
  }

  predicate HasControl(s: string) {
    exists i :: 0 <= i < |s| && (s[i] < ' ' || s[i] == '\U{007F}')
  }

  /** The scheme, empty if there is none, and what follows; a text does not begin with a colon. */
  function SplitScheme(s: string): Option<(string, string)> {
    var (scheme, rest) := Cut(s, ':');
    if rest.None? then Some(("", s))
    else if scheme == "" then None
    else if ValidScheme(scheme) then Some((scheme, rest.value))
    else Some(("", s))
  }

  predicate AllDigits(s: string) {
    forall i :: 0 <= i < |s| ==> '0' <= s[i] <= '9'
  }

  predicate OptionalPort(s: string) {
    s == "" || (s[0] == ':' && AllDigits(s[1..]))
  }

  /** Outside brackets the first colon starts a port. A bracket stands in front or nowhere. */
  function ParseHost(lib: Lib, host: string): Option<string> {
    if '[' in host then
      var i := LastIndex(host, ']');
      if host[0] != '[' || '[' in host[1..] || i < 0 || !OptionalPort(host[i + 1..]) then None
      else
        var a := lib.address(host[1..i]);
        if a.None? then None else Some("[" + a.value + "]" + host[i + 1..])
    else
      var (name, port) := Cut(host, ':');
      if port.Some? && !AllDigits(port.value) then None else UnescapeHost(host)
  }

  predicate UserChar(c: char) {
    IsLetter(c) || IsDigit(c) || c in "-._:~!$&'()*+,;=%@"
  }

  function ParseUser(info: string): Option<User> {
    var (name, password) := Cut(info, ':');
    if exists i :: 0 <= i < |info| && !UserChar(info[i]) then None
    else if Unescape(name, false).None? || (password.Some? && Unescape(password.value, false).None?) then None
    else if password.None? then Some(Name(Unescaped(name)))
    else Some(Login(Unescaped(name), Unescaped(password.value)))
  }

  function ParseAuthority(lib: Lib, a: string): Option<(User, string)> {
    var i := LastIndex(a, '@');
    var host := ParseHost(lib, a[i + 1..]);
    var user := if i < 0 then Some(NoUser) else ParseUser(a[..i]);
    if host.None? || user.None? then None else Some((user.value, host.value))
  }

  function RootedPath(rest: Option<string>): string {
    if rest.Some? then "/" + rest.value else ""
  }

  /** What begins with a slash. */
  function ParseRooted(lib: Lib, absolute: bool, h: string): Option<Hier> {
    if "//" <= h && (absolute || !("///" <= h)) then
      var (a, rest) := Cut(h[2..], '/');
      var authority := ParseAuthority(lib, a);
      if authority.None? || Unescape(RootedPath(rest), false).None? then None
      else Some(Authority(authority.value.0, authority.value.1, RootedPath(rest)))
    else if Unescape(h, false).None? then None
    else Some(PathOnly(h))
  }

  /** What stands between scheme and query; without a scheme the first segment of a path has no colon. */
  function ParseHier(lib: Lib, absolute: bool, h: string): Option<Hier> {
    if StartsWith(h, '/') then ParseRooted(lib, absolute, h)
    else if absolute then Some(if h == "" then Authority(NoUser, "", "") else Opaque(h))
    else if ':' in Cut(h, '/').0 || Unescape(h, false).None? then None
    else Some(PathOnly(h))
  }

  function ParseBody(lib: Lib, body: string): Option<Url> {
    var split := SplitScheme(body);
    if split.None? then None
    else
      var (scheme, rest) := split.value;
      var (h, query) := Cut(rest, '?');
      var hier := ParseHier(lib, scheme != "", h);
      if hier.None? then None else Some(Url(ToLower(scheme), hier.value, query))
  }

  function Parse(lib: Lib, text: string): Option<Url> {
    var (body, fragment) := Cut(text, '#');
    if HasControl(body) || (fragment.Some? && Unescape(fragment.value, false).None?) then None
    else ParseBody(lib, body)
  }

  // ---------- Taking a text apart ----------

  function WithHier(scheme: string, hier: Option<Hier>, query: Option<string>): Option<Url> {
    if hier.None? then None else Some(Url(scheme, hier.value, query))
  }

  lemma SchemeLacks(s: string)
    requires ValidScheme(s)
    ensures s != ""
    ensures forall i :: 0 <= i < |s| ==> s[i] != ':' && s[i] != '#' && s[i] != '?' && s[i] != '/' && s[i] != '%'
  {
  }

  lemma SchemeApart(scheme: string, rest: string)
    requires ValidScheme(scheme)
    ensures SplitScheme(SchemeText(scheme) + rest) == Some((scheme, rest))
  {
    SchemeLacks(scheme);
    CutAt(scheme, Some(rest), ':');
    assert SchemeText(scheme) + rest == scheme + ([':'] + rest);
  }

  lemma QueryApart(h: string, q: Option<string>)
    requires '?' !in h
    ensures Cut(h + QueryText(q), '?') == (h, q)
  {
    CutAt(h, q, '?');
  }

  lemma BodyApart(lib: Lib, scheme: string, h: string, q: Option<string>)
    requires ValidScheme(scheme) && '?' !in h
    ensures ParseBody(lib, SchemeText(scheme) + h + QueryText(q))
            == WithHier(ToLower(scheme), ParseHier(lib, true, h), q)
  {
    hide Cut, SplitScheme, ParseHier, ToLower, ParseBody;
    var body, rest := SchemeText(scheme) + h + QueryText(q), h + QueryText(q);
    SchemeApart(scheme, rest);
    QueryApart(h, q);
    assert body == SchemeText(scheme) + rest;
    BodyFrom(lib, body, scheme, rest, h, q);
  }

  lemma BodyFrom(lib: Lib, body: string, scheme: string, rest: string, h: string, q: Option<string>)
    requires scheme != "" && SplitScheme(body) == Some((scheme, rest)) && Cut(rest, '?') == (h, q)
    ensures ParseBody(lib, body) == WithHier(ToLower(scheme), ParseHier(lib, true, h), q)
  {
  }

  lemma TextApart(lib: Lib, body: string, fragment: Option<string>)
    requires '#' !in body
    ensures Parse(lib, body + FragmentText(fragment))
            == if HasControl(body) || (fragment.Some? && Unescape(fragment.value, false).None?) then None
               else ParseBody(lib, body)
  {
    CutAt(body, fragment, '#');
  }

  /** What a text that parses is written of. */
  lemma PartsOf(lib: Lib, text: string)
    returns (scheme: string, h: string, q: Option<string>, fragment: Option<string>)
    requires Parse(lib, text).Some?
    ensures scheme == "" || ValidScheme(scheme)
    ensures var body := SchemeText(scheme) + h + QueryText(q);
            && text == body + FragmentText(fragment) && '#' !in body && '?' !in h && !HasControl(body)
            && SplitScheme(body) == Some((scheme, h + QueryText(q)))
    ensures Parse(lib, text) == WithHier(ToLower(scheme), ParseHier(lib, scheme != "", h), q)
  {
    hide Cut, ParseBody, HasControl, Unescape, ParseHier, ToLower;
    var body := Cut(text, '#').0;
    fragment := Cut(text, '#').1;
    CutSplits(text, '#');
    scheme, h, q := PartsOfBody(lib, body);
  }

  lemma PartsOfBody(lib: Lib, body: string) returns (scheme: string, h: string, q: Option<string>)
    requires ParseBody(lib, body).Some?
    ensures scheme == "" || ValidScheme(scheme)
    ensures body == SchemeText(scheme) + h + QueryText(q) && '?' !in h
    ensures SplitScheme(body) == Some((scheme, h + QueryText(q)))
    ensures ParseBody(lib, body) == WithHier(ToLower(scheme), ParseHier(lib, scheme != "", h), q)
  {
    var split := SplitScheme(body).value;
    scheme := split.0;
    h := Cut(split.1, '?').0;
    q := Cut(split.1, '?').1;
    CutSplits(body, ':');
    CutSplits(split.1, '?');
    JoinParts(body, scheme, split.1, h, q);
  }

  lemma JoinParts(body: string, scheme: string, rest: string, h: string, q: Option<string>)
    requires body == if scheme == "" then rest else scheme + [':'] + rest
    requires rest == if q.Some? then h + ['?'] + q.value else h
    ensures body == SchemeText(scheme) + h + QueryText(q) && rest == h + QueryText(q)
  {
    Regroup(SchemeText(scheme), h, QueryText(q));
    Regroup(scheme, ":", rest);
    NothingInFront("", rest);
  }

  // ---------- Hosts ----------

  /** A host without brackets. */
  predicate PlainHost(h: string) {
    '[' !in h && HostText(h) && (Cut(h, ':').1.Some? ==> AllDigits(Cut(h, ':').1.value))
  }

  /** An address in brackets, with or without a port behind it. */
  predicate IsBracketed(h: string, a: string, port: string) {
    && h == "[" + a + "]" + port && OptionalPort(port)
    && TwoColons(a) && a[0] != '[' && forall i :: 0 <= i < |a| ==> HostChar(a[i]) || a[i] == ' '
  }

  ghost predicate HostOK(h: string) {
    PlainHost(h) || exists a, port :: IsBracketed(h, a, port)
  }

  lemma {:induction false} UnescapeHostAround(s: string, a: string, b: string)
    requires s == a + ":" + b && UnescapeHost(s).Some?
    ensures UnescapeHost(a).Some? && UnescapeHost(b).Some?
    ensures UnescapeHost(s).value == UnescapeHost(a).value + ":" + UnescapeHost(b).value
  {
    hide MustEscape, EscapedChar;
    if a == "" {
      assert s[1..] == b;
    } else {
      assert s[|a|] == ':' && s[0] == a[0];
      var k := if a[0] == '%' then 3 else 1;
      if a[0] == '%' {
        assert StartsWithEscape(s) && |a| >= 3;
        SameEscape(a, s);
      }
      UnescapeHostAround(s[k..], a[k..], b);
    }
  }

  lemma PlainHostParsed(lib: Lib, s: string)
    requires '[' !in s && ParseHost(lib, s).Some?
    ensures ParseHost(lib, s) == UnescapeHost(s) && PlainHost(UnescapeHost(s).value)
  {
    var h := UnescapeHost(s).value;
    UnescapedHost(s);
    HasNoneOf(s, '[');
    CutSplits(s, ':');
    var (name, port) := Cut(s, ':');
    if port.Some? {
      assert s == name + ":" + port.value;
      PortParsed(name, port.value);
    } else {
      HasNoneOf(s, ':');
      CutNothing(h, ':');
    }
  }

  lemma HasNoneOf(s: string, c: char)
    requires UnescapeHost(s).Some? && c !in s && c as int < 128 && c != '%'
    ensures c !in UnescapeHost(s).value
  {
    UnescapeHostShortens(s);
  }

  lemma PortParsed(name: string, port: string)
    requires ':' !in name && AllDigits(port) && UnescapeHost(name + ":" + port).Some?
    ensures Cut(UnescapeHost(name + ":" + port).value, ':').1 == Some(port)
  {
    UnescapeHostAround(name + ":" + port, name, port);
    DigitsStay(port);
    HasNoneOf(name, ':');
    PortCut(UnescapeHost(name).value, port);
  }

  lemma PortCut(name: string, port: string)
    requires ':' !in name
    ensures Cut(name + ":" + port, ':') == (name, Some(port))
  {
    CutAt(name, Some(port), ':');
    assert name + ":" + port == name + ([':'] + port);
  }

  lemma DigitsStay(port: string)
    requires AllDigits(port) && UnescapeHost(port).Some?
    ensures UnescapeHost(port).value == port
  {
    UnescapeHostShortens(port);
  }

  lemma BracketHostParsed(lib: Lib, s: string) returns (a: string, port: string)
    requires Valid(lib) && '[' in s && ParseHost(lib, s).Some?
    ensures IsBracketed(ParseHost(lib, s).value, a, port)
    ensures exists inner :: s == "[" + inner + "]" + port && AddressOf(inner, a)
  {
    hide HostChar;
    var i := LastIndex(s, ']');
    var inner := s[1..i];
    a, port := lib.address(inner).value, s[i + 1..];
    assert s == "[" + inner + "]" + port;
    assert AddressOf(inner, a);
  }

  lemma HostParsed(lib: Lib, s: string)
    requires Valid(lib) && ParseHost(lib, s).Some?
    ensures HostOK(ParseHost(lib, s).value)
  {
    if '[' in s {
      var a, port := BracketHostParsed(lib, s);
    } else {
      PlainHostParsed(lib, s);
    }
  }

  lemma PortLacksPercent(port: string)
    requires OptionalPort(port)
    ensures '%' !in port
  {
    if port != "" { assert port == [port[0]] + port[1..]; }
  }

  /** Reading a host undoes escapes and nothing else. */
  lemma HostShortens(lib: Lib, s: string)
    requires Valid(lib) && ParseHost(lib, s).Some?
    ensures ParseHost(lib, s) == Some(s) <==> '%' !in s
  {
    if '[' in s {
      var a, port := BracketHostParsed(lib, s);
      var inner :| s == "[" + inner + "]" + port && AddressOf(inner, a);
      PortLacksPercent(port);
      assert '%' in s <==> '%' in inner;
    } else {
      PlainHostParsed(lib, s);
      UnescapeHostShortens(s);
    }
  }

  lemma HostLacks(h: string)
    requires HostOK(h)
    ensures forall i :: 0 <= i < |h| ==> h[i] != '/' && h[i] != '?' && h[i] != '#' && h[i] != '@'
  {
    if !PlainHost(h) {
      var a, port :| IsBracketed(h, a, port);
    }
  }

  /** Two colons outside brackets are no host. */
  lemma ColonsRejected(lib: Lib, s: string)
    requires TwoColons(s) && s[0] != '['
    ensures ParseHost(lib, s) == None
  {
    if '[' !in s {
      var i, k :| 0 <= i < k < |s| && s[i] == ':' && s[k] == ':';
      CutSplits(s, ':');
      var (name, rest) := Cut(s, ':');
      assert s[i] in s;
      assert |name| <= i;
      assert rest.value[k - |name| - 1] == s[k];
    }
  }

  lemma EscapedHostReads(lib: Lib, h: string)
    requires PlainHost(h) && Bytes(h)
    ensures ParseHost(lib, Escape(h, InHost)) == Some(h)
    ensures '@' !in Escape(h, InHost) && '/' !in Escape(h, InHost)
  {
    HostEscapeRoundTrip(h);
    EscapeKeepsMarks(h, InHost, '[');
    EscapeHasNone(h);
    EscapedPort(h);
  }

  lemma EscapedTail(name: string, tail: string)
    requires forall i :: 0 <= i < |tail| ==> !MustEscape(tail[i], InHost) && tail[i] != ' '
    ensures Escape(name + tail, InHost) == Escape(name, InHost) + tail
  {
    EscapeConcat(name, tail, InHost);
    EscapeNothing(tail, InHost);
  }

  lemma PortNeedsNoEscape(tail: string)
    requires OptionalPort(tail)
    ensures forall i :: 0 <= i < |tail| ==> !MustEscape(tail[i], InHost) && tail[i] != ' '
  {
    if tail != "" { assert forall i :: 0 < i < |tail| ==> tail[i] == tail[1..][i - 1]; }
  }

  lemma EscapedPort(h: string)
    requires PlainHost(h)
    ensures Cut(Escape(h, InHost), ':').1 == Cut(h, ':').1
  {
    hide Escape, Cut, HostText, MustEscape, AllDigits;
    var (name, port) := Cut(h, ':');
    CutSplits(h, ':');
    ColonIsKept();
    EscapeKeepsMarks(name, InHost, ':');
    if port.Some? {
      var tail := ":" + port.value;
      assert h == name + tail;
      assert tail[1..] == port.value;
      PortNeedsNoEscape(tail);
      EscapedTail(name, tail);
      assert Escape(h, InHost) == Escape(name, InHost) + ":" + port.value;
      PortCut(Escape(name, InHost), port.value);
    } else {
      CutNothing(Escape(name, InHost), ':');
    }
  }

  lemma ColonIsKept()
    ensures !MustEscape(':', InHost) && !IsLetter(':') && !IsDigit(':')
  {
  }

  lemma EscapeHasNone(h: string)
    ensures '@' !in Escape(h, InHost) && '/' !in Escape(h, InHost)
  {
    EscapeIsEscaped(h, InHost);
    assert !Escaped('@', InHost) && !Escaped('/', InHost);
  }

  lemma EscapeAround(a: string, b: string)
    ensures Escape(a + ":" + b, InHost) == Escape(a, InHost) + ":" + Escape(b, InHost)
  {
    EscapeConcat(a + ":", b, InHost);
    EscapedTail(a, ":");
  }

  lemma EscapeKeepsColons(h: string)
    requires TwoColons(h)
    ensures TwoColons(Escape(h, InHost))
  {
    var i, k :| 0 <= i < k < |h| && h[i] == ':' && h[k] == ':';
    var x, y, z := h[..i], h[i + 1..k], h[k + 1..];
    var rest := y + ":" + z;
    assert h == x + ":" + rest;
    EscapeAround(x, rest);
    EscapeAround(y, z);
    HasTwoColons(Escape(x, InHost), Escape(y, InHost), Escape(z, InHost));
  }

  lemma HasTwoColons(x: string, y: string, z: string)
    ensures TwoColons(x + ":" + (y + ":" + z))
  {
    var s := x + ":" + (y + ":" + z);
    assert s[|x|] == ':' && s[|x| + 1 + |y|] == ':';
  }

  lemma EscapeFront(h: string)
    requires h != "" && h[0] != '['
    ensures Escape(h, InHost) != "" && Escape(h, InHost)[0] != '['
  {
  }

  /** An address that has lost its brackets is no host. */
  lemma BareAddressRejected(lib: Lib, h: string)
    requires TwoColons(h) && h[0] != '['
    ensures ParseHost(lib, Escape(h, InHost)) == None
  {
    EscapeKeepsColons(h);
    EscapeFront(h);
    ColonsRejected(lib, Escape(h, InHost));
  }

  // ---------- Users ----------

  predicate UserBytes(user: User) {
    match user
    case NoUser => true
    case Name(name) => Bytes(name)
    case Login(name, password) => Bytes(name) && Bytes(password)
  }

  lemma EscapedUserChars(s: string)
    ensures forall i :: 0 <= i < |Escape(s, InUser)| ==> UserChar(Escape(s, InUser)[i])
    ensures ':' !in Escape(s, InUser) && '@' !in Escape(s, InUser) && '/' !in Escape(s, InUser)
  {
    EscapeIsEscaped(s, InUser);
    assert !Escaped(':', InUser) && !Escaped('@', InUser) && !Escaped('/', InUser);
    forall i | 0 <= i < |Escape(s, InUser)| ensures UserChar(Escape(s, InUser)[i]) {
      assert Escape(s, InUser)[i] in Escape(s, InUser);
    }
  }

  lemma NameReads(name: string)
    requires Bytes(name)
    ensures ParseUser(Escape(name, InUser)) == Some(Name(name))
  {
    EscapedUserChars(name);
    EscapeRoundTrip(name, InUser);
    CutNothing(Escape(name, InUser), ':');
  }

  lemma ColonIsUserChar()
    ensures UserChar(':')
  {
  }

  lemma LoginReads(name: string, password: string)
    requires Bytes(name) && Bytes(password)
    ensures ParseUser(Escape(name, InUser) + ":" + Escape(password, InUser)) == Some(Login(name, password))
  {
    hide Escape, Unescape, Cut, UserChar;
    var a, b := Escape(name, InUser), Escape(password, InUser);
    ColonIsUserChar();
    EscapedUserChars(name);
    EscapedUserChars(password);
    EscapeRoundTrip(name, InUser);
    EscapeRoundTrip(password, InUser);
    CutAt(a, Some(b), ':');
    assert a + ":" + b == a + ([':'] + b);
  }

  /** What stands before the last at-sign, and whether there is one. */
  lemma AuthorityApart(lib: Lib, info: string, host: string)
    requires '@' !in host
    ensures ParseAuthority(lib, info + "@" + host)
            == (if ParseHost(lib, host).None? || ParseUser(info).None? then None
                else Some((ParseUser(info).value, ParseHost(lib, host).value)))
    ensures ParseAuthority(lib, host)
            == if ParseHost(lib, host).None? then None else Some((NoUser, ParseHost(lib, host).value))
  {
    var a := info + "@" + host;
    assert a[|info|] == '@' && a[|info| + 1..] == host && a[..|info|] == info;
    LastIndexAt(a, '@', |info|);
    assert LastIndex(host, '@') == -1;
    assert host[0..] == host;
  }

  lemma UserReads(user: User) returns (info: string)
    requires UserBytes(user) && !user.NoUser?
    ensures UserText(user) == info + "@" && ParseUser(info) == Some(user)
  {
    match user
    case Name(name) =>
      info := Escape(name, InUser);
      NameReads(name);
    case Login(name, password) =>
      info := Escape(name, InUser) + ":" + Escape(password, InUser);
      LoginReads(name, password);
  }

  /** An authority is read again from its text, as far as its host is. */
  lemma AuthorityReads(lib: Lib, user: User, host: string)
    requires UserBytes(user) && '@' !in host
    ensures ParseAuthority(lib, UserText(user) + host)
            == if ParseHost(lib, host).None? then None else Some((user, ParseHost(lib, host).value))
  {
    if user.NoUser? {
      AuthorityApart(lib, "", host);
      assert UserText(user) + host == host;
    } else {
      var info := UserReads(user);
      AuthorityApart(lib, info, host);
    }
  }

  lemma UserTextLacksSlash(user: User)
    ensures '/' !in UserText(user)
  {
    match user
    case NoUser =>
    case Name(name) => EscapedUserChars(name);
    case Login(name, password) =>
      EscapedUserChars(name);
      EscapedUserChars(password);
  }

  // ---------- Reading what was written ----------

  lemma PathApart(a: string, path: string)
    requires '/' !in a && (path == "" || path[0] == '/')
    ensures Cut(a + path, '/').0 == a && RootedPath(Cut(a + path, '/').1) == path
  {
    var rest := if path == "" then None else Some(path[1..]);
    assert path != "" ==> path == ['/'] + path[1..];
    CutAt(a, rest, '/');
  }

  lemma HierFrom(lib: Lib, h: string, tail: string, a: string, path: string)
    requires h == "//" + tail && Cut(tail, '/').0 == a && RootedPath(Cut(tail, '/').1) == path
    ensures ParseHier(lib, true, h)
            == if ParseAuthority(lib, a).None? || Unescape(path, false).None? then None
               else Some(Authority(ParseAuthority(lib, a).value.0, ParseAuthority(lib, a).value.1, path))
  {
    hide Cut, ParseAuthority, Unescape, RootedPath;
    assert h[2..] == tail && h[..2] == "//";
  }

  /** An authority and a path, one behind the other. */
  lemma HierApart(lib: Lib, a: string, path: string)
    requires '/' !in a && (path == "" || path[0] == '/')
    ensures ParseHier(lib, true, "//" + a + path)
            == if ParseAuthority(lib, a).None? || Unescape(path, false).None? then None
               else Some(Authority(ParseAuthority(lib, a).value.0, ParseAuthority(lib, a).value.1, path))
  {
    hide Cut, ParseAuthority, Unescape, ParseHier, RootedPath;
    var h, tail := "//" + a + path, a + path;
    PathApart(a, path);
    assert h == "//" + tail;
    HierFrom(lib, h, tail, a, path);
  }

  /** An authority and a path, as they stand in a text. */
  lemma AuthorityParts(lib: Lib, h: string) returns (a: string, path: string)
    requires "//" <= h && ParseHier(lib, true, h).Some?
    ensures a == Cut(h[2..], '/').0 && path == RootedPath(Cut(h[2..], '/').1)
    ensures h == "//" + a + path && '/' !in a && (path == "" || path[0] == '/')
    ensures ParseAuthority(lib, a).Some? && Unescape(path, false).Some?
    ensures var (user, host) := ParseAuthority(lib, a).value;
            ParseHier(lib, true, h) == Some(Authority(user, host, path))
  {
    hide ParseAuthority, Unescape;
    a, path := Cut(h[2..], '/').0, RootedPath(Cut(h[2..], '/').1);
    CutSplits(h[2..], '/');
    assert h[2..] == a + path;
  }

  /** Without an at-sign there is no user. */
  lemma NoUserParsed(lib: Lib, a: string)
    requires '@' !in a
    ensures ParseAuthority(lib, a)
            == if ParseHost(lib, a).None? then None else Some((NoUser, ParseHost(lib, a).value))
  {
    AuthorityApart(lib, "", a);
  }

  /** A plain host without escapes is read as it stands. */
  lemma PlainHostStays(lib: Lib, h: string)
    requires PlainHost(h) && '%' !in h
    ensures ParseHost(lib, h) == Some(h)
  {
    HostTextStays(h);
  }

  lemma {:induction false} HostTextStays(h: string)
    requires HostText(h) && '%' !in h
    ensures UnescapeHost(h) == Some(h)
  {
    hide HostChar, MustEscape, StartsWithEscape, EscapedChar;
    if h != "" {
      HostTextStays(h[1..]);
      HostCharIsFree(h[0]);
      assert h == [h[0]] + h[1..];
    }
  }

  lemma HostCharIsFree(c: char)
    requires HostChar(c) && c != '%'
    ensures c as int < 128 ==> !MustEscape(c, InHost)
  {
  }

  lemma PlainUnlessBracketed(lib: Lib, s: string)
    requires Valid(lib) && ParseHost(lib, s).Some? && '[' !in ParseHost(lib, s).value
    ensures PlainHost(ParseHost(lib, s).value)
  {
    if '[' in s { var a, port := BracketHostParsed(lib, s); } else { PlainHostParsed(lib, s); }
  }
}
