/**
 The host of a normal form: lower-cased, without a default port, and without the brackets of an address.
 */
module CanonicalHosts {
  import opened Escapes
  import opened Options
  import opened Texts
  import opened Urls

  // ---------- Host and port ----------

  function StripPort(host: string): (string, string) {
    var i := LastIndex(host, ':');
    if i >= 0 && AllDigits(host[i + 1..]) then (host[..i], host[i + 1..]) else (host, "")
  }

  function StripBrackets(h: string): string {
    if StartsWith(h, '[') && EndsWith(h, ']') then h[1..|h| - 1] else h
  }

  function Hostname(host: string): string {
    StripBrackets(StripPort(host).0)
  }

  function Port(host: string): (p: string)
    ensures AllDigits(p)
  {
    StripPort(host).1
  }

  function JoinHostPort(hostname: string, port: string): string {
    if port == "" then hostname else hostname + ":" + port
  }

  predicate IsDefaultPort(scheme: string, port: string) {
    (scheme == "http" && port == "80") || (scheme == "https" && port == "443")
  }

  function EffectivePort(scheme: string, port: string): string {
    if IsDefaultPort(scheme, port) then "" else port
  }

  function CanonicalHost(lower: string -> string, scheme: string, host: string): string {
    JoinHostPort(lower(Hostname(host)), EffectivePort(scheme, Port(host)))
  }

  lemma DigitsLackColon(port: string)
    requires AllDigits(port)
    ensures ':' !in port
  {
  }

  /** A name and a port come apart at the last colon. */
  lemma StripsJoined(name: string, port: string)
    requires AllDigits(port) && !StartsWith(name, '[')
    ensures Hostname(name + ":" + port) == name && Port(name + ":" + port) == port
  {
    PortBehind(name, port);
  }

  /** A host name without a colon and a port come apart again. */
  lemma HostRoundTrip(name: string, port: string)
    requires ':' !in name && !StartsWith(name, '[') && AllDigits(port)
    ensures Hostname(JoinHostPort(name, port)) == name && Port(JoinHostPort(name, port)) == port
  {
    if port == "" {
      assert LastIndex(name, ':') < 0;
    } else {
      StripsJoined(name, port);
    }
  }

  // ---------- Parsed hosts ----------

  lemma PlainHostname(h: string)
    requires PlainHost(h)
    ensures Hostname(h) == Cut(h, ':').0 && ':' !in Hostname(h) && '[' !in Hostname(h) && HostText(Hostname(h))
    ensures Hostname(h) <= h
  {
    var (name, port) := Cut(h, ':');
    CutSplits(h, ':');
    assert forall i :: 0 <= i < |name| ==> name[i] == h[i];
    assert !StartsWith(name, '[') by { assert name != "" ==> name[0] in h; }
    if port.Some? {
      assert h == name + ":" + port.value;
      StripsJoined(name, port.value);
    } else {
      HostRoundTrip(name, "");
    }
  }

  lemma BracketedHostname(h: string, a: string, port: string)
    requires IsBracketed(h, a, port)
    ensures Hostname(h) == a && Port(h) == if port == "" then "" else port[1..]
  {
    hide TwoColons, HostChar;
    var b := "[" + a + "]";
    assert b[1..|b| - 1] == a;
    if port == "" {
      assert h == b;
      NoPortBehind(b);
    } else {
      assert h == b + ":" + port[1..];
      PortBehind(b, port[1..]);
    }
  }

  lemma NoPortBehind(b: string)
    requires EndsWith(b, ']')
    ensures StripPort(b) == (b, "")
  {
    var i := LastIndex(b, ':');
    if i >= 0 { assert b[i + 1..][|b| - i - 2] == ']'; }
  }

  lemma PortBehind(b: string, port: string)
    requires AllDigits(port)
    ensures StripPort(b + ":" + port) == (b, port)
  {
    var h := b + ":" + port;
    assert h[|b|] == ':' && h[|b| + 1..] == port && h[..|b|] == b;
    DigitsLackColon(port);
    LastIndexAt(h, ':', |b|);
  }

  /** A parsed host's name has a colon exactly when it is an address. */
  lemma ParsedHostname(h: string)
    requires HostOK(h)
    ensures !StartsWith(Hostname(h), '[')
    ensures ':' in Hostname(h) <==> !PlainHost(h)
    ensures ':' in Hostname(h) ==> TwoColons(Hostname(h))
  {
    hide Hostname;
    if PlainHost(h) {
      PlainHostname(h);
    } else {
      var a, port :| IsBracketed(h, a, port);
      BracketedHostname(h, a, port);
      var i, k :| 0 <= i < k < |a| && a[i] == ':' && a[k] == ':';
    }
  }

  // ---------- Lower case ----------

  lemma LowerKeepsMarks(lower: string -> string, s: string, c: char)
    requires Lowers(lower) && Mark(c)
    ensures c in lower(s) <==> c in s
  {
    assert LowersText(lower, s);
    if c in s {
      var i :| 0 <= i < |s| && s[i] == c;
      assert s == s[..i] + [c] + s[i + 1..];
      assert LowersAround(lower, s[..i], c, s[i + 1..]);
    }
  }

  lemma LowerKeepsColons(lower: string -> string, a: string)
    requires Lowers(lower) && TwoColons(a)
    ensures TwoColons(lower(a))
  {
    var i, k :| 0 <= i < k < |a| && a[i] == ':' && a[k] == ':';
    var x, y, z := a[..i], a[i + 1..k], a[k + 1..];
    var rest := y + [':'] + z;
    assert a == x + [':'] + rest;
    assert LowersAround(lower, x, ':', rest);
    assert LowersAround(lower, y, ':', z);
    HasTwoColons(lower(x), lower(y), lower(z));
    assert lower(a) == lower(x) + ":" + (lower(y) + ":" + lower(z));
  }

  lemma FirstOf(s: string, c: char) returns (i: nat)
    requires c in s
    ensures i < |s| && s[i] == c && c !in s[..i]
  {
    i := |Cut(s, c).0|;
    CutSplits(s, c);
    assert s[..i] == Cut(s, c).0;
  }

  lemma LowerFront(lower: string -> string, s: string)
    requires Lowers(lower) && s != "" && s[0] != '['
    ensures lower(s) != "" && lower(s)[0] != '['
  {
    assert LowersText(lower, s);
    if '[' in s {
      var i := FirstOf(s, '[');
      assert s == s[..i] + ['['] + s[i + 1..];
      assert LowersAround(lower, s[..i], '[', s[i + 1..]);
      assert LowersText(lower, s[..i]);
      LowerKeepsMarks(lower, s[..i], '[');
      assert lower(s)[0] == lower(s[..i])[0];
    } else {
      LowerKeepsMarks(lower, s, '[');
    }
  }

  lemma LowerIsHostText(lower: string -> string, s: string)
    requires Lowers(lower) && HostText(s)
    ensures HostText(lower(s))
  {
    assert LowersText(lower, s);
    forall i | 0 <= i < |lower(s)| ensures HostChar(lower(s)[i]) {
      var c := lower(s)[i];
      if Mark(c) { assert c in s; }
    }
  }

  // ---------- The normal form of a host ----------

  /** The normal form of a host without brackets is such a host and its own normal form. */
  lemma PlainCanonicalHost(lower: string -> string, scheme: string, h: string)
    requires Lowers(lower) && PlainHost(h) && Bytes(h)
    ensures var again := CanonicalHost(lower, scheme, h);
            PlainHost(again) && Bytes(again) && CanonicalHost(lower, scheme, again) == again
  {
    hide Hostname, Port, PlainHost, LowersText;
    var name, port := lower(Hostname(h)), EffectivePort(scheme, Port(h));
    PlainHostname(h);
    assert Bytes(Hostname(h)) by { assert forall i :: 0 <= i < |Hostname(h)| ==> Hostname(h)[i] == h[i]; }
    LowerKeepsMarks(lower, Hostname(h), ':');
    LowerKeepsMarks(lower, Hostname(h), '[');
    LowerIsHostText(lower, Hostname(h));
    LowersTwice(lower, Hostname(h));
    assert !StartsWith(name, '[');
    HostRoundTrip(name, port);
    JoinedIsPlain(name, port);
  }

  lemma LowersTwice(lower: string -> string, s: string)
    requires Lowers(lower) && Bytes(s)
    ensures lower(lower(s)) == lower(s) && Bytes(lower(s))
  {
    assert LowersText(lower, s);
  }

  lemma JoinedIsPlain(name: string, port: string)
    requires ':' !in name && '[' !in name && HostText(name) && Bytes(name) && AllDigits(port)
    ensures PlainHost(JoinHostPort(name, port)) && Bytes(JoinHostPort(name, port))
  {
    hide Cut;
    if port == "" {
      CutNothing(name, ':');
    } else {
      PortCut(name, port);
      assert forall i :: 0 <= i < |port| ==> HostChar(port[i]) && port[i] as int < 256;
    }
  }

  /** The normal form of an address in brackets is no host. */
  lemma BracketedCanonicalHost(lib: Lib, scheme: string, h: string)
    requires Valid(lib) && HostOK(h) && ':' in Hostname(h)
    ensures ParseHost(lib, Escape(CanonicalHost(lib.lower, scheme, h), InHost)) == None
  {
    hide Hostname, ParseHost, HostOK, Port, Escape;
    var name, port := Hostname(h), EffectivePort(scheme, Port(h));
    ParsedHostname(h);
    LowerKeepsColons(lib.lower, name);
    LowerFront(lib.lower, name);
    ColonsInFront(lib.lower(name), port);
    BareAddressRejected(lib, JoinHostPort(lib.lower(name), port));
  }

  lemma ColonsInFront(name: string, port: string)
    requires TwoColons(name) && name[0] != '['
    ensures TwoColons(JoinHostPort(name, port)) && JoinHostPort(name, port)[0] != '['
  {
    var i, k :| 0 <= i < k < |name| && name[i] == ':' && name[k] == ':';
    assert JoinHostPort(name, port)[i] == ':' && JoinHostPort(name, port)[k] == ':';
  }

  /** A name without a colon stays, in lower case; its port stays unless it is that of the scheme. */
  lemma PortRule(lower: string -> string, scheme: string, name: string, port: string)
    requires ':' !in name && !StartsWith(name, '[') && AllDigits(port)
    ensures CanonicalHost(lower, scheme, name) == lower(name)
    ensures port != "" ==>
              CanonicalHost(lower, scheme, name + ":" + port)
              == if (scheme == "http" && port == "80") || (scheme == "https" && port == "443") then lower(name)
                 else lower(name) + ":" + port
  {
    hide Hostname, Port;
    HostRoundTrip(name, "");
    HostRoundTrip(name, port);
  }

  /** An address comes out of its brackets, and its port stays in the same way. */
  lemma AddressRule(lower: string -> string, scheme: string, h: string, a: string, port: string)
    requires IsBracketed(h, a, port)
    ensures CanonicalHost(lower, scheme, h)
            == if port == "" || port == ":" then lower(a)
               else if (scheme == "http" && port == ":80") || (scheme == "https" && port == ":443") then lower(a)
               else lower(a) + port
  {
    hide Hostname, Port, TwoColons, HostChar;
    BracketedHostname(h, a, port);
    if port != "" { assert port == ":" + port[1..]; }
  }

  // ---------- Hosts with one normal form ----------

  ghost predicate SameHost(lower: string -> string, scheme: string, a: string, b: string) {
    && lower(Hostname(a)) == lower(Hostname(b))
    && EffectivePort(scheme, Port(a)) == EffectivePort(scheme, Port(b))
  }

  /** The address `a` without a port ends in what is the port of `b`. */
  ghost predicate Swallows(lower: string -> string, scheme: string, a: string, b: string) {
    && EffectivePort(scheme, Port(a)) == "" && EffectivePort(scheme, Port(b)) != ""
    && lower(Hostname(a)) == lower(Hostname(b)) + ":" + EffectivePort(scheme, Port(b))
  }

  lemma PortsApart(g: string, p: string, h: string, q: string)
    requires AllDigits(p) && AllDigits(q) && g + ":" + p == h + ":" + q
    ensures g == h && p == q
  {
    var s := g + ":" + p;
    DigitsLackColon(p);
    DigitsLackColon(q);
    assert s[|g|] == ':' && s[|g| + 1..] == p && s[..|g|] == g;
    assert s[|h|] == ':' && s[|h| + 1..] == q && s[..|h|] == h;
    LastIndexAt(s, ':', |g|);
    LastIndexAt(s, ':', |h|);
  }

  /** Two hosts have one text exactly when they are the same, or one takes the other's port for its own last group. */
  lemma HostsAgree(lower: string -> string, scheme: string, a: string, b: string)
    requires Lowers(lower)
    ensures CanonicalHost(lower, scheme, a) == CanonicalHost(lower, scheme, b)
            <==> SameHost(lower, scheme, a, b) || Swallows(lower, scheme, a, b) || Swallows(lower, scheme, b, a)
    ensures ':' !in Hostname(a) && ':' !in Hostname(b) ==>
              !Swallows(lower, scheme, a, b) && !Swallows(lower, scheme, b, a)
  {
    hide Hostname, Port, Lowers;
    var g, p := lower(Hostname(a)), EffectivePort(scheme, Port(a));
    var h, q := lower(Hostname(b)), EffectivePort(scheme, Port(b));
    LowerKeepsMarks(lower, Hostname(a), ':');
    LowerKeepsMarks(lower, Hostname(b), ':');
    if p != "" && q != "" && g + ":" + p == h + ":" + q { PortsApart(g, p, h, q); }
    if g == h + ":" + q { assert g[|h|] == ':'; }
    if h == g + ":" + p { assert h[|g|] == ':'; }
  }

  /** Without its brackets an address with a port is the same text as a longer address without one. */
  lemma AddressesCollide(lower: string -> string, scheme: string, a: string, port: string)
    requires Lowers(lower) && TwoColons(a) && a[0] != '[' && HostText(a)
    requires AllDigits(port) && port != "" && !IsDefaultPort(scheme, port)
    ensures var x, y := "[" + a + "]:" + port, "[" + a + ":" + port + "]";
            && IsBracketed(x, a, ":" + port) && IsBracketed(y, a + ":" + port, "")
            && CanonicalHost(lower, scheme, x) == CanonicalHost(lower, scheme, y)
  {
    hide Hostname, Port, Lowers, IsBracketed;
    var x, y, b := "[" + a + "]:" + port, "[" + a + ":" + port + "]", a + ":" + port;
    TwoAddresses(x, y, a, port);
    BracketedHostname(x, a, ":" + port);
    BracketedHostname(y, b, "");
    LowerJoined(lower, a, port);
  }

  lemma TwoAddresses(x: string, y: string, a: string, port: string)
    requires TwoColons(a) && a[0] != '[' && HostText(a) && AllDigits(port) && port != ""
    requires x == "[" + a + "]:" + port && y == "[" + a + ":" + port + "]"
    ensures IsBracketed(x, a, ":" + port) && IsBracketed(y, a + ":" + port, "")
    ensures (":" + port)[1..] == port
  {
    hide TwoColons, HostChar;
    var b := a + ":" + port;
    ColonsInFront(a, port);
    assert x == "[" + a + "]" + (":" + port) && y == "[" + b + "]" + "";
    PortChars(port);
    assert forall i :: 0 <= i < |b| ==> HostChar(b[i]);
  }

  lemma PortChars(port: string)
    requires AllDigits(port)
    ensures HostChar(':') && forall i :: 0 <= i < |port| ==> HostChar(port[i])
  {
  }

  lemma LowerJoined(lower: string -> string, a: string, port: string)
    requires Lowers(lower) && AllDigits(port)
    ensures lower(a + ":" + port) == lower(a) + ":" + port
  {
    assert LowersAround(lower, a, ':', port);
    assert LowersText(lower, port);
    LowerIsItself(port);
    assert a + ":" + port == a + [':'] + port;
  }

  // ---------- Domains ----------

  function TrimWww(h: string): string {
    if "www." <= h then h[4..] else h
  }

  /** The bare host name ends in a colon and digits, or in a colon. */
  predicate EndsInPort(hostname: string) {
    var i := LastIndex(hostname, ':');
    i >= 0 && AllDigits(hostname[i + 1..])
  }

  lemma TrimmedApart(h: string, i: nat)
    requires i < |h| && h[i] == ':'
    ensures TrimWww(h[..i]) != TrimWww(h)
  {
    if "www." <= h {
      assert forall k :: 0 <= k < 4 ==> h[k] == "www."[k];
      assert i >= 4;
      assert "www." <= h[..i];
    } else {
      assert h[..i] <= h;
    }
  }

  /** The domain of a normal form is that of the host name, unless the bare name reads as a host and a port. */
  lemma DomainOfText(h: string, p: string)
    requires !StartsWith(h, '[') && AllDigits(p)
    ensures TrimWww(Hostname(JoinHostPort(h, p))) == TrimWww(h) <==> !(p == "" && EndsInPort(h))
  {
    hide TrimWww;
    if p != "" {
      StripsJoined(h, p);
    } else {
      var i := LastIndex(h, ':');
      if EndsInPort(h) {
        assert !StartsWith(h[..i], '[') by { assert i > 0 ==> h[..i][0] == h[0]; }
        TrimmedApart(h, i);
      }
    }
  }
}
