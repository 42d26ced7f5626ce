/**
 Escaping as net/url does it. A text is a string of bytes: its characters are below 256.
 */
module Escapes {
  import opened Options
  import opened Texts

  predicate Bytes(s: string) {
    forall i :: 0 <= i < |s| ==> s[i] as int < 256
  }

  predicate IsDigit(c: char) {
    '0' <= c <= '9'
  }

  predicate IsHexLetter(c: char) {
    'a' <= c <= 'f' || 'A' <= c <= 'F'
  }

  predicate IsLetter(c: char) {
    'a' <= c <= 'z' || 'A' <= c <= 'Z'
  }

  /** Printed in ASCII, and not a space. */
  predicate Visible(c: char) {
    '!' <= c <= '~'
  }

  function HexValue(c: char): (v: int)
    requires IsDigit(c) || IsHexLetter(c)
    ensures 0 <= v < 16
  {
    if IsDigit(c) then c as int - '0' as int
    else if 'a' <= c <= 'f' then c as int - 'a' as int + 10
    else c as int - 'A' as int + 10
  }

  function HexDigit(v: int): (c: char)
    requires 0 <= v < 16
    ensures (IsDigit(c) || IsHexLetter(c)) && HexValue(c) == v
  {
    if v < 10 then (v + '0' as int) as char else (v - 10 + 'A' as int) as char
  }

  // ---------- Undoing escapes ----------

  predicate StartsWithEscape(s: string) {
    |s| >= 3 && s[0] == '%' && (IsDigit(s[1]) || IsHexLetter(s[1])) && (IsDigit(s[2]) || IsHexLetter(s[2]))
  }

  function EscapedChar(s: string): (c: char)
    requires StartsWithEscape(s)
    ensures c as int < 256
  {
    (16 * HexValue(s[1]) + HexValue(s[2])) as char
  }

  function Before(c: char, rest: Option<string>): Option<string> {
    if rest.None? then None else Some([c] + rest.value)
  }

  /** Undoes percent-escapes, and in a query also plus signs; fails on a percent sign that escapes nothing. */
  function Unescape(s: string, query: bool): Option<string> {
    if s == "" then Some("")
    else if s[0] == '%' then
      if StartsWithEscape(s) then Before(EscapedChar(s), Unescape(s[3..], query)) else None
    else Before(if query && s[0] == '+' then ' ' else s[0], Unescape(s[1..], query))
  }

  /** Unescaping shortens exactly the texts that hold an escape. */
  lemma {:induction false} UnescapeShortens(s: string, query: bool)
    ensures var t := Unescape(s, query);
            t.Some? ==> |t.value| <= |s| && (|t.value| == |s| <==> '%' !in s)
    ensures '%' !in s && !(query && '+' in s) ==> Unescape(s, query) == Some(s)
  {
    if s != "" {
      if s[0] == '%' {
        if StartsWithEscape(s) { UnescapeShortens(s[3..], query); }
      } else {
        UnescapeShortens(s[1..], query);
        assert s == [s[0]] + s[1..];
      }
    }
  }

  /** Without escapes only plus signs change, and none is left. */
  lemma {:induction false} UnescapePlus(s: string)
    requires '%' !in s
    ensures Unescape(s, true).Some? && '+' !in Unescape(s, true).value
    ensures forall c :: c in Unescape(s, true).value ==> c in s || c == ' '
  {
    if s != "" { UnescapePlus(s[1..]); }
  }

  lemma {:induction false} UnescapeBytes(s: string, query: bool)
    requires Bytes(s) && Unescape(s, query).Some?
    ensures Bytes(Unescape(s, query).value)
  {
    if s != "" { UnescapeBytes(if s[0] == '%' then s[3..] else s[1..], query); }
  }

  /** What follows without a percent sign makes no escape valid that was not. */
  lemma {:induction false} UnescapeWithTail(s: string, tail: string, query: bool)
    requires Unescape(s, query).Some? && '%' !in tail
    ensures Unescape(s + tail, query).Some?
  {
    if s == "" {
      assert s + tail == tail;
      UnescapeFree(tail, query);
    } else {
      var k := if s[0] == '%' then 3 else 1;
      assert (s + tail)[k..] == s[k..] + tail;
      UnescapeWithTail(s[k..], tail, query);
    }
  }

  lemma {:induction false} UnescapeFree(s: string, query: bool)
    requires '%' !in s
    ensures Unescape(s, query).Some?
  {
    if s != "" { UnescapeFree(s[1..], query); }
  }

  // ---------- Escaping ----------

  datatype Mode = InPath | InQuery | InHost | InUser

  predicate MustEscape(c: char, mode: Mode) {
    if IsLetter(c) || IsDigit(c) || c in "-_.~" then false
    else
      match mode
      case InPath => c !in "$&+,/:;=@"
      case InQuery => true
      case InHost => c !in "!$&'()*+,;=:[]<>\""
      case InUser => c !in "$&+,;="
  }

  function EscapeChar(c: char, mode: Mode): string {
    if c == ' ' && mode == InQuery then "+"
    else if MustEscape(c, mode) then ['%', HexDigit(c as int / 16 % 16), HexDigit(c as int % 16)]
    else [c]
  }

  function Escape(s: string, mode: Mode): string {
    if s == "" then "" else EscapeChar(s[0], mode) + Escape(s[1..], mode)
  }

  /** A character that escaping may leave behind. */
  predicate Escaped(c: char, mode: Mode) {
    c == '%' || (c == '+' && mode == InQuery) || !MustEscape(c, mode)
  }

  lemma {:induction false} EscapeIsEscaped(s: string, mode: Mode)
    ensures forall c :: c in Escape(s, mode) ==> Escaped(c, mode)
  {
    if s != "" { EscapeIsEscaped(s[1..], mode); }
  }

  lemma EscapedIsVisible(c: char, mode: Mode)
    requires Escaped(c, mode)
    ensures Visible(c) && c != '#' && c != '?'
    ensures mode == InQuery ==> c !in "&=;"
    ensures mode == InUser ==> c !in "@:/"
    ensures mode == InHost ==> c !in "@/"
  {
  }

  lemma EscapedCharOfChar(c: char, mode: Mode)
    requires MustEscape(c, mode) && c as int < 256 && !(c == ' ' && mode == InQuery)
    ensures StartsWithEscape(EscapeChar(c, mode)) && EscapedChar(EscapeChar(c, mode)) == c
  {
  }

  /** Unescaping takes one escaped character off the front. */
  lemma UnescapeFirst(c: char, rest: string, mode: Mode)
    requires c as int < 256
    ensures Unescape(EscapeChar(c, mode) + rest, mode == InQuery) == Before(c, Unescape(rest, mode == InQuery))
  {
    var e := EscapeChar(c, mode);
    if MustEscape(c, mode) && !(c == ' ' && mode == InQuery) {
      EscapedCharOfChar(c, mode);
      assert (e + rest)[..3] == e && (e + rest)[3..] == rest;
      assert StartsWithEscape(e + rest) && EscapedChar(e + rest) == c;
    } else {
      assert (e + rest)[1..] == rest;
    }
  }

  lemma {:induction false} EscapeRoundTrip(s: string, mode: Mode)
    requires Bytes(s)
    ensures Unescape(Escape(s, mode), mode == InQuery) == Some(s)
  {
    if s != "" {
      EscapeRoundTrip(s[1..], mode);
      UnescapeFirst(s[0], Escape(s[1..], mode), mode);
      assert s == [s[0]] + s[1..];
    }
  }

  lemma EscapeInjective(s: string, t: string, mode: Mode)
    requires Bytes(s) && Bytes(t) && Escape(s, mode) == Escape(t, mode)
    ensures s == t
  {
    EscapeRoundTrip(s, mode);
    EscapeRoundTrip(t, mode);
  }

  /** At a slash an escaped text comes apart. */
  lemma {:induction false} UnescapeApart(s: string, x: string, y: string)
    requires s == x + y && y != "" && y[0] == '/' && Unescape(s, false).Some?
    ensures Unescape(x, false).Some? && Unescape(y, false).Some?
    ensures Unescape(s, false).value == Unescape(x, false).value + Unescape(y, false).value
  {
    if x == "" {
      assert s == y && "" + Unescape(y, false).value == Unescape(y, false).value;
    } else {
      assert s[|x|] == '/' && s[0] == x[0];
      var k := if x[0] == '%' then 3 else 1;
      if x[0] == '%' {
        assert StartsWithEscape(s) && |x| >= 3;
        SameEscape(x, s);
      }
      assert s[k..] == x[k..] + y;
      UnescapeApart(s[k..], x[k..], y);
    }
  }

  lemma SameEscape(a: string, s: string)
    requires |a| >= 3 && |s| >= 3 && StartsWithEscape(s) && forall k :: 0 <= k < 3 ==> a[k] == s[k]
    ensures StartsWithEscape(a) && EscapedChar(a) == EscapedChar(s)
  {
  }

  // ---------- Hosts ----------

  /** Unescaping outside brackets: only bytes above ASCII and percent signs may be escaped. */
  function UnescapeHost(s: string): Option<string> {
    if s == "" then Some("")
    else if s[0] == '%' then
      if StartsWithEscape(s) && (EscapedChar(s) as int >= 128 || EscapedChar(s) == '%')
      then Before(EscapedChar(s), UnescapeHost(s[3..])) else None
    else if s[0] as int < 128 && MustEscape(s[0], InHost) then None
    else Before(s[0], UnescapeHost(s[1..]))
  }

  /** A character of an unescaped host. */
  predicate HostChar(c: char) {
    c as int >= 128 || c == '%' || !MustEscape(c, InHost)
  }

  predicate HostText(s: string) {
    forall i :: 0 <= i < |s| ==> HostChar(s[i])
  }

  lemma {:induction false} UnescapedHost(s: string)
    requires UnescapeHost(s).Some?
    ensures HostText(UnescapeHost(s).value)
  {
    if s != "" { UnescapedHost(if s[0] == '%' then s[3..] else s[1..]); }
  }

  lemma {:induction false} UnescapeHostBytes(s: string)
    requires Bytes(s) && UnescapeHost(s).Some?
    ensures Bytes(UnescapeHost(s).value)
  {
    if s != "" { UnescapeHostBytes(if s[0] == '%' then s[3..] else s[1..]); }
  }

  lemma {:induction false} UnescapeHostShortens(s: string)
    requires UnescapeHost(s).Some?
    ensures |UnescapeHost(s).value| <= |s| && (|UnescapeHost(s).value| == |s| <==> '%' !in s)
    ensures '%' !in s ==> UnescapeHost(s).value == s
    ensures forall c: char :: c as int < 128 && c != '%' ==> (c in UnescapeHost(s).value ==> c in s)
  {
    if s != "" {
      UnescapeHostShortens(if s[0] == '%' then s[3..] else s[1..]);
      assert s == [s[0]] + s[1..];
    }
  }

  lemma UnescapeHostFirst(c: char, rest: string)
    requires HostChar(c) && c as int < 256
    ensures UnescapeHost(EscapeChar(c, InHost) + rest) == Before(c, UnescapeHost(rest))
  {
    var e := EscapeChar(c, InHost);
    if MustEscape(c, InHost) {
      EscapedCharOfChar(c, InHost);
      assert (e + rest)[..3] == e && (e + rest)[3..] == rest;
      assert StartsWithEscape(e + rest) && EscapedChar(e + rest) == c;
    } else {
      assert (e + rest)[1..] == rest;
    }
  }

  lemma {:induction false} HostEscapeRoundTrip(s: string)
    requires HostText(s) && Bytes(s)
    ensures UnescapeHost(Escape(s, InHost)) == Some(s)
  {
    if s != "" {
      HostEscapeRoundTrip(s[1..]);
      UnescapeHostFirst(s[0], Escape(s[1..], InHost));
      assert s == [s[0]] + s[1..];
    }
  }

  lemma {:induction false} EscapeConcat(a: string, b: string, mode: Mode)
    ensures Escape(a + b, mode) == Escape(a, mode) + Escape(b, mode)
  {
    if a == "" {
      assert a + b == b;
    } else {
      assert (a + b)[1..] == a[1..] + b;
      EscapeConcat(a[1..], b, mode);
    }
  }

  /** Escaping neither adds nor removes characters that need no escape, other than letters and digits. */
  lemma {:induction false} EscapeKeepsMarks(s: string, mode: Mode, c: char)
    requires !MustEscape(c, mode) && !IsLetter(c) && !IsDigit(c) && c != '+'
    ensures c in Escape(s, mode) <==> c in s
  {
    if s != "" { EscapeKeepsMarks(s[1..], mode, c); }
  }

  lemma {:induction false} EscapeNothing(s: string, mode: Mode)
    requires forall i :: 0 <= i < |s| ==> !MustEscape(s[i], mode) && s[i] != ' '
    ensures Escape(s, mode) == s
  {
    if s != "" {
      EscapeNothing(s[1..], mode);
      assert s == [s[0]] + s[1..];
    }
  }
}
