/**
 Trimming as strings.TrimSpace does it: Unicode spaces in UTF-8, at either end of a byte string.
 */
module Spaces {
  import opened Escapes
  import opened Texts

  predicate HasBytes(t: string, bytes: seq<int>) {
    |t| == |bytes| && forall i :: 0 <= i < |t| ==> t[i] as int == bytes[i]
  }

  /** One space character, encoded. */
  predicate SpaceRune(t: string) {
    || (|t| == 1 && (t[0] in " \t\n\r" || t[0] == '\U{000B}' || t[0] == '\U{000C}'))
    || HasBytes(t, [0xC2, 0x85]) || HasBytes(t, [0xC2, 0xA0])
    || HasBytes(t, [0xE1, 0x9A, 0x80]) || HasBytes(t, [0xE2, 0x81, 0x9F]) || HasBytes(t, [0xE3, 0x80, 0x80])
    || (|t| == 3 && t[0] as int == 0xE2 && t[1] as int == 0x80
        && (0x80 <= t[2] as int <= 0x8A || t[2] as int in {0xA8, 0xA9, 0xAF}))
  }

  predicate SpaceBehind(s: string, n: nat) {
    n <= |s| && SpaceRune(s[|s| - n..])
  }

  predicate SpaceInFront(s: string, n: nat) {
    n <= |s| && SpaceRune(s[..n])
  }

  /** The length of the space that a text ends in, or 0. */
  function EndSpace(s: string): (n: nat)
    ensures n <= |s|
    ensures n > 0 ==> SpaceBehind(s, n)
  {
    if SpaceBehind(s, 1) then 1 else if SpaceBehind(s, 2) then 2 else if SpaceBehind(s, 3) then 3 else 0
  }

  function FrontSpace(s: string): (n: nat)
    ensures n <= |s|
  {
    if SpaceInFront(s, 1) then 1 else if SpaceInFront(s, 2) then 2 else if SpaceInFront(s, 3) then 3 else 0
  }

  predicate EndsInSpace(s: string) {
    EndSpace(s) > 0
  }

  function TrimEnd(s: string): (t: string)
    ensures t <= s && !EndsInSpace(t)
    ensures t == s <==> !EndsInSpace(s)
  {
    if EndsInSpace(s) then TrimEnd(s[..|s| - EndSpace(s)]) else s
  }

  function TrimFront(s: string): string {
    if FrontSpace(s) > 0 then TrimFront(s[FrontSpace(s)..]) else s
  }

  function TrimSpace(s: string): string {
    TrimEnd(TrimFront(s))
  }

  lemma SpaceIsHidden(t: string)
    requires SpaceRune(t)
    ensures 0 < |t| <= 3 && forall i :: 0 <= i < |t| ==> !Visible(t[i])
  {
  }

  lemma NoSpace(t: string, i: nat)
    requires i < |t| && Visible(t[i])
    ensures !SpaceRune(t)
  {
    if SpaceRune(t) { SpaceIsHidden(t); }
  }

  lemma VisibleInSuffix(s: string, k: nat, n: nat)
    requires |s| - n <= k < |s| && Visible(s[k]) && n <= |s|
    ensures !SpaceBehind(s, n)
  {
    hide SpaceRune;
    NoSpace(s[|s| - n..], k - (|s| - n));
  }

  lemma SuffixBehind(s: string, a: string, c: char, b: string, n: nat)
    requires Visible(c) && s == a + [c] + b && 0 < n
    ensures SpaceBehind(s, n) <==> SpaceBehind(b, n)
  {
    hide SpaceRune;
    if n <= |b| {
      assert s[|s| - n..] == b[|b| - n..];
    } else {
      if n <= |s| { VisibleInSuffix(s, |a|, n); }
    }
  }

  /** A visible character ends the spaces behind it. */
  lemma EndBehind(a: string, c: char, b: string)
    requires Visible(c)
    ensures EndSpace(a + [c] + b) == EndSpace(b)
  {
    hide SpaceBehind, Visible;
    var s := a + [c] + b;
    SuffixBehind(s, a, c, b, 1);
    SuffixBehind(s, a, c, b, 2);
    SuffixBehind(s, a, c, b, 3);
  }

  lemma {:induction false} TrimEndBehind(a: string, c: char, b: string)
    requires Visible(c)
    ensures TrimEnd(a + [c] + b) == a + [c] + TrimEnd(b)
    decreases |b|
  {
    hide SpaceBehind, Visible;
    var s := a + [c] + b;
    EndBehind(a, c, b);
    if EndsInSpace(b) {
      var n := EndSpace(b);
      assert s[..|s| - n] == a + [c] + b[..|b| - n];
      TrimEndBehind(a, c, b[..|b| - n]);
    }
  }

  lemma PrefixNoSpace(s: string, n: nat)
    requires 1 <= n && s != "" && Visible(s[0])
    ensures !SpaceInFront(s, n)
  {
    hide SpaceRune;
    if n <= |s| { NoSpace(s[..n], 0); }
  }

  /** A text that begins with a visible character is trimmed at its end only. */
  lemma VisibleFront(s: string)
    requires s != "" && Visible(s[0])
    ensures TrimSpace(s) == TrimEnd(s)
  {
    hide SpaceInFront, TrimEnd;
    PrefixNoSpace(s, 1);
    PrefixNoSpace(s, 2);
    PrefixNoSpace(s, 3);
  }

  /** A text that ends in a visible character does not end in a space. */
  lemma VisibleEnd(s: string)
    requires s != "" && Visible(s[|s| - 1])
    ensures !EndsInSpace(s)
  {
    hide SpaceRune;
    var a, c := s[..|s| - 1], s[|s| - 1];
    EndBehind(a, c, "");
    assert s == a + [c] + "";
  }

  /** What is trimmed off the end holds no visible character. */
  lemma {:induction false} TrimmedOff(s: string)
    ensures forall i :: |TrimEnd(s)| <= i < |s| ==> !Visible(s[i])
  {
    hide SpaceRune, SpaceBehind, Visible;
    if EndsInSpace(s) {
      SpaceAtEnd(s, EndSpace(s));
      TrimmedOff(s[..|s| - EndSpace(s)]);
    }
  }

  lemma SpaceAtEnd(s: string, n: nat)
    requires SpaceBehind(s, n)
    ensures n <= |s| && forall i :: |s| - n <= i < |s| ==> !Visible(s[i])
  {
    hide SpaceRune, Visible;
    var t := s[|s| - n..];
    SpaceIsHidden(t);
    assert forall i :: |s| - n <= i < |s| ==> s[i] == t[i - (|s| - n)];
  }

  lemma {:induction false} TrimFrontBytes(s: string)
    requires Bytes(s)
    ensures Bytes(TrimFront(s))
  {
    hide FrontSpace;
    if FrontSpace(s) > 0 { TrimFrontBytes(s[FrontSpace(s)..]); }
  }

  lemma TrimBytes(s: string)
    requires Bytes(s)
    ensures Bytes(TrimSpace(s))
  {
    hide TrimFront, TrimEnd;
    var t := TrimFront(s);
    TrimFrontBytes(s);
    assert forall i :: 0 <= i < |TrimEnd(t)| ==> TrimEnd(t)[i] == t[i];
  }
}
