/**
 The path of a normal form: without slashes at its end, and as it was written if nothing was trimmed.
 */
module CanonicalPaths {
  import opened Escapes
  import opened Options
  import opened Texts
  import opened Urls

  /** A path text that is kept as it is written. */
  predicate ValidEncoded(p: string) {
    forall i :: 0 <= i < |p| ==> p[i] in "!$&'()*+,;=:@[]%" || !MustEscape(p[i], InPath)
  }

  function CanonicalPath(x: string): string {
    var t := TrimRight(x, '/');
    if t == "" then "/" else t
  }

  /** The path text of the normal form of a path written as `p`. */
  function PathText(p: string): string {
    var x := Unescaped(p);
    if CanonicalPath(x) == x && ValidEncoded(p) then p else Escape(CanonicalPath(x), InPath)
  }

  predicate PathOK(p: string) {
    Bytes(p) && Unescape(p, false).Some?
  }

  predicate Plainly(s: string) {
    forall i :: 0 <= i < |s| ==> Visible(s[i]) && s[i] != '?' && s[i] != '#'
  }

  lemma CanonicalPathTwice(x: string)
    ensures CanonicalPath(CanonicalPath(x)) == CanonicalPath(x) != ""
    ensures StartsWith(x, '/') ==> CanonicalPath(x)[0] == '/'
  {
  }

  lemma EscapeIsValid(t: string)
    ensures ValidEncoded(Escape(t, InPath))
  {
    EscapeIsEscaped(t, InPath);
    var e := Escape(t, InPath);
    assert forall i :: 0 <= i < |e| ==> e[i] in e;
  }

  lemma CanonicalBytes(x: string)
    requires Bytes(x)
    ensures Bytes(CanonicalPath(x))
  {
    var t := TrimRight(x, '/');
    assert forall i :: 0 <= i < |t| ==> t[i] == x[i];
  }

  lemma ValidIsPlain(p: string)
    requires ValidEncoded(p)
    ensures Plainly(p) && Bytes(p)
  {
  }

  /** A path text is valid, and is its own path text. */
  lemma PathTextTwice(p: string)
    requires PathOK(p)
    ensures ValidEncoded(PathText(p)) && Plainly(PathText(p)) && PathOK(PathText(p))
    ensures Unescaped(PathText(p)) == CanonicalPath(Unescaped(p)) && PathText(PathText(p)) == PathText(p)
  {
    hide CanonicalPath, Escape, ValidEncoded, Unescape, Plainly, Bytes;
    var x := Unescaped(p);
    UnescapeBytes(p, false);
    CanonicalPathTwice(x);
    CanonicalBytes(x);
    EscapeRoundTrip(CanonicalPath(x), InPath);
    EscapeIsValid(CanonicalPath(x));
    ValidIsPlain(PathText(p));
  }

  lemma EscapeFrontSlash(t: string)
    requires StartsWith(t, '/')
    ensures StartsWith(Escape(t, InPath), '/')
  {
  }

  lemma UnescapeFrontSlash(p: string)
    requires StartsWith(p, '/') && Unescape(p, false).Some?
    ensures StartsWith(Unescape(p, false).value, '/')
  {
  }

  lemma PathTextFront(p: string)
    requires PathOK(p) && (p == "" || p[0] == '/')
    ensures StartsWith(PathText(p), '/')
  {
    hide Escape, ValidEncoded, Unescape, CanonicalPath;
    var x := Unescaped(p);
    CanonicalPathTwice(x);
    if p != "" { UnescapeFrontSlash(p); } else { NoPath(); }
    EscapeFrontSlash(CanonicalPath(x));
  }

  lemma NoPath()
    ensures Unescape("", false) == Some("") && CanonicalPath("") == "/"
  {
  }

  // ---------- Paths with one text ----------

  /** The path is kept in a spelling of its own. */
  predicate OwnSpelling(p: string) {
    var x := Unescaped(p);
    CanonicalPath(x) == x && ValidEncoded(p) && p != Escape(x, InPath)
  }

  /** Two paths have one text exactly when they agree trimmed, and as written if one is in a spelling of its own. */
  lemma PathsAgree(p: string, q: string)
    requires PathOK(p) && PathOK(q)
    ensures PathText(p) == PathText(q)
            <==> && CanonicalPath(Unescaped(p)) == CanonicalPath(Unescaped(q))
                 && (OwnSpelling(p) || OwnSpelling(q) ==> p == q)
  {
    hide CanonicalPath, Escape, ValidEncoded, Unescape, PathText;
    PathTextTwice(p);
    PathTextTwice(q);
    Spelled(p);
    Spelled(q);
  }

  lemma Spelled(p: string)
    ensures PathText(p) == if OwnSpelling(p) then p else Escape(CanonicalPath(Unescaped(p)), InPath)
    ensures OwnSpelling(p) ==> p != Escape(CanonicalPath(Unescaped(p)), InPath)
  {
  }

  lemma CanonicalPathsAgree(x: string, y: string)
    ensures CanonicalPath(x) == CanonicalPath(y) <==> TrimRight(x, '/') == TrimRight(y, '/')
  {
    assert EndsWith("/", '/');
  }

  /** A path of one segment, with a slash behind it and without. */
  lemma SlashBehindSegment(x: string)
    requires StartsWith(x, '/') && !EndsWith(x, '/')
    ensures CanonicalPath(x) == x && CanonicalPath(x + "/") == x
  {
    assert (x + "/")[..|x|] == x;
  }

  /** The rest of a path text, from a slash on, is a path text as well. */
  lemma RestOfPathText(p: string, front: string, path: string)
    requires PathOK(p) && PathText(p) == front + path && StartsWith(path, '/') && front != ""
    ensures PathOK(path) && PathText(path) == path
  {
    hide Escape, Unescape;
    var pt := PathText(p);
    PathTextTwice(p);
    UnescapeApart(pt, front, path);
    var x, y := Unescaped(front), Unescaped(path);
    UnescapeFrontSlash(path);
    NothingUnescaped(front);
    assert Bytes(path) && ValidEncoded(path) by {
      assert forall i :: 0 <= i < |path| ==> path[i] == pt[|front| + i];
    }
    RestIsTrimmed(x, y, Unescaped(p));
  }

  lemma NothingUnescaped(s: string)
    requires s != "" && Unescape(s, false).Some?
    ensures Unescape(s, false).value != ""
  {
  }

  lemma RestIsTrimmed(x: string, y: string, whole: string)
    requires x != "" && y != "" && CanonicalPath(whole) == x + y
    ensures CanonicalPath(y) == y
  {
    var t := CanonicalPath(whole);
    assert t[|t| - 1] == y[|y| - 1];
    assert t == "/" ==> |x + y| == 1;
  }
}
