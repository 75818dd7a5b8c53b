/**
 The part of Python's `urllib.parse` the application relies on: `urlparse` as a
 split into scheme, network location, path, query and fragment, and `geturl`
 as the inverse rendering. Scheme recognition and rendering follow Python
 3.12's `urlsplit` / `urlunsplit`; `;params` are kept inside the path.
 */
module Url {
  import opened Text

  datatype Parts = Parts(scheme: string, netloc: string, path: string, query: string, fragment: string)

  /** Schemes for which `urlunsplit` writes `//` even when the network location is empty. */
  const UsesNetloc: set<string> := {
    "ftp", "http", "gopher", "nntp", "telnet", "imap", "wais", "file", "mms",
    "https", "shttp", "snews", "prospero", "rtsp", "rtsps", "rtspu", "rsync",
    "svn", "svn+ssh", "sftp", "nfs", "git", "git+ssh", "ws", "wss", "itms-services"
  }

  /** Characters that end a network location. */
  const NetlocStops: set<char> := {'/', '?', '#'}

  predicate IsSchemeChar(c: char) {
    IsAsciiLetter(c) || '0' <= c <= '9' || c == '+' || c == '-' || c == '.'
  }

  /** Length of the longest prefix of `s` made of scheme characters. */
  function SchemeLen(s: string): (k: nat)
    ensures k <= |s|
    ensures forall i :: 0 <= i < k ==> IsSchemeChar(s[i])
    ensures k < |s| ==> !IsSchemeChar(s[k])
  {
    if s == [] || !IsSchemeChar(s[0]) then 0 else 1 + SchemeLen(s[1..])
  }

  /**
   `urlsplit` takes the text before the first `:` as the scheme when it is
   non-empty, starts with a letter and holds only scheme characters.
   */
  predicate HasScheme(s: string) {
    var k := SchemeLen(s);
    0 < k < |s| && IsAsciiLetter(s[0]) && s[k] == ':'
  }

  function SplitScheme(s: string): (string, string) {
    if HasScheme(s) then (Lower(s[..SchemeLen(s)]), s[SchemeLen(s) + 1..]) else ([], s)
  }

  function SplitNetloc(rest: string): (string, string) {
    if StartsWith(rest, "//") then
      var j := 2 + IndexOfAny(rest[2..], NetlocStops);
      (rest[2..j], rest[j..])
    else ([], rest)
  }

  /** Splits what follows the network location into path, query and fragment. */
  function SplitTail(rest: string): (string, string, string) {
    var f := IndexOf(rest, '#');
    var before := rest[..f];
    var q := IndexOf(before, '?');
    (before[..q],
     if q < |before| then before[q + 1..] else [],
     if f < |rest| then rest[f + 1..] else [])
  }

  /** `urlparse(s)`. */
  function Split(s: string): Parts {
    var schemeAndRest := SplitScheme(s);
    var netlocAndRest := SplitNetloc(schemeAndRest.1);
    var tail := SplitTail(netlocAndRest.1);
    Parts(schemeAndRest.0, netlocAndRest.0, tail.0, tail.1, tail.2)
  }

  function Tail(query: string, fragment: string): string {
    (if query != [] then "?" + query else []) + (if fragment != [] then "#" + fragment else [])
  }

  /** The rendering after the scheme: `//netloc` when needed, then the path. */
  function Body(p: Parts): string {
    if p.netloc != [] then
      "//" + p.netloc + (if p.path != [] && p.path[0] != '/' then "/" + p.path else p.path)
    else if StartsWith(p.path, "//") then "//" + p.path
    else if p.scheme != [] && p.scheme in UsesNetloc && (p.path == [] || p.path[0] == '/') then "//" + p.path
    else p.path
  }

  /** `urlunsplit(p)`, i.e. `geturl()`. */
  function Unsplit(p: Parts): string {
    (if p.scheme != [] then p.scheme + ":" else []) + Body(p) + Tail(p.query, p.fragment)
  }

  predicate NoneIn(s: string, cs: set<char>) {
    forall i :: 0 <= i < |s| ==> s[i] !in cs
  }

  /** The shape of every result of `Split`. */
  ghost predicate WellFormed(p: Parts) {
    && (p.scheme == [] || (IsAsciiLetter(p.scheme[0]) && forall i :: 0 <= i < |p.scheme| ==> IsSchemeChar(p.scheme[i]) && !IsUpper(p.scheme[i])))
    && NoneIn(p.netloc, NetlocStops)
    && NoneIn(p.path, {'?', '#'})
    && '#' !in p.query
    && (p.netloc != [] ==> p.path == [] || p.path[0] == '/')
    && (p.scheme == [] ==> !HasScheme(p.path))
  }

  /** Appending text that starts with `/`, `?` or `#` does not change scheme recognition. */
  lemma HasSchemeExtend(p: string, tail: string)
    requires tail == [] || tail[0] in NetlocStops
    ensures HasScheme(p + tail) == HasScheme(p)
  {
    var s := p + tail;
    assert forall i :: 0 <= i < |p| ==> s[i] == p[i];
    SchemeLenPrefix(p, tail, SchemeLen(p));
  }

  /** A scheme recognised in a prefix is recognised in the whole string. */
  lemma HasSchemePrefix(p: string, tail: string)
    requires HasScheme(p)
    ensures HasScheme(p + tail)
  {
    var s := p + tail;
    assert forall i :: 0 <= i < |p| ==> s[i] == p[i];
    SchemeLenPrefix(p, tail, SchemeLen(p));
  }

  lemma SchemeLenPrefix(p: string, tail: string, k: nat)
    requires k == SchemeLen(p)
    requires k < |p| || tail == [] || !IsSchemeChar(tail[0])
    ensures SchemeLen(p + tail) == k
  {
    var s := p + tail;
    assert forall i :: 0 <= i < |p| ==> s[i] == p[i];
    assert k < |s| ==> !IsSchemeChar(s[k]);
  }

  lemma TailShape(query: string, fragment: string)
    ensures Tail(query, fragment) == [] || Tail(query, fragment)[0] in {'?', '#'}
  {
  }

  /** Cutting `a + b` at the first `c` gives `a` back when `b` starts with `c`. */
  lemma CutAt(a: string, b: string, c: char)
    requires c !in a
    requires b == [] || b[0] == c
    ensures IndexOf(a + b, c) == |a|
    ensures (a + b)[..|a|] == a
    ensures (a + b)[|a|..] == b
  {
    IndexOfAfter(a, b, c);
  }

  /** Cutting at the first `#` separates what precedes a fragment from the fragment. */
  lemma CutFragment(before: string, fragment: string)
    requires '#' !in before
    ensures var rest := before + (if fragment != [] then "#" + fragment else []);
      var f := IndexOf(rest, '#');
      rest[..f] == before && (if f < |rest| then rest[f + 1..] else []) == fragment
  {
    var fs := if fragment != [] then "#" + fragment else [];
    CutAt(before, fs, '#');
    if fragment != [] {
      assert (before + fs)[|before| + 1..] == fragment;
    }
  }

  /** Cutting at the first `?` separates the path from the query. */
  lemma CutQuery(path: string, query: string)
    requires '?' !in path
    ensures var before := path + (if query != [] then "?" + query else []);
      var q := IndexOf(before, '?');
      before[..q] == path && (if q < |before| then before[q + 1..] else []) == query
  {
    var qs := if query != [] then "?" + query else [];
    CutAt(path, qs, '?');
    if query != [] {
      assert (path + qs)[|path| + 1..] == query;
    }
  }

  lemma SplitTailRoundTrip(path: string, query: string, fragment: string)
    requires NoneIn(path, {'?', '#'})
    requires '#' !in query
    ensures SplitTail(path + Tail(query, fragment)) == (path, query, fragment)
  {
    var qs := if query != [] then "?" + query else [];
    var fs := if fragment != [] then "#" + fragment else [];
    assert path + Tail(query, fragment) == (path + qs) + fs;
    assert '#' !in path + qs by {
      assert forall i :: 0 <= i < |path + qs| ==> (path + qs)[i] != '#';
    }
    assert '?' !in path;
    CutFragment(path + qs, fragment);
    CutQuery(path, query);
  }

  lemma SplitNetlocRoundTrip(netloc: string, rest: string)
    requires NoneIn(netloc, NetlocStops)
    requires rest == [] || rest[0] in NetlocStops
    ensures SplitNetloc("//" + netloc + rest) == (netloc, rest)
  {
    var s := "//" + netloc + rest;
    assert s[2..] == netloc + rest;
    IndexOfAnyAfter(netloc, rest, NetlocStops);
    assert s[2..2 + |netloc|] == netloc;
    assert s[2 + |netloc|..] == rest;
  }

  lemma SplitNetlocNone(rest: string)
    requires !StartsWith(rest, "//")
    ensures SplitNetloc(rest) == ([], rest)
  {
  }

  lemma SplitSchemeRoundTrip(scheme: string, rest: string)
    requires scheme != [] && IsAsciiLetter(scheme[0])
    requires forall i :: 0 <= i < |scheme| ==> IsSchemeChar(scheme[i]) && !IsUpper(scheme[i])
    ensures SplitScheme(scheme + ":" + rest) == (scheme, rest)
  {
    var s := scheme + ([':'] + rest);
    assert scheme + ":" + rest == s;
    SchemeLenPrefix(scheme, [':'] + rest, |scheme|);
    assert s[0] == scheme[0] && s[|scheme|] == ':';
    assert HasScheme(s);
    assert s[..|scheme|] == scheme;
    assert s[|scheme| + 1..] == rest;
    assert forall i :: 0 <= i < |scheme| ==> Lower(scheme)[i] == scheme[i];
    assert Lower(scheme) == scheme;
  }

  /** The rendering after the scheme splits back into network location and the rest. */
  lemma SplitBody(p: Parts)
    requires WellFormed(p)
    ensures SplitNetloc(Body(p) + Tail(p.query, p.fragment)) == (p.netloc, p.path + Tail(p.query, p.fragment))
  {
    var tail := Tail(p.query, p.fragment);
    TailShape(p.query, p.fragment);
    var body := Body(p);
    var rest := body + tail;
    if p.netloc != [] {
      assert body == "//" + p.netloc + p.path;
      assert rest == "//" + p.netloc + (p.path + tail);
      SplitNetlocRoundTrip(p.netloc, p.path + tail);
    } else if body != p.path {
      assert body == "//" + p.path;
      assert rest == "//" + [] + (p.path + tail);
      SplitNetlocRoundTrip([], p.path + tail);
    } else {
      assert rest == p.path + tail;
      NoDoubleSlash(p.path, tail);
      SplitNetlocNone(rest);
    }
  }

  /** A path that does not start with `//`, followed by a tail, does not either. */
  lemma NoDoubleSlash(path: string, tail: string)
    requires !StartsWith(path, "//")
    requires tail == [] || tail[0] in {'?', '#'}
    ensures !StartsWith(path + tail, "//")
  {
    var rest := path + tail;
    if |path| >= 2 {
      assert rest[..2] == path[..2];
    } else if |path| == 1 && |rest| >= 2 {
      assert rest[1] == tail[0];
    } else if |rest| >= 2 {
      assert rest[0] == tail[0];
    }
  }

  lemma SplitSchemeOfUnsplit(p: Parts)
    requires WellFormed(p)
    ensures SplitScheme(Unsplit(p)) == (p.scheme, Body(p) + Tail(p.query, p.fragment))
  {
    var tail := Tail(p.query, p.fragment);
    var rest := Body(p) + tail;
    var s := Unsplit(p);
    if p.scheme != [] {
      assert s == p.scheme + ":" + rest;
      SplitSchemeRoundTrip(p.scheme, rest);
    } else {
      assert s == rest;
      if Body(p) == p.path {
        TailShape(p.query, p.fragment);
        HasSchemeExtend(p.path, tail);
      } else {
        assert s[0] == '/';
      }
      assert !HasScheme(s);
    }
  }

  /** `urlparse` undoes `geturl` on every well-formed split. */
  lemma SplitUnsplit(p: Parts)
    requires WellFormed(p)
    ensures Split(Unsplit(p)) == p
  {
    SplitSchemeOfUnsplit(p);
    SplitBody(p);
    SplitTailRoundTrip(p.path, p.query, p.fragment);
  }

  lemma SplitSchemeShape(s: string)
    ensures var scheme := SplitScheme(s).0;
      scheme == [] || (IsAsciiLetter(scheme[0]) && forall i :: 0 <= i < |scheme| ==> IsSchemeChar(scheme[i]) && !IsUpper(scheme[i]))
    ensures SplitScheme(s).0 == [] ==> SplitScheme(s).1 == s && !HasScheme(s)
  {
  }

  lemma SplitNetlocShape(rest: string)
    ensures NoneIn(SplitNetloc(rest).0, NetlocStops)
    ensures StartsWith(rest, "//") ==> SplitNetloc(rest).1 == [] || SplitNetloc(rest).1[0] in NetlocStops
    ensures !StartsWith(rest, "//") ==> SplitNetloc(rest) == ([], rest)
  {
  }

  /** The path is a prefix of what it was split from, followed by `?`, `#` or nothing. */
  lemma SplitTailShape(rest: string)
    ensures var t := SplitTail(rest);
      && NoneIn(t.0, {'?', '#'})
      && '#' !in t.1
      && |t.0| <= |rest| && rest[..|t.0|] == t.0
      && (|t.0| == |rest| || rest[|t.0|] in NetlocStops)
  {
    var f := IndexOf(rest, '#');
    var before := rest[..f];
    var q := IndexOf(before, '?');
    assert forall i :: 0 <= i < q ==> before[i] == rest[i];
  }

  /** Every split `urlparse` produces is well formed. */
  lemma SplitWellFormed(s: string)
    ensures WellFormed(Split(s))
  {
    var sr := SplitScheme(s);
    var nr := SplitNetloc(sr.1);
    var t := SplitTail(nr.1);
    var p := Split(s);
    SplitSchemeShape(s);
    SplitNetlocShape(sr.1);
    SplitTailShape(nr.1);
    if p.netloc != [] {
      assert StartsWith(sr.1, "//");
      assert p.path == [] || p.path[0] in NetlocStops;
    }
    if p.scheme == [] {
      if StartsWith(s, "//") {
        assert p.path == [] || p.path[0] in NetlocStops;
      } else {
        assert nr.1 == s;
        var rest := s[|p.path|..];
        assert s == p.path + rest;
        HasSchemeExtend(p.path, rest);
      }
    }
  }
}
