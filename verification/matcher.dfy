/**
 The coverage check (`URLMatcher`): is a discovered URL already listed among
 the input's URLs, by exact comparison, by host and path, or by one of the
 input's regex directives?
 */
module Matcher {
  import opened Wrappers
  import opened Text
  import Url
  import Domains
  import Extractor
  import Seqs
  import opened Regex

  /** `_norm(url)`: trimmed, trailing slashes dropped, lower-cased, `://www.` collapsed to `://`. */
  function MatchKey(url: string): string {
    ReplaceAll(Lower(RStrip(Strip(url), {'/'})), "://www.", "://")
  }

  /** The exact step: some listed URL has the same key. */
  function AnyExact(key: string, urls: seq<string>): (r: bool)
    ensures r <==> exists i :: 0 <= i < |urls| && MatchKey(urls[i]) == key
  {
    Seqs.Exists(u => MatchKey(u) == key, urls)
  }

  /**
   The host-and-path step for one listed URL: the host keys agree, and the
   listed path without trailing slashes is non-empty and equal to the
   discovered one, compared case-sensitively.
   */
  predicate PathMatch(disc: string, u: string) {
    var d := Url.Split(disc);
    var a := Url.Split(u);
    var ap := RStrip(a.path, {'/'});
    Domains.HostKey(d.netloc) == Domains.HostKey(a.netloc) && ap != [] && RStrip(d.path, {'/'}) == ap
  }

  function AnyPath(disc: string, urls: seq<string>): (r: bool)
    ensures r <==> exists i :: 0 <= i < |urls| && PathMatch(disc, urls[i])
  {
    Seqs.Exists(u => PathMatch(disc, u), urls)
  }

  /** The text of a directive after its tag, up to the first line break (`.` stops there). */
  function DirectiveBody(pat: string): (body: string)
    requires Extractor.IsDirective(pat)
    ensures '\n' !in body
    ensures 3 + |body| <= |pat| && body == pat[3..3 + |body|]
    ensures 3 + |body| == |pat| || pat[3 + |body|] == '\n'
  {
    var tail := pat[3..];
    var n := IndexOf(tail, '\n');
    assert forall k :: 0 <= k < n ==> tail[..n][k] == tail[k];
    tail[..n]
  }

  /**
   The regex a directive contributes: its body trimmed, then with every `(`
   and `)` removed from both ends; none when that leaves nothing or the entry
   is no directive.
   */
  function DirectiveRegex(pat: string): (r: Option<string>)
    ensures r.Some? ==> Extractor.IsDirective(pat)
    ensures r.Some? ==> r.value != [] && r.value[0] !in {'(', ')'} && r.value[|r.value| - 1] !in {'(', ')'}
    ensures r.Some? ==> '\n' !in r.value
  {
    if !Extractor.IsDirective(pat) then None
    else
      var body := DirectiveBody(pat);
      var rp := StripChars(Strip(body), {'(', ')'});
      if rp == [] then None
      else
        DirectiveRegexShape(body);
        Some(rp)
  }

  lemma DirectiveRegexShape(body: string)
    requires '\n' !in body
    ensures '\n' !in StripChars(Strip(body), {'(', ')'})
  {
    var a := LStrip(body, Whitespace);
    var b := RStrip(a, Whitespace);
    var c := LStrip(b, {'(', ')'});
    var e := RStrip(c, {'(', ')'});
    assert e == StripChars(Strip(body), {'(', ')'});
    NoNewlineSlice(body, |body| - |a|, |body|);
    NoNewlineSlice(a, 0, |b|);
    NoNewlineSlice(b, |b| - |c|, |b|);
    NoNewlineSlice(c, 0, |e|);
  }

  lemma NoNewlineSlice(s: string, i: nat, j: nat)
    requires i <= j <= |s| && '\n' !in s
    ensures '\n' !in s[i..j]
  {
    assert forall k :: 0 <= k < j - i ==> s[i..j][k] == s[i + k];
  }

  /** A character `strip()` followed by `strip('()')` can remove from the ends of a directive body. */
  predicate Trimmable(c: char) {
    IsSpace(c) || c == '(' || c == ')'
  }

  lemma BracketedShape(tag: string, x: string)
    requires |tag| == 2
    ensures (tag + ":(" + x + ")")[..2] == tag
    ensures (tag + ":(" + x + ")")[2] == ':'
    ensures (tag + ":(" + x + ")")[3..] == "(" + x + ")"
  {
    var pat := tag + ":(" + x + ")";
    var body := "(" + x + ")";
    assert |pat| == 3 + |body|;
    forall k | 0 <= k < |body|
      ensures pat[3 + k] == body[k]
    {
      if k == 0 {
      } else if k <= |x| {
        assert pat[3 + k] == x[k - 1];
      }
    }
  }

  /** A body that opens and closes with a bracket has no surrounding whitespace. */
  lemma StripBracketed(body: string)
    requires |body| >= 2 && body[0] == '(' && body[|body| - 1] == ')'
    ensures Strip(body) == body
  {
    PrintableNotSpace('(');
    PrintableNotSpace(')');
    LStripAt(body, Whitespace, 0);
    assert body[0..] == body;
    RStripAt(body, Whitespace, |body|);
  }

  /** `strip('()')` takes the brackets off `(x)` when `x` neither starts nor ends with one. */
  lemma Unbracket(x: string)
    requires x != [] && !Trimmable(x[0]) && !Trimmable(x[|x| - 1])
    ensures StripChars("(" + x + ")", {'(', ')'}) == x
  {
    var body := "(" + x + ")";
    var brackets := {'(', ')'};
    assert body[1] == x[0];
    LStripAt(body, brackets, 1);
    var tail := body[1..];
    assert tail == x + ")";
    assert tail[|x| - 1] == x[|x| - 1];
    RStripAt(tail, brackets, |x|);
    assert tail[..|x|] == x;
  }

  /** The body `(x)` of such a directive is one line, and trimming it leaves `x`. */
  lemma BracketedBody(x: string)
    requires x != [] && '\n' !in x
    requires !Trimmable(x[0]) && !Trimmable(x[|x| - 1])
    ensures IndexOf("(" + x + ")", '\n') == |x| + 2
    ensures StripChars(Strip("(" + x + ")"), {'(', ')'}) == x
  {
    IndexOfAbsent("(" + x + ")", '\n');
    StripBracketed("(" + x + ")");
    Unbracket(x);
  }

  /** A directive whose text after the tag is one line has all of it as its body. */
  lemma DirectiveBodyWhole(pat: string)
    requires Extractor.IsDirective(pat) && '\n' !in pat[3..]
    ensures DirectiveBody(pat) == pat[3..]
  {
  }

  /**
   A directive written as `tag:(x)`, with `x` on one line and not itself
   starting or ending with whitespace or a bracket, contributes exactly `x`.
   */
  lemma DirectiveRegexOf(tag: string, x: string)
    requires |tag| == 2 && Lower(tag) in {"ev", "cp", "df", "if"}
    requires x != [] && '\n' !in x
    requires !Trimmable(x[0]) && !Trimmable(x[|x| - 1])
    ensures DirectiveRegex(tag + ":(" + x + ")") == Some(x)
  {
    BracketedShape(tag, x);
    BracketedBody(x);
    DirectiveBodyWhole(tag + ":(" + x + ")");
  }

  /**
   A directive contributes no regex only when its text after the tag, up to
   the first line break, is made entirely of whitespace and brackets.
   */
  lemma DirectiveRegexNone(pat: string)
    requires Extractor.IsDirective(pat) && DirectiveRegex(pat).None?
    ensures forall k :: 3 <= k < 3 + |DirectiveBody(pat)| ==> Trimmable(pat[k])
  {
    var body := DirectiveBody(pat);
    var brackets := {'(', ')'};
    var a := LStrip(body, Whitespace);
    var b := RStrip(a, Whitespace);
    var c := LStrip(b, brackets);
    assert RStrip(c, brackets) == [];
    RStripCover(c, brackets, {});
    LStripCover(b, brackets, brackets);
    RStripCover(a, Whitespace, brackets);
    LStripCover(body, Whitespace, Whitespace + brackets);
    forall k | 3 <= k < 3 + |body|
      ensures Trimmable(pat[k])
    {
      assert pat[k] == body[k - 3];
    }
  }

  /** The regex step for one directive: its regex is found in the discovered path or URL. */
  predicate RegexHit(disc: string, pat: string, search: Search) {
    var rp := DirectiveRegex(pat);
    rp.Some? && (search(rp.value, Url.Split(disc).path) || search(rp.value, disc))
  }

  function AnyRegex(disc: string, pats: seq<string>, search: Search): (r: bool)
    ensures r <==> exists i :: 0 <= i < |pats| && RegexHit(disc, pats[i], search)
  {
    Seqs.Exists(pat => RegexHit(disc, pat, search), pats)
  }

  /**
   `covered(disc_url, http_urls, regex_pats)`: the discovered URL is covered
   exactly when some listed URL matches it by key, or by host and path, or
   some directive's regex is found in it.
   */
  function Covered(disc: string, urls: seq<string>, pats: seq<string>, search: Search): (r: bool)
    ensures r <==>
      || (exists i :: 0 <= i < |urls| && MatchKey(urls[i]) == MatchKey(disc))
      || (exists i :: 0 <= i < |urls| && PathMatch(disc, urls[i]))
      || (exists i :: 0 <= i < |pats| && RegexHit(disc, pats[i], search))
  {
    AnyExact(MatchKey(disc), urls) || AnyPath(disc, urls) || AnyRegex(disc, pats, search)
  }

  /** Listing more URLs or more directives never uncovers a URL. */
  lemma CoveredMonotone(disc: string, urls: seq<string>, more: seq<string>, pats: seq<string>, morePats: seq<string>, search: Search)
    requires Covered(disc, urls, pats, search)
    ensures Covered(disc, urls + more, pats + morePats, search)
  {
    assert forall i :: 0 <= i < |urls| ==> (urls + more)[i] == urls[i];
    assert forall i :: 0 <= i < |pats| ==> (pats + morePats)[i] == pats[i];
  }

  /** The exact step ignores letter case: URLs equal up to case have the same key. */
  lemma ExactIgnoresCase(a: string, b: string)
    requires Lower(a) == Lower(b)
    ensures MatchKey(a) == MatchKey(b)
  {
    LowerStrip(a);
    LowerStrip(b);
    LowerRStrip(Strip(a), {'/'});
    LowerRStrip(Strip(b), {'/'});
  }

  /** A trimmed string keeps its first character, when it has one. */
  lemma TrimmedHead(u: string)
    requires u == Strip(u) && u != []
    ensures u[0] !in Whitespace
  {
    var l := LStrip(u, Whitespace);
    assert u == RStrip(l, Whitespace);
  }

  /** Stripping a set without `/` leaves `s + "/"` alone when `s` starts outside the set. */
  lemma SlashUnstripped(s: string, cs: set<char>)
    requires s == [] || s[0] !in cs
    requires '/' !in cs
    ensures StripChars(s + "/", cs) == s + "/"
  {
    var v := s + "/";
    assert v[0] !in cs by {
      if s != [] {
        assert v[0] == s[0];
      }
    }
    assert v[|v| - 1] == '/';
    LStripNoop(v, cs);
    RStripNoop(v, cs);
  }

  /** Appending `/` to a trimmed string leaves it trimmed. */
  lemma TrimmedSlash(u: string)
    requires u == Strip(u)
    ensures Strip(u + "/") == u + "/"
  {
    if u != [] {
      TrimmedHead(u);
    }
    PrintableNotSpace('/');
    SlashUnstripped(u, Whitespace);
  }

  /** `rstrip('/')` removes an appended slash along with the others. */
  lemma RStripSlash(u: string)
    ensures RStrip(u + "/", {'/'}) == RStrip(u, {'/'})
  {
    var n := |RStrip(u, {'/'})|;
    RStripAt(u + "/", {'/'}, n);
    assert (u + "/")[..n] == u[..n];
  }

  /** The exact step ignores a trailing slash: a trimmed URL and the same URL plus `/` share a key. */
  lemma KeyIgnoresSlash(u: string)
    requires u == Strip(u)
    ensures MatchKey(u + "/") == MatchKey(u)
  {
    TrimmedSlash(u);
    RStripSlash(u);
  }

  /** A URL that is itself listed is covered, whatever the directives. */
  lemma ListedCovered(disc: string, urls: seq<string>, pats: seq<string>, search: Search)
    requires disc in urls
    ensures Covered(disc, urls, pats, search)
  {
    var i :| 0 <= i < |urls| && urls[i] == disc;
    assert MatchKey(urls[i]) == MatchKey(disc);
  }
}
