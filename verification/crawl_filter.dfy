/**
 The crawler's URL hygiene (`Crawler._normalize` and `Crawler._valid`): how a
 harvested link is canonicalised and which canonical links are worth a visit.
 */
module CrawlFilter {
  import opened Wrappers
  import opened Text
  import Url
  import Blocking
  import Domains
  import Seqs

  /** Query parameters dropped by `_normalize` (compared after lower-casing the name). */
  const TrackingKeys: set<string> := {
    "utm_source", "utm_medium", "utm_campaign", "utm_term", "utm_content", "fbclid", "gclid"
  }

  /** A `name=value` parameter `_normalize` keeps: its lower-cased name is not a tracking key. */
  predicate KeepParam(x: string) {
    Lower(SplitOn(x, '=')[0]) !in TrackingKeys
  }

  /** The kept parameters, in their original order. */
  function KeptParams(xs: seq<string>): seq<string> {
    Seqs.Filter(KeepParam, xs)
  }

  /** `path.rstrip('/') or '/'`. */
  function NormalPath(path: string): string {
    var t := RStrip(path, {'/'});
    if t == [] then "/" else t
  }

  /** The query with tracking parameters removed; an empty query stays as it is. */
  function NormalQuery(q: string): string {
    if q != [] then Join(KeptParams(SplitOn(q, '&')), '&') else q
  }

  function NormalizeParts(p: Url.Parts): Url.Parts {
    p.(path := NormalPath(p.path), query := NormalQuery(p.query), fragment := [])
  }

  /**
   The normalised path is `/` exactly when the path is all slashes; otherwise
   it is the path with its trailing slashes, and only those, removed.
   */
  lemma NormalPathSpec(path: string)
    ensures var n := NormalPath(path);
      (n == "/" <==> forall i :: 0 <= i < |path| ==> path[i] == '/')
      && (n != "/" ==> n != [] && n[|n| - 1] != '/' && StartsWith(path, n)
                       && forall i :: |n| <= i < |path| ==> path[i] == '/')
  {
    var t := RStrip(path, {'/'});
    if t == [] {
      assert forall i :: 0 <= i < |path| ==> path[i] in {'/'};
    } else {
      assert t[|t| - 1] != '/';
      assert path[..|t|] == t;
      assert t[|t| - 1] == path[|t| - 1];
    }
  }

  lemma NormalPathShape(path: string)
    requires Url.NoneIn(path, {'?', '#'})
    ensures Url.NoneIn(NormalPath(path), {'?', '#'})
    ensures NormalPath(path)[0] == '/' || (path != [] && NormalPath(path)[0] == path[0])
    ensures Url.HasScheme(NormalPath(path)) ==> Url.HasScheme(path)
  {
    var t := RStrip(path, {'/'});
    if t != [] {
      assert path == t + path[|t|..];
      if Url.HasScheme(t) {
        Url.HasSchemePrefix(t, path[|t|..]);
      }
    } else {
      assert Url.SchemeLen("/") == 0;
    }
  }

  lemma NormalQueryShape(q: string)
    requires '#' !in q
    ensures '#' !in NormalQuery(q)
  {
    if q != [] {
      var xs := SplitOn(q, '&');
      SplitChars(q, '&', '#');
      JoinChars(KeptParams(xs), '&', '#');
    }
  }

  /** Normalising keeps the shape of a parsed URL, so it parses back to itself. */
  lemma NormalizeWellFormed(p: Url.Parts)
    requires Url.WellFormed(p)
    ensures Url.WellFormed(NormalizeParts(p))
  {
    NormalPathShape(p.path);
    NormalQueryShape(p.query);
  }

  lemma NormalPathIdempotent(path: string)
    ensures NormalPath(NormalPath(path)) == NormalPath(path)
  {
    var t := RStrip(path, {'/'});
    if t != [] {
      RStripIdempotent(path, {'/'});
    } else {
      assert RStrip("/", {'/'}) == [];
    }
  }

  lemma NormalQueryIdempotent(q: string)
    ensures NormalQuery(NormalQuery(q)) == NormalQuery(q)
  {
    if q != [] {
      var ks := KeptParams(SplitOn(q, '&'));
      if ks != [] {
        SplitJoin(ks, '&');
        Seqs.FilterAll(KeepParam, ks);
      }
    }
  }

  /**
   `_normalize(url)`: the fragment is dropped, trailing slashes are stripped
   from the path (an empty result becomes `/`), and tracking parameters are
   removed from a non-empty query; scheme and network location are untouched.
   */
  function Normalize(url: string): (r: string)
    ensures Url.Split(r) == NormalizeParts(Url.Split(url))
    ensures Url.Split(r).scheme == Url.Split(url).scheme && Url.Split(r).netloc == Url.Split(url).netloc
    ensures Url.Split(r).fragment == []
    ensures var path := Url.Split(url).path; var n := Url.Split(r).path;
      (n == "/" <==> forall i :: 0 <= i < |path| ==> path[i] == '/')
      && (n != "/" ==> n != [] && n[|n| - 1] != '/' && StartsWith(path, n)
                       && forall i :: |n| <= i < |path| ==> path[i] == '/')
    ensures forall k :: 0 <= k < |SplitOn(Url.Split(r).query, '&')| ==> KeepParam(SplitOn(Url.Split(r).query, '&')[k])
  {
    var p := Url.Split(url);
    Url.SplitWellFormed(url);
    NormalPathSpec(p.path);
    NormalizeWellFormed(p);
    Url.SplitUnsplit(NormalizeParts(p));
    NormalizeQueryKeeps(p.query);
    Url.Unsplit(NormalizeParts(p))
  }

  /** Every parameter left in a normalised query is one `_normalize` keeps. */
  lemma NormalizeQueryKeeps(q: string)
    ensures forall k :: 0 <= k < |SplitOn(NormalQuery(q), '&')| ==> KeepParam(SplitOn(NormalQuery(q), '&')[k])
  {
    var nq := NormalQuery(q);
    if nq == [] {
      assert SplitOn(nq, '&') == [[]];
      assert SplitOn([], '=') == [[]];
    } else {
      var ks := KeptParams(SplitOn(q, '&'));
      assert ks != [];
      SplitJoin(ks, '&');
    }
  }

  /** Normalising twice is normalising once. */
  lemma NormalizeIdempotent(url: string)
    ensures Normalize(Normalize(url)) == Normalize(url)
  {
    var p := Url.Split(url);
    NormalPathIdempotent(p.path);
    NormalQueryIdempotent(p.query);
    assert NormalizeParts(NormalizeParts(p)) == NormalizeParts(p);
  }

  /** Normalising never changes whether a URL is on a blocked domain. */
  lemma NormalizeKeepsBlocked(url: string)
    ensures Blocking.IsBlocked(Normalize(url)) == Blocking.IsBlocked(url)
  {
    assert Blocking.Host(Normalize(url)) == Blocking.Host(url);
  }

  /** File extensions the crawler never visits (checked on the lower-cased path). */
  const SkipExt: set<string> := {
    ".pdf", ".doc", ".docx", ".xls", ".xlsx", ".ppt", ".pptx",
    ".zip", ".rar", ".tar", ".gz", ".7z", ".jpg", ".jpeg", ".png",
    ".gif", ".bmp", ".svg", ".ico", ".webp", ".mp3", ".mp4", ".avi",
    ".mov", ".wmv", ".flv", ".wav", ".css", ".js", ".woff", ".woff2",
    ".ttf", ".eot", ".otf", ".exe", ".dmg", ".msi", ".apk"
  }

  /** The skip patterns that are plain substrings once their regex escapes are read. */
  const SkipFragments: seq<string> := [
    "/wp-content/", "/wp-includes/", "/wp-admin/",
    "/assets/", "/static/", "/images/", "/img/",
    "/fonts/", "/css/", "/js/", "javascript:",
    "mailto:", "tel:", "/cdn-cgi/", "/feed/", "/rss/",
    "/login", "/logout", "/signup", "/register",
    "/cart", "/checkout", "/account",
    "?replytocom=",
    "/xmlrpc.php", "/wp-json/"
  ]

  predicate IsDigit(c: char) {
    '0' <= c <= '9'
  }

  /** The pattern `/page/\d+`: `/page/` followed by a digit. */
  predicate PageNumber(s: string) {
    exists i :: 0 <= i && i + 6 < |s| && OccursAt(s, "/page/", i) && IsDigit(s[i + 6])
  }

  /** Some skip pattern is found in the (lower-cased) URL. */
  predicate SkippedPath(ul: string) {
    (exists f :: f in SkipFragments && Contains(ul, f)) || PageNumber(ul)
  }

  /** `_valid(url, allowed)`. */
  predicate Valid(url: string, allowed: set<string>) {
    var p := Url.Split(url);
    && !Blocking.IsBlocked(url)
    && (p.scheme == "http" || p.scheme == "https")
    && p.netloc != []
    && Domains.HostKey(p.netloc) in allowed
    && !(exists e :: e in SkipExt && EndsWith(Lower(p.path), e))
    && !SkippedPath(Lower(url))
  }

  /** Allowing more hosts never turns a valid link invalid. */
  lemma ValidMonotone(url: string, allowed: set<string>, more: set<string>)
    requires allowed <= more && Valid(url, allowed)
    ensures Valid(url, more)
  {
  }

  /** `/page/` and a digit, placed anywhere, form a page number. */
  lemma PageNumberAt(a: string, d: char, b: string)
    requires IsDigit(d)
    ensures PageNumber(a + "/page/" + [d] + b)
  {
    var s := a + "/page/" + [d] + b;
    assert s[|a|..|a| + 6] == "/page/";
    assert s[|a| + 6] == d;
    assert OccursAt(s, "/page/", |a|) && IsDigit(s[|a| + 6]);
  }

  /** A link containing `/page/` and a digit is skipped, whatever its host and letter case. */
  lemma ValidSkipsPageNumber(a: string, d: char, b: string, allowed: set<string>)
    requires IsDigit(d)
    ensures !Valid(a + "/page/" + [d] + b, allowed)
  {
    var p := "/page/";
    LowerNoUpper(p);
    LowerNoUpper([d]);
    LowerAppend(a, p);
    LowerAppend(a + p, [d]);
    LowerAppend(a + p + [d], b);
    PageNumberAt(Lower(a), d, Lower(b));
  }

  /**
   What the crawler keeps of one harvested link: its normalised form, when
   that passes `_valid`. A kept link is valid, already normalised, on an
   allowed host and not blocked.
   */
  function Accept(link: string, allowed: set<string>): (r: Option<string>)
    ensures r.Some? <==> Valid(Normalize(link), allowed)
    ensures r.Some? ==> r.value == Normalize(link)
    ensures r.Some? ==> Normalize(r.value) == r.value
    ensures r.Some? ==> !Blocking.IsBlocked(r.value)
    ensures r.Some? ==> Domains.HostKey(Url.Split(r.value).netloc) in allowed
  {
    var n := Normalize(link);
    if Valid(n, allowed) then
      NormalizeIdempotent(link);
      Some(n)
    else None
  }
}
