/**
 The reference extractor (`URLExtractor`): pulls plain HTTP(S) URLs out of
 free-form reference entries and picks out the regex-coverage directives.
 */
module Extractor {
  import opened Wrappers
  import opened Text
  import Blocking
  import Seqs

  /** The characters the class `[^\s'"<>\}\)]` of the URL pattern admits. */
  predicate UrlChar(c: char) {
    !IsSpace(c) && c != '\'' && c != '"' && c != '<' && c != '>' && c != '}' && c != ')'
  }

  /** What a match of `https?://[^\s'"<>\}\)]+` looks like. */
  predicate UrlToken(m: string) {
    && (StartsWith(m, "http://") || StartsWith(m, "https://"))
    && forall k :: 0 <= k < |m| ==> UrlChar(m[k])
  }

  /** The trailing punctuation `rstrip(',;|')` removes. */
  const TrailingPunctuation: set<char> := {',', ';', '|'}

  /** End of the longest run of URL characters starting at `i`. */
  function RunEnd(s: string, i: nat): (j: nat)
    requires i <= |s|
    ensures i <= j <= |s|
    ensures j < |s| ==> !UrlChar(s[j])
    decreases |s| - i
  {
    if i == |s| || !UrlChar(s[i]) then i else RunEnd(s, i + 1)
  }

  /** Everything `RunEnd` passes over is a URL character. */
  lemma {:induction false} RunEndChars(s: string, i: nat)
    requires i <= |s|
    ensures forall k :: i <= k < RunEnd(s, i) ==> UrlChar(s[k])
    decreases |s| - i
  {
    if i < |s| && UrlChar(s[i]) {
      RunEndChars(s, i + 1);
    }
  }

  lemma SchemePrefixChars()
    ensures forall k :: 0 <= k < 7 ==> UrlChar("http://"[k])
    ensures forall k :: 0 <= k < 8 ==> UrlChar("https://"[k])
  {
    var https := "https://";
    forall k | 0 <= k < 8
      ensures UrlChar(https[k])
    {
      PrintableNotSpace(https[k]);
    }
    assert "http://" == https[..4] + https[5..];
  }

  lemma TokenFromPrefix(s: string, i: nat, j: nat, prefix: string)
    requires i + |prefix| <= j <= |s|
    requires StartsWith(s[i..], prefix)
    requires forall k :: 0 <= k < |prefix| ==> UrlChar(prefix[k])
    requires forall k :: i + |prefix| <= k < j ==> UrlChar(s[k])
    ensures StartsWith(s[i..j], prefix)
    ensures forall k :: 0 <= k < j - i ==> UrlChar(s[i..j][k])
    ensures forall k :: i <= k < j ==> UrlChar(s[k])
  {
    assert s[i..j][..|prefix|] == s[i..][..|prefix|];
    forall k | 0 <= k < j - i
      ensures UrlChar(s[i..j][k])
    {
      if k < |prefix| {
        assert s[i..j][k] == s[i..][..|prefix|][k];
      }
    }
  }

  /** A match of the URL pattern can start at `i`: `https://` or `http://` followed by a URL character. */
  predicate StartsMatch(s: string, i: nat)
    requires i <= |s|
  {
    || (StartsWith(s[i..], "https://") && i + 8 < |s| && UrlChar(s[i + 8]))
    || (StartsWith(s[i..], "http://") && i + 7 < |s| && UrlChar(s[i + 7]))
  }

  /** A position that closes a run of URL characters begun at `i` is where `RunEnd` stops. */
  lemma RunEndAt(s: string, i: nat, j: nat)
    requires i <= j <= |s|
    requires forall k :: i <= k < j ==> UrlChar(s[k])
    requires j == |s| || !UrlChar(s[j])
    ensures RunEnd(s, i) == j
  {
    RunEndChars(s, i);
  }

  /**
   Where a greedy match of the URL pattern starting exactly at `i` ends: there
   is one exactly when a scheme and a URL character start there, and it runs
   to the end of the run of URL characters.
   */
  function MatchAt(s: string, i: nat): (r: Option<nat>)
    requires i <= |s|
    ensures r.Some? <==> StartsMatch(s, i)
    ensures r.Some? ==> i < r.value <= |s|
    ensures r.Some? ==> r.value == RunEnd(s, i)
    ensures r.Some? ==> r.value == |s| || !UrlChar(s[r.value])
  {
    var t := s[i..];
    SchemePrefixChars();
    if StartsWith(t, "https://") && |t| > 8 && UrlChar(t[8]) then
      var j := RunEnd(s, i + 8);
      RunEndChars(s, i + 8);
      TokenFromPrefix(s, i, j, "https://");
      RunEndAt(s, i, j);
      Some(j)
    else if StartsWith(t, "http://") && |t| > 7 && UrlChar(t[7]) then
      var j := RunEnd(s, i + 7);
      RunEndChars(s, i + 7);
      TokenFromPrefix(s, i, j, "http://");
      RunEndAt(s, i, j);
      Some(j)
    else None
  }

  /** What `MatchAt` reports has the shape of the URL pattern. */
  lemma MatchAtToken(s: string, i: nat)
    requires i <= |s| && MatchAt(s, i).Some?
    ensures UrlToken(s[i..MatchAt(s, i).value])
  {
    var j := MatchAt(s, i).value;
    SchemePrefixChars();
    if StartsWith(s[i..], "https://") && i + 8 < |s| && UrlChar(s[i + 8]) {
      RunEndChars(s, i + 8);
      RunEndAt(s, i, RunEnd(s, i + 8));
      TokenFromPrefix(s, i, j, "https://");
    } else {
      RunEndChars(s, i + 7);
      RunEndAt(s, i, RunEnd(s, i + 7));
      TokenFromPrefix(s, i, j, "http://");
    }
  }

  /**
   `HTTP_RE.findall(s[i..])`: non-overlapping greedy matches, left to right.
   */
  function Scan(s: string, i: nat): (ms: seq<string>)
    requires i <= |s|
    decreases |s| - i
  {
    if i == |s| then []
    else match MatchAt(s, i)
      case Some(j) => [s[i..j]] + Scan(s, j)
      case None => Scan(s, i + 1)
  }

  /** Every match the scan reports has the shape of the URL pattern. */
  lemma {:induction false} ScanTokens(s: string, i: nat)
    requires i <= |s|
    ensures forall k :: 0 <= k < |Scan(s, i)| ==> UrlToken(Scan(s, i)[k])
    decreases |s| - i
  {
    if i < |s| {
      match MatchAt(s, i)
      case Some(j) =>
        MatchAtToken(s, i);
        ScanTokens(s, j);
      case None => ScanTokens(s, i + 1);
    }
  }

  /** The scan finds nothing exactly when no match starts at or after `i`. */
  lemma {:induction false} ScanEmpty(s: string, i: nat)
    requires i <= |s|
    ensures Scan(s, i) == [] <==> forall q :: i <= q < |s| ==> !StartsMatch(s, q)
    decreases |s| - i
  {
    if i < |s| {
      ScanEmpty(s, i + 1);
    }
  }

  /** Positions where no match starts are passed over. */
  lemma {:induction false} ScanSkip(s: string, i: nat, p: nat)
    requires i <= p <= |s|
    requires forall q :: i <= q < p ==> !StartsMatch(s, q)
    ensures Scan(s, i) == Scan(s, p)
    decreases p - i
  {
    if i < p {
      ScanSkip(s, i + 1, p);
    }
  }

  /**
   The first match reported is the one at the leftmost position where a match
   starts, taken in full, and scanning resumes where it ends.
   */
  lemma ScanFirst(s: string, i: nat, p: nat)
    requires i <= p < |s|
    requires forall q :: i <= q < p ==> !StartsMatch(s, q)
    requires StartsMatch(s, p)
    ensures MatchAt(s, p).Some?
    ensures Scan(s, i) == [s[p..MatchAt(s, p).value]] + Scan(s, MatchAt(s, p).value)
  {
    ScanSkip(s, i, p);
  }

  /** Text boundary no match can straddle: a side is empty or a boundary character is no URL character. */
  predicate Delimited(a: string, b: string) {
    a == [] || b == [] || !UrlChar(a[|a| - 1]) || !UrlChar(b[0])
  }

  /** Where a match starts, the run of URL characters covers the scheme and the character after it. */
  lemma MatchStartRun(s: string, i: nat)
    requires i <= |s| && StartsMatch(s, i)
    ensures RunEnd(s, i) > i + 7
    ensures StartsWith(s[i..], "https://") && i + 8 < |s| && UrlChar(s[i + 8]) ==> RunEnd(s, i) > i + 8
  {
    SchemePrefixChars();
    if StartsWith(s[i..], "https://") && i + 8 < |s| && UrlChar(s[i + 8]) {
      forall k | i <= k <= i + 8
        ensures UrlChar(s[k])
      {
        if k < i + 8 {
          assert s[k] == s[i..][..8][k - i];
        }
      }
    } else {
      forall k | i <= k <= i + 7
        ensures UrlChar(s[k])
      {
        if k < i + 7 {
          assert s[k] == s[i..][..7][k - i];
        }
      }
    }
  }

  /** Inside the left part of a delimited join, runs of URL characters end where they end in that part alone. */
  lemma RunEndConcat(a: string, b: string, i: nat)
    requires i < |a| && Delimited(a, b)
    ensures RunEnd(a + b, i) == RunEnd(a, i)
  {
    var s := a + b;
    var j := RunEnd(a, i);
    RunEndChars(a, i);
    assert forall k :: i <= k < j ==> s[k] == a[k];
    if j == |a| {
      assert UrlChar(a[|a| - 1]);
      assert b == [] || s[j] == b[0];
    } else {
      assert s[j] == a[j];
    }
    RunEndAt(s, i, j);
  }

  /** Inside the left part of a delimited join, matches are those of that part alone. */
  lemma MatchAtConcat(a: string, b: string, i: nat)
    requires i < |a| && Delimited(a, b)
    ensures MatchAt(a + b, i) == MatchAt(a, i)
  {
    var s := a + b;
    RunEndConcat(a, b, i);
    if StartsMatch(s, i) {
      MatchStartRun(s, i);
      assert RunEnd(a, i) <= |a|;
      assert s[i..][..8] == a[i..][..8];
      assert s[i..][..7] == a[i..][..7];
      assert StartsMatch(a, i);
    }
    if StartsMatch(a, i) {
      MatchStartRun(a, i);
      assert s[i..][..8] == a[i..][..8] || i + 8 > |a|;
      assert s[i..][..7] == a[i..][..7];
      assert StartsMatch(s, i);
    }
  }

  /** Scanning the right part of a join sees the right part alone, shifted. */
  lemma MatchAtShift(a: string, b: string, k: nat)
    requires k <= |b|
    ensures MatchAt(b, k).None? ==> MatchAt(a + b, |a| + k).None?
    ensures MatchAt(b, k).Some? ==> MatchAt(a + b, |a| + k) == Some(|a| + MatchAt(b, k).value)
  {
    var s := a + b;
    assert s[|a| + k..] == b[k..];
    assert StartsMatch(s, |a| + k) <==> StartsMatch(b, k);
    if MatchAt(b, k).Some? {
      var j := MatchAt(b, k).value;
      RunEndChars(b, k);
      assert forall q :: |a| + k <= q < |a| + j ==> s[q] == b[q - |a|];
      assert |a| + j < |s| ==> s[|a| + j] == b[j];
      RunEndAt(s, |a| + k, |a| + j);
    }
  }

  /** One step of the scan where no match starts: move one character on. */
  lemma ScanPass(s: string, i: nat)
    requires i < |s| && MatchAt(s, i).None?
    ensures Scan(s, i) == Scan(s, i + 1)
  {
  }

  /** One step of the scan where a match starts: take it and resume where it ends. */
  lemma ScanCons(s: string, i: nat, j: nat)
    requires i < |s| && MatchAt(s, i) == Some(j)
    ensures Scan(s, i) == [s[i..j]] + Scan(s, j)
  {
  }

  /**
   Two scans that both take a match with the same text, and then agree up to a
   common suffix `rest`, agree from where they started.
   */
  lemma ScanTakeAlike(s: string, p: nat, q: nat, t: string, p2: nat, q2: nat, rest: seq<string>)
    requires p < |s| && MatchAt(s, p) == Some(q)
    requires p2 < |t| && MatchAt(t, p2) == Some(q2)
    requires s[p..q] == t[p2..q2]
    requires Scan(s, q) == Scan(t, q2) + rest
    ensures Scan(s, p) == Scan(t, p2) + rest
  {
    ScanCons(s, p, q);
    ScanCons(t, p2, q2);
    Seqs.ConsAppend(t[p2..q2], Scan(t, q2), rest);
  }

  /** Two scans that both move on where no match starts, and then agree up to `rest`, agree from there. */
  lemma ScanSkipAlike(s: string, p: nat, t: string, p2: nat, rest: seq<string>)
    requires p < |s| && MatchAt(s, p).None?
    requires p2 < |t| && MatchAt(t, p2).None?
    requires Scan(s, p + 1) == Scan(t, p2 + 1) + rest
    ensures Scan(s, p) == Scan(t, p2) + rest
  {
    ScanPass(s, p);
    ScanPass(t, p2);
  }

  /** `ScanTakeAlike` with nothing left over. */
  lemma ScanTakeSame(s: string, p: nat, q: nat, t: string, p2: nat, q2: nat)
    requires p < |s| && MatchAt(s, p) == Some(q)
    requires p2 < |t| && MatchAt(t, p2) == Some(q2)
    requires s[p..q] == t[p2..q2]
    requires Scan(s, q) == Scan(t, q2)
    ensures Scan(s, p) == Scan(t, p2)
  {
    ScanCons(s, p, q);
    ScanCons(t, p2, q2);
  }

  /** `ScanSkipAlike` with nothing left over. */
  lemma ScanSkipSame(s: string, p: nat, t: string, p2: nat)
    requires p < |s| && MatchAt(s, p).None?
    requires p2 < |t| && MatchAt(t, p2).None?
    requires Scan(s, p + 1) == Scan(t, p2 + 1)
    ensures Scan(s, p) == Scan(t, p2)
  {
    ScanPass(s, p);
    ScanPass(t, p2);
  }

  lemma SliceShift(a: string, b: string, k: nat, j: nat)
    requires k <= j <= |b|
    ensures (a + b)[|a| + k..|a| + j] == b[k..j]
  {
  }

  lemma SliceConcat(a: string, b: string, i: nat, j: nat)
    requires i <= j <= |a|
    ensures (a + b)[i..j] == a[i..j]
  {
  }

  /** One step of `ScanShift` where the right part has a match. */
  lemma ShiftTake(a: string, b: string, k: nat, j: nat)
    requires k < |b| && MatchAt(b, k) == Some(j)
    requires Scan(a + b, |a| + j) == Scan(b, j)
    ensures Scan(a + b, |a| + k) == Scan(b, k)
  {
    MatchAtShift(a, b, k);
    SliceShift(a, b, k, j);
    ScanTakeSame(a + b, |a| + k, |a| + j, b, k, j);
  }

  /** One step of `ScanShift` where the right part has none. */
  lemma ShiftSkip(a: string, b: string, k: nat)
    requires k < |b| && MatchAt(b, k).None?
    requires Scan(a + b, |a| + k + 1) == Scan(b, k + 1)
    ensures Scan(a + b, |a| + k) == Scan(b, k)
  {
    MatchAtShift(a, b, k);
    ScanSkipSame(a + b, |a| + k, b, k);
  }

  lemma ScanEnd(s: string)
    ensures Scan(s, |s|) == []
  {
  }

  /** Scanning the right part of a join from `k` sees the right part alone. */
  lemma {:induction false} ScanShift(a: string, b: string, k: nat)
    requires k <= |b|
    ensures Scan(a + b, |a| + k) == Scan(b, k)
    decreases |b| - k
  {
    if k == |b| {
      ScanEnd(a + b);
      ScanEnd(b);
    } else if MatchAt(b, k).Some? {
      var j := MatchAt(b, k).value;
      ScanShift(a, b, j);
      ShiftTake(a, b, k, j);
    } else {
      ScanShift(a, b, k + 1);
      ShiftSkip(a, b, k);
    }
  }

  /**
   When the parts of a join cannot be bridged by one run of URL characters, the
   scan of the join is the scan of the left part followed by that of the right.
   */
  lemma {:induction false} ScanConcatFrom(a: string, b: string, i: nat)
    requires i <= |a| && Delimited(a, b)
    ensures Scan(a + b, i) == Scan(a, i) + Scan(b, 0)
    decreases |a| - i
  {
    if i == |a| {
      ScanShift(a, b, 0);
    } else {
      MatchAtConcat(a, b, i);
      if MatchAt(a, i).Some? {
        var j := MatchAt(a, i).value;
        ScanConcatFrom(a, b, j);
        SliceConcat(a, b, i, j);
        ScanTakeAlike(a + b, i, j, a, i, j, Scan(b, 0));
      } else {
        ScanConcatFrom(a, b, i + 1);
        ScanSkipAlike(a + b, i, a, i, Scan(b, 0));
      }
    }
  }

  /** `m.rstrip(',;|')` followed by removing a trailing run of `}`. */
  function Clean(m: string): string {
    RStrip(RStrip(m, TrailingPunctuation), {'}'})
  }

  /** A cleaned match is kept when it is longer than ten characters and off the blocked domains. */
  predicate Worth(c: string) {
    |c| > 10 && !Blocking.IsBlocked(c)
  }

  /** The cleaned matches worth keeping, in match order. */
  function Keep(ms: seq<string>): (cs: seq<string>)
    ensures forall x :: x in cs <==> (exists k :: 0 <= k < |ms| && x == Clean(ms[k])) && Worth(x)
  {
    var cleaned := Seqs.MapSeq(Clean, ms);
    assert forall x :: x in cleaned <==> exists k :: 0 <= k < |ms| && x == Clean(ms[k]);
    Seqs.Filter(Worth, cleaned)
  }

  /** What every extracted URL satisfies. */
  ghost predicate ExtractedUrl(x: string) {
    && (StartsWith(x, "http://") || StartsWith(x, "https://"))
    && |x| > 10
    && (forall k :: 0 <= k < |x| ==> UrlChar(x[k]))
    && x[|x| - 1] !in TrailingPunctuation
    && !Blocking.IsBlocked(x)
  }

  /** A match holds no `}`, so cleaning it only drops trailing punctuation. */
  lemma CleanToken(m: string)
    requires UrlToken(m)
    ensures Clean(m) == RStrip(m, TrailingPunctuation)
  {
    var r1 := RStrip(m, TrailingPunctuation);
    assert '}' !in r1 by {
      assert forall k :: 0 <= k < |r1| ==> r1[k] == m[k];
    }
    RStripNoop(r1, {'}'});
  }

  /** A prefix of a match longer than its scheme still has the shape of a match. */
  lemma TokenPrefix(m: string, n: nat)
    requires UrlToken(m) && 8 <= n <= |m|
    ensures UrlToken(m[..n])
  {
    assert m[..n][..7] == m[..7] && m[..n][..8] == m[..8];
  }

  lemma CleanShape(m: string)
    requires UrlToken(m)
    requires |Clean(m)| > 10
    ensures Clean(m) == RStrip(m, TrailingPunctuation)
    ensures ExtractedUrl(Clean(m)) || Blocking.IsBlocked(Clean(m))
  {
    CleanToken(m);
    TokenPrefix(m, |Clean(m)|);
  }

  lemma KeepShape(ms: seq<string>)
    requires forall k :: 0 <= k < |ms| ==> UrlToken(ms[k])
    ensures forall k :: 0 <= k < |Keep(ms)| ==> ExtractedUrl(Keep(ms)[k])
  {
    forall k | 0 <= k < |Keep(ms)|
      ensures ExtractedUrl(Keep(ms)[k])
    {
      var j :| 0 <= j < |ms| && Keep(ms)[k] == Clean(ms[j]);
      CleanShape(ms[j]);
    }
  }

  /** `extract_http(raw)`. */
  function ExtractHttp(raw: string): (urls: seq<string>)
    ensures forall k :: 0 <= k < |urls| ==> ExtractedUrl(urls[k])
    ensures (forall q :: 0 <= q < |raw| ==> !StartsMatch(raw, q)) ==> urls == []
  {
    var ms := Scan(raw, 0);
    ScanTokens(raw, 0);
    ScanEmpty(raw, 0);
    KeepShape(ms);
    Keep(ms)
  }

  lemma MatchWhole(u: string)
    requires UrlToken(u) && |u| > 8
    ensures MatchAt(u, 0) == Some(|u|)
  {
    assert u[0..] == u;
    if StartsWith(u, "https://") {
      assert RunEnd(u, 8) == |u|;
    } else {
      assert u[4] == ':';
      assert RunEnd(u, 7) == |u|;
    }
  }

  /** An entry that is already a clean URL extracts to exactly itself. */
  lemma ExtractCleanUrl(u: string)
    requires ExtractedUrl(u)
    ensures ExtractHttp(u) == [u]
  {
    MatchWhole(u);
    assert u[0..|u|] == u;
    assert Scan(u, 0) == [u] + Scan(u, |u|);
    RStripNoop(u, TrailingPunctuation);
    RStripNoop(u, {'}'});
    assert Seqs.MapSeq(Clean, [u]) == [u];
    assert Seqs.Filter(Worth, [u]) == [u];
  }

  lemma KeepAppend(xs: seq<string>, ys: seq<string>)
    ensures Keep(xs + ys) == Keep(xs) + Keep(ys)
  {
    Seqs.MapSeqAppend(Clean, xs, ys);
    Seqs.FilterAppend(Worth, Seqs.MapSeq(Clean, xs), Seqs.MapSeq(Clean, ys));
  }

  /** Extraction distributes over text joined at a boundary no URL can straddle. */
  lemma ExtractHttpConcat(a: string, b: string)
    requires Delimited(a, b)
    ensures ExtractHttp(a + b) == ExtractHttp(a) + ExtractHttp(b)
  {
    ScanConcatFrom(a, b, 0);
    KeepAppend(Scan(a, 0), Scan(b, 0));
  }

  /**
   A clean URL embedded in an entry, set off by characters no URL contains, is
   extracted, between what the text before it and the text after it yield.
   */
  lemma ExtractEmbedded(p: string, u: string, q: string)
    requires ExtractedUrl(u)
    requires p == [] || !UrlChar(p[|p| - 1])
    requires q == [] || !UrlChar(q[0])
    ensures ExtractHttp(p + u + q) == ExtractHttp(p) + [u] + ExtractHttp(q)
  {
    ExtractHttpConcat(p + u, q);
    ExtractHttpConcat(p, u);
    ExtractCleanUrl(u);
  }

  /**
   An entry made of text in which no match starts, followed by a clean URL,
   extracts to exactly that URL.
   */
  lemma ExtractAfterPrefix(p: string, u: string)
    requires ExtractedUrl(u)
    requires p == [] || !UrlChar(p[|p| - 1])
    requires forall q :: 0 <= q < |p| ==> !StartsMatch(p, q)
    ensures ExtractHttp(p + u) == [u]
  {
    ExtractHttpConcat(p, u);
    ExtractCleanUrl(u);
  }

  /** `all_http(entries)`: the set of URLs extracted from any entry. */
  function AllHttp(entries: seq<string>): (urls: set<string>)
    ensures forall x :: x in urls <==> exists i :: 0 <= i < |entries| && x in ExtractHttp(entries[i])
    ensures forall x :: x in urls ==> ExtractedUrl(x)
  {
    set i, x | 0 <= i < |entries| && x in ExtractHttp(entries[i]) :: x
  }

  /** A trimmed entry that starts with `ev:`, `cp:`, `df:` or `if:`, in any letter case. */
  predicate IsDirective(s: string) {
    |s| >= 3 && Lower(s[..2]) in {"ev", "cp", "df", "if"} && s[2] == ':'
  }

  /** `extract_regex_patterns(entries)`: the trimmed directive entries, in order. */
  function RegexPatterns(entries: seq<string>): (pats: seq<string>)
    ensures |pats| <= |entries|
    ensures forall k :: 0 <= k < |pats| ==> IsDirective(pats[k])
    ensures forall k :: 0 <= k < |pats| ==> exists i :: 0 <= i < |entries| && pats[k] == Strip(entries[i])
    ensures forall i :: 0 <= i < |entries| && IsDirective(Strip(entries[i])) ==> Strip(entries[i]) in pats
  {
    var trimmed := Seqs.MapSeq(Strip, entries);
    var pats := Seqs.Filter(IsDirective, trimmed);
    assert forall k :: 0 <= k < |pats| ==> exists i :: 0 <= i < |entries| && trimmed[i] == pats[k];
    assert forall i :: 0 <= i < |entries| ==> Strip(entries[i]) in trimmed;
    pats
  }

  /** Directives are collected entry by entry: a directive list of a join is the join of the lists. */
  lemma RegexPatternsAppend(xs: seq<string>, ys: seq<string>)
    ensures RegexPatterns(xs + ys) == RegexPatterns(xs) + RegexPatterns(ys)
  {
    Seqs.MapSeqAppend(Strip, xs, ys);
    Seqs.FilterAppend(IsDirective, Seqs.MapSeq(Strip, xs), Seqs.MapSeq(Strip, ys));
  }

  /** A single entry contributes its trimmed text exactly when that is a directive. */
  lemma RegexPatternsOne(e: string)
    ensures RegexPatterns([e]) == if IsDirective(Strip(e)) then [Strip(e)] else []
  {
    assert Seqs.MapSeq(Strip, [e]) == [Strip(e)];
  }
}
