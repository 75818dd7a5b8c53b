/**
 String helpers mirroring the few Python `str` methods the application uses:
 `lower`, `strip`, `rstrip(chars)`, `startswith`, `endswith`, `find`,
 `split(sep)`, `sep.join(..)` and `replace(old, new)`. Characters are modelled
 with ASCII case folding; everything else is character-exact.
 */
module Text {

  /** The characters Python's `str.isspace` (and the regex class `\s`) accept. */
  const Whitespace: set<char> := {
    ' ', '\U{9}', '\U{A}', '\U{D}', '\U{B}', '\U{C}', '\U{1C}', '\U{1D}',
    '\U{1E}', '\U{1F}', '\U{85}', '\U{A0}', '\U{1680}', '\U{2000}', '\U{2001}', '\U{2002}',
    '\U{2003}', '\U{2004}', '\U{2005}', '\U{2006}', '\U{2007}', '\U{2008}', '\U{2009}', '\U{200A}',
    '\U{2028}', '\U{2029}', '\U{202F}', '\U{205F}', '\U{3000}'
  }

  predicate IsSpace(c: char) {
    c in Whitespace
  }

  /** Printable ASCII characters are not whitespace. */
  lemma PrintableNotSpace(c: char)
    requires '!' <= c <= '~'
    ensures !IsSpace(c)
  {
  }

  predicate IsUpper(c: char) {
    'A' <= c <= 'Z'
  }

  predicate IsAsciiLetter(c: char) {
    'A' <= c <= 'Z' || 'a' <= c <= 'z'
  }

  function LowerChar(c: char): char {
    if IsUpper(c) then (c as int + 32) as char else c
  }

  /** `s.lower()`, restricted to ASCII case folding. */
  function Lower(s: string): (r: string)
    ensures |r| == |s|
    ensures forall i {:trigger r[i]} :: 0 <= i < |s| ==> r[i] == LowerChar(s[i])
  {
    if s == [] then [] else [LowerChar(s[0])] + Lower(s[1..])
  }

  predicate StartsWith(s: string, p: string) {
    |p| <= |s| && s[..|p|] == p
  }

  predicate EndsWith(s: string, p: string) {
    |p| <= |s| && s[|s| - |p|..] == p
  }

  /** True when `sub` occurs somewhere in `s` (Python's `sub in s`). */
  predicate Contains(s: string, sub: string)
    decreases |s|
  {
    StartsWith(s, sub) || (s != [] && Contains(s[1..], sub))
  }

  /** Where the run of `cs` characters that ends at `j` begins. */
  function TrailStart(s: string, cs: set<char>, j: nat): (i: nat)
    requires j <= |s|
    ensures i <= j
    ensures forall k :: i <= k < j ==> s[k] in cs
    ensures i == 0 || s[i - 1] !in cs
    decreases j
  {
    if j == 0 || s[j - 1] !in cs then j else TrailStart(s, cs, j - 1)
  }

  /** Where the run of `cs` characters that begins at `i` ends. */
  function LeadEnd(s: string, cs: set<char>, i: nat): (j: nat)
    requires i <= |s|
    ensures i <= j <= |s|
    ensures forall k :: i <= k < j ==> s[k] in cs
    ensures j == |s| || s[j] !in cs
    decreases |s| - i
  {
    if i == |s| || s[i] !in cs then i else LeadEnd(s, cs, i + 1)
  }

  /** `s.rstrip(chars)`: drops every trailing character that is in `cs`. */
  function RStrip(s: string, cs: set<char>): (r: string)
    ensures |r| <= |s| && r == s[..|r|]
    ensures r == [] || r[|r| - 1] !in cs
    ensures forall i :: |r| <= i < |s| ==> s[i] in cs
  {
    s[..TrailStart(s, cs, |s|)]
  }

  /** `s.lstrip(chars)`: drops every leading character that is in `cs`. */
  function LStrip(s: string, cs: set<char>): (r: string)
    ensures |r| <= |s| && r == s[|s| - |r|..]
    ensures r == [] || r[0] !in cs
    ensures forall i :: 0 <= i < |s| - |r| ==> s[i] in cs
  {
    s[LeadEnd(s, cs, 0)..]
  }

  /** What `rstrip` leaves is fixed by where the trailing run of `cs` begins. */
  lemma RStripAt(s: string, cs: set<char>, n: nat)
    requires n <= |s|
    requires forall k :: n <= k < |s| ==> s[k] in cs
    requires n == 0 || s[n - 1] !in cs
    ensures RStrip(s, cs) == s[..n]
  {
  }

  /** What `lstrip` leaves is fixed by where the leading run of `cs` ends. */
  lemma LStripAt(s: string, cs: set<char>, n: nat)
    requires n <= |s|
    requires forall k :: 0 <= k < n ==> s[k] in cs
    requires n == |s| || s[n] !in cs
    ensures LStrip(s, cs) == s[n..]
  {
  }

  /** `s.strip(chars)`: both ends. */
  function StripChars(s: string, cs: set<char>): string {
    RStrip(LStrip(s, cs), cs)
  }

  /** `s.strip()`: whitespace at both ends. */
  function Strip(s: string): string {
    StripChars(s, Whitespace)
  }

  /**
   `s.replace(pat, repl)`: every non-overlapping occurrence of `pat`, scanning
   left to right, is replaced, not only the first or a leading one.
   */
  function ReplaceAll(s: string, pat: string, repl: string): string
    requires pat != []
    decreases |s|
  {
    if |s| < |pat| then s
    else if s[..|pat|] == pat then repl + ReplaceAll(s[|pat|..], pat, repl)
    else [s[0]] + ReplaceAll(s[1..], pat, repl)
  }

  /** `s.find(c)`, answering `|s|` instead of -1 when `c` does not occur. */
  function IndexOf(s: string, c: char): (i: nat)
    ensures i <= |s|
    ensures forall k :: 0 <= k < i ==> s[k] != c
    ensures i < |s| ==> s[i] == c
  {
    if s == [] then 0
    else if s[0] == c then 0
    else 1 + IndexOf(s[1..], c)
  }

  /** A character that does not occur is found at the end. */
  lemma IndexOfAbsent(s: string, c: char)
    requires c !in s
    ensures IndexOf(s, c) == |s|
  {
  }

  /** Position of the first character of `s` that is in `cs`, or `|s|`. */
  function IndexOfAny(s: string, cs: set<char>): (i: nat)
    ensures i <= |s|
    ensures forall k :: 0 <= k < i ==> s[k] !in cs
    ensures i < |s| ==> s[i] in cs
  {
    if s == [] then 0
    else if s[0] in cs then 0
    else 1 + IndexOfAny(s[1..], cs)
  }

  /** `s.split(c)`: always at least one piece, and no piece contains `c`. */
  function SplitOn(s: string, c: char): (pieces: seq<string>)
    ensures |pieces| >= 1
    ensures forall k :: 0 <= k < |pieces| ==> c !in pieces[k]
    decreases |s|
  {
    var i := IndexOf(s, c);
    if i == |s| then [s]
    else [s[..i]] + SplitOn(s[i + 1..], c)
  }

  /** `c.join(xs)`. */
  function Join(xs: seq<string>, c: char): string
    decreases |xs|
  {
    if xs == [] then []
    else if |xs| == 1 then xs[0]
    else xs[0] + [c] + Join(xs[1..], c)
  }

  lemma LowerAppend(a: string, b: string)
    ensures Lower(a + b) == Lower(a) + Lower(b)
  {
    var l := Lower(a + b);
    var r := Lower(a) + Lower(b);
    forall i | 0 <= i < |l|
      ensures l[i] == r[i]
    {
      if i < |a| {
        assert (a + b)[i] == a[i];
      } else {
        assert (a + b)[i] == b[i - |a|];
      }
    }
  }

  lemma LowerIdempotent(s: string)
    ensures Lower(Lower(s)) == Lower(s)
  {
    assert forall i :: 0 <= i < |s| ==> Lower(Lower(s))[i] == Lower(s)[i];
  }

  /** A string whose last character is not stripped is its own `rstrip`. */
  lemma RStripNoop(s: string, cs: set<char>)
    requires s == [] || s[|s| - 1] !in cs
    ensures RStrip(s, cs) == s
  {
    RStripAt(s, cs, |s|);
  }

  /** A string whose first character is not stripped is its own `lstrip`. */
  lemma LStripNoop(s: string, cs: set<char>)
    requires s == [] || s[0] !in cs
    ensures LStrip(s, cs) == s
  {
    LStripAt(s, cs, 0);
  }

  /** Stripping twice strips nothing more. */
  lemma StripIdempotent(s: string)
    ensures Strip(Strip(s)) == Strip(s)
  {
    var l := LStrip(s, Whitespace);
    var t := RStrip(l, Whitespace);
    if t != [] {
      assert t[0] == l[0];
    }
    LStripNoop(t, Whitespace);
    RStripNoop(t, Whitespace);
  }

  /** When what `lstrip` leaves is made of `ds`, the whole string is made of `cs` and `ds`. */
  lemma LStripCover(s: string, cs: set<char>, ds: set<char>)
    requires forall i :: 0 <= i < |LStrip(s, cs)| ==> LStrip(s, cs)[i] in ds
    ensures forall i :: 0 <= i < |s| ==> s[i] in cs + ds
  {
    var r := LStrip(s, cs);
    forall i | 0 <= i < |s|
      ensures s[i] in cs + ds
    {
      if i >= |s| - |r| {
        assert s[i] == r[i - (|s| - |r|)];
      }
    }
  }

  /** When what `rstrip` leaves is made of `ds`, the whole string is made of `cs` and `ds`. */
  lemma RStripCover(s: string, cs: set<char>, ds: set<char>)
    requires forall i :: 0 <= i < |RStrip(s, cs)| ==> RStrip(s, cs)[i] in ds
    ensures forall i :: 0 <= i < |s| ==> s[i] in cs + ds
  {
    var r := RStrip(s, cs);
    forall i | 0 <= i < |s|
      ensures s[i] in cs + ds
    {
      if i < |r| {
        assert s[i] == r[i];
      }
    }
  }

  lemma RStripIdempotent(s: string, cs: set<char>)
    ensures RStrip(RStrip(s, cs), cs) == RStrip(s, cs)
  {
    RStripNoop(RStrip(s, cs), cs);
  }

  /** The first `c` in `a + b` is the first in `b`, shifted, when `a` has none. */
  lemma IndexOfAfter(a: string, b: string, c: char)
    requires c !in a
    ensures IndexOf(a + b, c) == |a| + IndexOf(b, c)
  {
    assert forall k :: 0 <= k < |a| ==> (a + b)[k] == a[k];
    assert forall k :: 0 <= k < |b| ==> (a + b)[|a| + k] == b[k];
  }

  lemma IndexOfAnyAfter(a: string, b: string, cs: set<char>)
    requires forall k :: 0 <= k < |a| ==> a[k] !in cs
    ensures IndexOfAny(a + b, cs) == |a| + IndexOfAny(b, cs)
  {
    assert forall k :: 0 <= k < |a| ==> (a + b)[k] == a[k];
    assert forall k :: 0 <= k < |b| ==> (a + b)[|a| + k] == b[k];
  }

  /** `pat` occurs in `s` starting at position `k`. */
  predicate OccursAt(s: string, pat: string, k: nat) {
    k + |pat| <= |s| && s[k..k + |pat|] == pat
  }

  /** A string that does not start with `pat` keeps its first character. */
  lemma ReplaceAllStep(s: string, pat: string, repl: string)
    requires pat != [] && s != [] && !OccursAt(s, pat, 0)
    ensures ReplaceAll(s, pat, repl) == [s[0]] + ReplaceAll(s[1..], pat, repl)
  {
  }

  /** Occurrences in `s[1..]` are occurrences in `s`, one position on. */
  lemma OccursShift(s: string, pat: string, k: nat)
    requires s != [] && OccursAt(s[1..], pat, k)
    ensures OccursAt(s, pat, k + 1)
  {
    assert s[1..][k..k + |pat|] == s[k + 1..k + 1 + |pat|];
  }

  /** `replace` leaves a prefix alone when no occurrence starts inside it. */
  lemma {:induction false} ReplaceAllSkip(a: string, b: string, pat: string, repl: string)
    requires pat != []
    requires forall k :: 0 <= k < |a| ==> !OccursAt(a + b, pat, k)
    ensures ReplaceAll(a + b, pat, repl) == a + ReplaceAll(b, pat, repl)
    decreases |a|
  {
    if a == [] {
      assert a + b == b;
    } else {
      var s := a + b;
      ReplaceAllStep(s, pat, repl);
      assert s[1..] == a[1..] + b;
      forall k | 0 <= k < |a[1..]|
        ensures !OccursAt(s[1..], pat, k)
      {
        if OccursAt(s[1..], pat, k) {
          OccursShift(s, pat, k);
        }
      }
      ReplaceAllSkip(a[1..], b, pat, repl);
      assert s[0] == a[0];
    }
  }

  /** An occurrence at the front is replaced and the scan resumes after it. */
  lemma ReplaceAllHead(b: string, pat: string, repl: string)
    requires pat != []
    ensures ReplaceAll(pat + b, pat, repl) == repl + ReplaceAll(b, pat, repl)
  {
    assert (pat + b)[..|pat|] == pat;
    assert (pat + b)[|pat|..] == b;
  }

  /** Deleting `pat`: an occurrence after an occurrence-free prefix disappears. */
  lemma DeleteInside(a: string, b: string, pat: string)
    requires pat != []
    requires forall k :: 0 <= k < |a| ==> !OccursAt(a + (pat + b), pat, k)
    ensures ReplaceAll(a + (pat + b), pat, []) == a + ReplaceAll(b, pat, [])
  {
    ReplaceAllSkip(a, pat + b, pat, []);
    ReplaceAllHead(b, pat, []);
    assert [] + ReplaceAll(b, pat, []) == ReplaceAll(b, pat, []);
  }

  /** Lower-casing a string with no upper-case letter changes nothing. */
  lemma LowerNoUpper(s: string)
    requires forall i :: 0 <= i < |s| ==> !IsUpper(s[i])
    ensures Lower(s) == s
  {
  }

  /** One mismatching character rules out an occurrence. */
  lemma NotOccurs(s: string, pat: string, k: nat, m: nat)
    requires m < |pat| && k + m < |s| && s[k + m] != pat[m]
    ensures !OccursAt(s, pat, k)
  {
    if k + |pat| <= |s| {
      assert s[k..k + |pat|][m] == s[k + m];
    }
  }

  /** A string without the separator is one piece. */
  lemma SplitWhole(a: string, c: char)
    requires c !in a
    ensures SplitOn(a, c) == [a]
  {
    IndexOfAfter(a, [], c);
    assert a + [] == a;
  }

  /** A separator-free piece, the separator, then the rest: the piece comes first. */
  lemma SplitFirst(a: string, rest: string, c: char)
    requires c !in a
    ensures SplitOn(a + ([c] + rest), c) == [a] + SplitOn(rest, c)
  {
    var s := a + ([c] + rest);
    IndexOfAfter(a, [c] + rest, c);
    assert IndexOf([c] + rest, c) == 0;
    assert s[..|a|] == a && s[|a| + 1..] == rest;
  }

  /** Splitting a join gives the pieces back when no piece holds the separator. */
  lemma {:induction false} SplitJoin(xs: seq<string>, c: char)
    requires |xs| >= 1
    requires forall k :: 0 <= k < |xs| ==> c !in xs[k]
    ensures SplitOn(Join(xs, c), c) == xs
    decreases |xs|
  {
    if |xs| == 1 {
      SplitWhole(xs[0], c);
    } else {
      var rest := Join(xs[1..], c);
      assert Join(xs, c) == xs[0] + ([c] + rest);
      SplitFirst(xs[0], rest, c);
      SplitJoin(xs[1..], c);
      assert xs == [xs[0]] + xs[1..];
    }
  }

  /** A joined string contains only characters of the pieces and the separator. */
  lemma {:induction false} JoinChars(xs: seq<string>, c: char, d: char)
    requires d != c
    requires forall k :: 0 <= k < |xs| ==> d !in xs[k]
    ensures d !in Join(xs, c)
    decreases |xs|
  {
    if |xs| > 1 {
      JoinChars(xs[1..], c, d);
    }
  }

  /** Splitting introduces no character that was not already there. */
  lemma {:induction false} SplitChars(s: string, c: char, d: char)
    requires d !in s
    ensures forall k :: 0 <= k < |SplitOn(s, c)| ==> d !in SplitOn(s, c)[k]
    decreases |s|
  {
    var i := IndexOf(s, c);
    if i < |s| {
      var rest := s[i + 1..];
      assert forall m :: 0 <= m < |rest| ==> rest[m] == s[i + 1 + m];
      SplitChars(rest, c, d);
      var first := s[..i];
      assert forall m :: 0 <= m < |first| ==> first[m] == s[m];
    }
  }

  /** A character set that lower-casing neither enters nor leaves. */
  predicate CaseStable(cs: set<char>) {
    forall c :: c in cs <==> LowerChar(c) in cs
  }

  lemma WhitespaceCaseStable()
    ensures CaseStable(Whitespace)
  {
  }

  lemma LowerPrefix(s: string, n: nat)
    requires n <= |s|
    ensures Lower(s[..n]) == Lower(s)[..n]
  {
  }

  lemma LowerSuffix(s: string, n: nat)
    requires n <= |s|
    ensures Lower(s[n..]) == Lower(s)[n..]
  {
  }

  /** Stripping trailing characters of a case-stable set commutes with lower-casing. */
  lemma LowerRStrip(s: string, cs: set<char>)
    requires CaseStable(cs)
    ensures RStrip(Lower(s), cs) == Lower(RStrip(s, cs))
  {
    var n := |RStrip(s, cs)|;
    forall k | n <= k < |s|
      ensures Lower(s)[k] in cs
    {
      assert Lower(s)[k] == LowerChar(s[k]);
    }
    if n > 0 {
      assert Lower(s)[n - 1] == LowerChar(s[n - 1]);
    }
    RStripAt(Lower(s), cs, n);
    LowerPrefix(s, n);
  }

  /** Stripping leading characters of a case-stable set commutes with lower-casing. */
  lemma LowerLStrip(s: string, cs: set<char>)
    requires CaseStable(cs)
    ensures LStrip(Lower(s), cs) == Lower(LStrip(s, cs))
  {
    var n := |s| - |LStrip(s, cs)|;
    forall k | 0 <= k < n
      ensures Lower(s)[k] in cs
    {
      assert Lower(s)[k] == LowerChar(s[k]);
    }
    if n < |s| {
      assert Lower(s)[n] == LowerChar(s[n]);
    }
    LStripAt(Lower(s), cs, n);
    LowerSuffix(s, n);
  }

  /** `s.strip().lower() == s.lower().strip()`. */
  lemma LowerStrip(s: string)
    ensures Strip(Lower(s)) == Lower(Strip(s))
  {
    WhitespaceCaseStable();
    LowerLStrip(s, Whitespace);
    LowerRStrip(LStrip(s, Whitespace), Whitespace);
  }
}
