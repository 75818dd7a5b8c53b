/**
 The document-type classifier (`DocTypeClassifier`): a first-match-wins cascade
 over pattern tables that maps a URL to a label, a confidence and the pattern
 that decided it, and the scope filter built on top of it.
 */
module Classifier {
  import opened Wrappers
  import opened Text
  import opened Regex
  import Url
  import Blocking
  import ClassifierTables

  datatype Label = Pdf | Html | Both | OutOfScope | Unclassified

  datatype Confidence = High | Medium | Low

  datatype Classification = Classification(docType: Label, confidence: Confidence, pattern: string)

  /** The nine pattern tables, each searched in order. */
  datatype Tables = Tables(
    pdfOnly: seq<string>,
    htmlOnly: seq<string>,
    both: seq<string>,
    oosKeywords: seq<string>,
    oosPaths: seq<string>,
    pdfPaths: seq<string>,
    htmlPaths: seq<string>,
    bothPaths: seq<string>,
    overrides: seq<string>)

  const SourceTables: Tables := Tables(
    ClassifierTables.PdfOnly, ClassifierTables.HtmlOnly, ClassifierTables.BothKeywords,
    ClassifierTables.OosKeywords, ClassifierTables.OosPaths, ClassifierTables.PdfPaths,
    ClassifierTables.HtmlPaths, ClassifierTables.BothPaths, ClassifierTables.InScopeOverrides)

  /** The pattern reported for a blocked URL, whichever blocked domain it is on. */
  const BlockedPattern: string := "blocked:s3.amazonaws.com"

  const Unmatched: Classification := Classification(Unclassified, Low, [])

  /** Index of the first pattern that `search` finds in `text`. */
  function FirstMatch(text: string, patterns: seq<string>, search: Search): (r: Option<nat>)
    ensures r.Some? ==> r.value < |patterns| && search(patterns[r.value], text)
    ensures r.Some? ==> forall j :: 0 <= j < r.value ==> !search(patterns[j], text)
    ensures r.None? ==> forall j :: 0 <= j < |patterns| ==> !search(patterns[j], text)
  {
    if patterns == [] then None
    else if search(patterns[0], text) then Some(0)
    else match FirstMatch(text, patterns[1..], search)
      case None => None
      case Some(i) => Some(i + 1)
  }

  /**
   `_match_any`: the first matching pattern, or the empty string. A matching
   pattern that is itself empty is indistinguishable from no match, as in the source.
   */
  function MatchAny(text: string, patterns: seq<string>, search: Search): (p: string)
    ensures p != [] ==> p in patterns && search(p, text)
    ensures (forall j :: 0 <= j < |patterns| ==> !search(patterns[j], text)) ==> p == []
    ensures forall i :: 0 <= i < |patterns| && search(patterns[i], text) && (forall j :: 0 <= j < i ==> !search(patterns[j], text)) ==> p == patterns[i]
  {
    match FirstMatch(text, patterns, search)
    case None => []
    case Some(i) => patterns[i]
  }

  /** `_is_override`. */
  predicate IsOverride(urlLower: string, t: Tables, search: Search) {
    MatchAny(urlLower, t.overrides, search) != []
  }

  /**
   An override applies exactly when the first override pattern found in the
   URL is non-empty: `_is_override` tests the truth of the returned pattern.
   */
  lemma OverrideIff(urlLower: string, t: Tables, search: Search)
    ensures IsOverride(urlLower, t, search) <==>
      exists i :: 0 <= i < |t.overrides| && search(t.overrides[i], urlLower) && t.overrides[i] != [] &&
        forall j :: 0 <= j < i ==> !search(t.overrides[j], urlLower)
  {
    var o := t.overrides;
    match FirstMatch(urlLower, o, search)
    case None =>
    case Some(i) =>
      forall i' | 0 <= i' < |o| && search(o[i'], urlLower) && forall j :: 0 <= j < i' ==> !search(o[j], urlLower)
        ensures i' == i
      {
      }
  }

  /** The lower-cased path `classify` matches path tables against. */
  function PathOf(url: string): string {
    Lower(Url.Split(url).path)
  }

  /** `classify(url)`. */
  function Classify(url: string, t: Tables, search: Search): (r: Classification)
    ensures url == [] ==> r == Unmatched
    ensures Blocking.IsBlocked(url) ==> r == Classification(OutOfScope, High, BlockedPattern)
    ensures url != [] && !Blocking.IsBlocked(url) && IsOverride(Lower(url), t, search) ==> r.docType != OutOfScope
    ensures r.confidence == Low <==> r.docType == Unclassified
    ensures r.confidence == High <==> r.docType == OutOfScope || (r.docType == Pdf && url != [] && EndsWith(PathOf(url), ".pdf"))
    ensures r.docType == Unclassified <==> r.pattern == []
  {
    if url == [] then Unmatched
    else
      var ul := Lower(url);
      var path := PathOf(url);
      if Blocking.IsBlocked(url) then Classification(OutOfScope, High, BlockedPattern)
      else
        var overridden := IsOverride(ul, t, search);
        var oosPath := if overridden then [] else MatchAny(path, t.oosPaths, search);
        var oosKeyword := if overridden then [] else MatchAny(ul, t.oosKeywords, search);
        if oosPath != [] then Classification(OutOfScope, High, oosPath)
        else if oosKeyword != [] then Classification(OutOfScope, High, oosKeyword)
        else DocumentStages(ul, path, t, search)
  }

  /** The stages after the out-of-scope checks: `.pdf`, then PDF, HTML and Both tables, keywords before paths. */
  function DocumentStages(ul: string, path: string, t: Tables, search: Search): (r: Classification)
    ensures r.docType != OutOfScope
    ensures r.confidence == High <==> EndsWith(path, ".pdf")
    ensures r.confidence == High ==> r.docType == Pdf
    ensures r.confidence == Low <==> r.docType == Unclassified
    ensures r.docType == Unclassified <==> r.pattern == []
  {
    if EndsWith(path, ".pdf") then Classification(Pdf, High, ".pdf")
    else
      var pdfKeyword := MatchAny(ul, t.pdfOnly, search);
      var pdfPath := MatchAny(path, t.pdfPaths, search);
      var htmlKeyword := MatchAny(ul, t.htmlOnly, search);
      var htmlPath := MatchAny(path, t.htmlPaths, search);
      var bothKeyword := MatchAny(ul, t.both, search);
      var bothPath := MatchAny(path, t.bothPaths, search);
      if pdfKeyword != [] then Classification(Pdf, Medium, pdfKeyword)
      else if pdfPath != [] then Classification(Pdf, Medium, pdfPath)
      else if htmlKeyword != [] then Classification(Html, Medium, htmlKeyword)
      else if htmlPath != [] then Classification(Html, Medium, htmlPath)
      else if bothKeyword != [] then Classification(Both, Medium, bothKeyword)
      else if bothPath != [] then Classification(Both, Medium, bothPath)
      else Unmatched
  }

  /** The scope filter on a label: `in_scope` after classification. */
  predicate KeepLabel(docType: Label, mode: string) {
    if docType == OutOfScope then false
    else if mode == "Both" then true
    else if mode == "PDF" then docType in {Pdf, Both, Unclassified}
    else if mode == "HTML" then docType in {Html, Both, Unclassified}
    else true
  }

  /** `in_scope(url, mode)`. */
  function InScope(url: string, mode: string, t: Tables, search: Search): (r: bool)
    ensures var docType := Classify(url, t, search).docType;
      r <==> docType != OutOfScope && (mode == "PDF" ==> docType != Html) && (mode == "HTML" ==> docType != Pdf)
  {
    KeepLabel(Classify(url, t, search).docType, mode)
  }

  // ---------------------------------------------------------------------------
  // The cascade as data: an independent statement of the rule order.
  // ---------------------------------------------------------------------------

  /** One stage of the cascade: a pattern table searched in the URL or its path, or the `.pdf` suffix test. */
  datatype Rule = PatternRule(patterns: seq<string>, onPath: bool, docType: Label) | PdfSuffixRule

  /** The stages in the order they are tried; the two out-of-scope stages drop out when an override matched. */
  function Cascade(t: Tables, overridden: bool): seq<Rule> {
    (if overridden then [] else [PatternRule(t.oosPaths, true, OutOfScope), PatternRule(t.oosKeywords, false, OutOfScope)])
    + DocumentRules(t)
  }

  function DocumentRules(t: Tables): seq<Rule> {
    [PdfSuffixRule,
     PatternRule(t.pdfOnly, false, Pdf), PatternRule(t.pdfPaths, true, Pdf),
     PatternRule(t.htmlOnly, false, Html), PatternRule(t.htmlPaths, true, Html),
     PatternRule(t.both, false, Both), PatternRule(t.bothPaths, true, Both)]
  }

  /** What a stage decides on its own, if anything. */
  function Fire(rule: Rule, urlLower: string, path: string, search: Search): Option<Classification> {
    match rule
    case PdfSuffixRule =>
      if EndsWith(path, ".pdf") then Some(Classification(Pdf, High, ".pdf")) else None
    case PatternRule(patterns, onPath, docType) =>
      var p := MatchAny(if onPath then path else urlLower, patterns, search);
      if p == [] then None
      else Some(Classification(docType, if docType == OutOfScope then High else Medium, p))
  }

  /** The decision of the first stage that fires, or Unclassified when none does. */
  function FirstFiring(rules: seq<Rule>, urlLower: string, path: string, search: Search): Classification
    decreases |rules|
  {
    if rules == [] then Unmatched
    else match Fire(rules[0], urlLower, path, search)
      case Some(c) => c
      case None => FirstFiring(rules[1..], urlLower, path, search)
  }

  /** `FirstFiring` really is the first firing stage. */
  lemma {:induction false} FirstFiringIsFirst(rules: seq<Rule>, urlLower: string, path: string, search: Search)
    ensures var c := FirstFiring(rules, urlLower, path, search);
      || (exists i :: 0 <= i < |rules| && Fire(rules[i], urlLower, path, search) == Some(c)
            && forall j :: 0 <= j < i ==> Fire(rules[j], urlLower, path, search).None?)
      || (c == Unmatched && forall j :: 0 <= j < |rules| ==> Fire(rules[j], urlLower, path, search).None?)
    decreases |rules|
  {
    if rules != [] && Fire(rules[0], urlLower, path, search).None? {
      FirstFiringIsFirst(rules[1..], urlLower, path, search);
      var c := FirstFiring(rules, urlLower, path, search);
      if exists i :: 0 <= i < |rules[1..]| && Fire(rules[1..][i], urlLower, path, search) == Some(c)
           && forall j :: 0 <= j < i ==> Fire(rules[1..][j], urlLower, path, search).None? {
        var i :| 0 <= i < |rules[1..]| && Fire(rules[1..][i], urlLower, path, search) == Some(c)
           && forall j :: 0 <= j < i ==> Fire(rules[1..][j], urlLower, path, search).None?;
        assert Fire(rules[i + 1], urlLower, path, search) == Some(c);
        assert forall j :: 0 <= j < i + 1 ==> Fire(rules[j], urlLower, path, search).None? by {
          forall j | 0 <= j < i + 1
            ensures Fire(rules[j], urlLower, path, search).None?
          {
            if j > 0 {
              assert rules[j] == rules[1..][j - 1];
            }
          }
        }
      } else {
        assert forall j :: 0 <= j < |rules| ==> Fire(rules[j], urlLower, path, search).None? by {
          forall j | 0 <= j < |rules|
            ensures Fire(rules[j], urlLower, path, search).None?
          {
            if j > 0 {
              assert rules[j] == rules[1..][j - 1];
            }
          }
        }
      }
    }
  }

  lemma DocumentStagesAreCascade(ul: string, path: string, t: Tables, search: Search)
    ensures DocumentStages(ul, path, t, search) == FirstFiring(DocumentRules(t), ul, path, search)
  {
    var r0 := DocumentRules(t);
    FirstFiringStep(r0, ul, path, search);
    if !EndsWith(path, ".pdf") {
      var r1 := r0[1..];
      assert r1 == [PatternRule(t.pdfOnly, false, Pdf), PatternRule(t.pdfPaths, true, Pdf)] + HtmlAndBothRules(t);
      PatternRuleStep(t.pdfOnly, false, Pdf, r1[1..], ul, path, search);
      PatternRuleStep(t.pdfPaths, true, Pdf, HtmlAndBothRules(t), ul, path, search);
      HtmlAndBothStages(ul, path, t, search);
    }
  }

  function HtmlAndBothRules(t: Tables): seq<Rule> {
    [PatternRule(t.htmlOnly, false, Html), PatternRule(t.htmlPaths, true, Html),
     PatternRule(t.both, false, Both), PatternRule(t.bothPaths, true, Both)]
  }

  /** The last four stages of the cascade, as the tail of `DocumentStages` tries them. */
  lemma HtmlAndBothStages(ul: string, path: string, t: Tables, search: Search)
    ensures FirstFiring(HtmlAndBothRules(t), ul, path, search) ==
      var htmlKeyword := MatchAny(ul, t.htmlOnly, search);
      var htmlPath := MatchAny(path, t.htmlPaths, search);
      var bothKeyword := MatchAny(ul, t.both, search);
      var bothPath := MatchAny(path, t.bothPaths, search);
      if htmlKeyword != [] then Classification(Html, Medium, htmlKeyword)
      else if htmlPath != [] then Classification(Html, Medium, htmlPath)
      else if bothKeyword != [] then Classification(Both, Medium, bothKeyword)
      else if bothPath != [] then Classification(Both, Medium, bothPath)
      else Unmatched
  {
    var r := HtmlAndBothRules(t);
    PatternRuleStep(t.htmlOnly, false, Html, r[1..], ul, path, search);
    PatternRuleStep(t.htmlPaths, true, Html, r[2..], ul, path, search);
    PatternRuleStep(t.both, false, Both, r[3..], ul, path, search);
    PatternRuleStep(t.bothPaths, true, Both, [], ul, path, search);
    assert r == [r[0]] + r[1..] && r[1..] == [r[1]] + r[2..] && r[2..] == [r[2]] + r[3..] && r[3..] == [r[3]];
  }

  /** A document pattern stage in front of further stages: it decides when it matches. */
  lemma PatternRuleStep(patterns: seq<string>, onPath: bool, docType: Label, rest: seq<Rule>, ul: string, path: string, search: Search)
    requires docType != OutOfScope
    ensures var p := MatchAny(if onPath then path else ul, patterns, search);
      FirstFiring([PatternRule(patterns, onPath, docType)] + rest, ul, path, search)
      == if p != [] then Classification(docType, Medium, p) else FirstFiring(rest, ul, path, search)
  {
    FirstFiringStep([PatternRule(patterns, onPath, docType)] + rest, ul, path, search);
    assert ([PatternRule(patterns, onPath, docType)] + rest)[1..] == rest;
  }

  lemma FirstFiringStep(rules: seq<Rule>, ul: string, path: string, search: Search)
    requires rules != []
    ensures FirstFiring(rules, ul, path, search)
      == if Fire(rules[0], ul, path, search).Some? then Fire(rules[0], ul, path, search).value
         else FirstFiring(rules[1..], ul, path, search)
  {
  }

  /**
   For a non-empty URL off the blocked domains, `classify` is exactly the
   first firing stage of the cascade, with the out-of-scope stages present
   precisely when no override pattern matches the lower-cased URL.
   */
  lemma ClassifyFollowsCascade(url: string, t: Tables, search: Search)
    requires url != [] && !Blocking.IsBlocked(url)
    ensures var ul := Lower(url);
      Classify(url, t, search) == FirstFiring(Cascade(t, IsOverride(ul, t, search)), ul, PathOf(url), search)
  {
    var ul := Lower(url);
    var path := PathOf(url);
    var overridden := IsOverride(ul, t, search);
    var rules := Cascade(t, overridden);
    var tail := DocumentRules(t);
    DocumentStagesAreCascade(ul, path, t, search);
    if !overridden {
      FirstFiringStep(rules, ul, path, search);
      FirstFiringStep(rules[1..], ul, path, search);
      assert rules[1..][1..] == tail;
    } else {
      assert rules == tail;
    }
  }

  /**
   The label is decided by the first stage that fires: there is a stage that
   produced the result and no earlier stage fired, or no stage fired and the
   URL is Unclassified.
   */
  lemma ClassifyPriority(url: string, t: Tables, search: Search)
    requires url != [] && !Blocking.IsBlocked(url)
    ensures var ul := Lower(url);
      var rules := Cascade(t, IsOverride(ul, t, search));
      var c := Classify(url, t, search);
      || (exists i :: 0 <= i < |rules| && Fire(rules[i], ul, PathOf(url), search) == Some(c)
            && forall j :: 0 <= j < i ==> Fire(rules[j], ul, PathOf(url), search).None?)
      || (c == Unmatched && forall j :: 0 <= j < |rules| ==> Fire(rules[j], ul, PathOf(url), search).None?)
  {
    ClassifyFollowsCascade(url, t, search);
    FirstFiringIsFirst(Cascade(t, IsOverride(Lower(url), t, search)), Lower(url), PathOf(url), search);
  }

  /** A blocked URL is Out of Scope with high confidence whatever its path or keywords. */
  lemma BlockedFirst(url: string, t: Tables, search: Search)
    requires Blocking.IsBlocked(url)
    ensures Classify(url, t, search) == Classification(OutOfScope, High, BlockedPattern)
    ensures !InScope(url, "PDF", t, search) && !InScope(url, "HTML", t, search) && !InScope(url, "Both", t, search)
  {
  }

  /**
   Off the blocked domains, an override match rules out Out of Scope; without
   one, an out-of-scope path pattern decides before an out-of-scope keyword.
   */
  lemma OverridePrecedence(url: string, t: Tables, search: Search)
    requires url != [] && !Blocking.IsBlocked(url)
    ensures IsOverride(Lower(url), t, search) ==> Classify(url, t, search).docType != OutOfScope
    ensures var p := MatchAny(PathOf(url), t.oosPaths, search);
      !IsOverride(Lower(url), t, search) && p != [] ==> Classify(url, t, search) == Classification(OutOfScope, High, p)
    ensures var k := MatchAny(Lower(url), t.oosKeywords, search);
      !IsOverride(Lower(url), t, search) && MatchAny(PathOf(url), t.oosPaths, search) == [] && k != []
      ==> Classify(url, t, search) == Classification(OutOfScope, High, k)
  {
  }

  /** Out of Scope never passes the scope filter; mode Both keeps everything else. */
  lemma ScopeFilter(url: string, t: Tables, search: Search, mode: string)
    ensures Classify(url, t, search).docType == OutOfScope ==> !InScope(url, mode, t, search)
    ensures Classify(url, t, search).docType != OutOfScope ==> InScope(url, "Both", t, search)
    ensures Classify(url, t, search).docType == Unclassified ==> InScope(url, "PDF", t, search) && InScope(url, "HTML", t, search)
    ensures mode !in {"PDF", "HTML", "Both"} ==> (InScope(url, mode, t, search) <==> Classify(url, t, search).docType != OutOfScope)
  {
  }
}
