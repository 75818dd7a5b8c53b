/**
 The domain resolver (`DomainUtil`): the root of a URL, its normalised domain,
 and the domain map from normalised domain to the first root seen for it.
 */
module Domains {
  import opened Wrappers
  import opened Text
  import Url
  import Blocking
  import Extractor
  import Seqs

  /** One entry of the domain map: a normalised domain and its seed (root) URL. */
  datatype Seed = Seed(domain: string, root: string)

  /**
   The host key used throughout: the lower-cased network location with every
   `www.` removed, wherever it occurs (`netloc.lower().replace('www.', '')`).
   */
  function HostKey(netloc: string): string {
    ReplaceAll(Lower(netloc), "www.", "")
  }

  /** `DomainUtil.root(url)`: `scheme://netloc` when both are present. */
  function Root(url: string): (r: Option<string>)
    ensures var p := Url.Split(Strip(url));
      r.Some? <==> p.scheme != [] && p.netloc != []
    ensures var p := Url.Split(Strip(url));
      r.Some? ==> Url.Split(r.value) == Url.Parts(p.scheme, p.netloc, [], [], [])
  {
    var p := Url.Split(Strip(url));
    if p.scheme != [] && p.netloc != [] then
      Url.SplitWellFormed(Strip(url));
      Url.SplitUnsplit(Url.Parts(p.scheme, p.netloc, [], [], []));
      Some(Url.Unsplit(Url.Parts(p.scheme, p.netloc, [], [], [])))
    else None
  }

  /** A host name with no `www.` anywhere is only lower-cased. */
  lemma HostKeyPlain(netloc: string)
    requires forall k :: 0 <= k < |netloc| ==> !OccursAt(Lower(netloc), "www.", k)
    ensures HostKey(netloc) == Lower(netloc)
  {
    var l := Lower(netloc);
    assert l + [] == l;
    ReplaceAllSkip(l, [], "www.", "");
  }

  /** A leading `www.` does not change the host key, in any letter case. */
  lemma HostKeyDropsWww(w: string, b: string)
    requires Lower(w) == "www."
    ensures HostKey(w + b) == HostKey(b)
  {
    LowerAppend(w, b);
    ReplaceAllHead(Lower(b), "www.", "");
  }

  /** `DomainUtil.norm(url)`. */
  function Norm(url: string): string {
    HostKey(Url.Split(Strip(url)).netloc)
  }

  /** `norm` trims first, so surrounding whitespace never changes the key. */
  lemma NormTrimmed(url: string)
    ensures Norm(Strip(url)) == Norm(url)
  {
    StripIdempotent(url);
  }

  /** A URL that `domain_map` turns into an entry unless its domain is already present. */
  predicate Eligible(url: string) {
    var u := Strip(url);
    StartsWith(u, "http") && !Blocking.IsBlocked(u) && Root(u).Some? && Norm(u) != []
  }

  /** The root of a URL is blocked exactly when the URL is: both share the network location. */
  lemma RootBlocked(u: string)
    requires Root(u).Some?
    ensures Blocking.IsBlocked(Root(u).value) == Blocking.IsBlocked(Strip(u))
  {
  }

  /** The entry one URL contributes to the domain map, if its domain is still new. */
  function Candidate(url: string): (c: Option<Seed>)
    ensures c.Some? <==> Eligible(url)
    ensures c.Some? ==> c.value.domain == Norm(Strip(url)) && Root(Strip(url)) == Some(c.value.root)
    ensures c.Some? ==> !Blocking.IsBlocked(c.value.root)
  {
    var u := Strip(url);
    if Eligible(url) then
      StripIdempotent(url);
      RootBlocked(u);
      Some(Seed(Norm(u), Root(u).value))
    else None
  }

  function Candidates(order: seq<string>): (cs: seq<Option<Seed>>)
    ensures |cs| == |order|
    ensures forall j :: 0 <= j < |order| ==> cs[j] == Candidate(order[j])
  {
    Seqs.MapSeq(Candidate, order)
  }

  predicate HasDomain(dm: seq<Seed>, d: string) {
    exists i :: 0 <= i < |dm| && dm[i].domain == d
  }

  /** A candidate that brings the domain `d`. */
  predicate Brings(c: Option<Seed>, d: string) {
    c.Some? && c.value.domain == d
  }

  /** One iteration of the `domain_map` loop: an existing domain is never overwritten. */
  function Insert(dm: seq<Seed>, c: Option<Seed>): seq<Seed> {
    if c.Some? && !HasDomain(dm, c.value.domain) then dm + [c.value] else dm
  }

  /** The `domain_map` loop over the candidates, in visiting order. */
  function Fold(cs: seq<Option<Seed>>): seq<Seed>
    decreases |cs|
  {
    if cs == [] then [] else Insert(Fold(cs[..|cs| - 1]), cs[|cs| - 1])
  }

  /** The first position whose candidate brings `d`, if any. */
  function FirstFor(cs: seq<Option<Seed>>, d: string): (r: Option<nat>)
    ensures r.Some? ==> r.value < |cs| && Brings(cs[r.value], d)
    ensures r.Some? ==> forall j :: 0 <= j < r.value ==> !Brings(cs[j], d)
    ensures r.None? ==> forall j :: 0 <= j < |cs| ==> !Brings(cs[j], d)
  {
    if cs == [] then None
    else if Brings(cs[0], d) then Some(0)
    else match FirstFor(cs[1..], d)
      case None => None
      case Some(i) => Some(i + 1)
  }

  /** What the loop guarantees after any number of iterations. */
  ghost predicate FoldInvariant(cs: seq<Option<Seed>>, dm: seq<Seed>) {
    && (forall i, j :: 0 <= i < j < |dm| ==> dm[i].domain != dm[j].domain)
    && (forall i :: 0 <= i < |dm| ==>
          var f := FirstFor(cs, dm[i].domain);
          f.Some? && cs[f.value] == Some(dm[i]))
    && (forall j :: 0 <= j < |cs| && cs[j].Some? ==> HasDomain(dm, cs[j].value.domain))
  }

  lemma FirstForExtend(cs: seq<Option<Seed>>, x: Option<Seed>, d: string)
    requires FirstFor(cs, d).Some?
    ensures FirstFor(cs + [x], d) == FirstFor(cs, d)
  {
    var f := FirstFor(cs, d).value;
    assert (cs + [x])[f] == cs[f];
    assert forall j :: 0 <= j < f ==> (cs + [x])[j] == cs[j];
  }

  lemma FirstForAppend(cs: seq<Option<Seed>>, x: Option<Seed>, d: string)
    requires FirstFor(cs, d).None? && Brings(x, d)
    ensures FirstFor(cs + [x], d) == Some(|cs|)
  {
    assert (cs + [x])[|cs|] == x;
    assert forall j :: 0 <= j < |cs| ==> (cs + [x])[j] == cs[j];
  }

  lemma InsertKeeps(cs: seq<Option<Seed>>, x: Option<Seed>, dm: seq<Seed>)
    requires FoldInvariant(cs, dm)
    ensures FoldInvariant(cs + [x], Insert(dm, x))
  {
    var cs' := cs + [x];
    var dm' := Insert(dm, x);
    assert forall j :: 0 <= j < |cs| ==> cs'[j] == cs[j];
    forall i | 0 <= i < |dm|
      ensures FirstFor(cs', dm[i].domain) == FirstFor(cs, dm[i].domain)
    {
      FirstForExtend(cs, x, dm[i].domain);
    }
    if x.Some? && !HasDomain(dm, x.value.domain) {
      var d := x.value.domain;
      assert forall j :: 0 <= j < |cs| ==> !Brings(cs[j], d);
      FirstForAppend(cs, x, d);
      assert dm'[|dm|] == x.value;
      forall j | 0 <= j < |cs'| && cs'[j].Some?
        ensures HasDomain(dm', cs'[j].value.domain)
      {
        if j < |cs| {
          var i :| 0 <= i < |dm| && dm[i].domain == cs[j].value.domain;
          assert dm'[i] == dm[i];
        } else {
          assert dm'[|dm|].domain == cs'[j].value.domain;
        }
      }
    } else {
      forall j | 0 <= j < |cs'| && cs'[j].Some?
        ensures HasDomain(dm', cs'[j].value.domain)
      {
        if j < |cs| {
          assert cs'[j] == cs[j];
        }
      }
    }
  }

  lemma {:induction false} FoldKeeps(cs: seq<Option<Seed>>)
    ensures FoldInvariant(cs, Fold(cs))
    decreases |cs|
  {
    if cs != [] {
      var prefix := cs[..|cs| - 1];
      FoldKeeps(prefix);
      assert prefix + [cs[|cs| - 1]] == cs;
      InsertKeeps(prefix, cs[|cs| - 1], Fold(prefix));
    }
  }

  /**
   `domain_map` over the URLs in the order the loop happens to visit them
   (`list(set(..))` fixes no order, so the order is a parameter): domains are
   distinct, each maps to the root of the first eligible URL with that domain,
   every eligible URL's domain is present, and no root is blocked.
   */
  function DomainMap(order: seq<string>): (dm: seq<Seed>)
    ensures forall i, j :: 0 <= i < j < |dm| ==> dm[i].domain != dm[j].domain
    ensures forall i :: 0 <= i < |dm| ==>
      var f := FirstFor(Candidates(order), dm[i].domain);
      f.Some? && Candidate(order[f.value]) == Some(dm[i])
    ensures forall j :: 0 <= j < |order| && Eligible(order[j]) ==> HasDomain(dm, Norm(Strip(order[j])))
    ensures forall i :: 0 <= i < |dm| ==> !Blocking.IsBlocked(dm[i].root)
  {
    var cs := Candidates(order);
    FoldKeeps(cs);
    var dm := Fold(cs);
    assert forall j :: 0 <= j < |order| && Eligible(order[j]) ==> cs[j].Some?;
    dm
  }

  function Keys(dm: seq<Seed>): set<string> {
    set i | 0 <= i < |dm| :: dm[i].domain
  }

  /** The domains in the map are exactly the domains of the eligible URLs. */
  lemma DomainKeys(order: seq<string>)
    ensures Keys(DomainMap(order)) == set u | u in order && Eligible(u) :: Norm(Strip(u))
  {
    var dm := DomainMap(order);
    var cs := Candidates(order);
    forall i | 0 <= i < |dm|
      ensures exists u :: u in order && Eligible(u) && Norm(Strip(u)) == dm[i].domain
    {
      var f := FirstFor(cs, dm[i].domain).value;
      assert Candidate(order[f]) == Some(dm[i]);
    }
    forall u | u in order && Eligible(u)
      ensures Norm(Strip(u)) in Keys(dm)
    {
      var j :| 0 <= j < |order| && order[j] == u;
      assert HasDomain(dm, Norm(Strip(order[j])));
    }
  }

  /** Which domains end up in the map does not depend on the order the URLs are visited in. */
  lemma KeysOrderFree(o1: seq<string>, o2: seq<string>)
    requires forall u :: u in o1 <==> u in o2
    ensures Keys(DomainMap(o1)) == Keys(DomainMap(o2))
  {
    DomainKeys(o1);
    DomainKeys(o2);
  }

  lemma {:induction false} FoldExtends(cs: seq<Option<Seed>>, ds: seq<Option<Seed>>)
    ensures Fold(cs) <= Fold(cs + ds)
    decreases |ds|
  {
    if ds == [] {
      assert cs + ds == cs;
    } else {
      var front := ds[..|ds| - 1];
      FoldExtends(cs, front);
      assert (cs + ds)[..|cs + ds| - 1] == cs + front;
    }
  }

  /** Visiting more URLs never overwrites or removes an entry: the map only grows at its end. */
  lemma DomainMapExtends(order: seq<string>, more: seq<string>)
    ensures DomainMap(order) <= DomainMap(order + more)
  {
    Seqs.MapSeqAppend(Candidate, order, more);
    FoldExtends(Candidates(order), Candidates(more));
  }

  /**
   The domain map built from the URLs found in the input (`all_http`), in any
   visiting order that enumerates them: its domains are those of the eligible
   URLs, and no seed is blocked.
   */
  function ResolveDomains(entries: seq<string>, order: seq<string>): (dm: seq<Seed>)
    requires forall u :: u in order <==> u in Extractor.AllHttp(entries)
    ensures Keys(dm) == set u | u in Extractor.AllHttp(entries) && Eligible(u) :: Norm(Strip(u))
    ensures forall i :: 0 <= i < |dm| ==> !Blocking.IsBlocked(dm[i].root)
  {
    DomainKeys(order);
    DomainMap(order)
  }

  lemma LowerWww()
    ensures Lower("www.") == "www."
  {
    LowerNoUpper("www.");
  }

  /**
   `replace('www.', '')` removes every occurrence, not only a leading one: a
   `www.` in the middle of a host disappears too, so `amazonwww.aws.com` gets
   the key `amazonaws.com`.
   */
  lemma WwwRemovedEverywhere(a: string, b: string)
    requires forall k :: 0 <= k < |a| ==> !OccursAt(Lower(a) + ("www." + Lower(b)), "www.", k)
    ensures HostKey(a + "www." + b) == Lower(a) + HostKey(b)
  {
    var w := "www.";
    calc {
      Lower(a + w + b);
      { LowerAppend(a + w, b); LowerAppend(a, w); }
      Lower(a) + Lower(w) + Lower(b);
      { LowerWww(); }
      Lower(a) + (w + Lower(b));
    }
    DeleteInside(Lower(a), Lower(b), w);
  }
}
