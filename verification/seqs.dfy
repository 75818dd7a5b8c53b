/** Generic list helpers: comprehensions with and without a condition. */
module Seqs {

  /** `[f(x) for x in xs]`. */
  function MapSeq<A, B>(f: A -> B, xs: seq<A>): (ys: seq<B>)
    ensures |ys| == |xs|
    ensures forall j :: 0 <= j < |xs| ==> ys[j] == f(xs[j])
  {
    seq(|xs|, j requires 0 <= j < |xs| => f(xs[j]))
  }

  lemma ConsAppend<A>(x: A, xs: seq<A>, ys: seq<A>)
    ensures [x] + (xs + ys) == ([x] + xs) + ys
  {
  }

  lemma MapSeqAppend<A, B>(f: A -> B, xs: seq<A>, ys: seq<A>)
    ensures MapSeq(f, xs + ys) == MapSeq(f, xs) + MapSeq(f, ys)
  {
    assert forall j :: 0 <= j < |xs| ==> (xs + ys)[j] == xs[j];
    assert forall j :: 0 <= j < |ys| ==> (xs + ys)[|xs| + j] == ys[j];
  }

  /** `[x for x in xs if keep(x)]`. */
  function Filter<A>(keep: A -> bool, xs: seq<A>): (ys: seq<A>)
    ensures |ys| <= |xs|
    ensures forall k :: 0 <= k < |ys| ==> ys[k] in xs && keep(ys[k])
    ensures forall x :: x in xs && keep(x) ==> x in ys
  {
    if xs == [] then []
    else (if keep(xs[0]) then [xs[0]] else []) + Filter(keep, xs[1..])
  }

  /** Filtering keeps order: a joined list filters to the joined filtered parts. */
  lemma {:induction false} FilterAppend<A>(keep: A -> bool, xs: seq<A>, ys: seq<A>)
    ensures Filter(keep, xs + ys) == Filter(keep, xs) + Filter(keep, ys)
    decreases |xs|
  {
    if xs == [] {
      assert xs + ys == ys;
    } else {
      assert (xs + ys)[1..] == xs[1..] + ys;
      FilterAppend(keep, xs[1..], ys);
    }
  }

  /** Filtering a list whose every element passes changes nothing. */
  lemma {:induction false} FilterAll<A>(keep: A -> bool, xs: seq<A>)
    requires forall k :: 0 <= k < |xs| ==> keep(xs[k])
    ensures Filter(keep, xs) == xs
  {
    if xs != [] {
      FilterAll(keep, xs[1..]);
      assert xs == [xs[0]] + xs[1..];
    }
  }

  /** `any(p(x) for x in xs)`, scanning left to right. */
  function Exists<A>(p: A -> bool, xs: seq<A>): (r: bool)
    ensures r <==> exists i :: 0 <= i < |xs| && p(xs[i])
  {
    if xs == [] then false
    else p(xs[0]) || Exists(p, xs[1..])
  }
}
