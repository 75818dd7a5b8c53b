/**
 The breadth-first crawler (`Crawler._batch` and `Crawler.crawl`). Fetching a
 page is the parameter `links`: the links found on a page, as `_links` would
 return them. The worker threads of one level are modelled as running their
 batches one after another, in batch order.
 */
module Crawler {
  import opened Wrappers
  import opened Text
  import Url
  import Blocking
  import Domains
  import CrawlFilter
  import Seqs

  datatype Config = Config(maxDepth: nat, maxPages: nat, maxWorkers: nat)

  /** The constructor defaults of `Crawler`. */
  const DefaultConfig := Config(10, 1000, 50)

  /** A URL waiting in a level, with its depth. */
  datatype Item = Item(url: string, depth: nat)

  /**
   What the workers share: the visited set, the admission counter `_count`,
   and (for the proofs) the pages actually fetched, in order.
   */
  datatype State = State(visited: set<string>, count: nat, fetched: seq<Item>)

  /** One value of the result: the seed root, the depth, the host key. */
  datatype Record = Record(seed: string, depth: nat, domain: string)

  /**
   Everything a crawl keeps fixed: the limits, the domain map, the page
   fetcher, the link filter (`Accept` against the domain map's keys) and the
   URL normaliser.
   */
  datatype Env = Env(
    cfg: Config,
    dm: seq<Domains.Seed>,
    links: string -> seq<string>,
    accept: string -> Option<string>,
    norm: string -> string)

  /** A URL the crawler may put into a later level: valid and already normalised. */
  ghost predicate Admissible(u: string, allowed: set<string>) {
    CrawlFilter.Valid(u, allowed) && CrawlFilter.Normalize(u) == u
  }

  /** A URL the link filter can produce. */
  ghost predicate Kept(u: string, accept: string -> Option<string>) {
    exists l :: accept(l) == Some(u)
  }

  /** The links of one page that pass the filter, not yet visited, one level deeper, in link order. */
  function Picks(cs: seq<Option<string>>, visited: set<string>, depth: nat): (r: seq<Item>)
    ensures forall k :: 0 <= k < |r| ==> r[k].depth == depth + 1 && r[k].url !in visited && Some(r[k].url) in cs
    ensures forall j :: 0 <= j < |cs| && cs[j].Some? && cs[j].value !in visited ==> Item(cs[j].value, depth + 1) in r
  {
    if cs == [] then []
    else
      var here := if cs[0].Some? && cs[0].value !in visited then [Item(cs[0].value, depth + 1)] else [];
      here + Picks(cs[1..], visited, depth)
  }

  /**
   The links of one fetched page that `_batch` passes on: those the filter
   keeps, not yet visited, one level deeper; every such link is passed on.
   */
  function Harvest(ls: seq<string>, accept: string -> Option<string>, visited: set<string>, depth: nat): (r: seq<Item>)
    ensures forall k :: 0 <= k < |r| ==> r[k].depth == depth + 1 && r[k].url !in visited
    ensures forall k :: 0 <= k < |r| ==> exists j :: 0 <= j < |ls| && accept(ls[j]) == Some(r[k].url)
    ensures forall j :: 0 <= j < |ls| && accept(ls[j]).Some? && accept(ls[j]).value !in visited ==>
      Item(accept(ls[j]).value, depth + 1) in r
  {
    var cs := Seqs.MapSeq(accept, ls);
    var r := Picks(cs, visited, depth);
    assert forall k :: 0 <= k < |r| ==> exists j :: 0 <= j < |ls| && cs[j] == Some(r[k].url);
    r
  }

  /** What the locked part of `_batch` decides for one item. */
  datatype Visit = Skip | Overflow(after: State) | Fetch(after: State)

  /**
   The locked admission step: an item that is too deep or already visited is
   skipped; otherwise it is marked visited and counted, and the count passing
   `maxPages` ends the batch before the page is fetched.
   */
  function Admit(it: Item, cfg: Config, st: State): (v: Visit)
    ensures v.Skip? <==> it.depth > cfg.maxDepth || it.url in st.visited
    ensures !v.Skip? ==> v.after.visited == st.visited + {it.url} && v.after.count == st.count + 1
    ensures v.Overflow? <==> !v.Skip? && st.count + 1 > cfg.maxPages
    ensures v.Overflow? ==> v.after.fetched == st.fetched
    ensures v.Fetch? ==> v.after.fetched == st.fetched + [it]
  {
    if it.depth > cfg.maxDepth || it.url in st.visited then Skip
    else
      var st1 := State(st.visited + {it.url}, st.count + 1, st.fetched);
      if st1.count > cfg.maxPages then Overflow(st1)
      else Fetch(st1.(fetched := st.fetched + [it]))
  }

  /** `_batch(items, ...)`: the shared state afterwards and the new items found. */
  function Batch(items: seq<Item>, env: Env, st: State): (State, seq<Item>)
    decreases |items|
  {
    if items == [] then (st, [])
    else
      var it := items[0];
      match Admit(it, env.cfg, st)
      case Skip => Batch(items[1..], env, st)
      case Overflow(st1) => (st1, [])
      case Fetch(st1) =>
        var found := Harvest(env.links(it.url), env.accept, st1.visited, it.depth);
        var rest := Batch(items[1..], env, st1);
        (rest.0, found + rest.1)
  }

  /** The bookkeeping every run keeps: the counter counts the visited set, and the fetch log stays within budget. */
  ghost predicate Books(st: State, cfg: Config) {
    && st.count == |st.visited|
    && (forall i, j :: 0 <= i < j < |st.fetched| ==> st.fetched[i].url != st.fetched[j].url)
    && (forall k :: 0 <= k < |st.fetched| ==> st.fetched[k].url in st.visited && st.fetched[k].depth <= cfg.maxDepth)
    && |st.fetched| == if st.count <= cfg.maxPages then st.count else cfg.maxPages
  }

  lemma AdmitKeepsBooks(it: Item, cfg: Config, st: State)
    requires Books(st, cfg)
    ensures !Admit(it, cfg, st).Skip? ==> Books(Admit(it, cfg, st).after, cfg)
  {
    var v := Admit(it, cfg, st);
    if !v.Skip? {
      assert |st.visited + {it.url}| == |st.visited| + 1;
      if v.Fetch? {
        var f := v.after.fetched;
        assert forall k :: 0 <= k < |st.fetched| ==> f[k] == st.fetched[k];
        assert f[|st.fetched|] == it;
      }
    }
  }

  function Urls(items: seq<Item>): set<string> {
    set k | 0 <= k < |items| :: items[k].url
  }

  /** All items of one level share its depth. */
  predicate AtDepth(items: seq<Item>, d: nat) {
    forall k :: 0 <= k < |items| ==> items[k].depth == d
  }

  /** New items one level deeper than `d`, each kept by the filter. */
  ghost predicate NewsOk(news: seq<Item>, d: nat, accept: string -> Option<string>) {
    AtDepth(news, d + 1) && forall k :: 0 <= k < |news| ==> Kept(news[k].url, accept)
  }

  lemma NewsConcat(a: seq<Item>, b: seq<Item>, d: nat, accept: string -> Option<string>)
    requires NewsOk(a, d, accept) && NewsOk(b, d, accept)
    ensures NewsOk(a + b, d, accept)
  {
    assert forall k :: 0 <= k < |a| ==> (a + b)[k] == a[k];
    assert forall k :: 0 <= k < |b| ==> (a + b)[|a| + k] == b[k];
  }

  /** What one batch does to the shared state. */
  ghost predicate StateEffect(items: seq<Item>, cfg: Config, st: State, st': State) {
    && Books(st', cfg)
    && st.visited <= st'.visited <= st.visited + Urls(items)
    && st.fetched <= st'.fetched
    && (forall k :: |st.fetched| <= k < |st'.fetched| ==> st'.fetched[k] in items)
  }

  /** What one batch does to the shared state and what it finds. */
  ghost predicate BatchEffect(items: seq<Item>, d: nat, env: Env, st: State, st': State, news: seq<Item>) {
    StateEffect(items, env.cfg, st, st') && NewsOk(news, d, env.accept)
  }

  /** A fetch followed by the rest of the batch composes into one batch effect. */
  lemma FetchThenRestState(items: seq<Item>, cfg: Config, st: State, st1: State, st': State)
    requires items != []
    requires st1.visited == st.visited + {items[0].url} && st1.fetched == st.fetched + [items[0]]
    requires StateEffect(items[1..], cfg, st1, st')
    ensures StateEffect(items, cfg, st, st')
  {
    var rest := items[1..];
    assert Urls(items) == {items[0].url} + Urls(rest);
    assert forall x :: x in rest ==> x in items;
    assert st1.fetched[|st.fetched|] == items[0];
    assert st.fetched <= st1.fetched;
  }

  /** A fetch followed by the rest of the batch composes into one batch effect. */
  lemma FetchThenRest(items: seq<Item>, d: nat, env: Env, st: State, st1: State, found: seq<Item>, st': State, news: seq<Item>)
    requires items != []
    requires st1.visited == st.visited + {items[0].url} && st1.fetched == st.fetched + [items[0]]
    requires NewsOk(found, d, env.accept)
    requires BatchEffect(items[1..], d, env, st1, st', news)
    ensures BatchEffect(items, d, env, st, st', found + news)
  {
    FetchThenRestState(items, env.cfg, st, st1, st');
    NewsConcat(found, news, d, env.accept);
  }

  lemma SkipThenRest(items: seq<Item>, d: nat, env: Env, st: State, st': State, news: seq<Item>)
    requires items != [] && AtDepth(items, d)
    requires BatchEffect(items[1..], d, env, st, st', news)
    ensures BatchEffect(items, d, env, st, st', news)
  {
    assert Urls(items[1..]) <= Urls(items);
    assert forall x :: x in items[1..] ==> x in items;
  }

  lemma OverflowEnds(items: seq<Item>, d: nat, env: Env, st: State, st1: State)
    requires items != [] && Books(st1, env.cfg)
    requires st1.visited == st.visited + {items[0].url} && st1.fetched == st.fetched
    ensures BatchEffect(items, d, env, st, st1, [])
  {
    assert items[0].url in Urls(items);
  }

  lemma {:induction false} BatchFacts(items: seq<Item>, d: nat, env: Env, st: State)
    requires Books(st, env.cfg) && AtDepth(items, d)
    ensures BatchEffect(items, d, env, st, Batch(items, env, st).0, Batch(items, env, st).1)
    decreases |items|
  {
    if items != [] {
      var it := items[0];
      AdmitKeepsBooks(it, env.cfg, st);
      match Admit(it, env.cfg, st)
      case Skip =>
        BatchFacts(items[1..], d, env, st);
        SkipThenRest(items, d, env, st, Batch(items[1..], env, st).0, Batch(items[1..], env, st).1);
      case Overflow(st1) =>
        OverflowEnds(items, d, env, st, st1);
      case Fetch(st1) =>
        BatchFacts(items[1..], d, env, st1);
        var found := Harvest(env.links(it.url), env.accept, st1.visited, it.depth);
        assert NewsOk(found, d, env.accept);
        var r := Batch(items[1..], env, st1);
        FetchThenRest(items, d, env, st, st1, found, r.0, r.1);
    }
  }

  function Flatten(css: seq<seq<Item>>): seq<Item> {
    if css == [] then [] else css[0] + Flatten(css[1..])
  }

  /**
   * The batch size for a level of `n` items: the floor of `n` over the worker
   * count (a count of zero read as one), and never below one.
   */
  function BatchSize(n: nat, workers: nat): (bs: nat)
    ensures bs >= 1
    ensures workers >= 1 && n >= workers ==> bs * workers <= n < (bs + 1) * workers
    ensures n < (if workers >= 1 then workers else 1) ==> bs == 1
    ensures workers == 0 ==> bs == (if n >= 1 then n else 1)
  {
    var w := if workers >= 1 then workers else 1;
    if n / w >= 1 then n / w else 1
  }

  /**
   * The level cut into consecutive slices starting at every multiple of `bs`:
   * each slice non-empty, every slice but the last exactly `bs` long.
   */
  function Chunks(xs: seq<Item>, bs: nat): (cs: seq<seq<Item>>)
    requires bs >= 1
    ensures Flatten(cs) == xs
    ensures forall k :: 0 <= k < |cs| ==> 1 <= |cs[k]| <= bs
    ensures forall k :: 0 <= k < |cs| - 1 ==> |cs[k]| == bs
    decreases |xs|
  {
    if xs == [] then []
    else if |xs| <= bs then [xs]
    else
      var rest := Chunks(xs[bs..], bs);
      assert xs == xs[..bs] + xs[bs..];
      [xs[..bs]] + rest
  }

  /** The batches of one level, run one after another; their finds in batch order. */
  function RunBatches(batches: seq<seq<Item>>, env: Env, st: State): (State, seq<Item>)
    decreases |batches|
  {
    if batches == [] then (st, [])
    else
      var first := Batch(batches[0], env, st);
      var rest := RunBatches(batches[1..], env, first.0);
      (rest.0, first.1 + rest.1)
  }

  lemma AtDepthSplit(a: seq<Item>, b: seq<Item>, d: nat)
    requires AtDepth(a + b, d)
    ensures AtDepth(a, d) && AtDepth(b, d)
  {
    assert forall k :: 0 <= k < |a| ==> (a + b)[k] == a[k];
    assert forall k :: 0 <= k < |b| ==> (a + b)[|a| + k] == b[k];
  }

  lemma StateEffectChain(a: seq<Item>, b: seq<Item>, cfg: Config, st: State, st1: State, st2: State)
    requires StateEffect(a, cfg, st, st1) && StateEffect(b, cfg, st1, st2)
    ensures StateEffect(a + b, cfg, st, st2)
  {
    assert Urls(a + b) == Urls(a) + Urls(b) by {
      assert forall k :: 0 <= k < |a| ==> (a + b)[k] == a[k];
      assert forall k :: 0 <= k < |b| ==> (a + b)[|a| + k] == b[k];
      forall u | u in Urls(a + b)
        ensures u in Urls(a) + Urls(b)
      {
        var k :| 0 <= k < |a + b| && (a + b)[k].url == u;
        if k >= |a| {
          assert b[k - |a|].url == u;
        }
      }
    }
    assert forall x :: x in a ==> x in a + b;
    assert forall x :: x in b ==> x in a + b;
  }

  lemma StateEffectRefl(cfg: Config, st: State)
    requires Books(st, cfg)
    ensures StateEffect([], cfg, st, st)
  {
  }

  lemma {:induction false} RunBatchesFacts(batches: seq<seq<Item>>, d: nat, env: Env, st: State)
    requires Books(st, env.cfg) && AtDepth(Flatten(batches), d)
    ensures StateEffect(Flatten(batches), env.cfg, st, RunBatches(batches, env, st).0)
    ensures NewsOk(RunBatches(batches, env, st).1, d, env.accept)
    decreases |batches|
  {
    if batches == [] {
      StateEffectRefl(env.cfg, st);
    } else {
      AtDepthSplit(batches[0], Flatten(batches[1..]), d);
      BatchFacts(batches[0], d, env, st);
      var first := Batch(batches[0], env, st);
      RunBatchesFacts(batches[1..], d, env, first.0);
      var rest := RunBatches(batches[1..], env, first.0);
      StateEffectChain(batches[0], Flatten(batches[1..]), env.cfg, st, first.0, rest.0);
      NewsConcat(first.1, rest.1, d, env.accept);
    }
  }

  /** Position of the seed for host key `dom`, if the domain map has one. */
  function FindDomain(dm: seq<Domains.Seed>, dom: string): (r: Option<nat>)
    ensures r.Some? ==> r.value < |dm| && dm[r.value].domain == dom
    ensures r.Some? ==> forall j :: 0 <= j < r.value ==> dm[j].domain != dom
    ensures r.None? ==> forall j :: 0 <= j < |dm| ==> dm[j].domain != dom
  {
    if dm == [] then None
    else if dm[0].domain == dom then Some(0)
    else match FindDomain(dm[1..], dom)
      case None => None
      case Some(i) => Some(i + 1)
  }

  /** `dm.get(dom, seeds[0])`. */
  function SeedFor(dm: seq<Domains.Seed>, dom: string): string
    requires dm != []
  {
    match FindDomain(dm, dom)
    case Some(i) => dm[i].root
    case None => dm[0].root
  }

  /** A result entry recorded by the merge: admissible, with its host key and that key's seed. */
  ghost predicate Found(u: string, rec: Record, env: Env) {
    && env.dm != []
    && rec.depth > 0
    && Kept(u, env.accept)
    && rec.domain == Domains.HostKey(Url.Split(u).netloc)
    && rec.seed == SeedFor(env.dm, rec.domain)
  }

  /**
   Merging a level's finds into `discovered`: a URL already present is left
   alone; a new one is recorded with its host key and seed, and queued.
   */
  function Merge(news: seq<Item>, disc: map<string, Record>, env: Env): (map<string, Record>, seq<Item>)
    requires env.dm != []
    decreases |news|
  {
    if news == [] then (disc, [])
    else
      var it := news[0];
      if it.url in disc then Merge(news[1..], disc, env)
      else
        var dom := Domains.HostKey(Url.Split(it.url).netloc);
        var r := Merge(news[1..], disc[it.url := Record(SeedFor(env.dm, dom), it.depth, dom)], env);
        (r.0, [it] + r.1)
  }

  /** The bookkeeping of a merge: nothing overwritten, exactly the new URLs added and queued. */
  ghost predicate MergeShape(news: seq<Item>, d: nat, disc: map<string, Record>, disc': map<string, Record>, nxt: seq<Item>) {
    MergeKeys(news, d, disc, disc') && MergeQueue(d, disc, disc', nxt)
  }

  /** Nothing overwritten, and exactly the new URLs added, one level deeper. */
  ghost predicate MergeKeys(news: seq<Item>, d: nat, disc: map<string, Record>, disc': map<string, Record>) {
    && (forall u :: u in disc ==> u in disc' && disc'[u] == disc[u])
    && disc'.Keys == disc.Keys + Urls(news)
    && (forall u :: u in disc' && u !in disc ==> disc'[u].depth == d + 1)
  }

  /** The next level is exactly the added URLs. */
  ghost predicate MergeQueue(d: nat, disc: map<string, Record>, disc': map<string, Record>, nxt: seq<Item>) {
    && AtDepth(nxt, d + 1)
    && (forall k :: 0 <= k < |nxt| ==> nxt[k].url in disc' && nxt[k].url !in disc)
    && Urls(nxt) == disc'.Keys - disc.Keys
  }

  /** Every entry a merge adds is a proper find. */
  ghost predicate MergeFound(env: Env, disc: map<string, Record>, disc': map<string, Record>) {
    forall u :: u in disc' && u !in disc ==> Found(u, disc'[u], env)
  }

  ghost predicate MergeEffect(news: seq<Item>, d: nat, env: Env, disc: map<string, Record>, disc': map<string, Record>, nxt: seq<Item>) {
    MergeShape(news, d, disc, disc', nxt) && MergeFound(env, disc, disc')
  }

  lemma MergeKnown(news: seq<Item>, d: nat, disc: map<string, Record>, disc': map<string, Record>, nxt: seq<Item>)
    requires news != [] && news[0].url in disc
    requires MergeShape(news[1..], d, disc, disc', nxt)
    ensures MergeShape(news, d, disc, disc', nxt)
  {
    assert Urls(news) == {news[0].url} + Urls(news[1..]);
  }

  lemma UrlsCons(it: Item, nxt: seq<Item>)
    ensures Urls([it] + nxt) == {it.url} + Urls(nxt)
  {
    var n' := [it] + nxt;
    assert forall k :: 0 <= k < |nxt| ==> n'[k + 1] == nxt[k];
    forall u | u in Urls(n')
      ensures u in {it.url} + Urls(nxt)
    {
      var k :| 0 <= k < |n'| && n'[k].url == u;
      if k > 0 {
        assert nxt[k - 1].url == u;
      }
    }
    assert n'[0] == it;
    forall u | u in Urls(nxt)
      ensures u in Urls(n')
    {
      var k :| 0 <= k < |nxt| && nxt[k].url == u;
      assert n'[k + 1].url == u;
    }
  }

  lemma MergeNew(news: seq<Item>, d: nat, rec: Record, disc: map<string, Record>, disc': map<string, Record>, nxt: seq<Item>)
    requires news != [] && news[0].url !in disc && news[0].depth == d + 1 && rec.depth == d + 1
    requires MergeShape(news[1..], d, disc[news[0].url := rec], disc', nxt)
    ensures MergeShape(news, d, disc, disc', [news[0]] + nxt)
  {
    MergeNewKeys(news, d, rec, disc, disc');
    MergeNewQueue(news[0], d, rec, disc, disc', nxt);
  }

  lemma MergeNewKeys(news: seq<Item>, d: nat, rec: Record, disc: map<string, Record>, disc': map<string, Record>)
    requires news != [] && news[0].url !in disc && rec.depth == d + 1
    requires MergeKeys(news[1..], d, disc[news[0].url := rec], disc')
    ensures MergeKeys(news, d, disc, disc')
  {
    assert Urls(news) == {news[0].url} + Urls(news[1..]);
  }

  lemma MergeNewQueue(it: Item, d: nat, rec: Record, disc: map<string, Record>, disc': map<string, Record>, nxt: seq<Item>)
    requires it.url !in disc && it.depth == d + 1 && it.url in disc'
    requires MergeQueue(d, disc[it.url := rec], disc', nxt)
    ensures MergeQueue(d, disc, disc', [it] + nxt)
  {
    UrlsCons(it, nxt);
    var n' := [it] + nxt;
    assert forall k :: 0 <= k < |nxt| ==> n'[k + 1] == nxt[k];
  }

  lemma MergeNewFound(u: string, rec: Record, env: Env, disc: map<string, Record>, disc': map<string, Record>)
    requires u !in disc && Found(u, rec, env)
    requires forall x :: x in disc[u := rec] ==> x in disc' && disc'[x] == disc[u := rec][x]
    requires MergeFound(env, disc[u := rec], disc')
    ensures MergeFound(env, disc, disc')
  {
  }

  lemma {:induction false} MergeShapeFacts(news: seq<Item>, d: nat, env: Env, disc: map<string, Record>)
    requires env.dm != [] && AtDepth(news, d + 1)
    ensures MergeShape(news, d, disc, Merge(news, disc, env).0, Merge(news, disc, env).1)
    decreases |news|
  {
    if news != [] {
      var it := news[0];
      assert AtDepth(news[1..], d + 1);
      if it.url in disc {
        MergeShapeFacts(news[1..], d, env, disc);
        var r := Merge(news[1..], disc, env);
        MergeKnown(news, d, disc, r.0, r.1);
      } else {
        var dom := Domains.HostKey(Url.Split(it.url).netloc);
        var rec := Record(SeedFor(env.dm, dom), it.depth, dom);
        MergeShapeFacts(news[1..], d, env, disc[it.url := rec]);
        var r := Merge(news[1..], disc[it.url := rec], env);
        MergeNew(news, d, rec, disc, r.0, r.1);
      }
    }
  }

  lemma FoundNew(it: Item, env: Env)
    requires env.dm != [] && it.depth > 0 && Kept(it.url, env.accept)
    ensures var dom := Domains.HostKey(Url.Split(it.url).netloc);
      Found(it.url, Record(SeedFor(env.dm, dom), it.depth, dom), env)
  {
  }

  lemma {:induction false} MergeFoundFacts(news: seq<Item>, d: nat, env: Env, disc: map<string, Record>)
    requires env.dm != [] && NewsOk(news, d, env.accept)
    ensures MergeFound(env, disc, Merge(news, disc, env).0)
    ensures forall u :: u in disc ==> u in Merge(news, disc, env).0 && Merge(news, disc, env).0[u] == disc[u]
    decreases |news|
  {
    if news != [] {
      var it := news[0];
      assert NewsOk(news[1..], d, env.accept);
      if it.url in disc {
        MergeFoundFacts(news[1..], d, env, disc);
      } else {
        var dom := Domains.HostKey(Url.Split(it.url).netloc);
        var rec := Record(SeedFor(env.dm, dom), it.depth, dom);
        FoundNew(it, env);
        MergeFoundFacts(news[1..], d, env, disc[it.url := rec]);
        var r := Merge(news[1..], disc[it.url := rec], env);
        MergeNewFound(it.url, rec, env, disc, r.0);
      }
    }
  }

  lemma MergeFacts(news: seq<Item>, d: nat, env: Env, disc: map<string, Record>)
    requires env.dm != [] && NewsOk(news, d, env.accept)
    ensures MergeEffect(news, d, env, disc, Merge(news, disc, env).0, Merge(news, disc, env).1)
  {
    MergeShapeFacts(news, d, env, disc);
    MergeFoundFacts(news, d, env, disc);
  }

  /** The first level: each seed root, normalised, at depth 0. */
  function SeedLevel(env: Env): (level: seq<Item>)
    ensures |level| == |env.dm|
    ensures forall i :: 0 <= i < |env.dm| ==> level[i] == Item(env.norm(env.dm[i].root), 0)
  {
    Seqs.MapSeq((s: Domains.Seed) => Item(env.norm(s.root), 0), env.dm)
  }

  /** The last seed whose root normalises to `u`, if any. */
  function LastFor(dm: seq<Domains.Seed>, u: string, norm: string -> string): (r: Option<nat>)
    ensures r.Some? ==> r.value < |dm| && norm(dm[r.value].root) == u
    ensures r.Some? ==> forall j :: r.value < j < |dm| ==> norm(dm[j].root) != u
    ensures r.None? ==> forall j :: 0 <= j < |dm| ==> norm(dm[j].root) != u
    decreases |dm|
  {
    if dm == [] then None
    else if norm(dm[|dm| - 1].root) == u then Some(|dm| - 1)
    else LastFor(dm[..|dm| - 1], u, norm)
  }

  /** The entry the seeding loop leaves for `u`: from the last seed normalising to it. */
  ghost predicate SeedEntry(u: string, rec: Record, env: Env) {
    var i := LastFor(env.dm, u, env.norm);
    i.Some? && rec == Record(env.dm[i.value].root, 0, env.dm[i.value].domain)
  }

  /** The seeding loop of `crawl`: later seeds with the same normal form overwrite earlier ones. */
  function SeedMap(dm: seq<Domains.Seed>, norm: string -> string): map<string, Record>
    decreases |dm|
  {
    if dm == [] then map[]
    else
      var last := dm[|dm| - 1];
      SeedMap(dm[..|dm| - 1], norm)[norm(last.root) := Record(last.root, 0, last.domain)]
  }

  lemma {:induction false} SeedMapFacts(dm: seq<Domains.Seed>, norm: string -> string)
    ensures forall u :: u in SeedMap(dm, norm) <==> LastFor(dm, u, norm).Some?
    ensures forall u :: u in SeedMap(dm, norm) ==>
      SeedMap(dm, norm)[u] == Record(dm[LastFor(dm, u, norm).value].root, 0, dm[LastFor(dm, u, norm).value].domain)
    decreases |dm|
  {
    if dm != [] {
      var front := dm[..|dm| - 1];
      SeedMapFacts(front, norm);
      assert forall j :: 0 <= j < |front| ==> dm[j] == front[j];
    }
  }

  /** Entry `u` of the result is sound: a seed at depth 0 or a proper find deeper down. */
  ghost predicate EntryOk(u: string, rec: Record, env: Env) {
    if rec.depth == 0 then SeedEntry(u, rec, env) else Found(u, rec, env)
  }

  /** The result keeps every entry it ever had, unchanged. */
  ghost predicate Grows(disc: map<string, Record>, disc': map<string, Record>) {
    forall u :: u in disc ==> u in disc' && disc'[u] == disc[u]
  }

  /** The depth-first facts about the fetch log with respect to the result. */
  ghost predicate FetchLog(st: State, disc: map<string, Record>) {
    && (forall k :: 0 <= k < |st.fetched| ==> st.fetched[k].url in disc && disc[st.fetched[k].url].depth == st.fetched[k].depth)
    && (forall i, j :: 0 <= i < j < |st.fetched| ==> st.fetched[i].depth <= st.fetched[j].depth)
    && st.visited <= disc.Keys
  }

  /** What holds at the top of the level loop, before level `dlvl` runs. */
  ghost predicate LevelInv(dlvl: nat, level: seq<Item>, st: State, disc: map<string, Record>, env: Env) {
    && Books(st, env.cfg)
    && dlvl <= env.cfg.maxDepth + 1
    && AtDepth(level, dlvl)
    && (forall k :: 0 <= k < |level| ==> level[k].url in disc && disc[level[k].url].depth == dlvl)
    && FetchLog(st, disc)
    && (forall k :: 0 <= k < |st.fetched| ==> st.fetched[k].depth < dlvl)
    && (forall u :: u in disc ==> disc[u].depth <= dlvl && EntryOk(u, disc[u], env))
    && (forall i :: 0 <= i < |env.dm| ==> env.norm(env.dm[i].root) in disc && disc[env.norm(env.dm[i].root)].depth == 0)
  }

  /** The level loop of `crawl`, one level per depth, stopping early on an empty level or a spent budget. */
  function Levels(dlvl: nat, level: seq<Item>, st: State, disc: map<string, Record>, env: Env): (State, map<string, Record>)
    requires env.dm != []
    decreases env.cfg.maxDepth + 1 - dlvl
  {
    if dlvl > env.cfg.maxDepth || level == [] || st.count >= env.cfg.maxPages then (st, disc)
    else
      var ran := RunBatches(Chunks(level, BatchSize(|level|, env.cfg.maxWorkers)), env, st);
      var merged := Merge(ran.1, disc, env);
      Levels(dlvl + 1, merged.1, ran.0, merged.0, env)
  }

  /** Every seed's normalised root is seeded at depth 0. */
  lemma SeedMapSeeds(env: Env)
    ensures var m := SeedMap(env.dm, env.norm);
      forall i :: 0 <= i < |env.dm| ==> env.norm(env.dm[i].root) in m && m[env.norm(env.dm[i].root)].depth == 0
  {
    SeedMapFacts(env.dm, env.norm);
    forall i | 0 <= i < |env.dm|
      ensures LastFor(env.dm, env.norm(env.dm[i].root), env.norm).Some?
    {
    }
  }

  /** Every seeded entry is a depth-0 seed entry. */
  lemma SeedMapEntries(env: Env)
    ensures var m := SeedMap(env.dm, env.norm);
      forall u :: u in m ==> m[u].depth == 0 && SeedEntry(u, m[u], env)
  {
    SeedMapFacts(env.dm, env.norm);
  }

  lemma InitInv(env: Env)
    ensures LevelInv(0, SeedLevel(env), State({}, 0, []), SeedMap(env.dm, env.norm), env)
  {
    var m := SeedMap(env.dm, env.norm);
    var level := SeedLevel(env);
    SeedMapSeeds(env);
    SeedMapEntries(env);
    assert forall k :: 0 <= k < |level| ==> level[k].url in m && m[level[k].url].depth == 0;
    assert forall u :: u in m ==> EntryOk(u, m[u], env);
  }

  lemma LevelFetchLog(dlvl: nat, level: seq<Item>, cfg: Config, st: State, disc: map<string, Record>, st': State, disc': map<string, Record>)
    requires AtDepth(level, dlvl)
    requires forall k :: 0 <= k < |level| ==> level[k].url in disc && disc[level[k].url].depth == dlvl
    requires FetchLog(st, disc) && forall k :: 0 <= k < |st.fetched| ==> st.fetched[k].depth < dlvl
    requires StateEffect(level, cfg, st, st') && Grows(disc, disc')
    ensures FetchLog(st', disc') && forall k :: 0 <= k < |st'.fetched| ==> st'.fetched[k].depth < dlvl + 1
  {
    var n := |st.fetched|;
    forall k | n <= k < |st'.fetched|
      ensures st'.fetched[k].depth == dlvl && st'.fetched[k].url in disc && disc[st'.fetched[k].url].depth == dlvl
    {
      var x := st'.fetched[k];
      var i :| 0 <= i < |level| && level[i] == x;
    }
    forall k | 0 <= k < n
      ensures st'.fetched[k] == st.fetched[k]
    {
    }
    assert Urls(level) <= disc.Keys;
  }

  lemma LevelEntries(dlvl: nat, env: Env, disc: map<string, Record>, disc': map<string, Record>, news: seq<Item>, nxt: seq<Item>)
    requires forall u :: u in disc ==> disc[u].depth <= dlvl && EntryOk(u, disc[u], env)
    requires MergeEffect(news, dlvl, env, disc, disc', nxt)
    ensures forall u :: u in disc' ==> disc'[u].depth <= dlvl + 1 && EntryOk(u, disc'[u], env)
  {
  }

  /** One pass of the level loop keeps the loop invariant. */
  lemma LevelStep(dlvl: nat, level: seq<Item>, st: State, disc: map<string, Record>, env: Env)
    requires env.dm != [] && LevelInv(dlvl, level, st, disc, env)
    requires !(dlvl > env.cfg.maxDepth || level == [] || st.count >= env.cfg.maxPages)
    ensures var ran := RunBatches(Chunks(level, BatchSize(|level|, env.cfg.maxWorkers)), env, st);
      var merged := Merge(ran.1, disc, env);
      LevelInv(dlvl + 1, merged.1, ran.0, merged.0, env) && Grows(disc, merged.0)
  {
    var batches := Chunks(level, BatchSize(|level|, env.cfg.maxWorkers));
    RunBatchesFacts(batches, dlvl, env, st);
    var ran := RunBatches(batches, env, st);
    MergeFacts(ran.1, dlvl, env, disc);
    var merged := Merge(ran.1, disc, env);
    LevelFetchLog(dlvl, level, env.cfg, st, disc, ran.0, merged.0);
    LevelEntries(dlvl, env, disc, merged.0, ran.1, merged.1);
  }

  /** What holds when the crawl ends. */
  ghost predicate FinalInv(st: State, disc: map<string, Record>, env: Env) {
    && Books(st, env.cfg)
    && FetchLog(st, disc)
    && (forall u :: u in disc ==> disc[u].depth <= env.cfg.maxDepth + 1 && EntryOk(u, disc[u], env))
    && (forall i :: 0 <= i < |env.dm| ==> env.norm(env.dm[i].root) in disc && disc[env.norm(env.dm[i].root)].depth == 0)
  }

  lemma ExitInv(dlvl: nat, level: seq<Item>, st: State, disc: map<string, Record>, env: Env)
    requires LevelInv(dlvl, level, st, disc, env)
    ensures FinalInv(st, disc, env)
  {
  }

  lemma GrowsTrans(a: map<string, Record>, b: map<string, Record>, c: map<string, Record>)
    requires Grows(a, b) && Grows(b, c)
    ensures Grows(a, c)
  {
  }

  /** The facts `LevelsFacts` promises about a run of the loop from level `dlvl`. */
  ghost predicate LevelsOk(dlvl: nat, level: seq<Item>, st: State, disc: map<string, Record>, env: Env)
    requires env.dm != []
  {
    var r := Levels(dlvl, level, st, disc, env);
    FinalInv(r.0, r.1, env) && Grows(disc, r.1)
  }

  lemma LevelsUnfold(dlvl: nat, level: seq<Item>, st: State, disc: map<string, Record>, env: Env)
    requires env.dm != []
    requires !(dlvl > env.cfg.maxDepth || level == [] || st.count >= env.cfg.maxPages)
    ensures var ran := RunBatches(Chunks(level, BatchSize(|level|, env.cfg.maxWorkers)), env, st);
      var merged := Merge(ran.1, disc, env);
      Levels(dlvl, level, st, disc, env) == Levels(dlvl + 1, merged.1, ran.0, merged.0, env)
  {
  }

  lemma LevelsBase(dlvl: nat, level: seq<Item>, st: State, disc: map<string, Record>, env: Env)
    requires env.dm != [] && LevelInv(dlvl, level, st, disc, env)
    requires dlvl > env.cfg.maxDepth || level == [] || st.count >= env.cfg.maxPages
    ensures LevelsOk(dlvl, level, st, disc, env)
  {
    ExitInv(dlvl, level, st, disc, env);
  }

  lemma LevelsRec(dlvl: nat, level: seq<Item>, st: State, disc: map<string, Record>, env: Env, st': State, disc': map<string, Record>, nxt: seq<Item>)
    requires env.dm != []
    requires !(dlvl > env.cfg.maxDepth || level == [] || st.count >= env.cfg.maxPages)
    requires Levels(dlvl, level, st, disc, env) == Levels(dlvl + 1, nxt, st', disc', env)
    requires Grows(disc, disc') && LevelsOk(dlvl + 1, nxt, st', disc', env)
    ensures LevelsOk(dlvl, level, st, disc, env)
  {
    GrowsTrans(disc, disc', Levels(dlvl, level, st, disc, env).1);
  }

  lemma {:induction false} LevelsFacts(dlvl: nat, level: seq<Item>, st: State, disc: map<string, Record>, env: Env)
    requires env.dm != [] && LevelInv(dlvl, level, st, disc, env)
    ensures LevelsOk(dlvl, level, st, disc, env)
    decreases env.cfg.maxDepth + 1 - dlvl
  {
    if dlvl > env.cfg.maxDepth || level == [] || st.count >= env.cfg.maxPages {
      LevelsBase(dlvl, level, st, disc, env);
    } else {
      var ran := RunBatches(Chunks(level, BatchSize(|level|, env.cfg.maxWorkers)), env, st);
      var merged := Merge(ran.1, disc, env);
      LevelStep(dlvl, level, st, disc, env);
      LevelsFacts(dlvl + 1, merged.1, ran.0, merged.0, env);
      LevelsUnfold(dlvl, level, st, disc, env);
      LevelsRec(dlvl, level, st, disc, env, ran.0, merged.0, merged.1);
    }
  }

  /** The fixed parts of `crawl(dm)`: `allowed` is the set of the map's domains. */
  function MakeEnv(dm: seq<Domains.Seed>, cfg: Config, links: string -> seq<string>): Env {
    Env(cfg, dm, links, l => CrawlFilter.Accept(l, Domains.Keys(dm)), CrawlFilter.Normalize)
  }

  /** The seeding and the level loop, with the final shared state. */
  function Run(env: Env): (State, map<string, Record>)
    requires env.dm != []
  {
    Levels(0, SeedLevel(env), State({}, 0, []), SeedMap(env.dm, env.norm), env)
  }

  lemma RunFacts(env: Env)
    requires env.dm != []
    ensures FinalInv(Run(env).0, Run(env).1, env)
  {
    InitInv(env);
    LevelsFacts(0, SeedLevel(env), State({}, 0, []), SeedMap(env.dm, env.norm), env);
  }

  /** What the concrete link filter lets through. */
  lemma KeptAdmissible(u: string, dm: seq<Domains.Seed>)
    requires Kept(u, l => CrawlFilter.Accept(l, Domains.Keys(dm)))
    ensures CrawlFilter.Valid(u, Domains.Keys(dm)) && CrawlFilter.Normalize(u) == u
    ensures Domains.HostKey(Url.Split(u).netloc) in Domains.Keys(dm)
  {
    var l :| CrawlFilter.Accept(l, Domains.Keys(dm)) == Some(u);
  }

  /** A find's seed is the root the domain map holds for its host key. */
  lemma FoundSeed(u: string, rec: Record, dm: seq<Domains.Seed>, cfg: Config, links: string -> seq<string>)
    requires Found(u, rec, MakeEnv(dm, cfg, links))
    ensures CrawlFilter.Valid(u, Domains.Keys(dm)) && CrawlFilter.Normalize(u) == u
    ensures rec.domain == Domains.HostKey(Url.Split(u).netloc)
    ensures exists i :: 0 <= i < |dm| && dm[i].domain == rec.domain && rec.seed == dm[i].root
  {
    KeptAdmissible(u, dm);
    var i :| 0 <= i < |dm| && dm[i].domain == rec.domain;
    assert FindDomain(dm, rec.domain).Some?;
  }

  /** A seed entry comes from a seed whose root normalises to its key. */
  lemma SeedEntrySeed(u: string, rec: Record, dm: seq<Domains.Seed>, cfg: Config, links: string -> seq<string>)
    requires SeedEntry(u, rec, MakeEnv(dm, cfg, links))
    ensures exists i :: 0 <= i < |dm| && u == CrawlFilter.Normalize(dm[i].root) && rec.seed == dm[i].root && rec.domain == dm[i].domain
  {
    var i := LastFor(dm, u, CrawlFilter.Normalize).value;
    assert u == CrawlFilter.Normalize(dm[i].root);
  }

  lemma RunSeeds(dm: seq<Domains.Seed>, cfg: Config, links: string -> seq<string>)
    requires dm != []
    ensures var disc := Run(MakeEnv(dm, cfg, links)).1;
      forall u :: u in disc && disc[u].depth == 0 ==>
        exists i :: 0 <= i < |dm| && u == CrawlFilter.Normalize(dm[i].root) && disc[u].seed == dm[i].root && disc[u].domain == dm[i].domain
  {
    var env := MakeEnv(dm, cfg, links);
    RunFacts(env);
    var disc := Run(env).1;
    forall u | u in disc && disc[u].depth == 0
      ensures exists i :: 0 <= i < |dm| && u == CrawlFilter.Normalize(dm[i].root) && disc[u].seed == dm[i].root && disc[u].domain == dm[i].domain
    {
      SeedEntrySeed(u, disc[u], dm, cfg, links);
    }
  }

  lemma RunFinds(dm: seq<Domains.Seed>, cfg: Config, links: string -> seq<string>)
    requires dm != []
    ensures var disc := Run(MakeEnv(dm, cfg, links)).1;
      forall u :: u in disc && disc[u].depth > 0 ==>
        && CrawlFilter.Valid(u, Domains.Keys(dm)) && CrawlFilter.Normalize(u) == u
        && disc[u].domain == Domains.HostKey(Url.Split(u).netloc)
        && exists i :: 0 <= i < |dm| && dm[i].domain == disc[u].domain && disc[u].seed == dm[i].root
  {
    var env := MakeEnv(dm, cfg, links);
    RunFacts(env);
    var disc := Run(env).1;
    forall u | u in disc && disc[u].depth > 0
      ensures && CrawlFilter.Valid(u, Domains.Keys(dm)) && CrawlFilter.Normalize(u) == u
        && disc[u].domain == Domains.HostKey(Url.Split(u).netloc)
        && exists i :: 0 <= i < |dm| && dm[i].domain == disc[u].domain && disc[u].seed == dm[i].root
    {
      FoundSeed(u, disc[u], dm, cfg, links);
    }
  }

  /**
   `crawl(dm)`: every discovered URL is either a normalised seed root at
   depth 0 or a valid, normalised URL found deeper down, recorded with its
   host key and that key's seed root; no entry lies deeper than
   `maxDepth + 1`, and every seed is present.
   */
  function Crawl(dm: seq<Domains.Seed>, cfg: Config, links: string -> seq<string>): (disc: map<string, Record>)
    ensures dm == [] ==> disc == map[]
    ensures forall u :: u in disc ==> disc[u].depth <= cfg.maxDepth + 1
    ensures forall i :: 0 <= i < |dm| ==> CrawlFilter.Normalize(dm[i].root) in disc && disc[CrawlFilter.Normalize(dm[i].root)].depth == 0
    ensures forall u :: u in disc && disc[u].depth == 0 ==>
      exists i :: 0 <= i < |dm| && u == CrawlFilter.Normalize(dm[i].root) && disc[u].seed == dm[i].root && disc[u].domain == dm[i].domain
    ensures forall u :: u in disc && disc[u].depth > 0 ==>
      && CrawlFilter.Valid(u, Domains.Keys(dm)) && CrawlFilter.Normalize(u) == u
      && disc[u].domain == Domains.HostKey(Url.Split(u).netloc)
      && exists i :: 0 <= i < |dm| && dm[i].domain == disc[u].domain && disc[u].seed == dm[i].root
  {
    if dm == [] then map[]
    else
      RunFacts(MakeEnv(dm, cfg, links));
      RunSeeds(dm, cfg, links);
      RunFinds(dm, cfg, links);
      Run(MakeEnv(dm, cfg, links)).1
  }

  /**
   The page budget of a crawl: the counter counts the visited set, no page is
   fetched twice, at most `maxPages` pages are fetched, every fetched page is
   in the result at its depth (never deeper than `maxDepth`), pages are
   fetched level by level, and every visited URL is in the result.
   */
  lemma CrawlBudget(dm: seq<Domains.Seed>, cfg: Config, links: string -> seq<string>)
    requires dm != []
    ensures var r := Run(MakeEnv(dm, cfg, links)); var st := r.0;
      && r.1 == Crawl(dm, cfg, links)
      && st.count == |st.visited|
      && (forall i, j :: 0 <= i < j < |st.fetched| ==> st.fetched[i].url != st.fetched[j].url)
      && |st.fetched| == (if st.count <= cfg.maxPages then st.count else cfg.maxPages)
      && (forall k :: 0 <= k < |st.fetched| ==>
            st.fetched[k].url in r.1 && r.1[st.fetched[k].url].depth == st.fetched[k].depth <= cfg.maxDepth)
      && (forall i, j :: 0 <= i < j < |st.fetched| ==> st.fetched[i].depth <= st.fetched[j].depth)
      && st.visited <= r.1.Keys
  {
    RunFacts(MakeEnv(dm, cfg, links));
  }

  lemma {:induction false} UrlsCard(xs: seq<Item>)
    requires forall i, j :: 0 <= i < j < |xs| ==> xs[i].url != xs[j].url
    ensures |Urls(xs)| == |xs|
    decreases |xs|
  {
    if xs != [] {
      var rest := xs[1..];
      UrlsCard(rest);
      UrlsCons(xs[0], rest);
      assert [xs[0]] + rest == xs;
      assert xs[0].url !in Urls(rest) by {
        forall k | 0 <= k < |rest|
          ensures rest[k].url != xs[0].url
        {
          assert rest[k] == xs[k + 1];
        }
      }
    }
  }

  /**
   The URL that pushes the counter past `maxPages` is marked visited but never
   fetched: once the counter exceeds the budget, exactly `count - maxPages`
   visited URLs were never fetched.
   */
  lemma OverflowUnfetched(st: State, cfg: Config)
    requires Books(st, cfg) && st.count > cfg.maxPages
    ensures |st.visited - Urls(st.fetched)| == st.count - cfg.maxPages
    ensures exists u :: u in st.visited && u !in Urls(st.fetched)
  {
    UrlsCard(st.fetched);
    assert Urls(st.fetched) <= st.visited;
    assert |st.visited - Urls(st.fetched)| == |st.visited| - |Urls(st.fetched)|;
  }

  lemma SeedKeyUnblocked(u: string, dm: seq<Domains.Seed>)
    requires forall i :: 0 <= i < |dm| ==> !Blocking.IsBlocked(dm[i].root)
    requires exists i :: 0 <= i < |dm| && u == CrawlFilter.Normalize(dm[i].root)
    ensures !Blocking.IsBlocked(u)
  {
    var i :| 0 <= i < |dm| && u == CrawlFilter.Normalize(dm[i].root);
    CrawlFilter.NormalizeKeepsBlocked(dm[i].root);
  }

  /** A crawl seeded with unblocked roots discovers no URL on a blocked domain. */
  lemma CrawlUnblocked(dm: seq<Domains.Seed>, cfg: Config, links: string -> seq<string>)
    requires forall i :: 0 <= i < |dm| ==> !Blocking.IsBlocked(dm[i].root)
    ensures forall u :: u in Crawl(dm, cfg, links) ==> !Blocking.IsBlocked(u)
  {
    var disc := Crawl(dm, cfg, links);
    forall u | u in disc
      ensures !Blocking.IsBlocked(u)
    {
      if disc[u].depth == 0 {
        SeedKeyUnblocked(u, dm);
      } else {
        assert CrawlFilter.Valid(u, Domains.Keys(dm));
      }
    }
  }

  /**
   The last level still records what it finds: links harvested at depth
   `maxDepth` enter the result at depth `maxDepth + 1`.
   */
  lemma DeepestLevelRecorded(level: seq<Item>, st: State, disc: map<string, Record>, env: Env)
    requires env.dm != [] && level != [] && st.count < env.cfg.maxPages
    requires Books(st, env.cfg) && AtDepth(level, env.cfg.maxDepth)
    ensures var news := RunBatches(Chunks(level, BatchSize(|level|, env.cfg.maxWorkers)), env, st).1;
      var r := Levels(env.cfg.maxDepth, level, st, disc, env).1;
      forall k :: 0 <= k < |news| ==> news[k].url in r && (news[k].url !in disc ==> r[news[k].url].depth == env.cfg.maxDepth + 1)
  {
    var d := env.cfg.maxDepth;
    var batches := Chunks(level, BatchSize(|level|, env.cfg.maxWorkers));
    RunBatchesFacts(batches, d, env, st);
    var ran := RunBatches(batches, env, st);
    MergeShapeFacts(ran.1, d, env, disc);
    var merged := Merge(ran.1, disc, env);
    LevelsUnfold(d, level, st, disc, env);
    assert Levels(d + 1, merged.1, ran.0, merged.0, env) == (ran.0, merged.0);
    forall k | 0 <= k < |ran.1|
      ensures ran.1[k].url in Urls(ran.1)
    {
    }
  }
}
