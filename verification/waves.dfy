/**
 The breadth-first crawl `fetch_website_gevent` and its worker
 `fetch_url_gevent`.

 Each call spawns one worker per URL of the current wave, joins them all,
 collects the union of the links they returned, and recurses on the links
 not seen yet after adding them to `seen`. Workers of a wave only write the
 graph, and `seen` is read and written only after the join, so the join is
 modelled as one step whose result does not depend on the order in which
 the workers ran (`JoinIsOrderIndependent`).
 */
module Waves {
  import opened Extract
  import opened Site

  /** The outcome of a crawl: the sitemap, the seen set, and the waves fetched, in order. */
  datatype Crawl = Crawl(sitemap: Sitemap, seen: set<Url>, waves: seq<set<Url>>)

  /**
   `fetch_url_gevent(sitemap, base, url)`: record `url`'s node and an edge
   to each of its links, and return the links. Nothing else in the graph
   changes.
   */
  function FetchUrl(site: Site, g: Sitemap, url: Url): (r: (Sitemap, seq<Url>))
    ensures r.1 == Links(site, url)
    ensures r.0.nodes.Keys == g.nodes.Keys + {url} && r.0.nodes[url] == PageOf(site, url)
    ensures forall v :: v in g.nodes && v != url ==> r.0.nodes[v] == g.nodes[v]
    ensures forall l :: l in r.1 ==> (url, l) in r.0.edges
    ensures forall e :: e in r.0.edges <==> e in g.edges || (e.0 == url && e.1 in r.1)
  {
    var links := Links(site, url);
    var g1 := AddNode(g, url, PageOf(site, url));
    (g1.(edges := g1.edges + set l | l in links :: (url, l)), links)
  }

  /** The URLs whose pages the wave's workers fetch link to. */
  function Successors(site: Site, wave: set<Url>): set<Url>
  {
    set u, l | u in wave && l in Links(site, u) :: l
  }

  /**
   `gevent.joinall(jobs)` followed by the union of the workers' results:
   the graph after every URL of the wave was fetched, and the set of links
   they found.
   */
  function FetchWave(site: Site, g: Sitemap, wave: set<Url>): (r: (Sitemap, set<Url>))
    ensures r.0.nodes.Keys == g.nodes.Keys + wave
    ensures forall u :: u in wave ==> r.0.nodes[u] == PageOf(site, u)
    ensures forall u :: u in g.nodes && u !in wave ==> r.0.nodes[u] == g.nodes[u]
    ensures forall e :: e in r.0.edges <==> e in g.edges || (e.0 in wave && e.1 in Links(site, e.0))
    ensures r.1 == Successors(site, wave)
  {
    var nodes := g.nodes + map u | u in wave :: PageOf(site, u);
    var edges := g.edges + set u, l | u in wave && l in Links(site, u) :: (u, l);
    (Sitemap(nodes, edges), Successors(site, wave))
  }

  /** Running the workers one after another, in the order `order`, and collecting their links. */
  function RunInOrder(site: Site, g: Sitemap, order: seq<Url>): (Sitemap, set<Url>)
  {
    if order == [] then (g, {})
    else
      var before := RunInOrder(site, g, order[..|order| - 1]);
      var step := FetchUrl(site, before.0, order[|order| - 1]);
      (step.0, before.1 + set l | l in step.1)
  }

  /** Joining no workers leaves the graph as it was and finds no links. */
  lemma EmptyWave(site: Site, g: Sitemap)
    ensures FetchWave(site, g, {}) == (g, {})
  {
    var b := FetchWave(site, g, {});
    assert b.0.nodes == g.nodes && b.0.edges == g.edges;
    assert b.0 == g;
    assert b.1 == {} by {
      forall l | l in b.1
        ensures false
      {
      }
    }
  }

  /** Running one more worker after a joined wave is the join of the larger wave. */
  lemma WaveAddOne(site: Site, g: Sitemap, w: set<Url>, x: Url)
    ensures var p := FetchWave(site, g, w);
      var q := FetchUrl(site, p.0, x);
      (q.0, p.1 + set l | l in q.1) == FetchWave(site, g, w + {x})
  {
    var p := FetchWave(site, g, w);
    var q := FetchUrl(site, p.0, x);
    var b := FetchWave(site, g, w + {x});
    assert q.0.nodes == b.0.nodes;
    assert q.0.edges == b.0.edges;
    assert p.1 + (set l | l in q.1) == b.1;
  }

  /**
   However the workers of a wave are scheduled, running them one by one
   gives the same graph and the same link set as the joined wave.
   */
  lemma {:induction false} JoinIsOrderIndependent(site: Site, g: Sitemap, order: seq<Url>)
    ensures RunInOrder(site, g, order) == FetchWave(site, g, set u | u in order)
  {
    if order == [] {
      assert (set u | u in order) == {};
      EmptyWave(site, g);
    } else {
      var init := order[..|order| - 1];
      var last := order[|order| - 1];
      JoinIsOrderIndependent(site, g, init);
      assert (set u | u in order) == (set u | u in init) + {last};
      WaveAddOne(site, g, (set u | u in init), last);
    }
  }

  /** The URLs fetched by the waves in `waves`. */
  function Fetched(waves: seq<set<Url>>): set<Url>
  {
    if waves == [] then {} else Fetched(waves[..|waves| - 1]) + waves[|waves| - 1]
  }

  /** No URL belongs to two waves. */
  predicate PairwiseDisjoint(waves: seq<set<Url>>)
  {
    forall i, j :: 0 <= i < j < |waves| ==> waves[i] !! waves[j]
  }

  /** The number of fetches the waves make: one per member of each wave. */
  function FetchCount(waves: seq<set<Url>>): nat
  {
    if waves == [] then 0 else FetchCount(waves[..|waves| - 1]) + |waves[|waves| - 1]|
  }

  /** Disjoint waves fetch each URL once: the fetch count is the number of URLs fetched. */
  lemma {:induction false} FetchCountIsFetched(waves: seq<set<Url>>)
    requires PairwiseDisjoint(waves)
    ensures FetchCount(waves) == |Fetched(waves)|
  {
    if waves != [] {
      var init, last := waves[..|waves| - 1], waves[|waves| - 1];
      assert PairwiseDisjoint(init);
      FetchCountIsFetched(init);
      forall u | u in Fetched(init)
        ensures u !in last
      {
        FetchedMembers(init, u);
      }
      assert Fetched(init) !! last;
    }
  }

  /** A URL is fetched by some wave exactly when it belongs to one. */
  lemma {:induction false} FetchedMembers(waves: seq<set<Url>>, u: Url)
    ensures u in Fetched(waves) <==> exists k :: 0 <= k < |waves| && u in waves[k]
  {
    if waves != [] {
      var init := waves[..|waves| - 1];
      FetchedMembers(init, u);
      assert forall k :: 0 <= k < |init| ==> init[k] == waves[k];
    }
  }

  /**
   What holds at each call of the crawl: the graph is the sitemap of the
   URLs fetched by earlier waves; the waves, the current one included, are
   pairwise disjoint; `seen` is the fetched URLs plus the current wave;
   every link of a fetched page is seen; and every seen URL is reachable
   from the base.
   */
  ghost predicate Inv(site: Site, g: Sitemap, seen: set<Url>, wave: set<Url>, history: seq<set<Url>>)
  {
    && SitemapOf(site, g, Fetched(history))
    && PairwiseDisjoint(history + [wave])
    && seen == Fetched(history) + wave
    && (forall u :: u in Fetched(history) ==> forall l :: l in Links(site, u) ==> l in seen)
    && (forall u :: u in seen ==> Reachable(site, site.base, u))
  }

  /** `main`'s set-up, `seen = set([base])` with the first wave `[base]`, establishes the invariant. */
  lemma InitialInv(site: Site)
    ensures Inv(site, EmptySitemap, {site.base}, {site.base}, [])
  {
    ReachableRoot(site, site.base);
    assert Fetched([]) == {};
  }

  /** One wave keeps the invariant, with the unseen links as the next wave. */
  lemma WaveKeepsInv(site: Site, g: Sitemap, seen: set<Url>, wave: set<Url>, history: seq<set<Url>>)
    requires Inv(site, g, seen, wave, history)
    ensures var (g1, links) := FetchWave(site, g, wave);
      Inv(site, g1, seen + (links - seen), links - seen, history + [wave])
  {
    var (g1, links) := FetchWave(site, g, wave);
    var h1 := history + [wave];
    var next: set<Url> := links - seen;
    assert h1[..|h1| - 1] == history;
    assert Fetched(h1) == Fetched(history) + wave;
    forall i, j | 0 <= i < j < |h1 + [next]|
      ensures (h1 + [next])[i] !! (h1 + [next])[j]
    {
      if j == |h1| {
        forall u | u in (h1 + [next])[i]
          ensures u in Fetched(h1)
        {
          FetchedMembers(h1, u);
        }
      } else {
        assert (h1 + [next])[i] == (history + [wave])[i];
        assert (h1 + [next])[j] == (history + [wave])[j];
      }
    }
    forall l: Url | l in next
      ensures Reachable(site, site.base, l)
    {
      var u :| u in wave && l in Links(site, u);
      ReachableStep(site, site.base, u, l);
    }
  }

  /**
   `fetch_website_gevent(sitemap, seen, base, urls)`: fetch the wave,
   then recurse on the links not yet seen, stopping when there are none.
   On return the seen set is closed under links, every seen URL was fetched
   by exactly one wave, and the graph is the sitemap of the seen set.
   */
  function FetchWebsiteWaves(site: Site, universe: set<Url>, g: Sitemap, seen: set<Url>,
                             wave: set<Url>, history: seq<set<Url>>): (r: Crawl)
    requires Closed(site, universe) && seen <= universe
    requires Inv(site, g, seen, wave, history)
    ensures seen <= r.seen <= universe
    ensures Closed(site, r.seen)
    ensures r.seen == Fetched(r.waves) && PairwiseDisjoint(r.waves)
    ensures SitemapOf(site, r.sitemap, r.seen)
    ensures forall u :: u in r.seen ==> Reachable(site, site.base, u)
    decreases |universe - seen|
  {
    var (g1, links) := FetchWave(site, g, wave);
    var unseen := links - seen;
    WaveKeepsInv(site, g, seen, wave, history);
    if unseen != {} then
      UnseenStrictlyShrinks(universe, seen, unseen);
      FetchWebsiteWaves(site, universe, g1, seen + unseen, unseen, history + [wave])
    else
      Crawl(g1, seen, history + [wave])
  }

  /**
   The call in `main`: `fetch_website_gevent(sitemap, set([base]), base,
   [base])`. The crawl sees exactly the URLs reachable from the base.
   */
  function CrawlFromBase(site: Site, universe: set<Url>): (r: Crawl)
    requires Closed(site, universe) && site.base in universe
    ensures forall u :: u in r.seen <==> Reachable(site, site.base, u)
    ensures Closed(site, r.seen)
    ensures r.seen == Fetched(r.waves) && PairwiseDisjoint(r.waves)
    ensures SitemapOf(site, r.sitemap, r.seen)
  {
    var start := {site.base};
    InitialInv(site);
    var r := FetchWebsiteWaves(site, universe, EmptySitemap, start, start, []);
    forall u | Reachable(site, site.base, u)
      ensures u in r.seen
    {
      ClosedContainsReachable(site, r.seen, site.base, u);
    }
    r
  }
}
