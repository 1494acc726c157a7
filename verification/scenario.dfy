/**
 A three-page site crawled in waves: page `a` links to `b` and `c`, page
 `b` links back to `a`, page `c` has no links. The crawl from `a` fetches
 the wave {a}, then the wave {b, c}, then stops because `a` is already
 seen; the sitemap has the three pages and the edges a->b, a->c, b->a.
 */
module Scenario {
  import opened Extract
  import opened Site
  import opened Waves

  function ThreePages(a: Url, b: Url, c: Url): Site
  {
    Site(a, u => if u == a then [b, c] else if u == b then [a] else [], u => [])
  }

  lemma FirstWaveLinks(a: Url, b: Url, c: Url)
    requires a != b && b != c && a != c
    ensures Successors(ThreePages(a, b, c), {a}) == {b, c}
  {
    var site := ThreePages(a, b, c);
    assert b in Links(site, a) && c in Links(site, a);
  }

  lemma SecondWaveLinks(a: Url, b: Url, c: Url)
    requires a != b && b != c && a != c
    ensures Successors(ThreePages(a, b, c), {b, c}) == {a}
  {
    var site := ThreePages(a, b, c);
    assert a in Links(site, b);
  }

  lemma SecondWaveInv(a: Url, b: Url, c: Url)
    requires a != b && b != c && a != c
    ensures Inv(ThreePages(a, b, c), FetchWave(ThreePages(a, b, c), EmptySitemap, {a}).0,
                {a, b, c}, {b, c}, [{a}])
  {
    var site := ThreePages(a, b, c);
    InitialInv(site);
    FirstWaveLinks(a, b, c);
    WaveKeepsInv(site, EmptySitemap, {a}, {a}, []);
    assert {a} + ({b, c} - {a}) == {a, b, c};
    assert {b, c} - {a} == {b, c};
  }

  /** The second wave finds only `a`, which is seen, so the crawl stops after it. */
  lemma SecondWaveIsLast(a: Url, b: Url, c: Url, g1: Sitemap)
    requires a != b && b != c && a != c
    requires Closed(ThreePages(a, b, c), {a, b, c})
    requires Inv(ThreePages(a, b, c), g1, {a, b, c}, {b, c}, [{a}])
    ensures FetchWebsiteWaves(ThreePages(a, b, c), {a, b, c}, g1, {a, b, c}, {b, c}, [{a}]).waves
         == [{a}, {b, c}]
  {
    SecondWaveLinks(a, b, c);
    assert {a} - {a, b, c} == {};
  }

  /** The first wave finds `b` and `c`, both unseen, and recurses on them. */
  lemma FirstWaveRecurses(a: Url, b: Url, c: Url, site: Site, g1: Sitemap)
    requires a != b && b != c && a != c
    requires site == ThreePages(a, b, c) && g1 == FetchWave(site, EmptySitemap, {a}).0
    requires Closed(site, {a, b, c})
    requires Inv(site, g1, {a, b, c}, {b, c}, [{a}])
    ensures FetchWebsiteWaves(site, {a, b, c}, EmptySitemap, {a}, {a}, [])
         == FetchWebsiteWaves(site, {a, b, c}, g1, {a, b, c}, {b, c}, [{a}])
  {
    InitialInv(site);
    FirstWaveLinks(a, b, c);
    assert FetchWave(site, EmptySitemap, {a}).1 == {b, c};
    assert {b, c} - {a} == {b, c};
    assert {a} + {b, c} == {a, b, c};
  }

  /** The crawl takes exactly two waves, {a} and then {b, c}. */
  lemma TwoWaves(a: Url, b: Url, c: Url)
    requires a != b && b != c && a != c
    ensures Waves.CrawlFromBase(ThreePages(a, b, c), {a, b, c}).waves == [{a}, {b, c}]
  {
    var site := ThreePages(a, b, c);
    assert Closed(site, {a, b, c});
    SecondWaveInv(a, b, c);
    SecondWaveIsLast(a, b, c, FetchWave(site, EmptySitemap, {a}).0);
    FirstWaveRecurses(a, b, c, site, FetchWave(site, EmptySitemap, {a}).0);
  }

  /** Any sitemap of the three pages has exactly the edges a->b, a->c and b->a. */
  lemma ThreePageEdges(a: Url, b: Url, c: Url, g: Sitemap)
    requires a != b && b != c && a != c
    requires SitemapOf(ThreePages(a, b, c), g, {a, b, c})
    ensures g.edges == {(a, b), (a, c), (b, a)}
  {
    var site := ThreePages(a, b, c);
    assert Links(site, a) == [b, c] && Links(site, b) == [a] && Links(site, c) == [];
    forall e | e in g.edges
      ensures e in {(a, b), (a, c), (b, a)}
    {
    }
    assert (a, b) in g.edges && (a, c) in g.edges && (b, a) in g.edges;
  }

  lemma FetchedTwoWaves(a: Url, b: Url, c: Url)
    ensures Fetched([{a}, {b, c}]) == {a, b, c}
  {
    var w := [{a}, {b, c}];
    assert w[..1] == [{a}] && [{a}][..0] == [];
    assert Fetched([{a}]) == Fetched([]) + {a};
    assert Fetched(w) == Fetched(w[..1]) + {b, c};
  }

  /** The sitemap has the three pages and exactly the edges a->b, a->c and b->a. */
  lemma ThreePageSitemap(a: Url, b: Url, c: Url)
    requires a != b && b != c && a != c
    ensures var r := Waves.CrawlFromBase(ThreePages(a, b, c), {a, b, c});
      r.seen == {a, b, c} && r.sitemap.nodes.Keys == {a, b, c}
      && r.sitemap.edges == {(a, b), (a, c), (b, a)}
  {
    var site := ThreePages(a, b, c);
    assert Closed(site, {a, b, c});
    var r := Waves.CrawlFromBase(site, {a, b, c});
    TwoWaves(a, b, c);
    FetchedTwoWaves(a, b, c);
    ThreePageEdges(a, b, c, r.sitemap);
  }
}
