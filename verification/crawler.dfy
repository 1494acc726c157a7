/**
 The entry points of gcfetch: `main` protocolises the domain argument and
 crawls from it. The package's `main` uses the depth-first crawl; the
 script's `main` uses the wave crawl. Both produce the same sitemap.
 */
module Crawler {
  import opened Extract
  import opened Site
  import opened Protocol
  import DepthFirst
  import Waves

  /** The site `main` crawls: the domain argument protocolised, over the fetched pages. */
  function SiteFor(fetch: Url -> Document, domain: string, hasScheme: string -> bool): (site: Site)
    ensures site.base == Protocolise(domain, hasScheme)
    ensures hasScheme(site.base) || Search(site.base)
  {
    SiteOf(fetch, Protocolise(domain, hasScheme))
  }

  /**
   The package's `main`: crawl depth first from the protocolised domain
   with an empty `seen` set. The crawl sees exactly the reachable URLs,
   fetches each once, and returns their sitemap.
   */
  function MainDepthFirst(fetch: Url -> Document, domain: string, hasScheme: string -> bool,
                          universe: set<Url>): (r: DepthFirst.State)
    requires Closed(SiteFor(fetch, domain, hasScheme), universe)
    requires Protocolise(domain, hasScheme) in universe
    ensures var site := SiteFor(fetch, domain, hasScheme);
      && (forall u :: u in r.seen <==> Reachable(site, site.base, u))
      && DepthFirst.NoDuplicates(r.fetched)
      && (forall u :: u in r.seen <==> u in r.fetched)
      && SitemapOf(site, r.sitemap, r.seen)
  {
    DepthFirst.CrawlFromBase(SiteFor(fetch, domain, hasScheme), universe)
  }

  /**
   The script's `main`: crawl in waves from the protocolised domain, with
   `seen` and the first wave both holding just the base. The crawl sees
   exactly the reachable URLs, each fetched by exactly one wave, and
   returns their sitemap.
   */
  function MainWaves(fetch: Url -> Document, domain: string, hasScheme: string -> bool,
                     universe: set<Url>): (r: Waves.Crawl)
    requires Closed(SiteFor(fetch, domain, hasScheme), universe)
    requires Protocolise(domain, hasScheme) in universe
    ensures var site := SiteFor(fetch, domain, hasScheme);
      && (forall u :: u in r.seen <==> Reachable(site, site.base, u))
      && r.seen == Waves.Fetched(r.waves) && Waves.PairwiseDisjoint(r.waves)
      && SitemapOf(site, r.sitemap, r.seen)
  {
    Waves.CrawlFromBase(SiteFor(fetch, domain, hasScheme), universe)
  }

  /** The depth-first and the wave crawl see the same URLs and build the same sitemap. */
  lemma EnginesAgree(site: Site, universe: set<Url>)
    requires Closed(site, universe) && site.base in universe
    ensures DepthFirst.CrawlFromBase(site, universe).seen == Waves.CrawlFromBase(site, universe).seen
    ensures DepthFirst.CrawlFromBase(site, universe).sitemap == Waves.CrawlFromBase(site, universe).sitemap
  {
    var d := DepthFirst.CrawlFromBase(site, universe);
    var w := Waves.CrawlFromBase(site, universe);
    assert d.seen == w.seen;
    SitemapOfUnique(site, d.sitemap, w.sitemap, d.seen);
  }
}
