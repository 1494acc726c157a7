/**
 The crawled site and the sitemap graph.

 The crawl engines see a site through two total functions: the in-domain
 links and the static assets of the page behind each URL. Fetching (an HTTP
 GET that follows redirects, then parsing the body and making its links
 absolute against the base) is abstracted as a function from URL to parsed
 page, and `SiteOf` builds the two functions from it with the extractors.
 The sitemap is the directed graph the crawl builds: one node per fetched
 URL carrying its statics and links, and one edge per recorded link.
 */
module Site {
  import opened Wrappers
  import opened Domain
  import opened Extract

  /** The site as the crawl engines see it: the base URL, and each page's links and statics. */
  datatype Site = Site(base: Url, links: Url -> seq<Url>, statics: Url -> seq<Url>)

  /** The attributes stored on a sitemap node. */
  datatype Page = Page(statics: seq<Url>, links: seq<Url>)

  /** A directed graph: node attributes by URL, and a set of edges. */
  datatype Sitemap = Sitemap(nodes: map<Url, Page>, edges: set<(Url, Url)>)

  const EmptySitemap := Sitemap(map[], {})

  /**
   The site behind a fetch function: each page's links are `getlinks_to`
   of its parsed body against the base, and its statics are `getstatic` of it.
   */
  function SiteOf(fetch: Url -> Document, base: Url): (site: Site)
    ensures site.base == base
  {
    Site(base, u => LinksTo(fetch(u), base), u => Statics(fetch(u)))
  }

  /**
   The page behind `u` in `SiteOf(fetch, base)`: its links are the in-domain
   anchor targets of the fetched body, so every link the crawl follows lies
   in the base's domain, and its statics are the scanned tag attributes.
   */
  lemma SiteOfPage(fetch: Url -> Document, base: Url, u: Url)
    ensures Links(SiteOf(fetch, base), u) == LinksTo(fetch(u), base)
    ensures forall l :: l in Links(SiteOf(fetch, base), u) ==> InDomain(Some(l), Some(base))
    ensures PageOf(SiteOf(fetch, base), u).statics == Statics(fetch(u))
  {
    var links := LinksTo(fetch(u), base);
    forall l | l in links
      ensures InDomain(Some(l), Some(base))
    {
      var k :| 0 <= k < |links| && links[k] == l;
    }
  }

  /** The links of the page behind `u`: the edges leaving `u`. */
  function Links(site: Site, u: Url): seq<Url>
  {
    site.links(u)
  }

  /** The node attributes recorded for `u`: its statics and its links. */
  function PageOf(site: Site, u: Url): Page
  {
    Page(site.statics(u), site.links(u))
  }

  /** `sitemap.add_node(url, statics=..., links=...)`. */
  function AddNode(g: Sitemap, u: Url, p: Page): (r: Sitemap)
    ensures r.nodes.Keys == g.nodes.Keys + {u} && r.nodes[u] == p
    ensures forall v :: v in g.nodes && v != u ==> r.nodes[v] == g.nodes[v]
    ensures r.edges == g.edges
  {
    g.(nodes := g.nodes[u := p])
  }

  /** `sitemap.add_edge(url, link)`: edges have set semantics. */
  function AddEdge(g: Sitemap, u: Url, l: Url): (r: Sitemap)
    ensures r.edges == g.edges + {(u, l)} && r.nodes == g.nodes
  {
    g.(edges := g.edges + {(u, l)})
  }

  /**
   `g` is the sitemap of the URL set `s`: its nodes are exactly `s`, each
   with the page fetched from it, and its edges are exactly the links of
   those pages.
   */
  ghost predicate SitemapOf(site: Site, g: Sitemap, s: set<Url>)
  {
    && g.nodes.Keys == s
    && (forall u :: u in g.nodes ==> g.nodes[u] == PageOf(site, u))
    && (forall e :: e in g.edges <==> e.0 in s && e.1 in Links(site, e.0))
  }

  /** A sitemap is determined by its URL set: the crawl order cannot change it. */
  lemma SitemapOfUnique(site: Site, g1: Sitemap, g2: Sitemap, s: set<Url>)
    requires SitemapOf(site, g1, s) && SitemapOf(site, g2, s)
    ensures g1 == g2
  {
    assert g1.nodes == g2.nodes;
    assert g1.edges == g2.edges;
  }

  /** Every link of every page in `s` is again in `s`. */
  predicate Closed(site: Site, s: set<Url>)
  {
    forall u :: u in s ==> forall l :: l in Links(site, u) ==> l in s
  }

  /** `p` is a non-empty walk that follows links from page to page. */
  ghost predicate IsPath(site: Site, p: seq<Url>)
  {
    |p| > 0 && forall k :: 0 <= k < |p| - 1 ==> p[k + 1] in Links(site, p[k])
  }

  /** `u` can be reached from `root` by following links. */
  ghost predicate Reachable(site: Site, root: Url, u: Url)
  {
    exists p :: IsPath(site, p) && p[0] == root && p[|p| - 1] == u
  }

  lemma ReachableRoot(site: Site, root: Url)
    ensures Reachable(site, root, root)
  {
    assert IsPath(site, [root]);
  }

  /** Following one more link from a reachable page reaches its target. */
  lemma ReachableStep(site: Site, root: Url, u: Url, l: Url)
    requires Reachable(site, root, u) && l in Links(site, u)
    ensures Reachable(site, root, l)
  {
    var p :| IsPath(site, p) && p[0] == root && p[|p| - 1] == u;
    var q := p + [l];
    assert IsPath(site, q);
  }

  /** A walk that starts inside a closed set never leaves it. */
  lemma {:induction false} PathStaysInClosed(site: Site, s: set<Url>, p: seq<Url>)
    requires Closed(site, s) && IsPath(site, p) && p[0] in s
    ensures p[|p| - 1] in s
    decreases |p|
  {
    if |p| > 1 {
      var init := p[..|p| - 1];
      assert IsPath(site, init);
      PathStaysInClosed(site, s, init);
      assert p[|p| - 1] in Links(site, p[|p| - 2]);
    }
  }

  /** A closed set that holds the root holds everything reachable from it. */
  lemma ClosedContainsReachable(site: Site, s: set<Url>, root: Url, u: Url)
    requires Closed(site, s) && root in s && Reachable(site, root, u)
    ensures u in s
  {
    var p :| IsPath(site, p) && p[0] == root && p[|p| - 1] == u;
    PathStaysInClosed(site, s, p);
  }

  /** A subset is no larger than its superset. */
  lemma SubsetCard<T>(a: set<T>, b: set<T>)
    requires a <= b
    ensures |a| <= |b|
  {
    assert b == a + (b - a);
  }

  /** Seeing more URLs never lengthens the list of unseen ones. */
  lemma UnseenShrinks(universe: set<Url>, seen: set<Url>, seen': set<Url>)
    requires seen <= seen'
    ensures |universe - seen'| <= |universe - seen|
  {
    SubsetCard(universe - seen', universe - seen);
  }

  /** Seeing a non-empty batch of new URLs from the universe strictly shortens the unseen ones. */
  lemma UnseenStrictlyShrinks(universe: set<Url>, seen: set<Url>, batch: set<Url>)
    requires batch != {} && batch <= universe && batch !! seen
    ensures |universe - (seen + batch)| < |universe - seen|
  {
    var u :| u in batch;
    assert universe - (seen + batch) <= (universe - seen) - {u};
    SubsetCard(universe - (seen + batch), (universe - seen) - {u});
  }
}
