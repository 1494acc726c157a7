/**
 The recursive depth-first crawl `fetch_website`.

 The Python function threads a mutable graph and a mutable `seen` set
 through its recursion; here they are an immutable state passed in and
 returned. The `for link in links` loop over a page's links is the
 companion function `FetchLinks`, which walks the links by index.
 Termination rests on a finite universe of URLs that is closed under
 links: every call adds a URL of the universe to `seen`, and nothing ever
 leaves `seen`.
 */
module DepthFirst {
  import opened Extract
  import opened Site

  /** The crawl's state: the sitemap so far, the seen set, and the fetched URLs in fetch order. */
  datatype State = State(sitemap: Sitemap, seen: set<Url>, fetched: seq<Url>)

  const Start := State(EmptySitemap, {}, [])

  /** No URL occurs twice. */
  predicate NoDuplicates(s: seq<Url>)
  {
    forall i, j :: 0 <= i < j < |s| ==> s[i] != s[j]
  }

  /** A list without duplicates has as many entries as distinct URLs. */
  lemma {:induction false} DistinctCount(s: seq<Url>)
    requires NoDuplicates(s)
    ensures |set u | u in s| == |s|
  {
    if s != [] {
      var init, x := s[..|s| - 1], s[|s| - 1];
      assert s == init + [x];
      assert NoDuplicates(init);
      DistinctCount(init);
      assert (set u | u in s) == (set u | u in init) + {x};
      assert x !in (set u | u in init);
    }
  }

  /**
   What holds between any two steps of the crawl: `seen` is the set of
   fetched URLs, none fetched twice; every seen URL is a node carrying its
   page; every edge is a link of a seen page; and every seen URL is
   reachable from the base.
   */
  ghost predicate Inv(site: Site, st: State)
  {
    && (forall u :: u in st.seen <==> u in st.fetched)
    && NoDuplicates(st.fetched)
    && st.sitemap.nodes.Keys == st.seen
    && (forall u :: u in st.sitemap.nodes ==> st.sitemap.nodes[u] == PageOf(site, u))
    && (forall e :: e in st.sitemap.edges ==> e.0 in st.seen && e.1 in Links(site, e.0))
    && (forall u :: u in st.seen ==> Reachable(site, site.base, u))
  }

  /** Every link of `u` has been seen and recorded as an edge. */
  ghost predicate Done(site: Site, st: State, u: Url)
  {
    forall l :: l in Links(site, u) ==> l in st.seen && (u, l) in st.sitemap.edges
  }

  /** `seen` and the edges only grow. */
  predicate Grows(st: State, r: State)
  {
    st.seen <= r.seen && st.sitemap.edges <= r.sitemap.edges
  }

  /** `seen.add(url)` and `sitemap.add_node(url, ...)`: the first half of `fetch_website`. */
  function Visit(site: Site, st: State, url: Url): (r: State)
    requires url !in st.seen
    ensures r.seen == st.seen + {url} && r.sitemap.edges == st.sitemap.edges
    ensures r.sitemap.nodes == st.sitemap.nodes[url := PageOf(site, url)]
    ensures r.fetched == st.fetched + [url]
  {
    State(AddNode(st.sitemap, url, PageOf(site, url)), st.seen + {url}, st.fetched + [url])
  }

  /** `sitemap.add_edge(url, link)`. */
  function Record(st: State, url: Url, link: Url): (r: State)
    ensures r.seen == st.seen && r.sitemap.edges == st.sitemap.edges + {(url, link)}
    ensures r.sitemap.nodes == st.sitemap.nodes && r.fetched == st.fetched
  {
    st.(sitemap := AddEdge(st.sitemap, url, link))
  }

  /** Visiting an unseen, reachable URL keeps the invariant. */
  lemma VisitKeepsInv(site: Site, st: State, url: Url)
    requires Inv(site, st) && url !in st.seen && Reachable(site, site.base, url)
    ensures Inv(site, Visit(site, st, url))
  {
    var r := Visit(site, st, url);
    forall i, j | 0 <= i < j < |r.fetched|
      ensures r.fetched[i] != r.fetched[j]
    {
      if j == |st.fetched| {
        assert r.fetched[i] in st.fetched;
      }
    }
  }

  /** Recording an edge to a link of a seen page keeps the invariant. */
  lemma RecordKeepsInv(site: Site, st: State, url: Url, link: Url)
    requires Inv(site, st) && url in st.seen && link in Links(site, url)
    ensures Inv(site, Record(st, url, link))
  {
  }

  /**
   `fetch_website(sitemap, seen, base, url)`: fetch `url`, mark it seen,
   record its node, then walk its links. On return `url` and every URL this
   call newly saw have all their links seen and recorded as edges.
   */
  function FetchWebsite(site: Site, universe: set<Url>, st: State, url: Url): (r: State)
    requires Closed(site, universe) && st.seen <= universe
    requires url in universe && url !in st.seen && Reachable(site, site.base, url)
    requires Inv(site, st)
    ensures Inv(site, r) && Grows(st, r) && r.seen <= universe
    ensures url in r.seen && Done(site, r, url)
    ensures forall u :: u in r.seen && u !in st.seen ==> Done(site, r, u)
    decreases |universe - st.seen|, 0, 0
  {
    var st1 := Visit(site, st, url);
    StartVisit(site, universe, st, url);
    var r := FetchLinks(site, universe, st1, url, 0);
    FinishVisit(site, st, st1, r, url);
    r
  }

  /** After `seen.add(url)` the invariant holds and fewer URLs of the universe are unseen. */
  lemma StartVisit(site: Site, universe: set<Url>, st: State, url: Url)
    ensures st.seen <= universe && url in universe && url !in st.seen &&
            Inv(site, st) && Reachable(site, site.base, url) ==>
              && Inv(site, Visit(site, st, url)) && Visit(site, st, url).seen <= universe
              && |universe - Visit(site, st, url).seen| < |universe - st.seen|
  {
    if st.seen <= universe && url in universe && url !in st.seen &&
       Inv(site, st) && Reachable(site, site.base, url) {
      VisitKeepsInv(site, st, url);
      UnseenStrictlyShrinks(universe, st.seen, {url});
    }
  }

  /**
   The URLs newly seen by `fetch_website(url)` are `url`, whose links the
   loop walked, and those newly seen by the loop: all of them are done.
   */
  lemma FinishVisit(site: Site, st: State, st1: State, r: State, url: Url)
    requires st1.seen == st.seen + {url} && st1.sitemap.edges == st.sitemap.edges
    ensures Grows(st1, r) &&
            (forall j :: 0 <= j < |Links(site, url)| ==>
               Links(site, url)[j] in r.seen && (url, Links(site, url)[j]) in r.sitemap.edges) &&
            (forall u :: u in r.seen && u !in st1.seen ==> Done(site, r, u))
            ==>
            && Grows(st, r) && url in r.seen && Done(site, r, url)
            && (forall u :: u in r.seen && u !in st.seen ==> Done(site, r, u))
  {
    if forall j :: 0 <= j < |Links(site, url)| ==>
         Links(site, url)[j] in r.seen && (url, Links(site, url)[j]) in r.sitemap.edges
    {
      AllLinksDone(site, r, url);
    }
  }

  /** A page all of whose links were walked is done. */
  lemma AllLinksDone(site: Site, r: State, url: Url)
    requires forall j :: 0 <= j < |Links(site, url)| ==>
      Links(site, url)[j] in r.seen && (url, Links(site, url)[j]) in r.sitemap.edges
    ensures Done(site, r, url)
  {
    forall l | l in Links(site, url)
      ensures l in r.seen && (url, l) in r.sitemap.edges
    {
      var j :| 0 <= j < |Links(site, url)| && Links(site, url)[j] == l;
    }
  }

  /**
   The loop `for link in links[i:]` of `fetch_website(url)`: add the edge
   `url -> link`, and crawl `link` if it has not been seen yet.
   */
  function FetchLinks(site: Site, universe: set<Url>, st: State, url: Url, i: nat): (r: State)
    requires Closed(site, universe) && st.seen <= universe
    requires url in st.seen && i <= |Links(site, url)|
    requires Inv(site, st)
    ensures Inv(site, r) && Grows(st, r) && r.seen <= universe
    ensures forall j :: i <= j < |Links(site, url)| ==>
      Links(site, url)[j] in r.seen && (url, Links(site, url)[j]) in r.sitemap.edges
    ensures forall u :: u in r.seen && u !in st.seen ==> Done(site, r, u)
    decreases |universe - st.seen|, 1, |Links(site, url)| - i
  {
    var links := Links(site, url);
    if i == |links| then st
    else
      var link := links[i];
      var st1 := Record(st, url, link);
      RecordKeepsInv(site, st, url, link);
      var st2 := if link !in st1.seen then
          ReachableStep(site, site.base, url, link);
          FetchWebsite(site, universe, st1, link)
        else st1;
      UnseenShrinks(universe, st.seen, st2.seen);
      var r := FetchLinks(site, universe, st2, url, i + 1);
      DoneGrows(site, st2, r);
      r
  }

  /** Once done, a URL stays done as the state grows. */
  lemma DoneGrows(site: Site, st: State, r: State)
    requires Grows(st, r)
    ensures forall u :: Done(site, st, u) ==> Done(site, r, u)
  {
  }

  /**
   The call in `main`: start from an empty graph and an empty `seen` set
   and crawl the base URL. The result holds exactly the URLs reachable from
   the base, is closed under links, fetched each URL once, and is the
   sitemap of the reachable set.
   */
  function CrawlFromBase(site: Site, universe: set<Url>): (r: State)
    requires Closed(site, universe) && site.base in universe
    ensures forall u :: u in r.seen <==> Reachable(site, site.base, u)
    ensures Closed(site, r.seen)
    ensures NoDuplicates(r.fetched) && forall u :: u in r.seen <==> u in r.fetched
    ensures SitemapOf(site, r.sitemap, r.seen)
  {
    ReachableRoot(site, site.base);
    var r := FetchWebsite(site, universe, Start, site.base);
    forall u | Reachable(site, site.base, u)
      ensures u in r.seen
    {
      ClosedContainsReachable(site, r.seen, site.base, u);
    }
    r
  }

  /** The crawl fetches each page it sees exactly once: as many fetches as URLs seen. */
  lemma OneFetchPerPage(site: Site, universe: set<Url>)
    requires Closed(site, universe) && site.base in universe
    ensures |CrawlFromBase(site, universe).fetched| == |CrawlFromBase(site, universe).seen|
  {
    var r := CrawlFromBase(site, universe);
    DistinctCount(r.fetched);
    assert (set u | u in r.fetched) == r.seen;
  }
}
