# gcfetch in Dafny

A model of gcfetch, a small sitemap crawler. Given a domain, gcfetch crawls
every page reachable from it. For each page it records the static assets
(scripts, stylesheets, images) and the in-domain links. The result is a
directed graph with one node per page and one edge per recorded link.

The model covers four parts.

- **URL helpers** (`Protocol`, `Domain`). The permissive pattern
  `PROTORE = https?:{0,1}/{1,2}` is a deterministic matcher. `protocolise`,
  `deprotocolise` and the literal-prefix domain test `indomain` are built on it.
- **Page extraction** (`Extract`). `getstatic` and `getlinks_to` work over a
  parsed page, represented as its elements in document order. Each element
  has a tag and an attribute map. Both are written as loops, like the
  source, and proved equal to functional definitions.
- **Crawl engines** (`Site`, `DepthFirst`, `Waves`). The site is a total
  function giving each URL's links and statics. The recursive `fetch_website`
  is modelled together with its inner loop over links. The wave-based
  `fetch_website_gevent` is modelled as one join step per wave. Both take a
  finite universe of URLs that is closed under links, and terminate on the
  measure `|universe - seen|`. For both engines the model proves four things:
  - no URL is fetched twice;
  - on return, `seen` is closed under links;
  - `seen` is exactly the set reachable from the base;
  - the graph is exactly the sitemap of `seen`.
- **Entry points** (`Crawler`, `Scenario`). `main` protocolises its domain
  argument and runs one engine. The package runs the depth-first crawl and
  the script runs the wave crawl. The two engines build the same sitemap.
  A three-page example is crawled in exactly two waves.

Two behaviours of the code that the model follows exactly:

- `PROTORE.sub` removes every match anywhere in the string, not only a
  leading scheme. `Protocol.Deprotocolise` does the same.
- networkx `add_node` updates the attributes of an existing node. The
  model's `AddNode` updates too, and the model proves that no node is ever
  added twice.

The helpers `protocolise`, `deprotocolise`, `indomain`, `getstatic`,
`getlinks_to` and `fetch_website` are identical in code in `gcfetch.py`
and `gcfetch/__init__.py` (only their docstrings differ). The table cites `gcfetch.py` for the helpers. It
cites `gcfetch/__init__.py` for the depth-first crawl, because that is the
file whose `main` calls it.

## Model

| member | source | states |
|---|---|---|
| Protocol.MatchLen | gcfetch.py:32 | A match of the pattern at the start of a string is 5 to 8 characters long, fits inside the string and begins with `h` |
| Protocol.MatchLenIsLongestWord | gcfetch.py:32 | The matcher returns the longest prefix that is one of the pattern's eight words, and nothing when no prefix is a word |
| Protocol.Search | gcfetch.py:42 | `PROTORE.search(url)`: a hit needs at least five characters, one of them an `h` |
| Protocol.SearchIffMatchSomewhere | gcfetch.py:42 | `PROTORE.search` succeeds exactly when the pattern matches at some position, not only at the start |
| Protocol.NoLetterHNoMatch | gcfetch.py:32 | A string without the letter `h` never matches the pattern |
| Protocol.Deprotocolise | gcfetch.py:56 | The substitution never makes the string longer |
| Protocol.DeprotocoliseFixedIffNoMatch | gcfetch.py:56 | `deprotocolise` returns its input unchanged exactly when the pattern matches nowhere in it; otherwise the result is strictly shorter |
| Protocol.StripsLeadingScheme | gcfetch.py:56 | A leading `http://` or `https://` is removed and the rest is returned when the rest has no match |
| Protocol.StripsSchemeFromBareDomain | gcfetch.py:56 | Both schemes are removed from a bare domain that has no letter `h` |
| Protocol.DeprotocoliseExamples | gcfetch.py:56 | `http://example.com` and `https://example.com` both become `example.com` |
| Protocol.DeprotocoliseNotIdempotent | gcfetch.py:56 | Deleting one match can create another: `hthttp://tp://` becomes `http://`, and applying the function again gives the empty string |
| Protocol.Protocolise | gcfetch.py:41-44 | The result is the input or `http://` + input. `http://` is prepended exactly when the input has no scheme and no match. The result always has a scheme or a match |
| Protocol.ProtocoliseIdempotent | gcfetch.py:41-44 | Applying `protocolise` twice gives the same result as applying it once |
| Protocol.DeprotocoliseUndoesProtocolise | gcfetch.py:262-270 | The output name `deprotocolise(protocolise(d))` is the domain argument `d` itself whenever `d` has no pattern match, whether or not it has a scheme |
| Protocol.ProtocoliseExamples | gcfetch.py:41-44 | `example.com` becomes `http://example.com`; `https://example.com` is left unchanged |
| Domain.StartsWithIsPrefix | gcfetch.py:71 | Python's `startswith` holds exactly when the prefix is an initial segment of the string |
| Domain.InDomain | gcfetch.py:70-72 | True exactly when URL and domain are both present, the domain is non-empty and the URL begins with it |
| Domain.NothingIsInAnEmptyDomain | gcfetch.py:70-72 | A `None` or empty URL or domain is never in the domain |
| Domain.SiblingHostIsInDomain | gcfetch.py:70-72 | Under the literal-prefix policy `http://example.com2` is inside `http://example.com` |
| Domain.OtherHostIsNotInDomain | gcfetch.py:70-72 | `http://other.com/page` is not inside `http://example.com` |
| Extract.Get | gcfetch.py:92 | `elem.get(attr, None)` (and `link.get('href')` at line 111) is present exactly when the element carries the attribute, and is then its value |
| Extract.Select | gcfetch.py:91 | CSS selection by tag keeps exactly the elements with that tag and is never longer than the document |
| Extract.SelectAppend | gcfetch.py:91 | Selection distributes over concatenation of documents, so document order is kept |
| Extract.ValuesMembers | gcfetch.py:90-94 | The collected values are exactly the present, non-empty attribute values of the elements |
| Extract.ValuesAppend | gcfetch.py:90-94 | Value collection distributes over concatenation, so order and duplicates are kept |
| Extract.InGroup | gcfetch.py:90-94 | A value is in a tag's group exactly when some element with that tag carries it, non-empty, in that attribute |
| Extract.StaticsAreScannedAttributes | gcfetch.py:84-95 | A string is a static asset exactly when it is the non-empty `src` of a script, `href` of a link or `src` of an image |
| Extract.StaticsNonEmpty | gcfetch.py:93-94 | No static asset is the empty string |
| Extract.GroupsOfStaticTags | gcfetch.py:85-90 | Scanning the three (tag, attribute) pairs in turn gives the script values, then the link values, then the image values |
| Extract.CollectValues | gcfetch.py:91-94 | The inner loop collects exactly the non-empty attribute values of the selected elements, in order |
| Extract.GetStatic | gcfetch.py:84-95 | `getstatic` returns the script sources, then the link targets, then the image sources, each in document order, none empty |
| Extract.Hrefs | gcfetch.py:109-116 | Every kept link starts with the domain, and the domain is non-empty |
| Extract.HrefsMembers | gcfetch.py:109-116 | A link is kept exactly when some anchor has it as `href` and it passes the domain test |
| Extract.HrefsAppend | gcfetch.py:109-116 | The domain filter distributes over concatenation, so order and duplicates are kept |
| Extract.LinksToAppend | gcfetch.py:109-116 | The links of a page split anywhere are the first part's links followed by the second part's |
| Extract.GetLinksTo | gcfetch.py:109-116 | `getlinks_to` returns the in-domain anchor targets in document order, each starting with the domain |
| Site.SiteOfPage | gcfetch.py:173-176 | A page's links are `getlinks_to` of its parsed body against the base, so each one is in the base's domain, and its statics are `getstatic` of it |
| Site.AddNode | gcfetch.py:177 | `add_node(url, ...)` makes `url` a node carrying the page (updating an existing one), keeps every other node's attributes, and leaves the edges alone |
| Site.AddEdge | gcfetch.py:179 | `add_edge(url, link)` adds exactly that edge with set semantics and leaves the nodes alone: the attribute-less target node networkx creates is not kept in `nodes` |
| Site.SitemapOfUnique | gcfetch.py:177-179 | The nodes, attributes and edges of a sitemap are determined by its URL set |
| Site.ClosedContainsReachable | gcfetch.py:201-205 | A URL set that contains the base and is closed under links contains every URL reachable from the base |
| Site.UnseenStrictlyShrinks | gcfetch.py:202-205 | Adding a non-empty batch of new URLs from the universe to `seen` strictly shrinks the unseen part of the universe |
| DepthFirst.Visit | gcfetch/__init__.py:139-144 | `url` joins `seen` and the fetch order, its node is written with its page, no other node changes, and no edge changes |
| DepthFirst.VisitKeepsInv | gcfetch/__init__.py:139-144 | Visiting an unseen URL keeps the crawl invariant: no URL fetched twice, nodes carry their pages, edges are links of seen pages, all seen URLs reachable |
| DepthFirst.Record | gcfetch/__init__.py:147 | `add_edge(url, link)` adds exactly that edge, and leaves `seen`, the nodes and the fetch order unchanged |
| DepthFirst.RecordKeepsInv | gcfetch/__init__.py:146-147 | Adding the edge to a link of a seen page keeps the crawl invariant |
| DepthFirst.FetchWebsite | gcfetch/__init__.py:117-152 | The recursion terminates. The invariant is kept and `seen` only grows. On return `url` and every newly seen URL have all their links seen and recorded as edges |
| DepthFirst.FetchLinks | gcfetch/__init__.py:146-150 | The link loop terminates and keeps the invariant. Every link from position i on ends up seen and recorded as an edge |
| DepthFirst.CrawlFromBase | gcfetch/__init__.py:190-192 | Starting from an empty `seen`, `seen` ends up exactly the reachable set and closed under links. Each URL is fetched once and the graph is the sitemap of `seen` |
| DepthFirst.OneFetchPerPage | gcfetch/__init__.py:134-150 | The depth-first crawl makes exactly as many fetches as it sees URLs: no page is fetched twice |
| Waves.FetchUrl | gcfetch.py:173-180 | The worker returns the page's links and records its node. It adds an edge `url->l` for every returned link and changes nothing else |
| Waves.FetchWave | gcfetch.py:199-201 | The joined wave adds one node per wave URL with its page, plus the edges of the wave's pages, and returns the union of their links |
| Waves.JoinIsOrderIndependent | gcfetch.py:199-201 | Running the workers one by one, in any order, gives the same graph and link set as the joined wave |
| Waves.InitialInv | gcfetch.py:268 | `seen = set([base])` with the first wave `[base]` satisfies the wave invariant |
| Waves.WaveKeepsInv | gcfetch.py:201-205 | After a wave, the unseen links form a next wave that is disjoint from every earlier wave, and the wave invariant holds again |
| Waves.FetchWebsiteWaves | gcfetch.py:182-206 | The recursion terminates and `seen` only grows. On return `seen` is closed under links and is the union of pairwise-disjoint waves, and the graph is its sitemap |
| Waves.FetchCountIsFetched | gcfetch.py:199-205 | Pairwise-disjoint waves make exactly as many fetches as the URLs they fetch: no page is fetched twice |
| Waves.CrawlFromBase | gcfetch.py:264-268 | From `set([base])` and `[base]`, `seen` is exactly the reachable set, fetched by pairwise-disjoint waves, and the graph is its sitemap |
| Crawler.SiteFor | gcfetch.py:262 | The crawl base is the protocolised domain argument, which has a scheme or a pattern match |
| Crawler.MainDepthFirst | gcfetch/__init__.py:186-192 | The package's `main` sees exactly the URLs reachable from the protocolised domain and fetches each once; the graph is their sitemap |
| Crawler.MainWaves | gcfetch.py:259-268 | The script's `main` sees exactly the reachable URLs, each fetched by exactly one wave; the graph is their sitemap |
| Crawler.EnginesAgree | gcfetch.py:267-268 | The depth-first crawl and the wave crawl see the same URLs and build the same sitemap |
| Scenario.TwoWaves | gcfetch.py:199-206 | With a->{b,c}, b->{a}, c->{} the wave crawl from a fetches exactly the waves {a} and {b,c} |
| Scenario.ThreePageSitemap | gcfetch.py:199-206 | That crawl sees the three pages and records exactly the edges a->b, a->c and b->a |

## Left out

- HTTP fetching is not modelled: `requests.get`, redirects and the response body. The site is a total function from URL to parsed page, because the transport is a library outside the core.
- HTML parsing is not modelled: `document_fromstring`, `make_links_absolute` and CSS selection. A page is its element sequence with absolute URLs, and selection filters by exact tag name, because the parser is a library outside the core.
- Scheme detection by `urlparse` is not modelled. It is the parameter `hasScheme`, because that library is outside the core. The examples assume only that a string without a colon has no scheme.
- `urlparse`'s exception path is not modelled: `urlsplit` raises `ValueError` on an unbalanced `[` or `]` in the network location, which makes `protocolise` raise. `hasScheme` is total, so the model's `Protocolise` always returns.
- gevent is not modelled: `spawn`, `joinall` and `monkey.patch_all`. Workers of a wave write only the graph, and `seen` is read and written only after the join, so a wave is one order-independent step.
- Rendering is not modelled: `output`, networkx drawing, figure sizing and the PNG file name. It is presentation only.
- The command line and diagnostics are not modelled: argparse, `print`, the `DONE` message, `time` and `bench_report`. `setup.py` is packaging only.
- Failed and unbounded fetches are not modelled. The code has no per-page error recovery. A failed fetch or parse aborts `fetch_website` with a partial sitemap. In the wave engine, `greenlet.get()` re-raises a worker's exception after the join. `requests.get` has no timeout, so a fetch can block forever. The model's fetch is total and always returns, so every theorem, termination included, holds only for runs in which every fetch and every parse returns. The abort that leaves a partial graph and the unbounded wait are not modelled.
- The graph library creates an attribute-less node when `add_edge` names a target it has not seen. The model keeps only fetched pages in the node map. On return every edge target is a fetched page, so the two node sets agree.
- Crawl termination is proved relative to a finite universe of URLs that contains the base and is closed under links. That universe is a precondition of the engines.
- Python's recursion limit is not modelled. A very deep depth-first crawl would hit it in the source, and so would a wave crawl with very many waves, because `fetch_website_gevent` recurses once per wave.
