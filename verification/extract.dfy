/**
 Page extraction of gcfetch: `getstatic` and `getlinks_to`.

 The parsed page is abstracted as the sequence of its elements in document
 order, each with a tag name and an attribute map; links are taken to be
 absolute already. CSS selection by tag name keeps the elements with that
 tag, in document order.
 */
module Extract {
  import opened Wrappers
  import opened Domain

  type Url = string

  /** One element of a parsed page: its tag name and its attributes. */
  datatype Element = Element(tag: string, attrs: map<string, string>)

  /** A parsed page: its elements in document order. */
  type Document = seq<Element>

  /** The (tag, attribute) pairs `getstatic` scans, in the order it scans them. */
  const StaticTags: seq<(string, string)> := [("script", "src"), ("link", "href"), ("img", "src")]

  /** `elem.get(attr)`: the attribute's value, or `None` when it is absent. */
  function Get(e: Element, attr: string): (r: Option<string>)
    ensures r.Some? <==> attr in e.attrs
    ensures r.Some? ==> r.value == e.attrs[attr]
  {
    if attr in e.attrs then Some(e.attrs[attr]) else None
  }

  /** `markup.cssselect(tag)`: the elements with that tag, in document order. */
  function Select(doc: Document, tag: string): (r: Document)
    ensures forall e :: e in r <==> e in doc && e.tag == tag
    ensures |r| <= |doc|
  {
    if doc == [] then []
    else
      var last := doc[|doc| - 1];
      Select(doc[..|doc| - 1], tag) + (if last.tag == tag then [last] else [])
  }

  /**
   The non-empty values of `attr` on `elems`, in order; elements where the
   attribute is absent or empty contribute nothing.
   */
  function Values(elems: seq<Element>, attr: string): (r: seq<Url>)
    ensures |r| <= |elems|
  {
    if elems == [] then []
    else
      var target := Get(elems[|elems| - 1], attr);
      Values(elems[..|elems| - 1], attr) + (if target.Some? && target.value != [] then [target.value] else [])
  }

  /** The values collected are exactly the non-empty values the elements carry. */
  lemma {:induction false} ValuesMembers(elems: seq<Element>, attr: string, x: Url)
    ensures x in Values(elems, attr) <==>
      exists k :: 0 <= k < |elems| && Get(elems[k], attr) == Some(x) && x != []
  {
    if elems != [] {
      var init := elems[..|elems| - 1];
      ValuesMembers(init, attr, x);
      assert forall k :: 0 <= k < |init| ==> init[k] == elems[k];
    }
  }

  /** What `getstatic` promises: script sources, then link targets, then image sources. */
  function Statics(doc: Document): seq<Url>
  {
    Values(Select(doc, "script"), "src")
      + Values(Select(doc, "link"), "href")
      + Values(Select(doc, "img"), "src")
  }

  /** The hrefs of `anchors` that pass the domain test, in order, duplicates kept. */
  function Hrefs(anchors: seq<Element>, domain: Url): (r: seq<Url>)
    ensures |r| <= |anchors|
    ensures forall k :: 0 <= k < |r| ==>
      domain != [] && |domain| <= |r[k]| && r[k][..|domain|] == domain
  {
    if anchors == [] then []
    else
      var target := Get(anchors[|anchors| - 1], "href");
      Hrefs(anchors[..|anchors| - 1], domain) + (if InDomain(target, Some(domain)) then [target.value] else [])
  }

  /** The links kept are exactly the anchor targets that pass the domain test. */
  lemma {:induction false} HrefsMembers(anchors: seq<Element>, domain: Url, x: Url)
    ensures x in Hrefs(anchors, domain) <==>
      exists k :: 0 <= k < |anchors| && Get(anchors[k], "href") == Some(x)
                  && InDomain(Some(x), Some(domain))
  {
    if anchors != [] {
      var init := anchors[..|anchors| - 1];
      HrefsMembers(init, domain, x);
      assert forall k :: 0 <= k < |init| ==> init[k] == anchors[k];
    }
  }

  /** What `getlinks_to` promises: the in-domain anchor targets of the page. */
  function LinksTo(doc: Document, domain: Url): seq<Url>
  {
    Hrefs(Select(doc, "a"), domain)
  }

  /** Selection distributes over concatenation of documents, so it keeps document order. */
  lemma {:induction false} SelectAppend(d1: Document, d2: Document, tag: string)
    ensures Select(d1 + d2, tag) == Select(d1, tag) + Select(d2, tag)
    decreases |d2|
  {
    if d2 != [] {
      var d2' := d2[..|d2| - 1];
      assert (d1 + d2)[..|d1 + d2| - 1] == d1 + d2';
      SelectAppend(d1, d2', tag);
    } else {
      assert d1 + d2 == d1;
    }
  }

  /** Value collection distributes over concatenation, so it keeps order and duplicates. */
  lemma {:induction false} ValuesAppend(e1: seq<Element>, e2: seq<Element>, attr: string)
    ensures Values(e1 + e2, attr) == Values(e1, attr) + Values(e2, attr)
    decreases |e2|
  {
    if e2 != [] {
      var e2' := e2[..|e2| - 1];
      assert (e1 + e2)[..|e1 + e2| - 1] == e1 + e2';
      ValuesAppend(e1, e2', attr);
    } else {
      assert e1 + e2 == e1;
    }
  }

  /** The domain filter distributes over concatenation, so it keeps order and duplicates. */
  lemma {:induction false} HrefsAppend(a1: seq<Element>, a2: seq<Element>, domain: Url)
    ensures Hrefs(a1 + a2, domain) == Hrefs(a1, domain) + Hrefs(a2, domain)
    decreases |a2|
  {
    if a2 != [] {
      var a2' := a2[..|a2| - 1];
      assert (a1 + a2)[..|a1 + a2| - 1] == a1 + a2';
      HrefsAppend(a1, a2', domain);
    } else {
      assert a1 + a2 == a1;
    }
  }

  /**
   The links of a page split at any point are the links of the first part
   followed by the links of the second: document order and repeated links
   are kept.
   */
  lemma LinksToAppend(d1: Document, d2: Document, domain: Url)
    ensures LinksTo(d1 + d2, domain) == LinksTo(d1, domain) + LinksTo(d2, domain)
  {
    SelectAppend(d1, d2, "a");
    HrefsAppend(Select(d1, "a"), Select(d2, "a"), domain);
  }

  /** The values a selected group contributes are exactly those of the matching elements. */
  lemma InGroup(doc: Document, tag: string, attr: string, x: Url)
    ensures x in Values(Select(doc, tag), attr) <==>
      exists e :: e in doc && e.tag == tag && Get(e, attr) == Some(x) && x != []
  {
    var sel := Select(doc, tag);
    ValuesMembers(sel, attr, x);
    if exists e :: e in doc && e.tag == tag && Get(e, attr) == Some(x) && x != [] {
      var e :| e in doc && e.tag == tag && Get(e, attr) == Some(x) && x != [];
      var k :| 0 <= k < |sel| && sel[k] == e;
    }
  }

  /** An element and a value it contributes to the static assets. */
  predicate IsStatic(e: Element, x: Url)
  {
    x != [] &&
    ((e.tag == "script" && Get(e, "src") == Some(x)) ||
     (e.tag == "link" && Get(e, "href") == Some(x)) ||
     (e.tag == "img" && Get(e, "src") == Some(x)))
  }

  /** Every static asset is the non-empty value of a scanned attribute of a scanned tag, and vice versa. */
  lemma StaticsAreScannedAttributes(doc: Document, x: Url)
    ensures x in Statics(doc) <==> exists e :: e in doc && IsStatic(e, x)
  {
    InGroup(doc, "script", "src", x);
    InGroup(doc, "link", "href", x);
    InGroup(doc, "img", "src", x);
  }

  /** The values of each (tag, attribute) pair in `tags`, group after group. */
  function Groups(doc: Document, tags: seq<(string, string)>): seq<Url>
  {
    if tags == [] then []
    else
      var last := tags[|tags| - 1];
      Groups(doc, tags[..|tags| - 1]) + Values(Select(doc, last.0), last.1)
  }

  /** Walking the scanned pairs group by group yields the promised concatenation. */
  lemma GroupsOfStaticTags(doc: Document)
    ensures Groups(doc, StaticTags) == Statics(doc)
  {
    var t1, t2 := StaticTags[..1], StaticTags[..2];
    assert t1[..0] == [] && t2[..1] == t1 && StaticTags[..2] == t2;
    assert Groups(doc, t1) == Values(Select(doc, "script"), "src");
    assert Groups(doc, t2) == Groups(doc, t1) + Values(Select(doc, "link"), "href");
  }

  /**
   `getstatic(markup)`: for each scanned (tag, attribute) pair in turn, walk
   the selected elements and keep the attribute's value when it is present
   and non-empty.
   */
  method GetStatic(doc: Document) returns (statics: seq<Url>)
    ensures statics == Statics(doc)
    ensures forall k :: 0 <= k < |statics| ==> statics[k] != []
  {
    statics := [];
    var t := 0;
    while t < |StaticTags|
      invariant 0 <= t <= |StaticTags|
      invariant statics == Groups(doc, StaticTags[..t])
    {
      var found := CollectValues(Select(doc, StaticTags[t].0), StaticTags[t].1);
      assert StaticTags[..t + 1][..t] == StaticTags[..t];
      statics := statics + found;
      t := t + 1;
    }
    assert StaticTags[..t] == StaticTags;
    GroupsOfStaticTags(doc);
    forall k | 0 <= k < |statics|
      ensures statics[k] != []
    {
      StaticsNonEmpty(doc, statics[k]);
    }
  }

  /** The inner loop of `getstatic`: keep each present, non-empty attribute value. */
  method CollectValues(elems: seq<Element>, attr: string) returns (found: seq<Url>)
    ensures found == Values(elems, attr)
  {
    found := [];
    var j := 0;
    while j < |elems|
      invariant 0 <= j <= |elems|
      invariant found == Values(elems[..j], attr)
    {
      var target := Get(elems[j], attr);
      assert elems[..j + 1][..j] == elems[..j];
      if target.Some? && target.value != [] {
        found := found + [target.value];
      }
      j := j + 1;
    }
    assert elems[..j] == elems;
  }

  /** No static asset is the empty string. */
  lemma StaticsNonEmpty(doc: Document, x: Url)
    requires x in Statics(doc)
    ensures x != []
  {
    StaticsAreScannedAttributes(doc, x);
  }

  /**
   `getlinks_to(markup, domain)`: walk the anchors and keep each `href`
   that passes the domain test.
   */
  method GetLinksTo(doc: Document, domain: Url) returns (links: seq<Url>)
    ensures links == LinksTo(doc, domain)
    ensures forall k :: 0 <= k < |links| ==> domain != [] && |domain| <= |links[k]| && links[k][..|domain|] == domain
  {
    links := [];
    var anchors := Select(doc, "a");
    var j := 0;
    while j < |anchors|
      invariant 0 <= j <= |anchors|
      invariant links == Hrefs(anchors[..j], domain)
    {
      var target := Get(anchors[j], "href");
      assert anchors[..j + 1][..j] == anchors[..j];
      if InDomain(target, Some(domain)) {
        links := links + [target.value];
      }
      j := j + 1;
    }
    assert anchors[..j] == anchors;
    forall k | 0 <= k < |links|
      ensures domain != [] && |domain| <= |links[k]| && links[k][..|domain|] == domain
    {
      HrefsStartWithDomain(anchors, domain, k);
    }
  }

  /**
   `Hrefs`'s prefix postcondition at one index. It exists only to pin the
   index `k`, so that the quantified postcondition is instantiated there.
   */
  lemma HrefsStartWithDomain(anchors: seq<Element>, domain: Url, k: nat)
    requires k < |Hrefs(anchors, domain)|
    ensures domain != [] && |domain| <= |Hrefs(anchors, domain)[k]|
    ensures Hrefs(anchors, domain)[k][..|domain|] == domain
  {
  }
}
