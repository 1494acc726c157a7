/**
 The domain predicate of gcfetch: a link is in the crawl's domain when both
 strings are present and non-empty and the link literally starts with the
 domain string. The test is a plain string prefix, so `http://example.com2`
 counts as inside `http://example.com`.
 */
module Domain {
  import opened Wrappers

  /** Python's `str.startswith`, compared character by character. */
  predicate StartsWith(s: string, prefix: string)
  {
    prefix == [] || (s != [] && s[0] == prefix[0] && StartsWith(s[1..], prefix[1..]))
  }

  /** The character-by-character test is exactly the sequence-prefix relation. */
  lemma {:induction false} StartsWithIsPrefix(s: string, prefix: string)
    ensures StartsWith(s, prefix) <==> |prefix| <= |s| && s[..|prefix|] == prefix
  {
    if prefix != [] && s != [] {
      StartsWithIsPrefix(s[1..], prefix[1..]);
      if |prefix| <= |s| && s[..|prefix|] == prefix {
        assert s[1..][..|prefix| - 1] == s[..|prefix|][1..];
      }
      if StartsWith(s, prefix) {
        assert s[..|prefix|] == [s[0]] + s[1..][..|prefix| - 1];
        assert prefix == [prefix[0]] + prefix[1..];
      }
    }
  }

  /**
   `indomain(url, domain)`: `None` and the empty string are false-y in
   Python, so either one makes the answer false; otherwise `url` must start
   with `domain`.
   */
  function InDomain(url: Option<string>, domain: Option<string>): (r: bool)
    ensures r <==> url.Some? && domain.Some? && domain.value != []
                   && |domain.value| <= |url.value|
                   && url.value[..|domain.value|] == domain.value
  {
    if url.Some? && url.value != [] && domain.Some? && domain.value != [] then
      StartsWithIsPrefix(url.value, domain.value);
      StartsWith(url.value, domain.value)
    else
      false
  }

  /** A missing or empty URL or domain is never in the domain. */
  lemma NothingIsInAnEmptyDomain(url: Option<string>, domain: Option<string>)
    requires url.None? || url == Some([]) || domain.None? || domain == Some([])
    ensures !InDomain(url, domain)
  {
  }

  /**
   The naive prefix policy admits a sibling host that shares the prefix.
   A single instance: the literal is a parameter fixed by `requires`,
   because a literal in the `ensures` makes the solver unfold the recursive
   functions on it.
   */
  lemma SiblingHostIsInDomain(url: string, domain: string)
    requires url == "http://example.com2" && domain == "http://example.com"
    ensures InDomain(Some(url), Some(domain))
  {
    assert url[..|domain|] == domain;
  }

  /**
   A different host is not in the domain.
   A single instance: the literal is a parameter fixed by `requires`,
   because a literal in the `ensures` makes the solver unfold the recursive
   functions on it.
   */
  lemma OtherHostIsNotInDomain(url: string, domain: string)
    requires url == "http://other.com/page" && domain == "http://example.com"
    ensures !InDomain(Some(url), Some(domain))
  {
    assert url[7] != domain[7];
    assert url[..|domain|][7] == url[7];
  }
}
