/**
 URL protocol helpers of gcfetch: the permissive pattern `PROTORE`
 (`https?:{0,1}/{1,2}`), `protocolise` and `deprotocolise`.

 The pattern has no anchors and no look-around, so whether it matches at
 position i of a string depends only on the suffix starting at i. Greedy
 matching never backtracks, which makes the matcher a plain function of that
 suffix.
 */
module Protocol {
  import opened Wrappers

  /** Every string the pattern `https?:{0,1}/{1,2}` accepts. */
  const Words: set<string> := {
    "http/", "http//", "http:/", "http://",
    "https/", "https//", "https:/", "https://"
  }

  /** The scheme prefix `protocolise` prepends. */
  const HttpPrefix: string := "http://"

  /** Length of the greedy match of the pattern at the start of `s`, if any. */
  function MatchLen(s: string): (r: Option<nat>)
    ensures r.Some? ==> 5 <= r.value <= 8 && r.value <= |s| && s[0] == 'h'
  {
    if |s| < 4 || s[..4] != "http" then None
    else
      var i := if 4 < |s| && s[4] == 's' then 5 else 4;
      var j := if i < |s| && s[i] == ':' then i + 1 else i;
      if j < |s| && s[j] == '/' then
        Some(if j + 1 < |s| && s[j + 1] == '/' then j + 2 else j + 1)
      else None
  }

  /**
   The matcher agrees with the pattern's language: it returns the length of
   the longest prefix of `s` that is a word of the pattern, and nothing when
   no prefix is.
   */
  lemma MatchLenIsLongestWord(s: string)
    ensures MatchLen(s).Some? ==> s[..MatchLen(s).value] in Words
    ensures MatchLen(s).Some? ==>
      forall n :: MatchLen(s).value < n <= |s| ==> s[..n] !in Words
    ensures MatchLen(s).None? ==> forall n :: 0 <= n <= |s| ==> s[..n] !in Words
  {
    if MatchLen(s).Some? {
      var m := MatchLen(s).value;
      assert s[..m] == s[..4] + s[4..m];
      var tail := s[4..m];
      if s[4] == 's' {
        if s[5] == ':' {
          if m == 8 { assert tail == "s://"; assert "http" + "s://" == "https://"; }
          else { assert tail == "s:/"; assert "http" + "s:/" == "https:/"; }
        } else {
          if m == 7 { assert tail == "s//"; assert "http" + "s//" == "https//"; }
          else { assert tail == "s/"; assert "http" + "s/" == "https/"; }
        }
      } else if s[4] == ':' {
        if m == 7 { assert tail == "://"; assert "http" + "://" == "http://"; }
        else { assert tail == ":/"; assert "http" + ":/" == "http:/"; }
      } else {
        if m == 6 { assert tail == "//"; assert "http" + "//" == "http//"; }
        else { assert tail == "/"; assert "http" + "/" == "http/"; }
      }
    }
  }

  /**
   `PROTORE.search(s)`: the pattern matches at some position of `s`. A hit
   needs at least five characters, one of them the `h` that starts the match.
   */
  predicate Search(s: string)
    ensures Search(s) ==> |s| >= 5 && 'h' in s
  {
    s != [] && (MatchLen(s).Some? || Search(s[1..]))
  }

  /** The recursive scan finds a match exactly when some suffix starts with one. */
  lemma {:induction false} SearchIffMatchSomewhere(s: string)
    ensures Search(s) <==> exists i :: 0 <= i < |s| && MatchLen(s[i..]).Some?
  {
    if s != [] {
      SearchIffMatchSomewhere(s[1..]);
      if Search(s[1..]) {
        var i :| 0 <= i < |s[1..]| && MatchLen(s[1..][i..]).Some?;
        assert s[1..][i..] == s[i + 1..];
      }
      forall i | 1 <= i < |s| && MatchLen(s[i..]).Some?
        ensures Search(s[1..])
      {
        assert s[1..][i - 1..] == s[i..];
      }
      assert s[0..] == s;
    }
  }

  /** Every match starts with `h`, so a string without one never matches. */
  lemma {:induction false} NoLetterHNoMatch(s: string)
    requires 'h' !in s
    ensures !Search(s)
  {
    if s != [] {
      if |s| >= 4 {
        assert s[..4][0] == s[0];
      }
      NoLetterHNoMatch(s[1..]);
    }
  }

  /**
   `PROTORE.sub('', s)`: scanning left to right, every match is deleted and
   scanning resumes after it; characters where nothing matches are kept.
   */
  function Deprotocolise(s: string): (r: string)
    ensures |r| <= |s|
    decreases |s|
  {
    if s == [] then []
    else match MatchLen(s)
      case Some(n) => Deprotocolise(s[n..])
      case None => [s[0]] + Deprotocolise(s[1..])
  }

  /**
   Deprotocolise leaves a string unchanged exactly when the pattern matches
   nowhere in it; otherwise the result is strictly shorter.
   */
  lemma {:induction false} DeprotocoliseFixedIffNoMatch(s: string)
    ensures Deprotocolise(s) == s <==> !Search(s)
    ensures Search(s) ==> |Deprotocolise(s)| < |s|
    decreases |s|
  {
    if s != [] {
      DeprotocoliseFixedIffNoMatch(s[1..]);
      match MatchLen(s)
      case Some(n) =>
      case None =>
        assert [s[0]] + s[1..] == s;
    }
  }

  /** Stripping a leading `http://` or `https://` gives back the rest, when the rest has no match. */
  lemma StripsLeadingScheme(x: string)
    requires !Search(x)
    ensures Deprotocolise("http://" + x) == x
    ensures Deprotocolise("https://" + x) == x
  {
    DeprotocoliseFixedIffNoMatch(x);
    SchemeMatchesWhole("http://", x);
    StripsMatch("http://" + x, 7, x);
    SchemeMatchesWhole("https://", x);
    StripsMatch("https://" + x, 8, x);
  }

  /** A leading `http://` or `https://` is matched whole, whatever follows it. */
  lemma SchemeMatchesWhole(p: string, x: string)
    requires p == "http://" || p == "https://"
    ensures MatchLen(p + x) == Some(|p|) && (p + x)[|p|..] == x
  {
    var s := p + x;
    assert s[..4] == p[..4] == "http";
    assert forall k :: 0 <= k < |p| ==> s[k] == p[k];
  }

  /** A match of length `n` at the front is removed, and a rest without matches is kept. */
  lemma StripsMatch(s: string, n: nat, x: string)
    requires n <= |s| && MatchLen(s) == Some(n) && s[n..] == x
    requires Deprotocolise(x) == x
    ensures Deprotocolise(s) == x
  {
  }

  /** A bare domain without the letter `h` gets either scheme stripped back off. */
  lemma StripsSchemeFromBareDomain(d: string)
    requires 'h' !in d
    ensures Deprotocolise("http://" + d) == d
    ensures Deprotocolise("https://" + d) == d
  {
    NoLetterHNoMatch(d);
    StripsLeadingScheme(d);
  }

  /**
   Both schemes are stripped from `example.com`.
   A single instance: the literal is a parameter fixed by `requires`,
   because a literal in the `ensures` makes the solver unfold the recursive
   functions on it.
   */
  lemma DeprotocoliseExamples(d: string)
    requires d == "example.com"
    ensures Deprotocolise("http://" + d) == d
    ensures Deprotocolise("https://" + d) == d
  {
    StripsSchemeFromBareDomain(d);
  }

  /**
   The scan is not idempotent: deleting a match can join two pieces into a
   new one. Here the inner `http://` is removed and leaves `http://` behind.
   A single instance: the literal is a parameter fixed by `requires`,
   because a literal in the `ensures` makes the solver unfold the recursive
   functions on it.
   */
  lemma DeprotocoliseNotIdempotent(s: string)
    requires s == "hthttp://tp://"
    ensures Deprotocolise(s) == "http://"
    ensures Deprotocolise(Deprotocolise(s)) == ""
  {
    var once := OnePass(s);
    DeprotocoliseBareScheme(once);
  }

  /** The first pass over `hthttp://tp://` keeps `ht`, drops the inner match and keeps `tp://`. */
  lemma OnePass(s: string) returns (once: string)
    requires s == "hthttp://tp://"
    ensures once == HttpPrefix && Deprotocolise(s) == once
  {
    assert s[2] == 'h';
    FrontKept(s);
    var tail := SecondKept(s[1..]);
    once := [s[0]] + tail;
    JoinsToScheme([s[0]], tail);
  }

  /** `h` followed by `ttp://` spells `http://`. */
  lemma JoinsToScheme(a: string, b: string)
    requires a == "h" && b == "ttp://"
    ensures a + b == HttpPrefix
  {
  }

  /** A string whose third character is not the `t` of `http` does not match at its front. */
  lemma FrontKept(s: string)
    requires |s| >= 3 && s[2] != 't'
    ensures MatchLen(s).None? && Deprotocolise(s) == [s[0]] + Deprotocolise(s[1..])
  {
    assert |s| < 4 || s[..4][2] == s[2];
  }

  /** `thttp://tp://` does not match at its front: the `t` is kept and the rest scanned. */
  lemma SecondKept(t: string) returns (r: string)
    requires t == "thttp://tp://"
    ensures r == "ttp://" && Deprotocolise(t) == r
  {
    assert t[2] == 't' && t[0] == 't';
    assert MatchLen(t).None? by {
      assert |t| < 4 || t[..4][0] == t[0];
    }
    var rest := InnerMatchRemoved(t[1..]);
    r := [t[0]] + rest;
  }

  /** The match at the front of `http://tp://` is removed and the match-free rest kept. */
  lemma InnerMatchRemoved(t: string) returns (rest: string)
    requires t == "http://tp://"
    ensures rest == "tp://" && Deprotocolise(t) == rest
  {
    assert MatchLen(t) == Some(7);
    rest := t[7..];
    assert rest == "tp://";
    NoLetterHNoMatch(rest);
    DeprotocoliseFixedIffNoMatch(rest);
  }

  /**
   A bare `http://` is one whole match, and nothing is left of it.
   A single instance: the literal is a parameter fixed by `requires`,
   because a literal in the `ensures` makes the solver unfold the recursive
   functions on it.
   */
  lemma DeprotocoliseBareScheme(s: string)
    requires s == "http://"
    ensures Deprotocolise(s) == ""
  {
    assert MatchLen(s) == Some(7);
    assert s[7..] == [];
  }

  /**
   `protocolise(url)`: prepend `http://` unless the URL already has a scheme
   (as decided by the URL parser, here the parameter `hasScheme`) or already
   contains a match of the pattern anywhere. The result always looks
   protocol-qualified to both tests.
   */
  function Protocolise(url: string, hasScheme: string -> bool): (r: string)
    ensures r == url || r == HttpPrefix + url
    ensures r == url <==> hasScheme(url) || Search(url)
    ensures hasScheme(r) || Search(r)
  {
    if !hasScheme(url) && !Search(url) then
      assert MatchLen(HttpPrefix + url).Some? by {
        assert (HttpPrefix + url)[..4] == "http";
      }
      HttpPrefix + url
    else url
  }

  /** Protocolising twice is the same as protocolising once. */
  lemma ProtocoliseIdempotent(url: string, hasScheme: string -> bool)
    ensures Protocolise(Protocolise(url, hasScheme), hasScheme) == Protocolise(url, hasScheme)
  {
  }

  /**
   The display name of the sitemap is the input back: a bare domain with no
   scheme and no match is protocolised and then deprotocolised to itself.
   */
  lemma DeprotocoliseUndoesProtocolise(url: string, hasScheme: string -> bool)
    requires !Search(url)
    ensures Deprotocolise(Protocolise(url, hasScheme)) == url
  {
    if hasScheme(url) {
      DeprotocoliseFixedIffNoMatch(url);
    } else {
      StripsLeadingScheme(url);
    }
  }

  /** The URL parser never reports a scheme for a string without a colon. */
  ghost predicate SchemeNeedsColon(hasScheme: string -> bool)
  {
    forall s :: ':' !in s ==> !hasScheme(s)
  }

  /**
   A bare domain gets `http://`; a URL that is already qualified is kept.
   A single instance: the literal is a parameter fixed by `requires`,
   because a literal in the `ensures` makes the solver unfold the recursive
   functions on it.
   */
  lemma ProtocoliseExamples(d: string, u: string, hasScheme: string -> bool)
    requires SchemeNeedsColon(hasScheme)
    requires d == "example.com" && u == "https://example.com"
    ensures Protocolise(d, hasScheme) == "http://" + d
    ensures Protocolise(u, hasScheme) == u
  {
    NoLetterHNoMatch(d);
    assert !hasScheme(d);
    assert u[..4] == "http";
    assert MatchLen(u).Some?;
  }
}
