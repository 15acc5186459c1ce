/**
 Harvesting product links from a category page by scrolling
 (`LinkCollector.collect_product_links`, and the identical loop of
 `CategoryParser.collect_product_links`). The browser is replaced by an
 observation per scroll round: the `href`s of the product tiles then on the
 page, and whether the page end was reached.
 */
module LinkCollector {
  import opened Text
  import opened UrlUtils

  /** `_extract_product_links` for one `href`: the same normalisation as `clean_product_url`,
      written out separately in the source. */
  function ExtractLink(href: string): (r: Option<string>)
    ensures r.Some? ==> StartsWith(r.value, ProductBase) && '?' !in r.value
  {
    if href != [] && Contains(href, ProductPath) then
      var clean := BeforeChar(href, '?');
      if StartsWith(clean, ProductBase) || StartsWith(clean, ProductPath) then
        AbsoluteProduct(clean);
        Some(Absolute(clean))
      else None
    else None
  }

  /** The two normalisations agree on every `href`. */
  lemma ExtractLinkIsCleanProductUrl(href: string)
    ensures ExtractLink(href) == CleanProductUrl(href)
  {
    var clean := BeforeChar(href, '?');
    IsProductUrlByPrefix(clean);
    if href != [] && IsProductUrl(clean) {
      ContainsInPrefix(href, |clean|, ProductPath);
    }
  }

  /** The set of product links `_extract_product_links` builds from the tiles' `href`s. */
  function ProductLinks(hrefs: seq<string>): (r: set<string>)
    ensures forall l | l in r :: StartsWith(l, ProductBase) && '?' !in l
  {
    if hrefs == [] then {}
    else
      match ExtractLink(hrefs[0])
        case Some(l) => {l} + ProductLinks(hrefs[1..])
        case None => ProductLinks(hrefs[1..])
  }

  /** Exactly the normalised links are collected. */
  lemma {:induction false} ProductLinksMembers(hrefs: seq<string>, l: string)
    ensures l in ProductLinks(hrefs) <==> exists i | 0 <= i < |hrefs| :: CleanProductUrl(hrefs[i]) == Some(l)
  {
    if hrefs != [] {
      ProductLinksMembers(hrefs[1..], l);
      ExtractLinkIsCleanProductUrl(hrefs[0]);
      if exists i | 0 <= i < |hrefs| :: CleanProductUrl(hrefs[i]) == Some(l) {
        var i :| 0 <= i < |hrefs| && CleanProductUrl(hrefs[i]) == Some(l);
        if i > 0 {
          assert hrefs[1..][i - 1] == hrefs[i];
        }
      }
      if exists i | 0 <= i < |hrefs| - 1 :: CleanProductUrl(hrefs[1..][i]) == Some(l) {
        var i :| 0 <= i < |hrefs| - 1 && CleanProductUrl(hrefs[1..][i]) == Some(l);
        assert hrefs[i + 1] == hrefs[1..][i];
      }
    }
  }

  /** What one round shows: the tiles' `href`s and whether the page end is reached. */
  datatype Scroll = Scroll(hrefs: seq<string>, atEnd: bool)

  /** The union of `sets(0)`, ..., `sets(n)`. */
  function Union(sets: nat -> set<string>, n: nat): (r: set<string>)
    ensures sets(n) <= r
  {
    if n == 0 then sets(0) else Union(sets, n - 1) + sets(n)
  }

  lemma {:induction false} UnionGrows(sets: nat -> set<string>, m: nat, n: nat)
    requires m <= n
    ensures Union(sets, m) <= Union(sets, n)
    decreases n - m
  {
    if m < n {
      UnionGrows(sets, m, n - 1);
    }
  }

  /** The links extracted in each round. */
  function RoundLinks(page: nat -> Scroll): nat -> set<string> {
    (k: nat) => ProductLinks(page(k).hrefs)
  }

  /** All links seen in rounds `0..n`; round 0 is the page right after loading. */
  function Observed(page: nat -> Scroll, n: nat): (r: set<string>)
    ensures forall l | l in r :: StartsWith(l, ProductBase) && '?' !in l
  {
    ObservedClean(page, n);
    Union(RoundLinks(page), n)
  }

  lemma {:induction false} ObservedClean(page: nat -> Scroll, n: nat)
    ensures forall l | l in Union(RoundLinks(page), n) :: StartsWith(l, ProductBase) && '?' !in l
  {
    assert RoundLinks(page)(n) == ProductLinks(page(n).hrefs);
    if n > 0 {
      ObservedClean(page, n - 1);
    }
  }

  /** `list.extend(s)` for a set: its elements in some order, each once. */
  method Enumerate(s: set<string>) returns (r: seq<string>)
    ensures Distinct(r)
    ensures forall x :: x in r <==> x in s
  {
    r := [];
    var rest := s;
    while rest != {}
      invariant Distinct(r)
      invariant forall x :: x in s <==> x in r || x in rest
      invariant forall x | x in rest :: x !in r
      decreases |rest|
    {
      var x :| x in rest;
      r := r + [x];
      rest := rest - {x};
    }
  }

  /** Appending elements that are new keeps a sequence free of duplicates. */
  lemma DistinctAppend(a: seq<string>, b: seq<string>)
    requires Distinct(a) && Distinct(b)
    requires forall x | x in b :: x !in a
    ensures Distinct(a + b)
  {
    forall i, j | 0 <= i < j < |a + b|
      ensures (a + b)[i] != (a + b)[j]
    {
      if j >= |a| {
        assert (a + b)[j] == b[j - |a|];
        if i >= |a| {
          assert (a + b)[i] == b[i - |a|];
        } else {
          assert (a + b)[i] == a[i];
          assert b[j - |a|] in b;
        }
      }
    }
  }

  /** The scroll loop over the link sets `sets(k)` already extracted from each round:
      only links not yet seen are appended, `idle` counts the rounds since the last that
      brought a new link, and the loop stops at `total` links, at `maxIdle` idle rounds,
      or when `atEnd` reports the page end. */
  method ScrollLoop(sets: nat -> set<string>, atEnd: nat -> bool, total: int, maxIdle: int)
    returns (ordered: seq<string>, rounds: nat, idle: nat)
    ensures Distinct(ordered)
    ensures forall x :: x in ordered <==> x in Union(sets, rounds)
    ensures idle <= rounds && Union(sets, rounds - idle) == Union(sets, rounds)
    ensures rounds > idle ==> Union(sets, rounds - idle - 1) != Union(sets, rounds - idle)
    ensures |ordered| >= total || idle >= maxIdle || (rounds > 0 && atEnd(rounds))
  {
    rounds, idle := 0, 0;
    var unique := sets(0);
    ordered := Enumerate(unique);
    var stop := false;
    while !stop && |ordered| < total && idle < maxIdle
      invariant Distinct(ordered)
      invariant forall x :: x in ordered <==> x in unique
      invariant unique == Union(sets, rounds)
      invariant idle <= rounds && Union(sets, rounds - idle) == unique
      invariant rounds > idle ==> Union(sets, rounds - idle - 1) != Union(sets, rounds - idle)
      invariant stop ==> rounds > 0 && atEnd(rounds)
      decreases !stop, total - |ordered|, maxIdle - idle
    {
      rounds := rounds + 1;
      var current := sets(rounds);
      var newLinks := current - unique;
      if newLinks != {} {
        var added := Enumerate(newLinks);
        DistinctAppend(ordered, added);
        assert Union(sets, rounds - 1) != Union(sets, rounds) by {
          var x :| x in newLinks;
          assert x !in Union(sets, rounds - 1);
        }
        ordered := ordered + added;
        unique := unique + newLinks;
        idle := 0;
      } else {
        unique := unique + current;
        idle := idle + 1;
      }
      if atEnd(rounds) {
        stop := true;
      }
    }
  }

  /** `collect_product_links`. `loaded` is whether the tile wait succeeded; `page(0)` is the
      page after loading and `page(k)` the page after the `k`-th scroll. Returns the links,
      the number of scroll rounds run and the final idle counter. */
  method CollectProductLinks(loaded: bool, page: nat -> Scroll, totalLinks: int, maxIdleScrolls: int)
    returns (links: seq<string>, rounds: nat, idle: nat)
    ensures !loaded ==> links == [] && rounds == 0
    ensures Distinct(links)
    ensures totalLinks >= 0 ==> |links| <= totalLinks
    ensures forall i | 0 <= i < |links| :: StartsWith(links[i], ProductBase) && '?' !in links[i]
    ensures forall i | 0 <= i < |links| :: links[i] in Observed(page, rounds)
    ensures loaded && |links| < totalLinks ==> forall l | l in Observed(page, rounds) :: l in links
    ensures idle <= rounds && Observed(page, rounds - idle) == Observed(page, rounds)
    ensures rounds > idle ==> Observed(page, rounds - idle - 1) != Observed(page, rounds - idle)
    ensures loaded && |links| < totalLinks ==> idle >= maxIdleScrolls || (rounds > 0 && page(rounds).atEnd)
  {
    if !loaded {
      return [], 0, 0;
    }
    var ordered;
    ordered, rounds, idle := ScrollLoop(RoundLinks(page), (k: nat) => page(k).atEnd, totalLinks, maxIdleScrolls);
    links := PyPrefix(ordered, totalLinks);
    forall i | 0 <= i < |links|
      ensures links[i] in Observed(page, rounds)
    {
      assert links[i] == ordered[i];
    }
  }
}
