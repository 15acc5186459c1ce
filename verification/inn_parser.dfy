/**
 `INNParser` (parser/inn_parser.py): for each seller page, the product links
 found there, the attempt loop that visits up to ten products until one
 discloses an INN, the per-seller result rows and the count of sellers whose
 INN was found. The browser is replaced by observations passed in.
 */
module InnParser {
  import opened Text
  import opened Records
  import SellerDetails
  import ProductExtractor
  import ExcelWriter

  const MaxAttempts: nat := 10
  const MaxProductLinks: nat := 20
  const ErrorMarker: string := "Ошибка"

  /** The three-key `seller_data` dict; every key is always present. */
  datatype SellerInn = SellerInn(sellerName: string, companyName: string, inn: string)

  const Defaults := SellerInn(NotFound, NotFound, NotFound)

  /** `inn_data`: the two fields copied out of the seller details. */
  datatype InnData = InnData(companyName: string, inn: string)

  /** `_extract_inn_from_product_page`; `details` is `None` when parsing the details raised. */
  function ExtractInn(details: Option<SellerDetails.Details>): (r: InnData)
    ensures details.None? ==> r == InnData(NotFound, NotFound)
    ensures details.Some? && details.value.companyName.Some? ==> r.companyName == details.value.companyName.value
    ensures details.Some? && details.value.inn.Some? ==> r.inn == details.value.inn.value
    ensures (details.None? || details.value.companyName.None?) ==> r.companyName == NotFound
    ensures (details.None? || details.value.inn.None?) ==> r.inn == NotFound
  {
    match details
      case None => InnData(NotFound, NotFound)
      case Some(d) =>
        if SellerDetails.KeyCount(d) == 0 then InnData(NotFound, NotFound)
        else InnData(GetOr(d.companyName, NotFound), GetOr(d.inn, NotFound))
  }

  /** What visiting one product page yields: `Raised` when opening it or reading the product
      name raised, otherwise the product name (`None` when not found) and the details. */
  datatype ProductVisit =
    | Raised
    | Visited(productName: Option<string>, details: Option<SellerDetails.Details>)

  /** The INN read from a visited page stops the loop: truthy and not the placeholder. */
  predicate InnFound(v: ProductVisit) {
    v.Visited? && UsableInn(ExtractInn(v.details).inn)
  }

  /** The seller name after one visit: a still-missing name is taken from the product page. */
  function NameStep(name: string, v: ProductVisit): string {
    if v.Visited? && name == NotFound && v.productName.Some? && v.productName.value != [] then v.productName.value
    else name
  }

  /** The seller name after the visits `vs`, in order. */
  function NameAfter(name: string, vs: seq<ProductVisit>): string
    decreases |vs|
  {
    if vs == [] then name else NameAfter(NameStep(name, vs[0]), vs[1..])
  }

  /** A name found on the seller page is never replaced. */
  lemma {:induction false} NameAfterKeeps(name: string, vs: seq<ProductVisit>)
    requires name != NotFound
    ensures NameAfter(name, vs) == name
  {
    if vs != [] {
      NameAfterKeeps(name, vs[1..]);
    }
  }

  lemma {:induction false} NameAfterSnoc(name: string, vs: seq<ProductVisit>, v: ProductVisit)
    ensures NameAfter(name, vs + [v]) == NameStep(NameAfter(name, vs), v)
    decreases |vs|
  {
    if vs != [] {
      assert (vs + [v])[1..] == vs[1..] + [v];
      NameAfterSnoc(NameStep(name, vs[0]), vs[1..], v);
    }
  }

  /** The visits of `links[..n]`, in order. */
  function Visits(links: seq<string>, visit: string -> ProductVisit, n: nat): (r: seq<ProductVisit>)
    requires n <= |links|
    ensures |r| == n && forall j | 0 <= j < n :: r[j] == visit(links[j])
  {
    if n == 0 then [] else Visits(links, visit, n - 1) + [visit(links[n - 1])]
  }

  /** `parse_single_seller`. `reached` is whether opening the seller page succeeded, `shopName`
      what `_get_seller_name` read there, `links` what `_get_product_links` returned and
      `visit` what each product page yields. Also returns the number of products tried. */
  method ParseSingleSeller(reached: bool, shopName: string, links: seq<string>, visit: string -> ProductVisit)
    returns (r: SellerInn, tried: nat)
    ensures !reached ==> r == Defaults && tried == 0
    ensures reached && links == [] ==> r == SellerInn(shopName, NotFound, NotFound)
    ensures tried <= |links| && tried <= MaxAttempts
    ensures r.inn != NotFound <==> reached && tried > 0 && InnFound(visit(links[tried - 1]))
    ensures r.inn != NotFound ==>
      r.inn == ExtractInn(visit(links[tried - 1]).details).inn
      && r.companyName == ExtractInn(visit(links[tried - 1]).details).companyName
    ensures r.inn == NotFound ==> r.companyName == NotFound
    ensures forall j | 0 <= j < tried - 1 :: !InnFound(visit(links[j]))
    ensures reached && r.inn == NotFound ==>
      tried == (if |links| < MaxAttempts then |links| else MaxAttempts)
      && forall j | 0 <= j < tried :: !InnFound(visit(links[j]))
    ensures reached ==> r.sellerName == NameAfter(shopName, Visits(links, visit, tried))
  {
    tried := 0;
    if !reached {
      return Defaults, 0;
    }
    r := SellerInn(shopName, NotFound, NotFound);
    if links == [] {
      return;
    }
    var maxAttempts := if |links| < MaxAttempts then |links| else MaxAttempts;
    var found := false;
    while tried < maxAttempts && !found
      invariant tried <= maxAttempts
      invariant r.sellerName == NameAfter(shopName, Visits(links, visit, tried))
      invariant forall j | 0 <= j < tried - 1 :: !InnFound(visit(links[j]))
      invariant !found ==> forall j | 0 <= j < tried :: !InnFound(visit(links[j]))
      invariant !found ==> r.inn == NotFound && r.companyName == NotFound
      invariant found ==> (tried > 0 && InnFound(visit(links[tried - 1]))
        && r.inn == ExtractInn(visit(links[tried - 1]).details).inn
        && r.companyName == ExtractInn(visit(links[tried - 1]).details).companyName)
    {
      var v := visit(links[tried]);
      NameAfterSnoc(shopName, Visits(links, visit, tried), v);
      assert Visits(links, visit, tried + 1) == Visits(links, visit, tried) + [v];
      tried := tried + 1;
      match v {
        case Raised =>
        case Visited(name, details) =>
          if r.sellerName == NotFound && name.Some? && name.value != [] {
            r := r.(sellerName := name.value);
          }
          var innData := ExtractInn(details);
          if innData.inn != [] && innData.inn != NotFound {
            r := r.(companyName := innData.companyName, inn := innData.inn);
            found := true;
          }
      }
    }
  }

  // ---------------------------------------------------------------------------
  // _get_product_links (lines 261-306)
  // ---------------------------------------------------------------------------

  /** The `href`s the loop keeps. */
  predicate ProductHref(href: string) {
    href != [] && (Contains(href, "/product/") || Contains(href, "/detail/"))
  }

  /** `href.split('?')[0].split('#')[0]` */
  function CleanHref(href: string): (r: string)
    ensures '?' !in r && '#' !in r && StartsWith(href, r)
  {
    var a := BeforeChar(href, '?');
    var b := BeforeChar(a, '#');
    assert '?' !in b by {
      assert forall i | 0 <= i < |b| :: b[i] == a[i];
    }
    assert StartsWith(href, b) by {
      assert href[..|b|] == a[..|b|];
    }
    b
  }

  /** The cleaned `href`s that pass the test, in page order, repetitions kept. */
  function CleanedMatches(hrefs: seq<string>): (r: seq<string>)
    ensures forall x :: x in r <==> exists i | 0 <= i < |hrefs| :: ProductHref(hrefs[i]) && CleanHref(hrefs[i]) == x
  {
    if hrefs == [] then []
    else
      var n := |hrefs| - 1;
      var p := CleanedMatches(hrefs[..n]);
      assert forall i | 0 <= i < n :: hrefs[..n][i] == hrefs[i];
      p + (if ProductHref(hrefs[n]) then [CleanHref(hrefs[n])] else [])
  }

  /** What one selector contributes: the cleaned links, each once, in first-seen order. */
  function SelectorLinks(hrefs: seq<string>): (r: seq<string>)
    ensures Distinct(r)
    ensures forall x :: x in r <==> exists i | 0 <= i < |hrefs| :: ProductHref(hrefs[i]) && CleanHref(hrefs[i]) == x
  {
    Dedup(CleanedMatches(hrefs))
  }

  /** The links of the first selector that yields any (a selector that times out yields no
      `href`s), each once, at most twenty. */
  function GetProductLinks(groups: seq<seq<string>>): (r: seq<string>)
    ensures |r| <= MaxProductLinks
    ensures Distinct(r)
    ensures forall i | 0 <= i < |r| :: '?' !in r[i] && '#' !in r[i]
    decreases |groups|
  {
    if groups == [] then []
    else
      var links := SelectorLinks(groups[0]);
      if links != [] then
        var r := PyPrefix(links, MaxProductLinks);
        assert forall i | 0 <= i < |r| :: r[i] == links[i];
        assert forall i | 0 <= i < |r| :: links[i] in links;
        r
      else GetProductLinks(groups[1..])
  }

  /** The list comes from the first selector whose `href`s contain a product or detail link;
      up to the cap, it holds every such link of that selector, cleaned. */
  lemma GetProductLinksSource(groups: seq<seq<string>>)
    ensures GetProductLinks(groups) == [] <==> forall g, i | g in groups && 0 <= i < |g| :: !ProductHref(g[i])
    ensures GetProductLinks(groups) != [] ==> exists k | 0 <= k < |groups| ::
      GetProductLinks(groups) == PyPrefix(SelectorLinks(groups[k]), MaxProductLinks)
      && forall m | 0 <= m < k :: SelectorLinks(groups[m]) == []
  {
    LinksEmptyIff(groups);
    LinksFirstSelector(groups);
  }

  /** A selector contributes nothing exactly when none of its `href`s passes the test. */
  lemma SelectorLinksEmpty(hrefs: seq<string>)
    ensures SelectorLinks(hrefs) == [] <==> forall i | 0 <= i < |hrefs| :: !ProductHref(hrefs[i])
  {
    var links := SelectorLinks(hrefs);
    if links == [] {
      forall i | 0 <= i < |hrefs|
        ensures !ProductHref(hrefs[i])
      {
        var h := hrefs[i];
        assert ProductHref(h) ==> CleanHref(h) in links;
      }
    } else {
      assert links[0] in links;
    }
  }

  lemma {:induction false} LinksEmptyIff(groups: seq<seq<string>>)
    ensures GetProductLinks(groups) == [] <==> forall g, i | g in groups && 0 <= i < |g| :: !ProductHref(g[i])
  {
    if groups != [] {
      LinksEmptyIff(groups[1..]);
      SelectorLinksEmpty(groups[0]);
      assert groups[0] in groups;
      assert forall g | g in groups :: g == groups[0] || g in groups[1..];
      assert forall g | g in groups[1..] :: g in groups;
    }
  }

  lemma {:induction false} LinksFirstSelector(groups: seq<seq<string>>)
    ensures GetProductLinks(groups) != [] ==> exists k | 0 <= k < |groups| ::
      GetProductLinks(groups) == PyPrefix(SelectorLinks(groups[k]), MaxProductLinks)
      && forall m | 0 <= m < k :: SelectorLinks(groups[m]) == []
  {
    if groups != [] && GetProductLinks(groups) != [] {
      if SelectorLinks(groups[0]) == [] {
        LinksFirstSelector(groups[1..]);
        var k :| 0 <= k < |groups[1..]| &&
          GetProductLinks(groups[1..]) == PyPrefix(SelectorLinks(groups[1..][k]), MaxProductLinks)
          && forall m | 0 <= m < k :: SelectorLinks(groups[1..][m]) == [];
        assert forall m | 0 < m < k + 1 :: groups[m] == groups[1..][m - 1];
        assert groups[k + 1] == groups[1..][k];
      }
    }
  }

  /** Cleaning drops everything from the first `?` on. */
  lemma CleanDropsQuery(a: string, b: string)
    requires '?' !in a && '#' !in a
    ensures CleanHref(a + ['?'] + b) == a
  {
    BeforeCharSplit(a, '?', b);
  }

  /** A marker in the query keeps the `href`, and cleaning drops the query with it. */
  lemma QueryHidesMarker(a: string, b: string)
    requires '?' !in a && '#' !in a && Contains(b, "/product/")
    ensures ProductHref(a + ['?'] + b) && CleanHref(a + ['?'] + b) == a
  {
    var h := a + ['?'] + b;
    assert h[|a| + 1..] == b;
    ContainsInSuffix(h, |a| + 1, "/product/");
    CleanDropsQuery(a, b);
  }

  /** The test the loop evidently means: the cleaned link itself is a product or detail link. */
  predicate MarkedLink(href: string) {
    Contains(CleanHref(href), "/product/") || Contains(CleanHref(href), "/detail/")
  }

  /** A marker in the cleaned link is a marker in the `href`: the corrected test is stricter. */
  lemma MarkedIsProductHref(href: string)
    requires MarkedLink(href)
    ensures ProductHref(href)
  {
    var c := CleanHref(href);
    assert href[..|c|] == c;
    if Contains(c, "/product/") {
      ContainsInPrefix(href, |c|, "/product/");
    } else {
      ContainsInPrefix(href, |c|, "/detail/");
    }
  }

  /** The `href`s of one selector that pass the corrected test, in page order. */
  function KeepMarked(hrefs: seq<string>): (r: seq<string>)
    ensures forall x :: x in r <==> x in hrefs && MarkedLink(x)
  {
    if hrefs == [] then []
    else
      var n := |hrefs| - 1;
      var p := KeepMarked(hrefs[..n]);
      assert hrefs == hrefs[..n] + [hrefs[n]];
      p + (if MarkedLink(hrefs[n]) then [hrefs[n]] else [])
  }

  /** Every selector's `href`s, narrowed by the corrected test. */
  function MarkedGroups(groups: seq<seq<string>>): (r: seq<seq<string>>)
    ensures |r| == |groups|
    ensures forall k | 0 <= k < |groups| :: r[k] == KeepMarked(groups[k])
  {
    if groups == [] then [] else [KeepMarked(groups[0])] + MarkedGroups(groups[1..])
  }

  /** `_get_product_links` with the test applied to the cleaned link rather than the raw
      `href`. */
  function GetProductLinksCorrected(groups: seq<seq<string>>): (r: seq<string>)
    ensures |r| <= MaxProductLinks
    ensures Distinct(r)
    ensures forall i | 0 <= i < |r| :: Contains(r[i], "/product/") || Contains(r[i], "/detail/")
  {
    var marked := MarkedGroups(groups);
    LinksFromGroups(marked);
    var r := GetProductLinks(marked);
    forall j | 0 <= j < |r|
      ensures Contains(r[j], "/product/") || Contains(r[j], "/detail/")
    {
      assert r[j] in r;
      var k, i :| 0 <= k < |marked| && 0 <= i < |marked[k]|
        && ProductHref(marked[k][i]) && CleanHref(marked[k][i]) == r[j];
      assert marked[k][i] in KeepMarked(groups[k]);
    }
    r
  }

  /** Every link returned is the cleaned form of a kept `href` of one of the selectors. */
  lemma {:induction false} LinksFromGroups(groups: seq<seq<string>>)
    ensures forall x | x in GetProductLinks(groups) ::
      exists k, i | 0 <= k < |groups| && 0 <= i < |groups[k]| :: ProductHref(groups[k][i]) && CleanHref(groups[k][i]) == x
  {
    if groups != [] {
      var links := SelectorLinks(groups[0]);
      if links == [] {
        LinksFromGroups(groups[1..]);
        assert GetProductLinks(groups) == GetProductLinks(groups[1..]);
        forall x | x in GetProductLinks(groups)
          ensures exists k, i | 0 <= k < |groups| && 0 <= i < |groups[k]| ::
            ProductHref(groups[k][i]) && CleanHref(groups[k][i]) == x
        {
          var k, i :| 0 <= k < |groups[1..]| && 0 <= i < |groups[1..][k]|
            && ProductHref(groups[1..][k][i]) && CleanHref(groups[1..][k][i]) == x;
          assert groups[k + 1] == groups[1..][k];
        }
      } else {
        forall x | x in GetProductLinks(groups)
          ensures exists k, i | 0 <= k < |groups| && 0 <= i < |groups[k]| ::
            ProductHref(groups[k][i]) && CleanHref(groups[k][i]) == x
        {
          assert x in links;
        }
      }
    }
  }

  /** Where every kept `href` also keeps its marker after cleaning, the narrowing drops nothing
      the loop would have cleaned. */
  lemma {:induction false} CleanedMatchesOfMarked(hrefs: seq<string>)
    requires forall i | 0 <= i < |hrefs| :: ProductHref(hrefs[i]) ==> MarkedLink(hrefs[i])
    ensures CleanedMatches(KeepMarked(hrefs)) == CleanedMatches(hrefs)
  {
    if hrefs != [] {
      var n := |hrefs| - 1;
      var h := hrefs[n];
      var init := hrefs[..n];
      assert forall i | 0 <= i < n :: init[i] == hrefs[i];
      CleanedMatchesOfMarked(init);
      var k := KeepMarked(init);
      assert KeepMarked(hrefs) == k + (if MarkedLink(h) then [h] else []);
      assert CleanedMatches(hrefs) == CleanedMatches(init) + (if ProductHref(h) then [CleanHref(h)] else []);
      if MarkedLink(h) {
        MarkedIsProductHref(h);
        CleanedMatchesSnoc(k, h);
      } else {
        assert !ProductHref(hrefs[n]);
        assert k + [] == k;
      }
    }
  }

  lemma CleanedMatchesSnoc(a: seq<string>, h: string)
    ensures CleanedMatches(a + [h]) == CleanedMatches(a) + (if ProductHref(h) then [CleanHref(h)] else [])
  {
    assert (a + [h])[..|a|] == a;
  }

  /** The corrected links equal the links as written whenever no kept `href` carries its
      marker only in the query or fragment. */
  lemma {:induction false} GetProductLinksAgree(groups: seq<seq<string>>)
    requires forall g, i | g in groups && 0 <= i < |g| :: ProductHref(g[i]) ==> MarkedLink(g[i])
    ensures GetProductLinksCorrected(groups) == GetProductLinks(groups)
  {
    if groups != [] {
      CleanedMatchesOfMarked(groups[0]);
      assert groups[0] in groups;
      assert forall g | g in groups[1..] :: g in groups;
      GetProductLinksAgree(groups[1..]);
      assert MarkedGroups(groups)[1..] == MarkedGroups(groups[1..]);
    }
  }

  /** A single `href` whose only marker sits in the query: as written, the loop returns its
      marker-less path; the corrected test returns nothing. */
  lemma QueryMarkerLink(a: string, b: string)
    requires '?' !in a && '#' !in a && Contains(b, "/product/")
    requires !Contains(a, "/product/") && !Contains(a, "/detail/")
    ensures GetProductLinks([[a + ['?'] + b]]) == [a]
    ensures GetProductLinksCorrected([[a + ['?'] + b]]) == []
  {
    var h := a + ['?'] + b;
    QueryHidesMarker(a, b);
    assert [h][..0] == [];
    assert CleanedMatches([h]) == [a];
    assert Dedup([a]) == [a] by {
      assert [a][..0] == [];
    }
    assert !MarkedLink(h);
    assert KeepMarked([h]) == [];
    var marked := MarkedGroups([[h]]);
    assert marked == [[]];
    assert CleanedMatches([]) == [];
    assert SelectorLinks([]) == [];
    assert GetProductLinks(marked) == GetProductLinks(marked[1..]);
    assert marked[1..] == [];
  }

  // ---------------------------------------------------------------------------
  // parse_url_list (lines 48-103) and the found count (line 364)
  // ---------------------------------------------------------------------------

  /** One row of `self.results`. */
  datatype Result = Result(sellerUrl: string, sellerName: string, companyName: string, inn: string)

  /** The row for one seller URL; `outcome` is `None` when parsing that seller raised. */
  function ResultFor(url: string, outcome: Option<SellerInn>): (r: Result)
    ensures r.sellerUrl == url
    ensures outcome.None? ==> r.inn == ErrorMarker && r.sellerName == ErrorMarker && r.companyName == ErrorMarker
    ensures outcome.Some? ==> r.inn == outcome.value.inn
  {
    match outcome
      case None => Result(url, ErrorMarker, ErrorMarker, ErrorMarker)
      case Some(s) => Result(url, s.sellerName, s.companyName, s.inn)
  }

  /** `parse_url_list`: `false` for an empty list, otherwise one row per URL, in order. */
  function ParseUrlList(urls: seq<string>, outcome: string -> Option<SellerInn>): (r: (bool, seq<Result>))
    ensures r.0 <==> urls != []
    ensures |r.1| == |urls|
    ensures forall i | 0 <= i < |urls| :: r.1[i] == ResultFor(urls[i], outcome(urls[i]))
  {
    if urls == [] then (false, [])
    else (true, seq(|urls|, i requires 0 <= i < |urls| => ResultFor(urls[i], outcome(urls[i]))))
  }

  /** A row counts as found unless its INN is one of the two markers. */
  predicate Found(r: Result) {
    r.inn != NotFound && r.inn != ErrorMarker
  }

  /** `inn_found_count` */
  function FoundCount(results: seq<Result>): (r: nat) {
    Count(results, Found)
  }

  /** A seller that raised, or whose attempts found nothing, is never counted; every other
      seller is. */
  lemma {:induction false} FoundCountOfList(urls: seq<string>, outcome: string -> Option<SellerInn>)
    ensures FoundCount(ParseUrlList(urls, outcome).1) == Count(urls, FoundOutcome(outcome))
  {
    if urls != [] {
      FoundCountOfList(urls[1..], outcome);
      var rs := ParseUrlList(urls, outcome).1;
      assert ParseUrlList(urls[1..], outcome).1 == rs[1..];
      assert Found(rs[0]) == FoundOutcome(outcome)(urls[0]);
    }
  }

  /** Whether the outcome for a URL counts. */
  function FoundOutcome(outcome: string -> Option<SellerInn>): string -> bool {
    (u: string) => outcome(u).Some? && outcome(u).value.inn != NotFound && outcome(u).value.inn != ErrorMarker
  }

  // ---------------------------------------------------------------------------
  // save_to_excel (lines 334-374)
  // ---------------------------------------------------------------------------

  /** The methods an `ExcelWriter` instance has (parser/excel_writer.py). */
  const WriterMethods: set<string> := {"save_to_excel", "_get_border", "_clean_filename"}

  /** The writer method line 357 calls, and the one it evidently means. */
  const CalledWriterMethod: string := "save_sellers_to_excel"
  const IntendedWriterMethod: string := "save_to_excel"

  /** The message of the `AttributeError` a missing writer method raises. */
  function MissingMethodError(name: string): string {
    "'ExcelWriter' object has no attribute '" + name + "'"
  }

  /** One result as the product-shaped row the writer takes: seller name, company name, INN and
      seller URL in the name, discounted price, full price and link columns, the rest blank. */
  function SellerProduct(r: Result): (p: ProductExtractor.Product)
    ensures ExcelWriter.ProductRow(p) == [r.sellerName, r.companyName, r.inn, "", "", "", r.sellerUrl]
  {
    ProductExtractor.Product(r.sellerName, r.companyName, r.inn, "", "", "", r.sellerUrl)
  }

  /** How `save_to_excel` ends. */
  datatype SaveOutcome =
    | NoResults                                   // the warning branch: nothing to save
    | SaveRaised(error: string)                   // caught by the `except` at line 372
    | WriteFailed                                 // the writer returned no path
    | Saved(path: string, sheet: ExcelWriter.Sheet, foundCount: nat)

  /** What the method returns: the path when saved, otherwise `None`. */
  function Returned(o: SaveOutcome): (r: Option<string>)
    ensures r.Some? <==> o.Saved?
  {
    if o.Saved? then Some(o.path) else None
  }

  /** `save_to_excel` calling writer method `called`; `written` is what that method returns
      when it exists (`None` when the writer's own `try` caught a failure). The found count is
      computed only once a path came back. */
  function SaveResults(results: seq<Result>, called: string, written: Option<string>): (r: SaveOutcome)
    ensures r == NoResults <==> results == []
    ensures r.SaveRaised? <==> results != [] && called !in WriterMethods
    ensures r.SaveRaised? ==> r.error == MissingMethodError(called)
    ensures r.Saved? <==> results != [] && called in WriterMethods && written.Some?
  {
    if results == [] then NoResults
    else if called !in WriterMethods then SaveRaised(MissingMethodError(called))
    else if written.None? then WriteFailed
    else
      var products := seq(|results|, i requires 0 <= i < |results| => SellerProduct(results[i]));
      Saved(written.value, ExcelWriter.SaveToExcel(products), FoundCount(results))
  }

  /** As written: the method does not exist, so every non-empty result list ends in the
      `except` branch, nothing is saved and no found count is ever computed. */
  lemma SaveAsWrittenNeverSaves(results: seq<Result>, written: Option<string>)
    ensures Returned(SaveResults(results, CalledWriterMethod, written)) == None
    ensures results != [] ==>
      SaveResults(results, CalledWriterMethod, written) == SaveRaised(MissingMethodError(CalledWriterMethod))
  {
    assert CalledWriterMethod !in WriterMethods;
  }

  /** Corrected: when the writer returns a path, the sheet holds one row per result, in order,
      with the seller's fields in the columns named above, and the count is that of the rows
      whose INN was found. */
  lemma SaveCorrectedContent(results: seq<Result>, path: string)
    requires results != []
    ensures SaveResults(results, IntendedWriterMethod, Some(path)).Saved?
    ensures Returned(SaveResults(results, IntendedWriterMethod, Some(path))) == Some(path)
    ensures var o := SaveResults(results, IntendedWriterMethod, Some(path));
      |o.sheet.cells| == 7 * (|results| + 1)
      && (forall i, k | 0 <= i < |results| && 0 <= k < 7 ::
            o.sheet.cells[7 + 7 * i + k]
            == ExcelWriter.Cell(i + 2, k + 1, [results[i].sellerName, results[i].companyName, results[i].inn,
                                               "", "", "", results[i].sellerUrl][k]))
      && o.foundCount == Count(results, Found)
  {
    var products := seq(|results|, i requires 0 <= i < |results| => SellerProduct(results[i]));
    var o := SaveResults(results, IntendedWriterMethod, Some(path));
    assert o.sheet == ExcelWriter.SaveToExcel(products);
    ExcelWriter.SheetLayout(products);
    forall i, k | 0 <= i < |results| && 0 <= k < 7
      ensures o.sheet.cells[7 + 7 * i + k]
        == ExcelWriter.Cell(i + 2, k + 1, [results[i].sellerName, results[i].companyName, results[i].inn,
                                           "", "", "", results[i].sellerUrl][k])
    {
      assert products[i] == SellerProduct(results[i]);
    }
  }

  /** Corrected, over a whole run: the saved count is the number of URLs whose seller parsed
      with an INN found. */
  lemma SaveCorrectedCount(urls: seq<string>, outcome: string -> Option<SellerInn>, path: string)
    requires urls != []
    ensures SaveResults(ParseUrlList(urls, outcome).1, IntendedWriterMethod, Some(path))
      .foundCount == Count(urls, FoundOutcome(outcome))
  {
    FoundCountOfList(urls, outcome);
  }
}
