/**
 The string-level URL helpers of the category parser (`UrlUtils`): deriving a
 file-friendly category name, normalising product links to absolute,
 query-free form, recognising product and category URLs, and the pair
 `extract_product_id` / `build_product_url`.
 */
module UrlUtils {
  import opened Text

  const Site: string := "https://www.ozon.ru"
  const ProductPath: string := "/product/"
  const ProductBase: string := "https://www.ozon.ru/product/"
  const CategoryPath: string := "/category/"
  const DefaultCategory: string := "category"

  /** `s.rstrip('/')` */
  function RStripSlash(s: string): (r: string)
    ensures |r| <= |s| && r == s[..|r|]
    ensures r == [] || r[|r| - 1] != '/'
    ensures forall i | |r| <= i < |s| :: s[i] == '/'
  {
    if s == [] || s[|s| - 1] != '/' then s else RStripSlash(s[..|s| - 1])
  }

  /** `s.split('/')[-1]`: the text after the last `/`. */
  function LastSegment(s: string): (r: string)
    ensures |r| <= |s| && r == s[|s| - |r|..]
    ensures '/' !in r
    ensures |r| < |s| ==> s[|s| - |r| - 1] == '/'
  {
    if s == [] || s[|s| - 1] == '/' then [] else LastSegment(s[..|s| - 1]) + [s[|s| - 1]]
  }

  /** `get_category_name` (the same code appears three times in the repository). */
  function CategoryName(url: string): (r: string)
    ensures r == DefaultCategory || (|r| >= 3 && '-' !in r && '/' !in r && '?' !in r)
  {
    var part := BeforeChar(LastSegment(RStripSlash(url)), '?');
    var name := ReplaceChar(part, '-', '_');
    if |name| < 3 then DefaultCategory else name
  }

  /** A meaningful last path segment names the category, with `-` turned into `_`,
      whatever lies before it and whatever query follows it. */
  lemma CategoryNameOfSegment(prefix: string, segment: string, query: string)
    requires |segment| >= 3 && '/' !in segment && '?' !in segment
    requires '/' !in query
    ensures CategoryName(prefix + "/" + segment + "/") == ReplaceChar(segment, '-', '_')
    ensures CategoryName(prefix + "/" + (segment + "?" + query)) == ReplaceChar(segment, '-', '_')
  {
    CategoryNameTrailingSlash(prefix, segment);
    CategoryNameOfPart(prefix + "/" + segment + "/", segment);
    var tail := segment + "?" + query;
    var w := prefix + "/" + tail;
    LastSegmentOf(prefix, tail);
    BeforeCharSplit(segment, '?', query);
    CategoryNameOfPart(w, segment);
  }

  lemma CategoryNameOfPart(url: string, segment: string)
    requires |segment| >= 3 && '?' !in segment
    requires BeforeChar(LastSegment(RStripSlash(url)), '?') == segment
    ensures CategoryName(url) == ReplaceChar(segment, '-', '_')
  {
  }

  lemma CategoryNameTrailingSlash(prefix: string, segment: string)
    requires segment != [] && '/' !in segment
    ensures LastSegment(RStripSlash(prefix + "/" + segment + "/")) == segment
  {
    var u := prefix + "/" + segment;
    assert (u + "/")[..|u|] == u;
    LastSegmentOf(prefix, segment);
  }

  /** `rstrip('/')` and `split('/')[-1]` of `prefix/segment`. */
  lemma LastSegmentOf(prefix: string, segment: string)
    requires segment != [] && '/' !in segment
    ensures LastSegment(RStripSlash(prefix + "/" + segment)) == segment
  {
    NoTrailingSlash(prefix + "/", segment);
    LastSegmentAfterSlash(prefix, segment);
  }

  lemma NoTrailingSlash(a: string, b: string)
    requires b != [] && '/' !in b
    ensures RStripSlash(a + b) == a + b
  {
    assert (a + b)[|a + b| - 1] == b[|b| - 1];
  }

  /** The last segment of `prefix/segment`. */
  lemma {:induction false} LastSegmentAfterSlash(prefix: string, segment: string)
    requires '/' !in segment
    ensures LastSegment(prefix + "/" + segment) == segment
    decreases |segment|
  {
    var u := prefix + "/" + segment;
    if segment == [] {
      assert u[|u| - 1] == '/';
    } else {
      var init := segment[..|segment| - 1];
      assert u[|u| - 1] == segment[|segment| - 1];
      assert u[..|u| - 1] == prefix + "/" + init;
      LastSegmentAfterSlash(prefix, init);
      assert segment == init + [segment[|segment| - 1]];
    }
  }

  /** `is_product_url` */
  predicate IsProductUrl(url: string) {
    url != [] && Contains(url, ProductPath) && (StartsWith(url, ProductBase) || StartsWith(url, ProductPath))
  }

  /** The `'/product/' in url` test adds nothing to the two prefix tests. */
  lemma IsProductUrlByPrefix(url: string)
    ensures IsProductUrl(url) <==> StartsWith(url, ProductBase) || StartsWith(url, ProductPath)
  {
    if StartsWith(url, ProductBase) {
      assert url[19..28] == ProductBase[19..28] == ProductPath;
      ContainsAt(url, ProductPath, 19);
    }
    if StartsWith(url, ProductPath) {
      StartsWithContains(url, ProductPath);
    }
  }

  /** `is_category_url` */
  predicate IsCategoryUrl(url: string) {
    url != []
    && (StartsWith(url, "https://www.ozon.ru/category/") || StartsWith(url, "https://ozon.ru/category/")
        || Contains(url, CategoryPath))
  }

  /** The two prefix tests of `is_category_url` are subsumed by the substring test. */
  lemma IsCategoryUrlBySubstring(url: string)
    ensures IsCategoryUrl(url) <==> Contains(url, CategoryPath)
  {
    if StartsWith(url, "https://www.ozon.ru/category/") {
      assert url[19..29] == "https://www.ozon.ru/category/"[19..29] == CategoryPath;
      ContainsAt(url, CategoryPath, 19);
    }
    if StartsWith(url, "https://ozon.ru/category/") {
      assert url[15..25] == "https://ozon.ru/category/"[15..25] == CategoryPath;
      ContainsAt(url, CategoryPath, 15);
    }
  }

  /** Makes a `/product/...` path absolute; leaves anything else alone. */
  function Absolute(path: string): string {
    if StartsWith(path, ProductPath) then Site + path else path
  }

  lemma AbsoluteProduct(path: string)
    requires StartsWith(path, ProductBase) || StartsWith(path, ProductPath)
    ensures StartsWith(Absolute(path), ProductBase)
    ensures '?' !in path ==> '?' !in Absolute(path)
  {
    if StartsWith(path, ProductPath) {
      assert ProductBase == Site + ProductPath;
      assert (Site + path)[..28] == Site + path[..9];
      assert '?' !in Site;
    }
  }

  /** `clean_product_url`: the query is cut off and the link must then be a product URL. */
  function CleanProductUrl(url: string): (r: Option<string>)
    ensures r.Some? ==> StartsWith(r.value, ProductBase) && '?' !in r.value
  {
    if url == [] then None
    else
      var clean := BeforeChar(url, '?');
      if IsProductUrl(clean) then
        AbsoluteProduct(clean);
        Some(Absolute(clean))
      else None
  }

  /** An absolute product URL without a query is its own clean form. */
  lemma CleanProductUrlFixes(url: string)
    requires StartsWith(url, ProductBase) && '?' !in url
    ensures CleanProductUrl(url) == Some(url)
  {
    IsProductUrlByPrefix(url);
    assert !StartsWith(url, ProductPath) by {
      assert url[0] == 'h';
    }
  }

  /** `clean_product_url` is idempotent on its results. */
  lemma CleanProductUrlIdempotent(url: string)
    ensures CleanProductUrl(url).Some? ==> CleanProductUrl(CleanProductUrl(url).value) == CleanProductUrl(url)
  {
    if CleanProductUrl(url).Some? {
      CleanProductUrlFixes(CleanProductUrl(url).value);
    }
  }

  /** The query string never matters, and relative links get the site prepended. */
  lemma CleanProductUrlIgnoresQuery(path: string, query: string)
    requires '?' !in path
    ensures CleanProductUrl(path + "?" + query) == CleanProductUrl(path)
    ensures StartsWith(path, ProductPath) ==> CleanProductUrl(path) == Some(Site + path)
  {
    BeforeCharSplit(path, '?', query);
    if StartsWith(path, ProductPath) {
      IsProductUrlByPrefix(path);
    }
  }

  /** The digits at the front of `s` (greedy `\d+`). */
  function LeadingDigits(s: string): (r: string)
    ensures AllDigits(r) && StartsWith(s, r)
    ensures |r| < |s| ==> !IsDigit(s[|r|])
  {
    if s != [] && IsDigit(s[0]) then [s[0]] + LeadingDigits(s[1..]) else []
  }

  lemma LeadingDigitsOf(d: string, rest: string)
    requires AllDigits(d)
    requires rest == [] || !IsDigit(rest[0])
    ensures LeadingDigits(d + rest) == d
  {
    if d != [] {
      assert (d + rest)[1..] == d[1..] + rest;
      LeadingDigitsOf(d[1..], rest);
    } else {
      assert d + rest == rest;
    }
  }

  /** The part `[^/]*?-(\d+)` of the product-ID pattern, matched right after `/product/`:
      the lazy prefix stops at the first `-` followed by a digit, and fails at a `/`. */
  function IdAfterPrefix(s: string): (r: Option<string>)
    ensures r.Some? ==> r.value != [] && AllDigits(r.value)
  {
    if s == [] then None
    else if |s| >= 2 && s[0] == '-' && IsDigit(s[1]) then Some(LeadingDigits(s[1..]))
    else if s[0] == '/' then None
    else IdAfterPrefix(s[1..])
  }

  /** `re.search(r'/product/[^/]*?-(\d+)/?', s)`: the leftmost start position that matches. */
  function SearchProductId(s: string): (r: Option<string>)
    ensures r.Some? ==> r.value != [] && AllDigits(r.value)
  {
    if s == [] then None
    else if StartsWith(s, ProductPath) && IdAfterPrefix(s[|ProductPath|..]).Some? then IdAfterPrefix(s[|ProductPath|..])
    else SearchProductId(s[1..])
  }

  /** `extract_product_id` */
  function ExtractProductId(url: string): (r: Option<string>)
    ensures r.Some? ==> r.value != [] && AllDigits(r.value)
    ensures !Contains(url, ProductPath) ==> r.None?
  {
    if url == [] then None else NoPathNoId(url); SearchProductId(url)
  }

  lemma NoPathNoId(s: string)
    ensures !Contains(s, ProductPath) ==> SearchProductId(s).None?
  {
    if s != [] && !Contains(s, ProductPath) {
      assert !StartsWith(s[0..], ProductPath);
      assert !Contains(s[1..], ProductPath) by {
        if Contains(s[1..], ProductPath) {
          ContainsInSuffix(s, 1, ProductPath);
        }
      }
      NoPathNoId(s[1..]);
    }
  }

  /** `build_product_url`: no URL for an empty ID; `product` stands in for a missing slug. */
  function BuildProductUrl(productId: string, slug: string): (r: Option<string>)
    ensures r.None? <==> productId == []
    ensures r.Some? ==> StartsWith(r.value, ProductBase) && EndsWith(r.value, "/")
  {
    if productId == [] then None
    else if slug != [] then Some(ProductBase + slug + "-" + productId + "/")
    else Some(ProductBase + "product-" + productId + "/")
  }

  /** A slug the ID pattern reads past: no `/` and no `-` directly followed by a digit. */
  predicate PlainSlug(slug: string) {
    forall i | 0 <= i < |slug| :: slug[i] != '/' && (slug[i] == '-' && i + 1 < |slug| ==> !IsDigit(slug[i + 1]))
  }

  lemma {:induction false} IdAfterPlainSlug(slug: string, productId: string)
    requires PlainSlug(slug)
    requires productId != [] && AllDigits(productId)
    ensures IdAfterPrefix(slug + "-" + productId + "/") == Some(productId)
    decreases |slug|
  {
    var s := slug + "-" + productId + "/";
    if slug == [] {
      assert s == "-" + (productId + "/");
      assert s[1..] == productId + "/";
      LeadingDigitsOf(productId, "/");
    } else {
      assert s[0] == slug[0] && s[1] == (if |slug| > 1 then slug[1] else '-');
      assert s[1..] == slug[1..] + "-" + productId + "/";
      IdAfterPlainSlug(slug[1..], productId);
    }
  }

  /** A search never starts a match at a character other than `/`. */
  lemma {:induction false} SearchSkipsNoSlash(p: string, t: string)
    requires '/' !in p
    ensures SearchProductId(p + t) == SearchProductId(t)
    decreases |p|
  {
    if p == [] {
      assert p + t == t;
    } else {
      assert (p + t)[0] == p[0];
      assert (p + t)[1..] == p[1..] + t;
      SearchSkipsNoSlash(p[1..], t);
    }
  }

  /** The site prefix holds no `/product/`, so the search skips it. */
  lemma SearchSkipsSite(t: string)
    requires t != []
    ensures SearchProductId(Site + t) == SearchProductId(t)
  {
    var host := "www.ozon.ru";
    var x := "/" + host + t;
    assert Site + t == "https:" + ("/" + x);
    SearchSkipsNoSlash("https:", "/" + x);
    SlashSkip("/" + x);
    SlashSkip(x);
    assert x[1..] == host + t;
    SearchSkipsNoSlash(host, t);
  }

  /** A `/` not followed by `p` starts no match. */
  lemma SlashSkip(x: string)
    requires |x| >= 2 && x[0] == '/' && x[1] != 'p'
    ensures SearchProductId(x) == SearchProductId(x[1..])
  {
    assert !StartsWith(x, ProductPath) by {
      assert x[1] != ProductPath[1];
    }
  }

  /** Round trip: the ID given to `build_product_url` is what `extract_product_id`
      reads back, for an ASCII-digit ID and a plain slug (or none). */
  lemma ExtractBuiltId(productId: string, slug: string)
    requires productId != [] && AllDigits(productId)
    requires PlainSlug(slug)
    ensures BuildProductUrl(productId, slug).Some?
    ensures ExtractProductId(BuildProductUrl(productId, slug).value) == Some(productId)
  {
    var sl := if slug == [] then "product" else slug;
    var rest := sl + "-" + productId + "/";
    BuiltUrlShape(productId, slug);
    PlainSlugProduct();
    IdAfterPlainSlug(sl, productId);
    SearchAtPath(rest);
    SearchSkipsSite(ProductPath + rest);
  }

  /** A built URL is the site, the product path, the slug (or `product`), `-`, the ID, `/`. */
  lemma BuiltUrlShape(productId: string, slug: string)
    requires productId != []
    ensures BuildProductUrl(productId, slug).value ==
      Site + (ProductPath + ((if slug == [] then "product" else slug) + "-" + productId + "/"))
  {
    assert ProductBase == Site + ProductPath;
  }

  lemma PlainSlugProduct()
    ensures PlainSlug("product")
  {
  }

  /** A match found right at the product path is the one the search returns. */
  lemma SearchAtPath(rest: string)
    requires IdAfterPrefix(rest).Some?
    ensures SearchProductId(ProductPath + rest) == IdAfterPrefix(rest)
  {
    var x := ProductPath + rest;
    assert StartsWith(x, ProductPath);
    assert x[|ProductPath|..] == rest;
  }
}
