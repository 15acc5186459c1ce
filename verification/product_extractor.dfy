/**
 `ProductExtractor` (parser/product_extractor.py): the price-text parsers,
 the product-link post-processing and the rule that accepts a product card.
 What each CSS selector finds on a card is passed in.
 */
module ProductExtractor {
  import opened Text

  const ProductMarker: string := "/product/"

  // ---------------------------------------------------------------------------
  // _parse_price (lines 239-246)
  // ---------------------------------------------------------------------------

  /** `re.sub(r'[^\d\s]', '', text)`: the digits and whitespace, in order. */
  function KeepPriceChars(s: string): (r: string)
    ensures forall i | 0 <= i < |r| :: IsDigit(r[i]) || IsSpace(r[i])
  {
    if s == [] then [] else (if IsDigit(s[0]) || IsSpace(s[0]) then [s[0]] else []) + KeepPriceChars(s[1..])
  }

  /** `_parse_price`: `"0"` for empty text or text without digits, otherwise the digits and
      inner whitespace, trimmed. */
  function ParsePrice(text: string): (r: string)
    ensures text == [] ==> r == "0"
    ensures r != []
    ensures r == "0" || (IsDigit(r[0]) && IsDigit(r[|r| - 1]) && forall i | 0 <= i < |r| :: IsDigit(r[i]) || IsSpace(r[i]))
  {
    if text == [] then "0"
    else
      var cleaned := KeepPriceChars(text);
      var s := Strip(cleaned);
      if s != [] then
        StripInfix(cleaned);
        var k := |cleaned| - |TrimLeft(cleaned)|;
        assert forall i | 0 <= i < |s| :: s[i] == cleaned[k + i];
        s
      else "0"
  }

  lemma {:induction false} KeepPriceCharsDigits(s: string)
    ensures Digits(KeepPriceChars(s)) == Digits(s)
  {
    if s != [] {
      KeepPriceCharsDigits(s[1..]);
      var h := if IsDigit(s[0]) || IsSpace(s[0]) then [s[0]] else [];
      DigitsAppend(h, KeepPriceChars(s[1..]));
    }
  }

  lemma {:induction false} SpacesHaveNoDigits(s: string)
    requires forall i | 0 <= i < |s| :: IsSpace(s[i])
    ensures Digits(s) == []
  {
    if s != [] {
      SpacesHaveNoDigits(s[1..]);
    }
  }

  lemma {:induction false} TrimLeftKeepsDigits(s: string)
    ensures Digits(TrimLeft(s)) == Digits(s)
  {
    if s != [] && IsSpace(s[0]) {
      TrimLeftKeepsDigits(s[1..]);
      assert !IsDigit(s[0]);
    }
  }

  lemma TrimRightKeepsDigits(s: string)
    ensures Digits(TrimRight(s)) == Digits(s)
  {
    var r := TrimRight(s);
    var suf := s[|r|..];
    assert s == r + suf;
    DigitsAppend(r, suf);
    SpacesHaveNoDigits(suf);
  }

  /** Stripping whitespace keeps every digit. */
  lemma StripKeepsDigits(s: string)
    ensures Digits(Strip(s)) == Digits(s)
  {
    TrimLeftKeepsDigits(s);
    TrimRightKeepsDigits(TrimLeft(s));
  }

  /** The parsed price holds exactly the digits of the text, or is `"0"` when there are none. */
  lemma ParsePriceDigits(text: string)
    ensures Digits(ParsePrice(text)) == if Digits(text) == [] then "0" else Digits(text)
  {
    if text != [] {
      var cleaned := KeepPriceChars(text);
      KeepPriceCharsDigits(text);
      StripKeepsDigits(cleaned);
      var s := Strip(cleaned);
      if s != [] {
        StripInfix(cleaned);
        assert s[0] == cleaned[|cleaned| - |TrimLeft(cleaned)|];
        assert IsDigit(s[0]);
        assert Digits(s) != [] by {
          assert s == [s[0]] + s[1..];
          DigitsAppend([s[0]], s[1..]);
        }
      }
    }
  }

  // ---------------------------------------------------------------------------
  // _parse_price_number (lines 248-257)
  // ---------------------------------------------------------------------------

  /** The longest prefix of `s` made of digits. */
  function DigitRunAt(s: string): (r: string)
    ensures |r| <= |s| && r == s[..|r|] && AllDigits(r)
    ensures |r| < |s| ==> !IsDigit(s[|r|])
  {
    if s == [] || !IsDigit(s[0]) then [] else [s[0]] + DigitRunAt(s[1..])
  }

  /** `re.findall(r'\d+', s)`: the maximal runs of digits, in order. */
  function DigitRuns(s: string): (r: seq<string>)
    ensures forall i | 0 <= i < |r| :: r[i] != [] && AllDigits(r[i])
    decreases |s|
  {
    if s == [] then []
    else if !IsDigit(s[0]) then DigitRuns(s[1..])
    else
      var w := DigitRunAt(s);
      [w] + DigitRuns(s[|w|..])
  }

  /** Joining the runs gives back every digit of the text. */
  lemma {:induction false} DigitRunsFlatten(s: string)
    ensures Flatten(DigitRuns(s)) == Digits(s)
    ensures DigitRuns(s) == [] <==> Digits(s) == []
    decreases |s|
  {
    if s != [] {
      if !IsDigit(s[0]) {
        DigitRunsFlatten(s[1..]);
      } else {
        var w := DigitRunAt(s);
        var rest := s[|w|..];
        DigitRunsFlatten(rest);
        assert s == w + rest;
        DigitsAppend(w, rest);
        DigitsOfDigits(w);
        assert Flatten([w] + DigitRuns(rest)) == w + Flatten(DigitRuns(rest));
      }
    }
  }

  /** `_parse_price_number`: the number the text's digits spell when read together, `0` when it
      has none. */
  function ParsePriceNumber(text: string): (r: nat)
    ensures r == NatOfDigits(Digits(text))
  {
    if text == [] then 0
    else
      var runs := DigitRuns(text);
      DigitRunsFlatten(text);
      if runs != [] then NatOfDigits(Flatten(runs)) else 0
  }

  // ---------------------------------------------------------------------------
  // _extract_url (lines 213-237)
  // ---------------------------------------------------------------------------

  /** `_extract_url` as written: the first selector's `href` that contains `/product/`
      anywhere, cut at `?`. Each element of `hrefs` is what one selector found (`""` when it
      found nothing). */
  function ExtractUrlAsWritten(hrefs: seq<string>): (r: string)
    ensures '?' !in r
  {
    if hrefs == [] then []
    else if hrefs[0] != [] && Contains(hrefs[0], ProductMarker) then BeforeChar(hrefs[0], '?')
    else ExtractUrlAsWritten(hrefs[1..])
  }

  /** A one-link card whose marker sits only in the query yields the part before `?`. */
  lemma ExtractUrlAsWrittenCutsQuery(a: string, b: string)
    requires '?' !in a && Contains(b, ProductMarker)
    ensures ExtractUrlAsWritten([a + ['?'] + b]) == a
  {
    ContainsInSuffix(a + ['?'] + b, |a| + 1, ProductMarker);
    assert (a + ['?'] + b)[|a| + 1..] == b;
    BeforeCharSplit(a, '?', b);
  }

  lemma ShortHasNoMarker(s: string)
    requires |s| < |ProductMarker|
    ensures !Contains(s, ProductMarker)
  {
  }

  /** An `href` whose only `/product/` sits in the query, `/shop?r=/product/1`, passes the
      test and yields `/shop`, a link without it. */
  lemma ExtractUrlAsWrittenLosesMarker()
    ensures var href := "/shop" + ['?'] + "r=/product/1";
      Contains(href, ProductMarker) && ExtractUrlAsWritten([href]) == "/shop"
    ensures !Contains("/shop", ProductMarker)
  {
    var href := "/shop" + ['?'] + "r=/product/1";
    MarkerInQuery();
    ContainsInSuffix(href, 6, ProductMarker);
    assert href[6..] == "r=/product/1";
    ExtractUrlAsWrittenCutsQuery("/shop", "r=/product/1");
    ShortHasNoMarker("/shop");
  }

  lemma MarkerInQuery()
    ensures Contains("r=/product/1", ProductMarker)
  {
    assert "r=/product/1"[2..11] == ProductMarker;
    ContainsAt("r=/product/1", ProductMarker, 2);
  }

  /** `_extract_url` with the test applied to the link it returns: the first `href` whose part
      before `?` contains `/product/`. */
  function ExtractUrl(hrefs: seq<string>): (r: string)
    ensures r == [] || (Contains(r, ProductMarker) && '?' !in r)
  {
    if hrefs == [] then []
    else
      var clean := BeforeChar(hrefs[0], '?');
      if hrefs[0] != [] && Contains(clean, ProductMarker) then clean
      else ExtractUrl(hrefs[1..])
  }

  /** When every `href`'s marker occurs before its query, the two definitions agree. */
  lemma {:induction false} ExtractUrlAgrees(hrefs: seq<string>)
    requires forall i | 0 <= i < |hrefs| ::
      Contains(hrefs[i], ProductMarker) ==> Contains(BeforeChar(hrefs[i], '?'), ProductMarker)
    ensures ExtractUrl(hrefs) == ExtractUrlAsWritten(hrefs)
  {
    if hrefs != [] {
      var clean := BeforeChar(hrefs[0], '?');
      if Contains(clean, ProductMarker) {
        ContainsInPrefix(hrefs[0], |clean|, ProductMarker);
      }
      ExtractUrlAgrees(hrefs[1..]);
    }
  }

  // ---------------------------------------------------------------------------
  // extract_product_data (lines 9-31)
  // ---------------------------------------------------------------------------

  /** The dict `extract_product_data` returns. */
  datatype Product = Product(
    name: string,
    priceWithDiscount: string,
    priceWithoutDiscount: string,
    discountPercent: string,
    rating: string,
    reviewsCount: string,
    url: string)

  /** What the field extractors produced for one card; `hrefs` are the link selectors' finds. */
  datatype Card = Card(
    name: string,
    priceWithDiscount: string,
    priceWithoutDiscount: string,
    discountPercent: string,
    rating: string,
    reviewsCount: string,
    hrefs: seq<string>)

  /** The product built from a card's fields and a link, unless the name or the link is empty. */
  function ProductOf(card: Card, url: string): Option<Product> {
    if card.name != [] && url != [] then
      Some(Product(card.name, card.priceWithDiscount, card.priceWithoutDiscount, card.discountPercent,
                   card.rating, card.reviewsCount, url))
    else None
  }

  /** Every field of the product is the card's, and its link is `url`. */
  predicate CarriesCard(p: Product, card: Card, url: string) {
    && p.name == card.name && p.url == url
    && p.priceWithDiscount == card.priceWithDiscount && p.priceWithoutDiscount == card.priceWithoutDiscount
    && p.discountPercent == card.discountPercent && p.rating == card.rating
    && p.reviewsCount == card.reviewsCount
  }

  /** `extract_product_data`: the product, unless its name or link is empty. The link is what
      `_extract_url` gives as written, so it never holds `?` but need not hold `/product/`. */
  function ExtractProductData(card: Card): (r: Option<Product>)
    ensures r.Some? <==> card.name != [] && ExtractUrlAsWritten(card.hrefs) != []
    ensures r.Some? ==> CarriesCard(r.value, card, ExtractUrlAsWritten(card.hrefs))
    ensures r.Some? ==> '?' !in r.value.url
  {
    ProductOf(card, ExtractUrlAsWritten(card.hrefs))
  }

  /** `extract_product_data` on the corrected `_extract_url`: every product link holds
      `/product/` and no query. */
  function ExtractProductDataCorrected(card: Card): (r: Option<Product>)
    ensures r.Some? <==> card.name != [] && ExtractUrl(card.hrefs) != []
    ensures r.Some? ==> CarriesCard(r.value, card, ExtractUrl(card.hrefs))
    ensures r.Some? ==> Contains(r.value.url, ProductMarker) && '?' !in r.value.url
  {
    ProductOf(card, ExtractUrl(card.hrefs))
  }

  /** The two agree on every card whose links hold `/product/` before any query. */
  lemma ExtractProductDataAgrees(card: Card)
    requires forall i | 0 <= i < |card.hrefs| ::
      Contains(card.hrefs[i], ProductMarker) ==> Contains(BeforeChar(card.hrefs[i], '?'), ProductMarker)
    ensures ExtractProductDataCorrected(card) == ExtractProductData(card)
  {
    ExtractUrlAgrees(card.hrefs);
  }

  /** A card whose only link is `/shop?r=/product/1` gives, as written, a product whose link is
      `/shop`; the corrected extraction gives none. */
  lemma ProductFromQueryMarker(card: Card)
    requires card.name != [] && card.hrefs == ["/shop" + ['?'] + "r=/product/1"]
    ensures ExtractProductData(card).Some? && ExtractProductData(card).value.url == "/shop"
    ensures ExtractProductDataCorrected(card).None?
  {
    ExtractUrlAsWrittenLosesMarker();
    assert BeforeChar(card.hrefs[0], '?') == "/shop" by {
      BeforeCharSplit("/shop", '?', "r=/product/1");
    }
    ShortHasNoMarker("/shop");
    assert ExtractUrl(card.hrefs) == ExtractUrl(card.hrefs[1..]);
  }
}
