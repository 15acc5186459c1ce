/**
 `SellerParser.parse_single_seller` (src/parser/category_inn_parser/seller_parser.py):
 the record built for one product page, on the success path and on the
 path where reading the seller raised. What the browser yields is a
 parameter.
 */
module SellerParser {
  import opened Text
  import opened Records

  const ParseError: string := "Ошибка парсинга"
  const NoTitle: string := "Название не найдено"
  const TitleError: string := "Ошибка получения данных"
  const NoSellerLink: string := "Не найдена ссылка на продавца"
  const TitleCap: nat := 100

  /** The dictionary `get_seller_details` returned; `None` is a missing key. */
  datatype Details = Details(sellerName: Option<string>, companyName: Option<string>, inn: Option<string>,
                             sellerLink: Option<string>)

  /** What one product page yields when nothing raises: the details and the visible `h1`
      text (`None` when it did not appear within the wait). */
  datatype PageRead = PageRead(details: Details, title: Option<string>)

  /** `_get_product_title` */
  function ProductTitle(title: Option<string>): (r: string)
    ensures title.Some? ==> |r| <= TitleCap && StartsWith(title.value, r)
    ensures title.None? ==> r == NoTitle
  {
    if title.Some? then PyPrefix(title.value, TitleCap) else NoTitle
  }

  /** `parse_single_seller`; `page` is `None` when reading the seller name or details raised. */
  function ParseSingleSeller(sellerName: string, productLink: string, page: Option<PageRead>): (r: SellerRecord)
    ensures r.productsCount == 1 && |r.samples| == 1 && r.samples[0].url == productLink
    ensures r.filterName == Some(sellerName)
    ensures r.sellerName.Some? && r.companyName.Some? && r.inn.Some? && r.parsedCompanyName.Some?
    ensures page.None? ==>
      r.inn == Some(ParseError) && r.companyName == Some(sellerName) && r.sellerName == Some(sellerName)
      && r.parsedCompanyName == Some(ParseError) && r.samples[0].title == TitleError
    ensures page.Some? && page.value.details.companyName.None? ==>
      r.companyName == Some(sellerName) && r.parsedCompanyName == Some(NotFound)
    ensures page.Some? && page.value.details.companyName.Some? ==>
      r.companyName == r.parsedCompanyName == page.value.details.companyName
    ensures page.Some? && page.value.details.inn.None? ==> r.inn == Some(NotFound)
    ensures r.samples[0].sellerLink.None? <==> page.None?
  {
    match page
      case None =>
        SellerRecord(Some(sellerName), Some(sellerName), Some(ParseError), 1,
                     [Sample(TitleError, productLink, None)], Some(sellerName), Some(ParseError))
      case Some(p) =>
        var d := p.details;
        SellerRecord(Some(GetOr(d.sellerName, NotFound)), Some(GetOr(d.companyName, sellerName)),
                     Some(GetOr(d.inn, NotFound)), 1,
                     [Sample(ProductTitle(p.title), productLink, Some(GetOr(d.sellerLink, NoSellerLink)))],
                     Some(sellerName), Some(GetOr(d.companyName, NotFound)))
  }

  /** When the details carry every key and the title fits, the record reproduces them:
      nothing is replaced by a fallback. */
  lemma SuccessKeepsDetails(sellerName: string, productLink: string, d: Details, title: string)
    requires d.sellerName.Some? && d.companyName.Some? && d.inn.Some? && d.sellerLink.Some?
    requires |title| <= TitleCap
    ensures var r := ParseSingleSeller(sellerName, productLink, Some(PageRead(d, Some(title))));
      r.sellerName == d.sellerName && r.companyName == d.companyName && r.inn == d.inn
      && r.samples == [Sample(title, productLink, d.sellerLink)]
  {
    assert PyPrefix(title, TitleCap) == title;
  }
}
