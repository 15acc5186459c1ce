# OZONScrappy in Dafny

A verified model of the deterministic core of OZONScrappy, a Selenium scraper for the Ozon
marketplace. The scraper collects product links from category pages, opens products to read
the seller's tooltip or modal (company name, tax ID, hours), merges per-seller records, and
writes spreadsheets and text lists. A Telegram bot and a Tk window drive it.

The model replaces the browser, the bot API, the clock and the file system with inputs. These
inputs are the sequence of link sets a scroll loop observes, the tooltip texts and modal rows a
page shows, the reply the bot API gives, and what reading `config.txt` gave. What remains is
pure functions over strings, sequences and maps, plus loops with explicit bounds. Their
contracts state the properties the code promises.

| Dafny module | file | models |
|---|---|---|
| `Text` | text.dfy | Python string operations: `strip`, `lower`, `split`, `join`, `find`, `int`/`str` on digit strings |
| `Markup` | markup.dfy | tag removal, `html.escape`, `<p>` bodies |
| `Records` | records.dfy | seller records, dedup, the INN list helpers |
| `Config` | config.dfy | `src/utils.py` |
| `DataValidators` | validators.dfy | `src/parser/data_validators.py` |
| `SellerDetails` | seller_details.dfy | `src/parser/seller_details_parser.py` |
| `UrlUtils` | url_utils.dfy | `src/parser/category_inn_parser/url_utils.py` |
| `LinkCollector` | link_collector.dfy | `src/parser/category_inn_parser/link_collector.py` |
| `CategoryParser` | category_parser.dfy | `src/parser/category_inn_parser.py` |
| `SellerParser` | seller_parser.dfy | `src/parser/category_inn_parser/seller_parser.py` |
| `FileManager` | file_manager.dfy | `src/parser/category_inn_parser/file_manager.py` |
| `ExcelSaver` | excel_saver.dfy | `src/parser/category_inn_parser/excel_saver.py` |
| `InnParser` | inn_parser.dfy | `parser/inn_parser.py` |
| `SellerProducts` | seller_products.dfy | `parser/seller_products_parser.py` |
| `ProductExtractor` | product_extractor.dfy | `parser/product_extractor.py` |
| `ModalParser` | modal_parser.dfy | `parser/modal_parser.py` |
| `ExcelWriter` | excel_writer.dfy | `parser/excel_writer.py` |
| `GuiSettings` | gui_settings.dfy | the parser settings in `gui/tabs.py` |
| `GuiUtils` | gui_utils.dfy | `gui/utils.py` |
| `ChatAccess` | chat_access.dfy | `src/bot/register_handlers.py` |
| `LogBuffer` | log_buffer.dfy | `bot/telegram_logger.py` and `src/bot/handlers/log_utils.py` |
| `CategoryHandling` | category_handling.dfy | `src/bot/handlers/category_handling.py` |

Conventions:
- Strings are `seq<char>`. Digits are the ASCII digits.
- `lower()` is a table covering ASCII and Cyrillic letters.
- Whitespace is Python's `str.isspace` set.
- Python dicts that keep insertion order are sequences of entries, or an order plus a map.
- A browser observation is a function from the round number to what the page showed. A scroll
  loop therefore terminates by its own counters, not by the length of an input list.

## Model

| member | source | states |
|---|---|---|
| Config.Entry | src/utils.py:64-66 | a line contributes an entry iff it holds `=`; the key has no `=`, and key + "=" + value is the stripped line |
| Config.LoadConfig | src/utils.py:56-59 | a missing or unreadable file gives the empty configuration |
| Config.GetConfigValue | src/utils.py:75-82 | the stored value when the key is present, else the default (always the default for a missing file) |
| Config.LoadLinesKeys | src/utils.py:61-67 | a key is stored iff some line carrying `=` strips and splits to that key |
| Config.LoadLinesStep | src/utils.py:64-67 | a key is stored after a line iff it was stored before or that line sets it |
| Config.LoadLinesLastWins | src/utils.py:67 | for a repeated key, the value of the last line setting it is kept |
| Config.NoEqualsNoEntries | src/utils.py:65 | a file without any `=` gives the empty configuration |
| Markup.StripTags | bot/telegram_logger.py:25 | tag removal never lengthens the text and leaves text without `<` unchanged |
| Markup.Escape | bot/telegram_logger.py:27 | escaped text holds no `<` or `>` and is at least as long as the input |
| Markup.UnescapeEscape | bot/telegram_logger.py:27 | escaping loses nothing: unescaping gives the original text back |
| Markup.UnescapeOne | bot/telegram_logger.py:27 | unescaping the entity of one character in front of any text gives that character back |
| Markup.Paragraphs | src/parser/seller_details_parser.py:523 | no `<p>` body found by the non-greedy match contains `</p>` |
| Markup.MatchAt | src/parser/seller_details_parser.py:523 | a match found at `<p` resumes the scan past the opener and within the text |
| Markup.MatchAtNoClose | src/parser/seller_details_parser.py:523 | the lazy `(.*?)` capture ends at the first `</p>`, so it holds none |
| Markup.MatchAtElement | src/parser/seller_details_parser.py:523 | at an element `<p attrs>body</p>` followed by more text, the capture is exactly the body and the scan resumes right after its `</p>` |
| Markup.NoOpenerNoParagraphs | src/parser/seller_details_parser.py:523 | a text without `<p` yields no body |
| Markup.ParagraphsSkip | src/parser/seller_details_parser.py:523 | a character other than `<` starts no match |
| Markup.ParagraphsAtOpener | src/parser/seller_details_parser.py:523 | at `<p`, the attributes run to the first `>` and the body to the first `</p>`; the search resumes after that `</p>` |
| Markup.ParagraphsFirst | src/parser/seller_details_parser.py:523 | leftmost and non-overlapping: after text without `<`, the first `<p...>body</p>` gives the first body, then the matches of the rest follow |
| Markup.ParagraphsSkipAngle | src/parser/seller_details_parser.py:523 | a `<` followed by anything but `p` starts no match, so the scan moves past it |
| Markup.ParagraphsLeftmost | src/parser/seller_details_parser.py:523 | leftmost and non-overlapping over any prefix without `<p`: the first element after it gives the first body, then the matches of the rest follow |
| Markup.CleanHtmlTags | bot/telegram_logger.py:22-27 | the cleaned text holds no `<` or `>` |
| Markup.CleanHtmlTagsPlain | bot/telegram_logger.py:22-27 | text without `<` comes back unchanged after unescaping |
| DataValidators.InnSeesOnlyDigits | src/parser/data_validators.py:14-18 | the INN test depends only on the digits of the text: it holds for the text iff it holds for its digits alone |
| DataValidators.SingleNumberInn | src/parser/data_validators.py:14-18 | one number set in digit-free text passes iff it has 10 to 15 digits, the INN and OGRN lengths |
| DataValidators.OaoFoundThroughAo | src/parser/data_validators.py:8-11 | "ОАО" is not among the eight markers, yet every text holding it passes through the "АО" marker |
| DataValidators.LoweredTextIsNoCompany | src/parser/data_validators.py:8-11 | the marker test is case-sensitive: no lower-cased text, "ооо" or "ип" included, is a company name |
| DataValidators.LowerCaseInsensitive | src/parser/data_validators.py:21-33 | the address and working-hours tests give the same verdict for a text and its lower-cased form |
| SellerDetails.DigitGroups | src/parser/seller_details_parser.py:612-626 | two digit groups of fewer than ten digits each, separated by a space, split into two words; no single word reaches the ten digits the long-number test needs |
| SellerDetails.SpacedInnIsNoLongNumber | src/parser/seller_details_parser.py:612-645 | "12345 67890" passes the line INN test (10 digits, over 80%) but not the tooltip filter's long-number test |
| SellerDetails.CleanValidity | src/parser/seller_details_parser.py:234-257 | on a record of stripped non-blank values, validity holds iff a company-name or INN key is present |
| SellerDetails.ValidityIsAboutKeys | src/parser/seller_details_parser.py:240-241 | a blank company name still makes the record valid when another value has content: the key's presence counts, not its content |
| SellerDetails.OfKind | src/parser/seller_details_parser.py:477-502 | the lines of one kind are lines of the input, in order, and each is classified as that kind |
| SellerDetails.RecordStep | src/parser/seller_details_parser.py:481-501 | one line overwrites only the key of its kind; any other line is appended to `other_info`, which it creates if absent; every other key is unchanged |
| SellerDetails.RecordAllKeepsLastOfKind | src/parser/seller_details_parser.py:473-502 | the text loop leaves in each key the last line of that kind, and in `other_info` all unclassified lines in order (absent when there are none) |
| SellerDetails.NoAddressLines | src/parser/seller_details_parser.py:493-494 | no line is classified as an address, so the text loop never sets `address` |
| SellerDetails.NonBlankStripped | src/parser/seller_details_parser.py:473 | every kept piece is stripped and non-blank, and there are at most as many as the input pieces |
| SellerDetails.TextLines | src/parser/seller_details_parser.py:473 | the tooltip's lines are stripped, non-blank and hold no newline |
| SellerDetails.NonBlankStrippedFrom | src/parser/seller_details_parser.py:473 | each kept line consists of characters of some input piece |
| SellerDetails.RecordAllClean | src/parser/seller_details_parser.py:473-502 | a record built from clean lines holds only stripped non-blank values and a non-empty `other_info` |
| SellerDetails.OtherNonEmpty | src/parser/seller_details_parser.py:499-501 | `other_info` is created only together with its first line, so it is never an empty list |
| SellerDetails.HtmlTexts | src/parser/seller_details_parser.py:523-529 | each cleaned paragraph text is empty or stripped |
| SellerDetails.HtmlStepFields | src/parser/seller_details_parser.py:531-544 | one paragraph sets at most keys that were unset, only to its own text; the company name is set iff it was unset and the text names a company; address and `other_info` are untouched |
| SellerDetails.HtmlCompanyIsFirst | src/parser/seller_details_parser.py:527-544 | the HTML company name is the first paragraph text naming a company, absent iff none does; address and `other_info` are never set |
| SellerDetails.HtmlCompanyNoneIff | src/parser/seller_details_parser.py:537-538 | the HTML record lacks a company name iff no paragraph names a company |
| SellerDetails.HtmlCompanyWitness | src/parser/seller_details_parser.py:537-538 | a present HTML company name is the text of a paragraph naming a company, with no earlier paragraph doing so |
| SellerDetails.HtmlNeverAddress | src/parser/seller_details_parser.py:543-544 | the HTML fallback never sets `address` (the address test is always false) nor `other_info` |
| SellerDetails.Update | src/parser/seller_details_parser.py:507 | `dict.update`: each key of the HTML record overrides, every other key is kept |
| SellerDetails.ParsedIsClean | src/parser/seller_details_parser.py:464-510 | a parsed record holds only clean values and never an address, so it is valid iff it has a company name or INN |
| SellerDetails.HtmlClean | src/parser/seller_details_parser.py:527-546 | the HTML record holds only stripped non-blank values |
| SellerDetails.HtmlStepClean | src/parser/seller_details_parser.py:531-544 | one paragraph keeps the record clean |
| SellerDetails.TwoKeysSkipHtml | src/parser/seller_details_parser.py:505-507 | with two or more keys from the text, the HTML fallback is not merged |
| SellerDetails.FirstSellerPortal | src/parser/seller_details_parser.py:399-411 | the chosen portal is displayed and looks like seller info; none is chosen iff no portal qualifies |
| SellerDetails.WaitForTooltip | src/parser/seller_details_parser.py:386-422 | a returned portal was seen in a poll that showed more portals than before the click, within the 25 polls, and looks like seller info |
| SellerDetails.FirstNonEmpty | src/parser/seller_details_parser.py:434-450 | the scan returns the first non-empty record, and an empty one iff all are empty |
| SellerDetails.ParseAllTooltips | src/parser/seller_details_parser.py:424-462 | a non-empty result is the parse of some portal; the result is empty iff every portal yields nothing |
| SellerDetails.TryParseCurrentPage | src/parser/seller_details_parser.py:46-100 | without a seller section or info button the result is empty; any result holds only clean values |
| SellerDetails.ParseAllTooltipsClean | src/parser/seller_details_parser.py:424-462 | the fallback scan yields only clean values |
| SellerDetails.FreshProducts | src/parser/seller_details_parser.py:183-191 | the kept links are product or detail hrefs of the selector, not yet visited; none are kept iff the selector has no such link |
| SellerDetails.FindSellerProducts | src/parser/seller_details_parser.py:166-202 | at most ten links, each an unvisited product href |
| SellerDetails.FirstUnvisited | src/parser/seller_details_parser.py:113-119 | the chosen link is in the list and unvisited; none is chosen iff all were visited |
| SellerDetails.FindSellerLink | src/parser/seller_details_parser.py:145-164 | the result is empty or a seller/shop href; it is empty iff no selector holds one |
| SellerDetails.FirstWith | src/parser/seller_details_parser.py:155-161 | the first seller/shop href of one selector, none iff it has none |
| SellerDetails.TryRelated | src/parser/seller_details_parser.py:204-232 | a chosen related link is non-empty and unvisited; none is chosen iff every one of the first three links of every selector is empty or visited |
| SellerDetails.Present | src/parser/seller_details_parser.py:220 | exactly the non-empty links survive |
| SellerDetails.TryAnotherProduct | src/parser/seller_details_parser.py:102-143 | navigation only ever targets a non-empty, unvisited URL |
| SellerDetails.NoStoreMeansRelated | src/parser/seller_details_parser.py:106-139 | without a usable seller or shop link, the related products decide |
| SellerDetails.Seen | src/parser/seller_details_parser.py:53 | the visited set only grows |
| SellerDetails.SeenFromEmpty | src/parser/seller_details_parser.py:53 | from an empty visited set, a page is visited iff it was parsed |
| SellerDetails.AttemptLoop | src/parser/seller_details_parser.py:15-53 | between 1 and 10 rounds run and the counter equals their number; each round records the URL the browser landed on (`driver.current_url`), which may differ from the link followed; the result is the last round's record, all earlier rounds were invalid, and the loop stopped on a valid record, at the tenth round, or when navigation found nothing |
| SellerDetails.NavigatedPagesAreFresh | src/parser/seller_details_parser.py:102-143 | every link followed through navigation was outside the visited set, which holds the landed URLs, when it was chosen |
| SellerDetails.ParseSellerDetails | src/parser/seller_details_parser.py:15-53 | `parse_seller_details`: at most 10 rounds from the start page; the first valid record ends the loop; every link after the first is one navigation picked and is not among the URLs landed on before; when every round lands where its link pointed, the pages are new; an invalid record is returned only after 10 rounds or when navigation fails |
| SellerDetails.NoRedirectFresh | src/parser/seller_details_parser.py:52-53 | if each round landed on the link it followed, a link outside the landed URLs is outside the earlier links |
| SellerDetails.SeenStep | src/parser/seller_details_parser.py:52-53 | one more round adds exactly the URL it landed on |
| SellerDetails.FreshPagesCount | src/parser/seller_details_parser.py:15-44 | pages each new to the ones before them are distinct, and the visited set has one element per page |
| SellerDetails.ParseNewSeller | src/parser/seller_details_parser.py:662-673 | after `reset_for_new_seller`, the visited set holds exactly the URLs this parse landed on, so the visited count `get_attempts_info` reports is at most the attempt counter, between 1 and 10; when every round lands where its link pointed, no page is opened twice and the two counts are equal |
| SellerDetails.SeenSize | src/parser/seller_details_parser.py:52-53 | recording n URLs adds at most n elements to an empty set |
| UrlUtils.RStripSlash | src/parser/category_inn_parser/url_utils.py:15 | `rstrip('/')` keeps a prefix of the URL that does not end in `/`, and drops only slashes |
| UrlUtils.LastSegment | src/parser/category_inn_parser/url_utils.py:15 | `split('/')[-1]` is a suffix without `/`, preceded by a `/` when shorter than the input |
| UrlUtils.CategoryName | src/parser/category_inn_parser/url_utils.py:11-31 | the name is "category" or at least 3 characters long with no `-`, `/` or `?` |
| UrlUtils.CategoryNameOfSegment | src/parser/category_inn_parser/url_utils.py:11-28 | a last segment of 3 or more characters names the category with `-` turned into `_`, with or without trailing slash and query |
| UrlUtils.CategoryNameOfPart | src/parser/category_inn_parser/url_utils.py:15-22 | the name is the query-free last segment with `-` turned into `_` when that part has at least 3 characters |
| UrlUtils.CategoryNameTrailingSlash | src/parser/category_inn_parser/url_utils.py:15 | a trailing slash does not change the last segment |
| UrlUtils.IsProductUrlByPrefix | src/parser/category_inn_parser/url_utils.py:54-66 | `is_product_url` holds iff the URL starts with the absolute or the relative product path |
| UrlUtils.IsCategoryUrlBySubstring | src/parser/category_inn_parser/url_utils.py:68-81 | `is_category_url` holds iff `/category/` occurs |
| UrlUtils.AbsoluteProduct | src/parser/category_inn_parser/url_utils.py:45-46 | a product path made absolute starts with the site's product base, and gains no `?` |
| UrlUtils.CleanProductUrl | src/parser/category_inn_parser/url_utils.py:33-52 | a cleaned URL starts with "https://www.ozon.ru/product/" and holds no `?` |
| UrlUtils.CleanProductUrlFixes | src/parser/category_inn_parser/url_utils.py:33-52 | an absolute product URL without a query is its own clean form |
| UrlUtils.CleanProductUrlIdempotent | src/parser/category_inn_parser/url_utils.py:33-52 | cleaning a cleaned URL gives it back |
| UrlUtils.CleanProductUrlIgnoresQuery | src/parser/category_inn_parser/url_utils.py:40-46 | the query never matters, and a relative product path gets the site prepended |
| UrlUtils.LeadingDigits | src/parser/category_inn_parser/url_utils.py:113 | the greedy `\d+` takes the digits at the front, stopping at the first non-digit |
| UrlUtils.IdAfterPrefix | src/parser/category_inn_parser/url_utils.py:113 | a match after `/product/` captures a non-empty digit string |
| UrlUtils.SearchProductId | src/parser/category_inn_parser/url_utils.py:113-117 | a found ID is a non-empty digit string |
| UrlUtils.ExtractProductId | src/parser/category_inn_parser/url_utils.py:106-122 | the ID is a non-empty digit string, and there is none when `/product/` does not occur |
| UrlUtils.BuildProductUrl | src/parser/category_inn_parser/url_utils.py:124-139 | no URL iff the ID is empty; otherwise it starts with the product base and ends with `/` |
| UrlUtils.BuiltUrlShape | src/parser/category_inn_parser/url_utils.py:130-135 | a built URL is base, slug (or `product` for an empty slug), `-`, ID, `/` |
| UrlUtils.IdAfterPlainSlug | src/parser/category_inn_parser/url_utils.py:113 | after a slug with no `/` and no `-` directly before a digit, the lazy match captures exactly the ID |
| UrlUtils.SearchSkipsNoSlash | src/parser/category_inn_parser/url_utils.py:113-114 | the search finds nothing new in a prefix without `/` |
| UrlUtils.SearchSkipsSite | src/parser/category_inn_parser/url_utils.py:113-114 | the site prefix starts no match |
| UrlUtils.SlashSkip | src/parser/category_inn_parser/url_utils.py:113-114 | a `/` not followed by `p` starts no match |
| UrlUtils.SearchAtPath | src/parser/category_inn_parser/url_utils.py:113-117 | a match right at the product path is the one the search returns |
| UrlUtils.ExtractBuiltId | src/parser/category_inn_parser/url_utils.py:106-135 | round trip: extracting the ID from a URL built from a non-empty digit ID and a plain slug gives the ID back |
| LinkCollector.ExtractLink | src/parser/category_inn_parser/link_collector.py:109-118 | an extracted link is absolute, starts with "https://www.ozon.ru/product/" and holds no `?` |
| LinkCollector.ExtractLinkIsCleanProductUrl | src/parser/category_inn_parser/link_collector.py:111-118 | the inline normalisation agrees with `clean_product_url` on every href |
| LinkCollector.ProductLinks | src/parser/category_inn_parser/link_collector.py:102-123 | every collected link is a clean absolute product URL |
| LinkCollector.ProductLinksMembers | src/parser/category_inn_parser/link_collector.py:107-120 | a link is in the set iff some href normalises to it |
| LinkCollector.Union | src/parser/category_inn_parser/link_collector.py:51-69 | the links seen so far include those of the latest round |
| LinkCollector.UnionGrows | src/parser/category_inn_parser/link_collector.py:51-69 | the seen set only grows from round to round |
| LinkCollector.Observed | src/parser/category_inn_parser/link_collector.py:49-64 | every observed link is a clean absolute product URL |
| LinkCollector.Enumerate | src/parser/category_inn_parser/link_collector.py:52-70 | `extend` with a set adds each of its elements exactly once, in some order |
| LinkCollector.DistinctAppend | src/parser/category_inn_parser/link_collector.py:65-70 | appending only links not yet present keeps the list free of duplicates |
| LinkCollector.ScrollLoop | src/parser/category_inn_parser/link_collector.py:56-84 | the list is duplicate-free and holds exactly the links seen; the idle counter counts the trailing rounds without new links; the loop ends at `total_links`, at `max_idle_scrolls` or at the page end |
| LinkCollector.CollectProductLinks | src/parser/category_inn_parser/link_collector.py:22-98 | `[]` when the tile wait times out; otherwise at most `total_links` distinct clean product links, all seen on the page, and every seen link when fewer were kept |
| CategoryParser.RoundRobin | src/parser/category_inn_parser.py:477-480 | there are exactly `workers_count` shards |
| CategoryParser.RoundRobinIsStride | src/parser/category_inn_parser.py:477-480 | shard `j` is exactly the links at positions `j`, `j + w`, `j + 2w`, ... in input order |
| CategoryParser.RoundRobinStep | src/parser/category_inn_parser.py:477-480 | one more link extends shard `j` exactly when the stride of `j` reaches the link's position |
| CategoryParser.StrideMember | src/parser/category_inn_parser.py:479 | position `n` goes to shard `j` iff `n % w == j` |
| CategoryParser.StrideSizes | src/parser/category_inn_parser.py:477-480 | shard sizes differ by at most one, earlier shards being the larger |
| CategoryParser.StrideNonEmpty | src/parser/category_inn_parser.py:477-480 | shard `j` is non-empty iff there are more than `j` links |
| CategoryParser.RoundRobinPartition | src/parser/category_inn_parser.py:477-480 | the shards together hold every link exactly once (as multisets) |
| CategoryParser.Submitted | src/parser/category_inn_parser.py:489-492 | a worker is submitted iff its shard is non-empty |
| CategoryParser.SubmittedWorkers | src/parser/category_inn_parser.py:489-492 | with fewer links than workers only the first `len(links)` workers run |
| CategoryParser.CountAt | src/parser/category_inn_parser.py:445-456 | counting a product changes only the entry under the key and keeps the key list |
| CategoryParser.MergeStep | src/parser/category_inn_parser.py:432-456 | a rejected observation leaves the table unchanged; an accepted one adds a record only for a new key, leaves other sellers' entries alone, and its key is then present |
| CategoryParser.MergeStepEntries | src/parser/category_inn_parser.py:437-456 | for an accepted link: old entries keep their keys and a new entry, if any, is appended under the link's key; the entry under that key has `products_count` raised by one and takes a `{title[:100], url}` sample while it holds fewer than three; a new key's record starts with the link's company name and INN (defaulting to "Не найдено"), count 0 and no samples before that |
| CategoryParser.AcceptedKeysMembers | src/parser/category_inn_parser.py:432-434 | a key is among the accepted keys exactly when some accepted link is filed under it |
| CategoryParser.MergedKeys | src/parser/category_inn_parser.py:432-442 | a key is in the merged table exactly when some accepted link is filed under it |
| CategoryParser.MergeStepOldKey | src/parser/category_inn_parser.py:437-442 | under a key already present, or one the link is not filed under, every entry of the stepped table was already in the table |
| CategoryParser.InfoUnderStep | src/parser/category_inn_parser.py:437-445 | a link filed under an existing key, or under another key, leaves the company name and INN under a key as they were |
| CategoryParser.InfoUnderFirst | src/parser/category_inn_parser.py:437-442 | the first link filed under a key creates its record with that link's company name and INN |
| CategoryParser.MergeAllFirstInfo | src/parser/category_inn_parser.py:432-442 | over a whole run, a seller's company name and INN are those of the first accepted link filed under its key |
| CategoryParser.MergeAllFirstAtLast | src/parser/category_inn_parser.py:437-442 | when the last link is the first accepted one under its key, the merged table holds that link's company name and INN under the key |
| CategoryParser.CountsMatchStep | src/parser/category_inn_parser.py:445 | one more link keeps each entry's count equal to the number of times its key occurs among the accepted keys |
| CategoryParser.MergeAllKeyCount | src/parser/category_inn_parser.py:432-445 | each seller's `products_count` is the number of accepted links filed under its key |
| CategoryParser.TotalCountAt | src/parser/category_inn_parser.py:445 | counting a product under a present key of a well-keyed table adds exactly one to the total |
| CategoryParser.TotalCountAtAny | src/parser/category_inn_parser.py:445 | counting adds one per entry under the key, whatever the table |
| CategoryParser.NoKeyNoCount | src/parser/category_inn_parser.py:437-445 | counting under an absent key changes nothing |
| CategoryParser.MergeAllKeys | src/parser/category_inn_parser.py:432-443 | a record is created once per key, in the order keys first appear among the accepted links |
| CategoryParser.MergeAllCount | src/parser/category_inn_parser.py:432-445 | the products counted over all sellers equal the number of accepted links |
| CategoryParser.MergeStepCount | src/parser/category_inn_parser.py:437-445 | one accepted link adds exactly one to the total count |
| CategoryParser.MergeAllSampleCap | src/parser/category_inn_parser.py:447-456 | no record ever holds more than three samples |
| CategoryParser.MergeStepSampleCap | src/parser/category_inn_parser.py:448 | one link keeps every record at three samples or fewer |
| CategoryParser.CountPermutation | src/parser/category_inn_parser.py:487-499 | the number of accepted links does not depend on the order the workers took the lock in |
| CategoryParser.ParseSellersCount | src/parser/category_inn_parser.py:404-502 | the total product count equals the number of accepted links, whatever the sharding, and keys are distinct |
| CategoryParser.InnListIsDedup | src/parser/category_inn_parser.py:374-379 | the INN loop is the deduplication of the usable INNs in table order |
| CategoryParser.DedupSnoc | src/parser/category_inn_parser.py:378-379 | appending to the deduplicated list adds an element iff it is new |
| CategoryParser.InnListProperties | src/parser/category_inn_parser.py:374-379 | the written INNs are distinct, non-empty, never "Не найдено", exactly the table's usable INNs, and in first-occurrence order |
| CategoryParser.SellerRows | src/parser/category_inn_parser.py:311-340 | a seller gives one row per sample (company, INN, URL), or a single row with an empty link when it has no sample |
| Records.SheetRowAt | src/parser/category_inn_parser.py:299-325 | in a sheet of a header row and per-entry blocks, entry `j`'s `k`-th row sits right after the header and the rows of the entries before `j` |
| CategoryParser.SheetLayout | src/parser/category_inn_parser.py:310-352 | seller `j`'s `k`-th row is row `2 + (rows of earlier sellers) + k`, and the auto-filter ends at the last row written |
| CategoryParser.InsertByCount | src/parser/category_inn_parser.py:585 | inserting keeps every entry (as multisets) |
| CategoryParser.SortByCount | src/parser/category_inn_parser.py:585 | sorting is a permutation of the table |
| CategoryParser.InsertKeepsOrder | src/parser/category_inn_parser.py:585 | inserting into a non-increasing list keeps it non-increasing |
| CategoryParser.InsertStable | src/parser/category_inn_parser.py:585 | inserting keeps the relative order of entries with equal counts |
| CategoryParser.SortByCountCorrect | src/parser/category_inn_parser.py:585 | sellers are listed by non-increasing product count, as a permutation, and equal counts keep their table order (the sort is stable, also with `reverse=True`) |
| CategoryParser.FormatResults | src/parser/category_inn_parser.py:576-594 | on the seller entries alone, the "no sellers" message is given iff there are none; otherwise the message opens with the header giving their number |
| CategoryParser.SellerBlocksNumbered | src/parser/category_inn_parser.py:587-590 | the loop's text is the blocks in order, the `k`-th showing the `k`-th seller under number `i + k` |
| CategoryParser.FormatResultsContent | src/parser/category_inn_parser.py:576-594 | the message is the header, then one block per seller numbered from 1, sellers by non-increasing product count with ties in dictionary order and none lost or repeated, then the footer |
| CategoryParser.ParseCategory | src/parser/category_inn_parser.py:504-545 | no links give `{}`; the `_files` entry is added iff the run found sellers, with the category name of the link; the sellers are those of `parse_sellers_from_links` |
| CategoryParser.FormatResultsAsWritten | src/parser/category_inn_parser.py:576-594 | a dictionary holding `_files` makes the sort raise `KeyError('products_count')`; one without it gives the message, "no sellers" iff it is empty |
| CategoryParser.OnlyEmptyRunsFormat | src/parser/category_inn_parser.py:535-585 | on what `parse_category` returns, the message is "no sellers" for a run without sellers, and every run that found one raises |
| Records.Keys | src/parser/category_inn_parser.py:437-443 | the key list of an insertion-ordered dictionary has one key per entry, in order |
| Records.Dedup | src/parser/category_inn_parser.py:374-379 | `if x not in acc: acc.append(x)` gives a duplicate-free list of exactly the input's elements |
| Records.FirstIndex | src/parser/category_inn_parser.py:378 | the first position holding the element, with no earlier occurrence |
| Records.DedupFirstOccurrenceOrder | src/parser/category_inn_parser.py:374-379 | deduplication keeps elements in the order of their first occurrence |
| Records.UsableInns | src/parser/category_inn_parser.py:377-378 | the kept INNs are non-empty and not "Не найдено" |
| Records.UsableInnsMembers | src/parser/category_inn_parser.py:376-378 | an INN is kept iff it is usable and some entry carries it |
| Records.SellerEntries | src/parser/category_inn_parser/file_manager.py:41-43 | the kept entries have no `_`-prefixed key |
| Records.RowsOfBlock | src/parser/category_inn_parser/excel_saver.py:63-104 | an entry's block of rows starts right after the blocks of the entries before it |
| FileManager.InnLines | src/parser/category_inn_parser/file_manager.py:39-47 | every written INN is non-empty and not "Не найдено" |
| FileManager.InnLinesSkipsBookkeeping | src/parser/category_inn_parser/file_manager.py:41-43 | `_`-prefixed keys contribute nothing: the list is the category parser's INN list of the seller entries |
| FileManager.SellerEntriesMembers | src/parser/category_inn_parser/file_manager.py:41-43 | an entry survives the filter iff its key does not start with `_` |
| FileManager.InnLinesProperties | src/parser/category_inn_parser/file_manager.py:39-47 | the written INNs are distinct, in first-occurrence order, and exactly the usable INNs of the seller entries |
| FileManager.ErrorMarkerWritten | src/parser/category_inn_parser/file_manager.py:45-47 | "Ошибка парсинга", the marker of a failed product page, is not filtered and is written as an INN |
| FileManager.FileContentShape | src/parser/category_inn_parser/file_manager.py:50-51 | the file is empty iff there is no INN, and otherwise ends with the last INN (no trailing newline) |
| FileManager.FileContentLines | src/parser/category_inn_parser/file_manager.py:50-51 | splitting the file at newlines gives the list back when no INN holds a line break |
| ExcelSaver.KeepSafe | src/parser/category_inn_parser/excel_saver.py:43 | the filter keeps only letters, digits, space, `-` and `_`, and never lengthens the name |
| ExcelSaver.SafeCategoryName | src/parser/category_inn_parser/excel_saver.py:43 | the name holds only kept characters and does not end in a space |
| ExcelSaver.KeepSafeFixes | src/parser/category_inn_parser/excel_saver.py:43 | a name made only of kept characters passes the filter unchanged |
| ExcelSaver.KeepSafeMembers | src/parser/category_inn_parser/excel_saver.py:43 | a character survives iff it occurs in the name and is a kept character |
| ExcelSaver.SafeCategoryNameIdempotent | src/parser/category_inn_parser/excel_saver.py:43 | sanitising twice changes nothing |
| ExcelSaver.SellerRows | src/parser/category_inn_parser/excel_saver.py:66-104 | `_` keys give no row; a seller gives one 4-column row per sample, or one row when it has none; name (falling back to the key), company and INN appear on the first row only; column 4 is the sample URL |
| ExcelSaver.AutoFilter | src/parser/category_inn_parser/excel_saver.py:121-123 | the filter is set iff at least one data row was written |
| ExcelSaver.SheetLayout | src/parser/category_inn_parser/excel_saver.py:63-123 | seller `j`'s `k`-th row is row `2 + (rows of earlier entries) + k`, and the filter covers A1:D{last row} |
| ExcelSaver.StatsOfSellerEntries | src/parser/category_inn_parser/excel_saver.py:153-155 | `_` entries change no figure and no sheet row: the statistics and rows of the table equal those of its seller entries |
| ExcelSaver.SellersWithInnBound | src/parser/category_inn_parser/excel_saver.py:153-155 | `sellers_with_inn` never exceeds `total_sellers` |
| ExcelSaver.RowCount | src/parser/category_inn_parser/excel_saver.py:63-155 | the data rows number `total_products` plus the sellers without samples, between `total_products` and `total_products + total_sellers` |
| SellerParser.ProductTitle | src/parser/category_inn_parser/seller_parser.py:48-55 | a visible title is cut to at most its first 100 characters; without one the title is "Название не найдено" |
| SellerParser.ParseSingleSeller | src/parser/category_inn_parser/seller_parser.py:14-46 | both paths give `products_count` 1 and one sample carrying the product link, with `filter_name` the seller name; the error path gives INN "Ошибка парсинга" and the seller name as company; on success a missing company falls back to the seller name (and `parsed_company_name` to "Не найдено"), a missing INN to "Не найдено"; only the error record's sample lacks a `seller_link` |
| SellerParser.SuccessKeepsDetails | src/parser/category_inn_parser/seller_parser.py:20-32 | details carrying every key, with a title that fits, are reproduced in the record and its sample |
| InnParser.ExtractInn | parser/inn_parser.py:308-332 | both fields default to "Не найдено" and are copied from the details only when present; a raise leaves both defaults |
| InnParser.NameAfterKeeps | parser/inn_parser.py:199-205 | a seller name found on the shop page is never replaced |
| InnParser.NameAfterSnoc | parser/inn_parser.py:199-205 | the name after one more visit is one more name step |
| InnParser.Visits | parser/inn_parser.py:191 | the visits are the product links' pages, in order |
| InnParser.ParseSingleSeller | parser/inn_parser.py:162-228 | all fields stay "Не найдено" when the seller page fails; with no links only the name changes; at most min(links, 10) products are tried, in order; the INN is set iff the last product tried yielded a usable one, all earlier ones having failed, and then company and INN come from it; otherwise all the allowed products were tried; a missing name is taken from a product page |
| InnParser.CleanHref | parser/inn_parser.py:288 | the cleaned link is a prefix of the href without `?` or `#` |
| InnParser.CleanedMatches | parser/inn_parser.py:284-290 | a link is collected iff some product or detail href cleans to it |
| InnParser.SelectorLinks | parser/inn_parser.py:284-290 | one selector contributes each cleaned product link once, and exactly those |
| InnParser.GetProductLinks | parser/inn_parser.py:261-306 | at most 20 distinct links, none holding `?` or `#` |
| InnParser.GetProductLinksSource | parser/inn_parser.py:278-299 | the list is empty iff no selector holds a product or detail href; otherwise it is the first 20 links of the first selector yielding any |
| InnParser.SelectorLinksEmpty | parser/inn_parser.py:284-290 | a selector contributes no link iff none of its hrefs passes the test |
| InnParser.LinksEmptyIff | parser/inn_parser.py:278-299 | no links are returned iff no selector holds an href that passes the test |
| InnParser.LinksFirstSelector | parser/inn_parser.py:278-299 | returned links are the first 20 of the first selector yielding any, every earlier selector yielding none |
| InnParser.CleanDropsQuery | parser/inn_parser.py:288 | cleaning drops everything from the first `?` on |
| InnParser.QueryHidesMarker | parser/inn_parser.py:286-288 | an href kept for a marker in its query is cleaned to the part before the query |
| InnParser.MarkedIsProductHref | parser/inn_parser.py:286-288 | the corrected test, a marker in the cleaned link, is stricter than the test on the raw href |
| InnParser.KeepMarked | parser/inn_parser.py:286 | exactly the hrefs whose cleaned link holds a marker are kept |
| InnParser.GetProductLinksCorrected | parser/inn_parser.py:278-299 | with the test on the cleaned link: at most 20 distinct links, each holding `/product/` or `/detail/` |
| InnParser.LinksFromGroups | parser/inn_parser.py:284-290 | every returned link is the cleaned form of a kept href of some selector |
| InnParser.CleanedMatchesOfMarked | parser/inn_parser.py:284-290 | when every kept href keeps its marker after cleaning, narrowing to the corrected test collects the same links |
| InnParser.CleanedMatchesSnoc | parser/inn_parser.py:284-290 | one more href adds its cleaned link iff it passes the test |
| InnParser.GetProductLinksAgree | parser/inn_parser.py:278-299 | the corrected links equal the links as written whenever no kept href holds its marker only in the query or fragment |
| InnParser.QueryMarkerLink | parser/inn_parser.py:286-288 | for any href `a?b` whose marker lies only in `b`, the loop as written returns `[a]`, which holds no marker; the corrected test returns nothing |
| InnParser.ResultFor | parser/inn_parser.py:63-90 | a row keeps the seller URL; an exception gives "Ошибка" in all three fields, otherwise the INN of the parse |
| InnParser.ParseUrlList | parser/inn_parser.py:48-103 | `False` iff the list is empty; otherwise exactly one row per URL, in order |
| InnParser.FoundCountOfList | parser/inn_parser.py:364 | the found count is the number of sellers whose parse neither raised nor ended with "Не найдено" or "Ошибка"; as written, line 364 is never reached (see Findings), so the corrected save is what uses it |
| InnParser.SellerProduct | parser/inn_parser.py:343-353 | a result becomes the writer row: seller name, company name, INN, three blanks, seller URL |
| InnParser.Returned | parser/inn_parser.py:334-374 | the method returns a path iff the file was saved, `None` on every other branch |
| InnParser.SaveResults | parser/inn_parser.py:334-374 | no results gives the warning branch; a writer method that does not exist raises `AttributeError`, caught by the `except`; the file is saved iff there are results, the method exists and the writer returned a path |
| InnParser.SaveAsWrittenNeverSaves | parser/inn_parser.py:357 | as written, with `save_sellers_to_excel`, nothing is ever saved and every non-empty run ends in the `except` branch |
| InnParser.SaveCorrectedContent | parser/inn_parser.py:343-369 | with `save_to_excel`, the sheet has one row per result in order, carrying the seller's fields in the columns above, and the found count covers the rows whose INN was found |
| InnParser.SaveCorrectedCount | parser/inn_parser.py:364 | with `save_to_excel`, the saved count is the number of URLs whose seller parsed with an INN found |
| SellerProducts.Urls | parser/seller_products_parser.py:90-92 | the URL list is as long as the product list and lists each product's URL in position |
| SellerProducts.AddCardConsistent | parser/seller_products_parser.py:89-93 | one card keeps `products` and `unique_product_urls` in step (distinct URLs, the set holding exactly them) and appends at most that card's product |
| SellerProducts.ExtendsTrans | parser/seller_products_parser.py:87-93 | appending only products with unseen URLs is preserved across successive cards |
| SellerProducts.AddCardExtends | parser/seller_products_parser.py:90-92 | a card's product is appended only if its URL was unseen, and its URL is seen afterwards |
| SellerProducts.InPageOrderMembers | parser/seller_products_parser.py:87-93 | every product read off the cards in page order is the product of one of those cards |
| SellerProducts.ExtractProductsFromPage | parser/seller_products_parser.py:80-103 | the products held before stay in place and the returned count is the number appended; the appended products are the products of the page's cards, read off in page order with at most one per card; each appended URL was unseen before; every extracted card's URL is seen afterwards; the two fields stay in step |
| SellerProducts.AppendedInPageOrder | parser/seller_products_parser.py:87-93 | what the first card appends followed by what the remaining cards append is read off the whole card list in page order |
| SellerProducts.NothingNewCountsZero | parser/seller_products_parser.py:90-99 | a page whose every extracted URL is already held changes nothing and counts zero |
| SellerProducts.TrailingZeros | parser/seller_products_parser.py:208-216 | the count covers exactly the rounds at the end that brought nothing: the round before them brought something |
| SellerProducts.BatchedStep | parser/seller_products_parser.py:204-206 | appending the batch one more round reads off its page keeps the products split into per-round batches, each in its page's card order, the gain being the batch's size |
| SellerProducts.BatchedCards | parser/seller_products_parser.py:192-212 | when the products split into per-round batches and a scroll that did not grow the page gained nothing, every product is the product of a card of the first page or of a page a scroll grew, and the number of products is the first extraction's count plus the sum of the scrolls' gains |
| SellerProducts.ScanStep | parser/seller_products_parser.py:202-216 | a round that appends cards of its own page in page order, and only when the scroll grew the page, keeps the loop's invariant: fields in step, no gain without growth, counter equal to the trailing fruitless rounds and at most three, products split into batches |
| SellerProducts.ScanRound | parser/seller_products_parser.py:200-216 | one pass records one more gain and keeps the invariant; products are only appended; the counter is reset exactly when new products arrived, and otherwise is raised by one with the products unchanged; a scroll that did not grow the page leaves the parser's state as it was |
| SellerProducts.Scroll | parser/seller_products_parser.py:198-216 | the loop keeps the invariant, only appends products, and ends with 150 products or three fruitless rounds in a row |
| SellerProducts.ParseProducts | parser/seller_products_parser.py:179-243 | `False` with no products when the page fails to load; `True` iff the page loaded, some product was collected and saving succeeded; the URLs are distinct; a scroll that did not grow the page gains nothing; the retry counter is the number of rounds at the end that gained nothing, at most three; the loop stops with 150 products or three such rounds; the products split into per-round batches read off each round's cards in page order, so every product is a card of the first page or of a grown page and their number is `initial_count` plus the scrolls' gains |
| ProductExtractor.KeepPriceChars | parser/product_extractor.py:245 | only digits and whitespace remain |
| ProductExtractor.ParsePrice | parser/product_extractor.py:239-246 | "0" for empty text; otherwise either "0" or a text of digits and whitespace that starts and ends with a digit |
| ProductExtractor.ParsePriceDigits | parser/product_extractor.py:239-246 | the parsed price holds exactly the text's digits, in order, or is "0" when there are none |
| ProductExtractor.DigitRuns | parser/product_extractor.py:254 | every run is a non-empty string of digits |
| ProductExtractor.DigitRunsFlatten | parser/product_extractor.py:254-256 | the runs joined are the text's digits, and there is no run iff the text has no digit |
| ProductExtractor.ParsePriceNumber | parser/product_extractor.py:248-257 | the number is the value of the text's digits read together: 0 when there are none |
| ProductExtractor.ExtractUrlAsWritten | parser/product_extractor.py:213-237 | the result never holds `?` |
| ProductExtractor.ExtractUrlAsWrittenCutsQuery | parser/product_extractor.py:228-229 | an `href` with `/product/` only in its query yields the part before `?` |
| ProductExtractor.ExtractUrlAsWrittenLosesMarker | parser/product_extractor.py:228-229 | "/shop?r=/product/1" yields "/shop", which holds no `/product/` |
| ProductExtractor.MarkerInQuery | parser/product_extractor.py:228 | the query "r=/product/1" holds the marker, so the `href` passes the test |
| ProductExtractor.ExtractUrl | parser/product_extractor.py:213-237 | the result is empty or a link that holds `/product/` and no `?` |
| ProductExtractor.ExtractUrlAgrees | parser/product_extractor.py:224-233 | when every `href`'s marker comes before its query, the corrected definition gives what the code gives |
| ProductExtractor.ExtractProductData | parser/product_extractor.py:9-31 | a product comes back iff the name and the link `_extract_url` gives as written are non-empty; it carries the card's fields and that link, which holds no `?` |
| ProductExtractor.ExtractProductDataCorrected | parser/product_extractor.py:9-31 | with the corrected link, a product comes back iff the name and that link are non-empty, and its link holds `/product/` and no `?` |
| ProductExtractor.ExtractProductDataAgrees | parser/product_extractor.py:9-31 | the two give the same product for every card whose links hold `/product/` before any query |
| ProductExtractor.ProductFromQueryMarker | parser/product_extractor.py:19-24 | a named card whose only link is "/shop?r=/product/1" yields a product linked to "/shop" as written, and none when corrected |
| ModalParser.ParseNumber | parser/modal_parser.py:111-113 | `None` for an empty value; `int('')` raises for a value without digits; otherwise the number its digits spell |
| ModalParser.ParseRating | parser/modal_parser.py:115-120 | a found rating is a run of digits, or holds the `.` a comma became |
| ModalParser.FirstRatingRun | parser/modal_parser.py:117 | a match is a non-empty run of digits and commas |
| ModalParser.ModalStep | parser/modal_parser.py:62-89 | the label and value texts are stripped first; a row without a label, with an unknown label, without a value, or whose stripped number raises changes nothing; a "Premium" label sets only the premium flag, which is never cleared; a "Заказов" label sets only the orders count to the parsed stripped value, "Работает" only the working-since text to the stripped value, "Средняя оценка" only the rating (unless it raises), "Количество отзывов" only the reviews count |
| ModalParser.BlankValueClears | parser/modal_parser.py:75-85 | a value of only whitespace strips to "", which `_parse_number` maps to `None`: it clears the orders or reviews count an earlier row set |
| ModalParser.SinceStoredStripped | parser/modal_parser.py:75-81 | the working-since text is stored stripped: it is the piece of the value after its leading whitespace, with no whitespace at either end |
| ModalParser.StepWrites | parser/modal_parser.py:62-89 | after one row, each field holds what that row writes into it, or what it held before |
| ModalParser.ParseModalData | parser/modal_parser.py:43-91 | no rows give the initial record (not premium, all else `None`); the record is premium iff some stripped label contains "Premium"; the orders count, working-since text, rating and reviews count are each what the last row whose stripped label selects that field and whose stripped value parses wrote (a blank value writes `None` into a count), or `None` when there is none |
| ModalParser.PremiumIffRow | parser/modal_parser.py:45-71 | the record is premium iff some row's stripped label contains "Premium" |
| ModalParser.FoldSnoc | parser/modal_parser.py:62-89 | the rows are processed in order: one more row is one more step |
| ModalParser.LastWins | parser/modal_parser.py:62-89 | each field holds what the last row writing it wrote: rows of other labels, without a value, or whose stripped value makes the parser raise never touch it; a blank value is not such a row, it writes `None` into a count |
| ExcelWriter.ProductRow | parser/excel_writer.py:50-57 | seven columns, the name first and the link last |
| ExcelWriter.HeaderCells | parser/excel_writer.py:42-43 | the headers go to row 1, columns in order |
| ExcelWriter.SaveToExcel | parser/excel_writer.py:17-103 | seven cells per product plus the header row |
| ExcelWriter.DataCellsCount | parser/excel_writer.py:50-57 | seven cells per product |
| ExcelWriter.DataCellAt | parser/excel_writer.py:50-57 | product `i`, column `k` is written to row `i + 2`, column `k + 1` |
| ExcelWriter.SheetLayout | parser/excel_writer.py:31-90 | row 1 holds the seven headers in order; product `i` fills row `i + 2`, columns A to G; the auto-filter spans A1 to G of the last row |
| ExcelWriter.ReplaceAll | parser/excel_writer.py:118-119 | the replacements keep the length |
| ExcelWriter.CleanFilename | parser/excel_writer.py:115-120 | the cleaned name is as long as the input |
| ExcelWriter.ReplaceAllPointwise | parser/excel_writer.py:118-119 | the chained replacements act character by character |
| ExcelWriter.CleanFilenameSpec | parser/excel_writer.py:115-120 | each invalid character becomes `_`, every other character is kept, and no invalid character remains |
| ExcelWriter.CleanFilenameIdempotent | parser/excel_writer.py:115-120 | cleaning twice is cleaning once |
| GuiSettings.KeyNamed | gui/tabs.py:416-425 | a recognised key text is the name of its key |
| GuiSettings.KeyNamedName | gui/tabs.py:416-425 | each key's name is recognised as that key |
| GuiSettings.WithValue | gui/tabs.py:417-425 | setting one variable leaves the other two unchanged |
| GuiSettings.Assignment | gui/tabs.py:411-414 | a line is an assignment iff it holds `=` and does not start with `#` |
| GuiSettings.AssignmentOf | gui/tabs.py:411-414 | `a=v`, with `a` holding no `=` and not a comment, assigns the stripped `v` to the stripped `a` |
| GuiSettings.KeyLineReads | gui/tabs.py:372-425 | a written `KEY=value` line reads back as that key and value |
| GuiSettings.LineAssignmentStrip | gui/tabs.py:368-410 | a line reads the same once stripped |
| GuiSettings.Classify | gui/tabs.py:367-377 | one classification per line, in order |
| GuiSettings.SaveParserSettings | gui/tabs.py:345-389 | after the input lines (one each, stripped or rewritten as `KEY=value`) come the section comment iff no parser key was assigned, then one line for each key not assigned |
| GuiSettings.KeysOfIff | gui/tabs.py:371-373 | a key is collected iff some classified line assigns it |
| GuiSettings.UpdatedKeysIff | gui/tabs.py:365-373 | a key counts as updated iff some line of the file assigns it |
| GuiSettings.KeyTextsDiffer | gui/tabs.py:372-385 | different keys never write the same line |
| GuiSettings.MissingTextsCount | gui/tabs.py:383-385 | each key is appended exactly once when no line assigned it, and never otherwise |
| GuiSettings.CountTerminate | gui/tabs.py:385 | adding the newline keeps the count of each line |
| GuiSettings.SaveLayout | gui/tabs.py:364-385 | the file had no parser key iff no line assigned one; after the input lines and the comment, each key's line appears once if no line assigned it and never otherwise |
| GuiSettings.LoadParserSettings | gui/tabs.py:401-406 | a missing file leaves the variables as they were |
| GuiSettings.LoadParsedUnassigned | gui/tabs.py:409-425 | a variable no classified line assigns keeps its value |
| GuiSettings.LoadParsedLast | gui/tabs.py:409-425 | the last classified line that assigns a key sets its value |
| GuiSettings.LoadLastWins | gui/tabs.py:408-425 | for each variable, the last line of the file that assigns it wins |
| GuiSettings.LoadUnassigned | gui/tabs.py:408-425 | a variable no line assigns keeps its value |
| GuiSettings.LinesTextSplit | gui/tabs.py:389-409 | lines written with newlines split back into the same lines, plus an empty last piece |
| GuiSettings.WrittenText | gui/tabs.py:381-389 | the written list concatenated is the physical lines joined by newlines, with the section comment on its own line after an empty one |
| GuiSettings.KeyTextAgrees | gui/tabs.py:372-385 | a `KEY=value` line of single-line unpadded settings reads back as that key and value |
| GuiSettings.MergedLineAgrees | gui/tabs.py:367-377 | a rewritten line agrees with the new settings and assigns every key the original line assigned |
| GuiSettings.WrittenLinesAssign | gui/tabs.py:364-385 | every parser key is assigned by some line of the written file |
| GuiSettings.LoadWritten | gui/tabs.py:364-425 | reading the written lines back gives the saved settings |
| GuiSettings.SaveThenLoad | gui/tabs.py:345-425 | loading the file just saved gives back the saved values, whatever the variables held before, provided the values are single-line and unpadded and each original line holds no newline once stripped |
| GuiSettings.ResetSaveLoad | gui/tabs.py:436-442 | after a reset, saving then loading restores "150", "2.0" and "30" |
| GuiUtils.LStripChar | gui/utils.py:23 | only leading copies of the character are removed, and the result does not start with it |
| GuiUtils.Issues | gui/utils.py:20-24 | the issues are listed in the order the tests run, and each one appears iff its test failed |
| GuiUtils.TestConfig | gui/utils.py:12-33 | a warning that a field is empty iff either stripped entry is empty; otherwise the issues in order: no colon iff the token lacks `:`, too short iff under 35 characters, bad chat ID iff it is not digits after leading dashes |
| GuiUtils.TestConfigPasses | gui/utils.py:12-31 | the check passes iff both fields are filled, the token holds a colon and at least 35 characters, and the chat ID is digits after optional dashes |
| GuiUtils.DashesThenDigits | gui/utils.py:23 | any number of leading dashes before digits is accepted |
| GuiUtils.DashesOnly | gui/utils.py:23 | a chat ID of dashes only is refused |
| GuiUtils.DashInsideRefused | gui/utils.py:23 | a dash after the first digit is refused |
| GuiUtils.UpdateConfigInfo | gui/utils.py:35-54 | "not found" iff the file is missing; "read error" iff reading failed; "configured" iff some line sets the token and some line sets the chat ID; otherwise the missing list names exactly the keys no line sets |
| GuiUtils.AnySetsIff | gui/utils.py:41-42 | `any` holds iff some line sets the key |
| GuiUtils.LineSetsIff | gui/utils.py:41-42 | a line sets a key iff it starts with `KEY=` and some non-blank character follows |
| GuiUtils.SetLineStoresKey | gui/utils.py:41-42 | a line the status counts as setting `KEY=` also stores `KEY` in the configuration the bot reads |
| ChatAccess.DigitsDecimal | src/bot/register_handlers.py:29 | a digit string is a valid decimal literal |
| ChatAccess.DropUnderscores | src/bot/register_handlers.py:29 | removing the underscores of a literal leaves only digits |
| ChatAccess.PyInt | src/bot/register_handlers.py:29 | `int()` succeeds iff the stripped text is a decimal literal, optionally signed, and a negative result comes from a leading `-` |
| ChatAccess.DropUnderscoresDigits | src/bot/register_handlers.py:29 | a literal without underscores is unchanged |
| ChatAccess.PyIntRoundTrip | src/bot/register_handlers.py:29 | `int(str(i)) == i` for every integer |
| ChatAccess.PyIntIgnoresBlanks | src/bot/register_handlers.py:29 | surrounding whitespace does not change the conversion |
| ChatAccess.PyIntRefuses | src/bot/register_handlers.py:29-32 | a character that no integer literal holds makes the conversion fail |
| ChatAccess.AllowedChatId | src/bot/register_handlers.py:22-34 | no restriction when the key is missing or empty; otherwise the integer the value spells, or none when it is not one |
| ChatAccess.CheckChatId | src/bot/register_handlers.py:36-43 | the message passes iff no chat ID is set or it comes from that chat; a refused message gets the reply "Вам доступ запрещен." |
| ChatAccess.Wrapped | src/bot/register_handlers.py:45-54 | the handler runs at most once, exactly when the check passes, and with the state iff one was given; a refused message only gets the reply |
| ChatAccess.NonIntegerFailsOpen | src/bot/register_handlers.py:27-39 | a chat ID that is set but is not an integer lets every chat through |
| ChatAccess.ConfiguredChatOnly | src/bot/register_handlers.py:22-54 | a chat ID written as Python prints the integer `a` admits chat `a` and refuses every other chat |
| LogBuffer.PieceStart | bot/telegram_logger.py:44 | the last piece starts inside the text |
| LogBuffer.StripLogPrefix | bot/telegram_logger.py:44 | the shortened line is a suffix of the entry, and equals it iff the entry holds no " - " |
| LogBuffer.FirstSeparator | bot/telegram_logger.py:44 | the first " - " of `a - rest` is the one after a plain field `a` |
| LogBuffer.SkipField | bot/telegram_logger.py:44 | splitting `a - rest` skips the plain field `a` and its separator |
| LogBuffer.StripLogPrefixFormat | bot/telegram_logger.py:44 | a line in the format `time - name - level - message` shortens to its message, whatever separators the message holds (format at bot/central_logger.py:25) |
| LogBuffer.AddEntry | bot/telegram_logger.py:50-56 | the new line is last; a section break empties the buffer first; the buffer never exceeds fifteen lines |
| LogBuffer.AddEntryWindow | bot/telegram_logger.py:53-56 | without a break, one more line is one more step of the fifteen-line window |
| LogBuffer.BufferIsWindow | bot/telegram_logger.py:50-56 | without a section break, the buffer is the fifteen most recent lines, oldest first |
| LogBuffer.BufferAfterBreak | bot/telegram_logger.py:50-56 | after a section break, the buffer holds the most recent lines from the last break on, and nothing from before it |
| LogBuffer.PySuffix | bot/telegram_logger.py:62 | `s[-m:]` is a suffix of `s`, of length `m` when `s` is longer |
| LogBuffer.LogText | bot/telegram_logger.py:58-62 | the text is a tail of the joined buffer, at most the limit long, and the whole of it when it fits |
| LogBuffer.LogTextShowsNewest | bot/telegram_logger.py:58-62 | the newest line is always shown in full when it fits on its own |
| LogBuffer.JoinNoAngle | bot/telegram_logger.py:58 | joining lines without `<` or `>` gives a text without them |
| LogBuffer.TelegramAddLog | bot/telegram_logger.py:41-64 | the buffer stays at most fifteen lines; the text is a tail of the joined buffer of at most 4090 characters |
| LogBuffer.UpdaterAddLog | src/bot/handlers/log_utils.py:29-52 | the buffer stays at most fifteen lines; the text is a tail of the joined buffer of at most 4000 characters |
| LogBuffer.TelegramTextHasNoTags | bot/telegram_logger.py:44-58 | the Telegram handler's buffer only holds cleaned lines, so its text never holds `<` or `>` |
| LogBuffer.Fresh | bot/telegram_logger.py:12-19 | a fresh handler starts with a two-second interval |
| LogBuffer.Backoff | bot/telegram_logger.py:103 | the interval grows by one second per "Too Many Requests", from 2 up to a cap of 10 |
| LogBuffer.TelegramSafeUpdate | bot/telegram_logger.py:66-123 | too soon after the last update nothing happens; otherwise the first call edits the live message or sends a new one, as HTML in `<pre>`; only a delivered call moves the update time and clears the counter; the interval stays between 2 and 10; a retry follows iff the message to edit was not found, after dropping the message ID |
| LogBuffer.UpdaterSafeUpdate | src/bot/handlers/log_utils.py:54-75 | too soon after the last update nothing happens; otherwise one HTML edit of the same message; only a delivered call moves the update time; the interval stays between 2 and 10; never a retry |
| LogBuffer.UpdatesSpaced | bot/telegram_logger.py:68-90 | over any run of updates, successful updates are at least two seconds apart, and the first comes at least two seconds after the previous one |
| LogBuffer.UpdaterInit | src/bot/handlers/log_utils.py:19-27 | a first message is sent iff the updater has none; a message ID is kept after a delivered send, and none when sending fails |
| LogBuffer.InitOnce | src/bot/handlers/log_utils.py:21 | once an init has produced a message, a second init sends nothing |
| LogBuffer.ResultText | bot/telegram_logger.py:129-132 | the result text holds no `<` or `>` and is at most 4000 characters plus the mark |
| LogBuffer.CutNoAngle | bot/telegram_logger.py:132 | cutting a clean text and appending a clean mark stays clean |
| LogBuffer.ResultTextCut | bot/telegram_logger.py:129-132 | a result that fits is sent whole; a longer one is its first 4000 characters followed by "... [сообщение обрезано]"; plain text that fits comes back unchanged once unescaped |
| LogBuffer.SendResult | bot/telegram_logger.py:125-148 | one HTML send in `<pre>`; after a failure, one more send of the first 4090 characters of the text as plain text |
| CategoryHandling.Chunks | src/bot/handlers/category_handling.py:48 | as many pieces as 4000 fits into the length, rounded up; each piece has between 1 and 4000 characters, and all but the last exactly 4000 |
| CategoryHandling.ChunksFlatten | src/bot/handlers/category_handling.py:48 | the pieces put back together give the text |
| CategoryHandling.ChunkAt | src/bot/handlers/category_handling.py:48 | piece `i` is the slice from `4000 * i` to `4000 * (i + 1)`, cut at the end of the text |
| CategoryHandling.Texts | src/bot/handlers/category_handling.py:49-55 | one text per reply, in order |
| CategoryHandling.ResultReplies | src/bot/handlers/category_handling.py:47-55 | the keyboard comes with the first reply only; there is a single reply iff the report has at most 4000 characters; otherwise each reply has at most 4000 |
| CategoryHandling.ResultRepliesCover | src/bot/handlers/category_handling.py:47-55 | the replies spell out the report exactly, in order, as many as the 4000-character pieces |
| CategoryHandling.SayAll | src/bot/handlers/category_handling.py:49-53 | each reply is sent, in order |
| CategoryHandling.AfterRun | src/bot/handlers/category_handling.py:41-71 | an exception deletes the status and sends the failure notice; a formatted report deletes the status and, unless that failed, sends the report replies |
| CategoryHandling.Accepted | src/bot/handlers/category_handling.py:26-71 | for an accepted link the state is cleared, the start notice sent, the parser run and the status deleted, in that order, and what follows is the rest of the after-run steps |
| CategoryHandling.HandleCategoryUrlAsWritten | src/bot/handlers/category_handling.py:12-71 | a text that is not a category link once stripped gets only the format help; otherwise the state is cleared, the status shown, the parser run and the status deleted; a result holding `_files` ends in the failure notice with `'products_count'` |
| CategoryHandling.FoundSellersEndInFailure | src/bot/handlers/category_handling.py:38-71 | as written, a run that found sellers ends in the failure notice, and only a run without sellers gets a report, the "no sellers" message |
| CategoryHandling.HandleCategoryUrl | src/bot/handlers/category_handling.py:12-71 | as the handler with the report made of the seller entries: format help for a non-link; otherwise clear, status, run, delete; after a finished run with a successful deletion, the replies of the sellers' report follow |
| CategoryHandling.HandleAgreesWithoutFiles | src/bot/handlers/category_handling.py:38-55 | the corrected handler acts as written on every result without a `_files` entry |
| CategoryHandling.RejectedBeforeClearing | src/bot/handlers/category_handling.py:17-26 | the state is cleared, and a parser run, iff the stripped text is a category link |
| CategoryHandling.SurroundingBlanksIgnored | src/bot/handlers/category_handling.py:14 | blanks around the link do not change what the handler does |

## Left out

- The browser: page loads, waits, clicks, scrolling and `execute_script`. Each of these is replaced by what it observed, passed in as a parameter or as a function from the round number.
- InnParser.GetProductLinks: an exception other than the selector timeout, raised inside the selector loop, reaches the outer `except` at parser/inn_parser.py:304-306 and returns `[]` even after links were collected. The hrefs are inputs, so the model has no such failure.
- Threads and the lock in `parse_sellers_from_links`. The shards are merged one after another, which is one of the orders the threads allow. The count lemma holds for every order of the links.
- Iteration order of Python sets, where the set of new links is appended to the ordered list. `LinkCollector.Enumerate` appends the elements in an arbitrary order.
- asyncio and the Bot API. Each API call is reduced to its reply.
  - Not modelled: the `process_logs` queue loop, `asyncio.sleep(5)` after "Too Many Requests", `final_message` and `stop`.
  - Reply failures during chunking are not modelled either.
- `time.time()`: the time of each update is a real-number parameter.
- File and spreadsheet writes, styling, widths and heights, and the `datetime.now()` timestamps in file names.
  - A file read is replaced by what it gave: its lines, a missing file, or a read error.
  - `create_default_config`, which writes a template when `config.txt` is missing, is not modelled. Only its `{}` result is.
- Floating point:
  - `scroll_delay`;
  - the 0.2-second polling loop of the tooltip wait, modelled as its 25 polls;
  - the discount percentage;
  - the float conversions in `_parse_rating` and `save_parser_settings`.
- ModalParser.ParseRating: returns the decimal text instead of the float `float()` makes of it.
- GuiSettings.SaveParserSettings: takes the texts of the three values as given. The `int()`/`float()` validation at gui/tabs.py:331-343 that runs before the merge, and its `str()` re-rendering, are not modelled.
- LogBuffer.TelegramSafeUpdate: after "message to edit not found", Python calls itself again without limit. The model returns a retry flag instead of recursing.
- LogBuffer.SendResult: a failure of the plain-text fallback is only logged by the source, so it is not modelled.
- SellerProducts.ParseProducts: `get_seller_name` and the spreadsheet write are inputs. So is whether the scroll grew the page. The sheet itself is modelled by `ExcelWriter.SaveToExcel`.
- ExcelWriter.SaveToExcel: the file name is `seller_name` plus a timestamp. The source never applies `_clean_filename` to it. The cleaner is modelled on its own.
- Python's character classes cover all of Unicode. The model narrows them:
  - `isdigit`, `\d` and `int()` accept only the ASCII digits;
  - `lower()` and `isalnum()` cover only ASCII and Cyrillic letters;
  - whitespace is Python's `str.isspace` set.
- Exceptions are modelled only where the source catches them and continues. Examples: `int('')` in `_parse_number`, a failing seller parse, a failing API call, the `KeyError` of `format_results`.
- The `urlparse` helpers `normalize_url`, `validate_ozon_url` and `get_url_parameters`. They are thin wrappers over the standard library.
- `SellerInfoParser` is not part of this model. Its results are parameters.
- Orchestration with no logic of its own:
  - `src/parser/category_inn_parser/main.py`, `main.py`, `bot_main.py` and the Tk layout code;
  - `main.py` calls `seller_parser.parse_sellers_from_links`, which `seller_parser.py` does not define;
- Duplicated code is modelled once:
  - `get_category_name` in `link_collector.py:151-163` and `category_inn_parser.py:107-127` is the same computation, modelled once as `UrlUtils.CategoryName`;
  - `CategoryParser.collect_product_links` (`src/parser/category_inn_parser.py:129-212`) is the same loop as `LinkCollector.collect_product_links`, modelled once as `LinkCollector.CollectProductLinks`.

## Findings

| source | as written | input that shows it | evidently intended | confidence | as-written member | corrected member |
|---|---|---|---|---|---|---|
| src/parser/category_inn_parser.py:585 | sorts every item of `sellers_data` by `x[1]['products_count']`, after `parse_category` (lines 535-539) has added a `_files` item without that key | any run that finds a seller: the sort raises `KeyError` and the bot answers with the failure notice "Описание ошибки: 'products_count'" instead of the report | format the seller entries only; the files are sent separately, as the footer says | not executed | CategoryParser.FormatResultsAsWritten (with CategoryParser.OnlyEmptyRunsFormat), used by CategoryHandling.HandleCategoryUrlAsWritten (with CategoryHandling.FoundSellersEndInFailure) | CategoryParser.FormatResults (with CategoryParser.FormatResultsContent), used by CategoryHandling.HandleCategoryUrl (with CategoryHandling.ResultRepliesCover) |
| parser/inn_parser.py:357 | calls `self.excel_writer.save_sellers_to_excel`, a method `parser/excel_writer.py` does not define | any non-empty result list: the call raises `AttributeError`, the `except` at lines 372-374 returns `None`, no file is written and the found count at line 364 is never computed | call the writer's `save_to_excel` | not executed | InnParser.SaveResults with InnParser.CalledWriterMethod (with InnParser.SaveAsWrittenNeverSaves) | InnParser.SaveResults with InnParser.IntendedWriterMethod (with InnParser.SaveCorrectedContent and InnParser.SaveCorrectedCount) |
| parser/inn_parser.py:286-288 | tests `'/product/' in href` on the whole link, then keeps `href.split('?')[0].split('#')[0]` | a single `href` of "/shop?r=/product/1" passes the test and the method returns ["/shop"], which is not a product link | keep the cleaned link only when it still holds `/product/` or `/detail/` | not executed | InnParser.GetProductLinks (with InnParser.QueryMarkerLink) | InnParser.GetProductLinksCorrected (with InnParser.GetProductLinksAgree and InnParser.QueryMarkerLink) |
| parser/product_extractor.py:228-229 | tests `'/product/' in href` on the whole link, then returns `href.split('?')[0]` | an `href` of "/shop?r=/product/1" passes the test and yields "/shop", which is not a product link | return the query-free link only when it still holds `/product/` | not executed | ProductExtractor.ExtractUrlAsWritten (with ProductExtractor.ExtractUrlAsWrittenLosesMarker), used by ProductExtractor.ExtractProductData (with ProductExtractor.ProductFromQueryMarker) | ProductExtractor.ExtractUrl (with ProductExtractor.ExtractUrlAgrees), used by ProductExtractor.ExtractProductDataCorrected |

`_is_address` (src/parser/seller_details_parser.py:655-661) builds its marker list and ends without a `return`, so it gives `None` and no line is ever an address. It has no row above because the model keeps that behaviour throughout: `SellerDetails.IsAddress`, `SellerDetails.NoAddressLines` and `SellerDetails.HtmlNeverAddress` state it, and address lines go to `other_info`. A test of the text against those twenty markers, evidently intended, would move those lines to the `address` key.
