/**
 `SellerDetailsParser`: reading the seller's legal details (company name,
 INN/OGRN, working hours) from the information tooltip of a product page,
 and moving on to another product of the same seller, up to ten attempts,
 until the details are good enough.

 The browser is an oracle: what one attempt sees of the page is a `PageObs`,
 and what the navigation step sees is a `NavObs`. A missing `href` is the
 empty string.
 */
module SellerDetails {
  import opened Text
  import Markup

  const MaxAttempts: nat := 10
  /** Polls of `_wait_for_tooltip_appearance`: it adds 0.2 to a float until the
      sum reaches 5, and the rounded sum passes 5 after the 25th addition. */
  const TooltipPolls: nat := 25

  const CompanyIndicators: seq<string> := ["ИП", "ООО", "АО", "ЗАО", "ПАО", "Ltd", "LLC", "Inc", "ОАО"]
  const HoursIndicators: seq<string> :=
    ["режим работы", "график работы", "working hours", "работаем", "часы работы", "время работы", "schedule", "график"]
  const SellerKeywords: seq<string> :=
    ["ИП", "ООО", "АО", "ЗАО", "ПАО", "Ltd", "LLC", "Inc", "режим работы", "working hours", "график работы",
     "адрес", "address", "г.", "город", "ул.", "улица"]

  // ---------------------------------------------------------------- line classifiers

  /** Case-sensitive: one of nine legal-form markers occurs. */
  predicate IsCompanyName(text: string) {
    ContainsAny(text, CompanyIndicators)
  }

  /** 10, 12, 13 or 15 digits, and digits make up more than 80% of the text. */
  predicate IsInn(text: string) {
    var n := |Digits(text)|;
    (n == 10 || n == 12 || n == 13 || n == 15) && 5 * n > 4 * |text|
  }

  /** Case-insensitive: one of eight working-hours phrases occurs. */
  predicate IsWorkingHours(text: string) {
    ContainsAny(Lower(text), HoursIndicators)
  }

  /** `_is_address` builds its list of indicators and ends without a `return`:
      it answers `None`, which is false, for every text. */
  predicate IsAddress(text: string) {
    false
  }

  /** Some whitespace-separated word of the text carries at least ten digits. */
  predicate HasLongNumber(text: string) {
    var ws := Words(text);
    exists i | 0 <= i < |ws| :: |Digits(ws[i])| >= 10
  }

  /** The tooltip filter: a long number, or a seller keyword in any letter case. */
  predicate LooksLikeSellerInfo(text: string) {
    HasLongNumber(text) || ContainsAny(Lower(text), LowerAll(SellerKeywords))
  }

  /** Two groups of fewer than ten digits each, separated by a space: two words, all digits
      counted, but no single word long enough for the number test. */
  lemma DigitGroups(a: string, b: string)
    requires a != [] && b != [] && AllDigits(a) && AllDigits(b) && |a| < 10 && |b| < 10
    ensures Words(a + " " + b) == [a, b]
    ensures |Digits(a + " " + b)| == |a| + |b|
    ensures !HasLongNumber(a + " " + b)
  {
    assert NoSpace(a) && NoSpace(b);
    TwoWords(a, b);
    DigitsOfDigits(a);
    DigitsOfDigits(b);
    assert Digits(" ") == [];
    DigitsAppend(a, " ");
    DigitsAppend(a + " ", b);
  }

  /** An INN written in two groups passes the line test but not the tooltip filter's
      number test: no single word holds ten digits. */
  lemma SpacedInnIsNoLongNumber()
    ensures IsInn("12345" + " " + "67890")
    ensures !HasLongNumber("12345" + " " + "67890")
  {
    DigitGroups("12345", "67890");
  }

  // ---------------------------------------------------------------- the details record

  /** The `seller_details` dict: each key present or absent. */
  datatype Details = Details(
    companyName: Option<string>,
    inn: Option<string>,
    workingHours: Option<string>,
    address: Option<string>,
    otherInfo: Option<seq<string>>)

  const NoDetails := Details(None, None, None, None, None)

  function KeyCount(d: Details): nat {
    (if d.companyName.Some? then 1 else 0) + (if d.inn.Some? then 1 else 0)
    + (if d.workingHours.Some? then 1 else 0) + (if d.address.Some? then 1 else 0)
    + (if d.otherInfo.Some? then 1 else 0)
  }

  /** A present value that is truthy and not blank. */
  predicate Filled(v: Option<string>) {
    v.Some? && Strip(v.value) != []
  }

  /** `_is_valid_seller_data`: non-empty, a company name or INN key present, and
      some value with content. Presence, not content, is asked of the two keys. */
  predicate IsValidSellerData(d: Details) {
    && KeyCount(d) > 0
    && (d.companyName.Some? || d.inn.Some?)
    && (Filled(d.companyName) || Filled(d.inn) || Filled(d.workingHours) || Filled(d.address)
        || (d.otherInfo.Some? && |d.otherInfo.value| > 0))
  }

  /** Every present value is a non-blank, stripped string (or a non-empty list). */
  predicate Clean(d: Details) {
    && (d.companyName.Some? ==> CleanText(d.companyName.value))
    && (d.inn.Some? ==> CleanText(d.inn.value))
    && (d.workingHours.Some? ==> CleanText(d.workingHours.value))
    && (d.address.Some? ==> CleanText(d.address.value))
    && (d.otherInfo.Some? ==> |d.otherInfo.value| > 0)
  }

  predicate CleanText(t: string) {
    t != [] && Strip(t) == t
  }

  /** On parsed details the validity test is only a key test. */
  lemma CleanValidity(d: Details)
    requires Clean(d)
    ensures IsValidSellerData(d) <==> d.companyName.Some? || d.inn.Some?
  {
  }

  /** A blank company name still makes the record valid when another value has
      content: the test asks for the key, not for a usable name. */
  lemma ValidityIsAboutKeys(blank: string, other: string)
    requires Strip(blank) == []
    ensures !Filled(Some(blank))
    ensures IsValidSellerData(Details(Some(blank), None, None, None, Some([other])))
  {
  }

  // ---------------------------------------------------------------- text parsing

  datatype Kind = CompanyKind | InnKind | HoursKind | AddressKind | OtherKind

  /** The `if/elif` chain of `_parse_text_content`. */
  function KindOf(line: string): Kind {
    if IsCompanyName(line) then CompanyKind
    else if IsInn(line) then InnKind
    else if IsWorkingHours(line) then HoursKind
    else if IsAddress(line) then AddressKind
    else OtherKind
  }

  function OtherOf(d: Details): seq<string> {
    if d.otherInfo.Some? then d.otherInfo.value else []
  }

  /** One line of the text loop: the key of its kind is overwritten, other lines append. */
  function Record(d: Details, line: string): Details {
    match KindOf(line)
      case CompanyKind => d.(companyName := Some(line))
      case InnKind => d.(inn := Some(line))
      case HoursKind => d.(workingHours := Some(line))
      case AddressKind => d.(address := Some(line))
      case OtherKind => d.(otherInfo := Some(OtherOf(d) + [line]))
  }

  /** The text loop over `lines`, left to right, from an empty dict. */
  function RecordAll(lines: seq<string>): Details
    decreases |lines|
  {
    if lines == [] then NoDetails else Record(RecordAll(lines[..|lines| - 1]), lines[|lines| - 1])
  }

  /** The lines of a given kind, in order. */
  function OfKind(lines: seq<string>, k: Kind): (r: seq<string>)
    ensures |r| <= |lines|
    ensures forall i | 0 <= i < |r| :: r[i] in lines && KindOf(r[i]) == k
    decreases |lines|
  {
    if lines == [] then []
    else OfKind(lines[..|lines| - 1], k) + (if KindOf(lines[|lines| - 1]) == k then [lines[|lines| - 1]] else [])
  }

  function LastOf(s: seq<string>): Option<string> {
    if s == [] then None else Some(s[|s| - 1])
  }

  /** The key a line of kind `k` is stored under (`other_info` has none). */
  function FieldOf(d: Details, k: Kind): Option<string>
    requires k != OtherKind
  {
    match k
      case CompanyKind => d.companyName
      case InnKind => d.inn
      case HoursKind => d.workingHours
      case AddressKind => d.address
  }

  /** One step of the text loop touches only the key of the line's kind. */
  lemma RecordStep(d: Details, line: string, k: Kind)
    requires k == KindOf(line)
    ensures forall k' | k' != OtherKind :: FieldOf(Record(d, line), k') == (if k' == k then Some(line) else FieldOf(d, k'))
    ensures OtherOf(Record(d, line)) == OtherOf(d) + (if k == OtherKind then [line] else [])
    ensures Record(d, line).otherInfo.Some? <==> d.otherInfo.Some? || k == OtherKind
  {
  }

  /** What the text loop leaves: the last line of each kind, and all other lines in order. */
  lemma {:induction false} RecordAllKeepsLastOfKind(lines: seq<string>)
    ensures forall k | k != OtherKind :: FieldOf(RecordAll(lines), k) == LastOf(OfKind(lines, k))
    ensures RecordAll(lines).otherInfo ==
      (if OfKind(lines, OtherKind) == [] then None else Some(OfKind(lines, OtherKind)))
    decreases |lines|
  {
    if lines != [] {
      var init, line := lines[..|lines| - 1], lines[|lines| - 1];
      RecordAllKeepsLastOfKind(init);
      RecordStep(RecordAll(init), line, KindOf(line));
    }
  }

  /** No line is ever an address line, so the text loop never sets `address`. */
  lemma NoAddressLines(lines: seq<string>)
    ensures OfKind(lines, AddressKind) == []
    ensures RecordAll(lines).address.None?
  {
    RecordAllKeepsLastOfKind(lines);
  }

  /** The stripped, non-blank pieces, in order. */
  function NonBlankStripped(parts: seq<string>): (r: seq<string>)
    ensures |r| <= |parts|
    ensures forall i | 0 <= i < |r| :: CleanText(r[i])
  {
    if parts == [] then []
    else
      var t := Strip(parts[0]);
      var rest := NonBlankStripped(parts[1..]);
      if t == [] then rest
      else
        StripIdempotent(parts[0]);
        [t] + rest
  }

  /** `[line.strip() for line in text.split('\n') if line.strip()]` */
  function TextLines(text: string): (r: seq<string>)
    ensures forall i | 0 <= i < |r| :: CleanText(r[i]) && '\n' !in r[i]
  {
    var parts := SplitChar(text, '\n');
    var r := NonBlankStripped(parts);
    forall i | 0 <= i < |r|
      ensures '\n' !in r[i]
    {
      NonBlankStrippedFrom(parts, i);
    }
    r
  }

  lemma NonBlankStrippedFrom(parts: seq<string>, i: nat)
    requires i < |NonBlankStripped(parts)|
    ensures exists j | 0 <= j < |parts| :: InfixOf(parts[j], NonBlankStripped(parts)[i])
  {
    if parts != [] {
      var t := Strip(parts[0]);
      StripInfix(parts[0]);
      if t != [] && i == 0 {
        assert InfixOf(parts[0], t);
      } else {
        var i' := if t == [] then i else i - 1;
        NonBlankStrippedFrom(parts[1..], i');
        var j :| 0 <= j < |parts[1..]| && InfixOf(parts[1..][j], NonBlankStripped(parts[1..])[i']);
        assert InfixOf(parts[j + 1], NonBlankStripped(parts)[i]);
      }
    }
  }

  /** `t` is a contiguous piece of `s`, so it holds no character `s` lacks. */
  predicate InfixOf(s: string, t: string) {
    forall c | c in t :: c in s
  }

  /** The record built from the text lines, before any HTML fallback. */
  lemma RecordAllClean(lines: seq<string>)
    requires AllCleanText(lines)
    ensures Clean(RecordAll(lines))
  {
    FieldClean(lines, CompanyKind);
    FieldClean(lines, InnKind);
    FieldClean(lines, HoursKind);
    FieldClean(lines, AddressKind);
    OtherNonEmpty(lines);
    CleanByFields(RecordAll(lines));
  }

  lemma CleanByFields(d: Details)
    requires forall k | k != OtherKind :: FieldOf(d, k).Some? ==> CleanText(FieldOf(d, k).value)
    requires d.otherInfo.Some? ==> |d.otherInfo.value| > 0
    ensures Clean(d)
  {
    assert d.companyName == FieldOf(d, CompanyKind) && d.inn == FieldOf(d, InnKind);
    assert d.workingHours == FieldOf(d, HoursKind) && d.address == FieldOf(d, AddressKind);
  }

  lemma OtherNonEmpty(lines: seq<string>)
    ensures RecordAll(lines).otherInfo.Some? ==> |RecordAll(lines).otherInfo.value| > 0
  {
    RecordAllKeepsLastOfKind(lines);
  }

  predicate AllCleanText(lines: seq<string>) {
    forall i | 0 <= i < |lines| :: CleanText(lines[i])
  }

  /** A key the text loop sets holds one of the lines. */
  lemma FieldClean(lines: seq<string>, k: Kind)
    requires AllCleanText(lines) && k != OtherKind
    ensures FieldOf(RecordAll(lines), k).Some? ==> CleanText(FieldOf(RecordAll(lines), k).value)
  {
    RecordAllKeepsLastOfKind(lines);
    var ks := OfKind(lines, k);
    if ks != [] {
      assert ks[|ks| - 1] in lines;
    }
  }

  // ---------------------------------------------------------------- HTML fallback

  /** The cleaned texts of the tooltip's `<p>` elements. */
  function HtmlTexts(html: string): (r: seq<string>)
    ensures forall i | 0 <= i < |r| :: r[i] == [] || CleanText(r[i])
  {
    var ps := Markup.Paragraphs(html);
    seq(|ps|, i requires 0 <= i < |ps| => StripIdempotent(Markup.StripTags(ps[i])); Strip(Markup.StripTags(ps[i])))
  }

  /** One paragraph of the HTML loop: the first text of each kind wins. */
  function HtmlStep(d: Details, t: string): Details {
    if t == [] then d
    else if IsCompanyName(t) && d.companyName.None? then d.(companyName := Some(t))
    else if IsInn(t) && d.inn.None? then d.(inn := Some(t))
    else if IsWorkingHours(t) && d.workingHours.None? then d.(workingHours := Some(t))
    else if IsAddress(t) && d.address.None? then d.(address := Some(t))
    else d
  }

  function HtmlAll(texts: seq<string>): Details
    decreases |texts|
  {
    if texts == [] then NoDetails else HtmlStep(HtmlAll(texts[..|texts| - 1]), texts[|texts| - 1])
  }

  /** `_parse_html_content` */
  function ParseHtmlContent(html: string): Details {
    HtmlAll(HtmlTexts(html))
  }

  /** One paragraph of the HTML loop sets at most unset keys, and only to its text. */
  lemma HtmlStepFields(d: Details, t: string)
    ensures forall k | k != OtherKind :: FieldOf(d, k).Some? ==> FieldOf(HtmlStep(d, t), k) == FieldOf(d, k)
    ensures forall k | k != OtherKind :: FieldOf(HtmlStep(d, t), k) == FieldOf(d, k) || (t != [] && FieldOf(HtmlStep(d, t), k) == Some(t))
    ensures HtmlStep(d, t).companyName == (if d.companyName.None? && IsCompanyName(t) then Some(t) else d.companyName)
    ensures HtmlStep(d, t).address == d.address && HtmlStep(d, t).otherInfo == d.otherInfo
  {
    if t == [] {
      NotContainsEmptyMarker(CompanyIndicators);
    }
  }

  /** The HTML company name is the first paragraph text that names a company;
      `address` and `other_info` are never produced. */
  lemma HtmlCompanyIsFirst(texts: seq<string>)
    ensures HtmlAll(texts).companyName.None? <==> forall i | 0 <= i < |texts| :: !IsCompanyName(texts[i])
    ensures HtmlAll(texts).companyName.Some? ==>
      exists i | 0 <= i < |texts| ::
        && texts[i] == HtmlAll(texts).companyName.value
        && IsCompanyName(texts[i])
        && forall j | 0 <= j < i :: !IsCompanyName(texts[j])
    ensures HtmlAll(texts).address.None? && HtmlAll(texts).otherInfo.None?
  {
    HtmlCompanyNoneIff(texts);
    HtmlNeverAddress(texts);
    if HtmlAll(texts).companyName.Some? {
      var i := HtmlCompanyWitness(texts);
    }
  }

  lemma {:induction false} HtmlCompanyNoneIff(texts: seq<string>)
    ensures HtmlAll(texts).companyName.None? <==> forall i | 0 <= i < |texts| :: !IsCompanyName(texts[i])
    decreases |texts|
  {
    if texts != [] {
      var init := texts[..|texts| - 1];
      HtmlCompanyNoneIff(init);
      HtmlStepFields(HtmlAll(init), texts[|texts| - 1]);
      assert forall i | 0 <= i < |init| :: init[i] == texts[i];
    }
  }

  lemma {:induction false} HtmlCompanyWitness(texts: seq<string>) returns (i: nat)
    requires HtmlAll(texts).companyName.Some?
    ensures i < |texts| && texts[i] == HtmlAll(texts).companyName.value && IsCompanyName(texts[i])
    ensures forall j | 0 <= j < i :: !IsCompanyName(texts[j])
    decreases |texts|
  {
    var init := texts[..|texts| - 1];
    HtmlStepFields(HtmlAll(init), texts[|texts| - 1]);
    if HtmlAll(init).companyName.Some? {
      i := HtmlCompanyWitness(init);
      assert forall j | 0 <= j <= i :: init[j] == texts[j];
    } else {
      i := |texts| - 1;
      HtmlCompanyNoneIff(init);
      assert forall j | 0 <= j < i :: init[j] == texts[j];
    }
  }

  lemma {:induction false} HtmlNeverAddress(texts: seq<string>)
    ensures HtmlAll(texts).address.None? && HtmlAll(texts).otherInfo.None?
    decreases |texts|
  {
    if texts != [] {
      HtmlNeverAddress(texts[..|texts| - 1]);
    }
  }

  lemma NotContainsEmptyMarker(markers: seq<string>)
    requires forall i | 0 <= i < |markers| :: markers[i] != []
    ensures !ContainsAny([], markers)
  {
  }

  /** `seller_details.update(html_data)`: the HTML values override. */
  function Update(d: Details, h: Details): (r: Details)
    ensures r.companyName == (if h.companyName.Some? then h.companyName else d.companyName)
    ensures r.inn == (if h.inn.Some? then h.inn else d.inn)
    ensures r.workingHours == (if h.workingHours.Some? then h.workingHours else d.workingHours)
    ensures r.address == (if h.address.Some? then h.address else d.address)
    ensures r.otherInfo == (if h.otherInfo.Some? then h.otherInfo else d.otherInfo)
  {
    Details(
      if h.companyName.Some? then h.companyName else d.companyName,
      if h.inn.Some? then h.inn else d.inn,
      if h.workingHours.Some? then h.workingHours else d.workingHours,
      if h.address.Some? then h.address else d.address,
      if h.otherInfo.Some? then h.otherInfo else d.otherInfo)
  }

  /** `_parse_text_content`: classify the text lines; with fewer than two keys,
      let the HTML paragraphs fill in and override. */
  function ParseTextContent(text: string, html: string): Details {
    var d := RecordAll(TextLines(text));
    if KeyCount(d) < 2 then Update(d, ParseHtmlContent(html)) else d
  }

  /** Parsing yields only clean values, and never an address; so a parsed record
      is valid exactly when it has a company name or an INN. */
  lemma ParsedIsClean(text: string, html: string)
    ensures Clean(ParseTextContent(text, html))
    ensures ParseTextContent(text, html).address.None?
    ensures IsValidSellerData(ParseTextContent(text, html)) <==>
      ParseTextContent(text, html).companyName.Some? || ParseTextContent(text, html).inn.Some?
  {
    var lines := TextLines(text);
    RecordAllClean(lines);
    NoAddressLines(lines);
    var texts := HtmlTexts(html);
    HtmlClean(texts);
    HtmlCompanyIsFirst(texts);
    CleanValidity(ParseTextContent(text, html));
  }

  lemma {:induction false} HtmlClean(texts: seq<string>)
    requires forall i | 0 <= i < |texts| :: texts[i] == [] || CleanText(texts[i])
    ensures Clean(HtmlAll(texts))
    decreases |texts|
  {
    if texts != [] {
      var init := texts[..|texts| - 1];
      HtmlClean(init);
      HtmlStepClean(HtmlAll(init), texts[|texts| - 1]);
    }
  }

  /** One paragraph keeps the record clean. */
  lemma HtmlStepClean(d: Details, t: string)
    requires Clean(d) && (t == [] || CleanText(t))
    ensures Clean(HtmlStep(d, t))
  {
    HtmlStepFields(d, t);
    var e := HtmlStep(d, t);
    assert e.companyName == FieldOf(e, CompanyKind) && e.inn == FieldOf(e, InnKind);
    assert e.workingHours == FieldOf(e, HoursKind) && e.address == FieldOf(e, AddressKind);
  }

  /** A dense enough text keeps the HTML fallback out of play. */
  lemma TwoKeysSkipHtml(text: string, html: string)
    requires KeyCount(RecordAll(TextLines(text))) >= 2
    ensures ParseTextContent(text, html) == RecordAll(TextLines(text))
  {
  }

  // ---------------------------------------------------------------- one page

  datatype Portal = Portal(displayed: bool, text: string, html: string)

  /** What one attempt sees of the current page. */
  datatype PageObs =
    | NoSellerSection
    | NoInfoButton
      /** The info button was clicked: `before` portals existed, `poll(k)` is the
          k-th look at the portals, and `portals` what the fallback scan finds. */
    | Clicked(before: nat, poll: nat -> seq<Portal>, portals: seq<Portal>)

  predicate SellerPortal(p: Portal) {
    p.displayed && LooksLikeSellerInfo(Strip(p.text))
  }

  /** The first displayed portal whose text looks like seller information. */
  function FirstSellerPortal(ps: seq<Portal>): (r: Option<Portal>)
    ensures r.Some? ==> r.value in ps && SellerPortal(r.value)
    ensures r.None? <==> forall i | 0 <= i < |ps| :: !SellerPortal(ps[i])
  {
    if ps == [] then None
    else if SellerPortal(ps[0]) then Some(ps[0])
    else FirstSellerPortal(ps[1..])
  }

  /** `_wait_for_tooltip_appearance`, from poll `k` on. */
  function WaitForTooltip(before: nat, poll: nat -> seq<Portal>, k: nat): (r: Option<Portal>)
    ensures r.Some? ==> exists j | k <= j < TooltipPolls :: |poll(j)| > before && r.value in poll(j)
    ensures r.Some? ==> SellerPortal(r.value)
    decreases TooltipPolls - k
  {
    if k >= TooltipPolls then None
    else if |poll(k)| > before && FirstSellerPortal(poll(k)).Some? then FirstSellerPortal(poll(k))
    else WaitForTooltip(before, poll, k + 1)
  }

  /** What one portal yields in the fallback scan: nothing unless it is displayed
      and looks like seller information. */
  function PortalDetails(p: Portal): Details {
    if SellerPortal(p) then ParseTextContent(Strip(p.text), p.html) else NoDetails
  }

  /** `ds[i]` is the first non-empty record of `ds`. */
  predicate FirstYield(ds: seq<Details>, i: int) {
    && 0 <= i < |ds|
    && ds[i] != NoDetails
    && forall j | 0 <= j < i :: ds[j] == NoDetails
  }

  /** The scan with its `break`: the first non-empty record, or an empty one. */
  function FirstNonEmpty(ds: seq<Details>): (r: Details)
    ensures r != NoDetails ==> exists i :: FirstYield(ds, i) && r == ds[i]
    ensures r == NoDetails <==> forall i | 0 <= i < |ds| :: ds[i] == NoDetails
  {
    if ds == [] then NoDetails
    else if ds[0] != NoDetails then
      assert FirstYield(ds, 0);
      ds[0]
    else
      var rest := ds[1..];
      var r := FirstNonEmpty(rest);
      assert forall i | 1 <= i < |ds| :: ds[i] == rest[i - 1];
      if r != NoDetails then
        var i :| FirstYield(rest, i) && r == rest[i];
        assert FirstYield(ds, i + 1);
        r
      else
        r
  }

  /** `_parse_all_tooltips`: the first non-empty parse among the seller-looking portals. */
  function ParseAllTooltips(ps: seq<Portal>): (r: Details)
    ensures r != NoDetails ==> exists i | 0 <= i < |ps| :: r == PortalDetails(ps[i])
    ensures r == NoDetails <==> forall i | 0 <= i < |ps| :: PortalDetails(ps[i]) == NoDetails
  {
    var ds := seq(|ps|, i requires 0 <= i < |ps| => PortalDetails(ps[i]));
    var r := FirstNonEmpty(ds);
    assert forall i | 0 <= i < |ps| :: ds[i] == PortalDetails(ps[i]);
    if r != NoDetails then
      var i :| FirstYield(ds, i) && r == ds[i];
      assert r == PortalDetails(ps[i]);
      r
    else
      r
  }

  /** `_try_parse_current_page`: no seller section or no button gives an empty dict. */
  function TryParseCurrentPage(page: PageObs): (r: Details)
    ensures r != NoDetails ==> page.Clicked?
    ensures Clean(r)
  {
    match page
      case NoSellerSection => NoDetails
      case NoInfoButton => NoDetails
      case Clicked(before, poll, portals) =>
        match WaitForTooltip(before, poll, 0)
          case Some(p) =>
            ParsedIsClean(Strip(p.text), p.html);
            ParseTextContent(Strip(p.text), p.html)
          case None =>
            ParseAllTooltipsClean(portals);
            ParseAllTooltips(portals)
  }

  lemma ParseAllTooltipsClean(ps: seq<Portal>)
    ensures Clean(ParseAllTooltips(ps))
  {
    var r := ParseAllTooltips(ps);
    if r != NoDetails {
      var i :| 0 <= i < |ps| && r == PortalDetails(ps[i]);
      ParsedIsClean(Strip(ps[i].text), ps[i].html);
    }
  }

  // ---------------------------------------------------------------- another product

  /** What the navigation step sees, one `href` list per selector:
      products on the seller's store page, seller links on the page,
      products on the store reached through such a link, and related products. */
  datatype NavObs = NavObs(
    storeProducts: seq<seq<string>>,
    sellerLinks: seq<seq<string>>,
    linkedStoreProducts: seq<seq<string>>,
    related: seq<seq<string>>)

  predicate IsProductHref(h: string) {
    h != [] && (Contains(h, "/product/") || Contains(h, "/detail/"))
  }

  /** The unvisited product links of one selector. */
  function FreshProducts(hrefs: seq<string>, visited: set<string>): (r: seq<string>)
    ensures forall i | 0 <= i < |r| :: r[i] in hrefs && IsProductHref(r[i]) && r[i] !in visited
    ensures r == [] <==> forall i | 0 <= i < |hrefs| :: !IsProductHref(hrefs[i]) || hrefs[i] in visited
  {
    if hrefs == [] then []
    else
      var rest := FreshProducts(hrefs[1..], visited);
      assert forall i | 1 <= i < |hrefs| :: hrefs[i] == hrefs[1..][i - 1];
      if IsProductHref(hrefs[0]) && hrefs[0] !in visited then [hrefs[0]] + rest else rest
  }

  /** `_find_seller_products`: the first selector that yields fresh product links, at most ten. */
  function FindSellerProducts(groups: seq<seq<string>>, visited: set<string>): (r: seq<string>)
    ensures |r| <= 10
    ensures forall i | 0 <= i < |r| :: IsProductHref(r[i]) && r[i] !in visited
  {
    if groups == [] then []
    else
      var links := FreshProducts(groups[0], visited);
      if links != [] then PyPrefix(links, 10) else FindSellerProducts(groups[1..], visited)
  }

  /** The first link of `links` outside `visited`. */
  function FirstUnvisited(links: seq<string>, visited: set<string>): (r: Option<string>)
    ensures r.Some? ==> r.value in links && r.value !in visited
    ensures r.None? <==> forall i | 0 <= i < |links| :: links[i] in visited
  {
    if links == [] then None
    else if links[0] !in visited then Some(links[0])
    else FirstUnvisited(links[1..], visited)
  }

  predicate IsSellerHref(h: string) {
    h != [] && (Contains(h, "/seller/") || Contains(h, "/shop/"))
  }

  /** `_find_seller_link_on_page`: the first seller or shop link of any selector ("" if none). */
  function FindSellerLink(groups: seq<seq<string>>): (r: string)
    ensures r == [] || IsSellerHref(r)
    ensures r == [] <==> forall g, h | g in groups && h in g :: !IsSellerHref(h)
  {
    if groups == [] then []
    else
      match FirstWith(groups[0])
        case Some(h) => h
        case None => FindSellerLink(groups[1..])
  }

  function FirstWith(hrefs: seq<string>): (r: Option<string>)
    ensures r.Some? ==> r.value in hrefs && IsSellerHref(r.value)
    ensures r.None? <==> forall h | h in hrefs :: !IsSellerHref(h)
  {
    if hrefs == [] then None
    else if IsSellerHref(hrefs[0]) then Some(hrefs[0])
    else FirstWith(hrefs[1..])
  }

  /** `_try_related_products`: among the first three links of each selector, the first
      present and unvisited one. */
  function TryRelated(groups: seq<seq<string>>, visited: set<string>): (r: Option<string>)
    ensures r.Some? ==> r.value != [] && r.value !in visited
    ensures r.None? <==> forall g, i | g in groups && 0 <= i < |g| && i < 3 :: g[i] == [] || g[i] in visited
  {
    if groups == [] then None
    else
      var firstThree := PyPrefix(groups[0], 3);
      match FirstUnvisited(Present(firstThree), visited)
        case Some(h) => Some(h)
        case None =>
          assert forall i | 0 <= i < |groups[0]| && i < 3 :: groups[0][i] in firstThree;
          TryRelated(groups[1..], visited)
  }

  /** The links that are not empty. */
  function Present(links: seq<string>): (r: seq<string>)
    ensures forall i | 0 <= i < |r| :: r[i] != [] && r[i] in links
    ensures forall h | h in links && h != [] :: h in r
  {
    if links == [] then []
    else (if links[0] != [] then [links[0]] else []) + Present(links[1..])
  }

  /** `_try_another_product`: the product page to move to, if any. */
  function TryAnotherProduct(sellerUrl: string, visited: set<string>, nav: NavObs): (r: Option<string>)
    ensures r.Some? ==> r.value != [] && r.value !in visited
  {
    var viaStore :=
      if sellerUrl != [] && sellerUrl !in visited
      then FirstUnvisited(PyPrefix(FindSellerProducts(nav.storeProducts, visited), 5), visited)
      else None;
    if viaStore.Some? then viaStore
    else
      var link := FindSellerLink(nav.sellerLinks);
      var viaLink :=
        if link != [] && link !in visited
        then FirstUnvisited(PyPrefix(FindSellerProducts(nav.linkedStoreProducts, visited), 3), visited)
        else None;
      if viaLink.Some? then viaLink else TryRelated(nav.related, visited)
  }

  /** With no usable store, the related products decide. */
  lemma NoStoreMeansRelated(sellerUrl: string, visited: set<string>, nav: NavObs)
    requires sellerUrl == [] || sellerUrl in visited
    requires FindSellerLink(nav.sellerLinks) == [] || FindSellerLink(nav.sellerLinks) in visited
    ensures TryAnotherProduct(sellerUrl, visited, nav) == TryRelated(nav.related, visited)
  {
  }

  // ---------------------------------------------------------------- the attempt loop

  datatype ParserState = ParserState(currentAttempt: nat, visited: set<string>)

  /** `visited` after the pages of `pages` were parsed. */
  function Seen(visited: set<string>, pages: seq<string>): (r: set<string>)
    ensures visited <= r
    decreases |pages|
  {
    if pages == [] then visited else Seen(visited, pages[..|pages| - 1]) + {pages[|pages| - 1]}
  }

  /** `reset_for_new_seller` */
  function ResetForNewSeller(st: ParserState): (r: ParserState)
    ensures r.currentAttempt == 0 && r.visited == {}
  {
    ParserState(0, {})
  }

  /** From an empty start, a page is seen iff it is one of the pages. */
  lemma {:induction false} SeenFromEmpty(pages: seq<string>, u: string)
    ensures u in Seen({}, pages) <==> u in pages
  {
    if pages != [] {
      var n := |pages| - 1;
      SeenFromEmpty(pages[..n], u);
      assert pages == pages[..n] + [pages[n]];
    }
  }

  /** Pages each new to the ones before them are distinct, and as many as the pages seen. */
  lemma {:induction false} FreshPagesCount(pages: seq<string>)
    requires forall i | 1 <= i < |pages| :: pages[i] !in Seen({}, pages[..i])
    ensures Distinct(pages) && |Seen({}, pages)| == |pages|
  {
    if pages != [] {
      var n := |pages| - 1;
      var init := pages[..n];
      forall i | 1 <= i < |init|
        ensures init[i] !in Seen({}, init[..i])
      {
        assert init[..i] == pages[..i];
      }
      FreshPagesCount(init);
      assert pages[..n] == init;
      if n > 0 {
        assert pages[n] !in Seen({}, init);
        SeenFromEmpty(init, pages[n]);
      } else {
        assert Seen({}, init) == {};
      }
      forall i, j | 0 <= i < j < |pages|
        ensures pages[i] != pages[j]
      {
        if j == n {
          assert pages[i] == init[i];
        } else {
          assert pages[i] == init[i] && pages[j] == init[j];
        }
      }
    }
  }

  /** The first `n` attempts parsed records the validity test rejected. */
  predicate AllInvalid(rounds: seq<(PageObs, NavObs)>, n: nat, parse: PageObs -> Details, valid: Details -> bool)
    requires n <= |rounds|
  {
    forall i | 0 <= i < n :: !valid(parse(rounds[i].0))
  }

  lemma AllInvalidSnoc(rounds: seq<(PageObs, NavObs)>, n: nat, parse: PageObs -> Details, valid: Details -> bool)
    requires n < |rounds| && AllInvalid(rounds, n, parse, valid) && !valid(parse(rounds[n].0))
    ensures AllInvalid(rounds, n + 1, parse, valid)
  {
  }

  /** Each page after the first is where navigation led from the URLs the browser landed on
      in the attempts before it. */
  predicate Navigated(base: set<string>, landed: seq<string>, pages: seq<string>, rounds: seq<(PageObs, NavObs)>,
                      navigate: (set<string>, NavObs) -> Option<string>)
    requires |pages| <= |rounds| && |pages| <= |landed|
  {
    forall i | 1 <= i < |pages| :: navigate(Seen(base, landed[..i]), rounds[i - 1].1) == Some(pages[i])
  }

  lemma NavigatedSnoc(base: set<string>, landed: seq<string>, pages: seq<string>, rounds: seq<(PageObs, NavObs)>,
                      navigate: (set<string>, NavObs) -> Option<string>, url: string)
    requires |pages| < |rounds| && |pages| < |landed| && Navigated(base, landed, pages, rounds, navigate)
    requires pages != [] ==> navigate(Seen(base, landed[..|pages|]), rounds[|pages| - 1].1) == Some(url)
    ensures Navigated(base, landed, pages + [url], rounds, navigate)
  {
    var p := pages + [url];
    forall i | 1 <= i < |p|
      ensures navigate(Seen(base, landed[..i]), rounds[i - 1].1) == Some(p[i])
    {
    }
  }

  /** One more attempt records the URL it landed on. */
  lemma SeenStep(base: set<string>, landed: seq<string>, n: nat)
    requires n < |landed|
    ensures Seen(base, landed[..n + 1]) == Seen(base, landed[..n]) + {landed[n]}
  {
    assert landed[..n + 1][..n] == landed[..n];
  }

  /** The loop of `parse_seller_details`, for any page parser, validity test and
      navigation step: attempt `i` follows link `pages[i]`, lands on `landed[i]` (the
      browser's `current_url`, which a redirect can make differ from the link), records that
      URL as visited, parses the page as `rounds[i].0` shows it and, unless the result is
      valid, navigates as `rounds[i].1` allows. */
  method AttemptLoop(
    st: ParserState, startUrl: string, landed: seq<string>, rounds: seq<(PageObs, NavObs)>,
    parse: PageObs -> Details, valid: Details -> bool, navigate: (set<string>, NavObs) -> Option<string>)
    returns (details: Details, st': ParserState, pages: seq<string>)
    requires |rounds| == MaxAttempts && |landed| == MaxAttempts
    ensures 1 <= |pages| <= MaxAttempts && pages[0] == startUrl
    ensures st'.currentAttempt == |pages|
    ensures st'.visited == Seen(st.visited, landed[..|pages|])
    ensures details == parse(rounds[|pages| - 1].0)
    ensures AllInvalid(rounds, |pages| - 1, parse, valid)
    ensures Navigated(st.visited, landed, pages, rounds, navigate)
    ensures valid(details) || |pages| == MaxAttempts || navigate(st'.visited, rounds[|pages| - 1].1).None?
  {
    var attempt := 0;
    var visited := st.visited;
    var url := startUrl;
    var stop := false;
    details := NoDetails;
    pages := [];
    while attempt < MaxAttempts && !stop
      invariant attempt == |pages| <= MaxAttempts
      invariant attempt > 0 ==> pages[0] == startUrl
      invariant attempt == 0 ==> url == startUrl && !stop
      invariant visited == Seen(st.visited, landed[..attempt])
      invariant attempt > 0 ==> details == parse(rounds[attempt - 1].0)
      invariant attempt > 0 ==> AllInvalid(rounds, attempt - 1, parse, valid)
      invariant Navigated(st.visited, landed, pages, rounds, navigate)
      invariant 0 < attempt && !stop ==> !valid(details)
      invariant 0 < attempt < MaxAttempts && !stop ==> navigate(visited, rounds[attempt - 1].1) == Some(url)
      invariant stop ==> valid(details) || navigate(visited, rounds[attempt - 1].1).None?
    {
      NavigatedSnoc(st.visited, landed, pages, rounds, navigate, url);
      if attempt > 0 {
        AllInvalidSnoc(rounds, attempt - 1, parse, valid);
      }
      SeenStep(st.visited, landed, attempt);
      visited := visited + {landed[attempt]};
      attempt := attempt + 1;
      pages := pages + [url];
      details := parse(rounds[attempt - 1].0);
      if valid(details) {
        stop := true;
      } else if attempt < MaxAttempts {
        var next := navigate(visited, rounds[attempt - 1].1);
        if next.None? {
          stop := true;
        } else {
          url := next.value;
        }
      }
    }
    st' := ParserState(attempt, visited);
  }

  /** Links followed through `_try_another_product` are outside the visited set: it only
      picks unvisited links. */
  lemma NavigatedPagesAreFresh(base: set<string>, sellerUrl: string, landed: seq<string>, pages: seq<string>,
                               rounds: seq<(PageObs, NavObs)>)
    requires |pages| <= |rounds| && |pages| <= |landed|
    requires forall i | 1 <= i < |pages| ::
      TryAnotherProduct(sellerUrl, Seen(base, landed[..i]), rounds[i - 1].1) == Some(pages[i])
    ensures forall i | 1 <= i < |pages| :: pages[i] !in Seen(base, landed[..i])
  {
  }

  /** `parse_seller_details`: up to ten attempts; the first valid record is returned,
      the loop gives up early when no other product of the seller can be reached, and no
      link is followed to a URL recorded before; when every attempt lands where its link
      pointed, no product page is visited twice. */
  method ParseSellerDetails(st: ParserState, startUrl: string, sellerUrl: string, landed: seq<string>,
                            rounds: seq<(PageObs, NavObs)>)
    returns (details: Details, st': ParserState, pages: seq<string>)
    requires |rounds| == MaxAttempts && |landed| == MaxAttempts
    ensures 1 <= |pages| <= MaxAttempts && pages[0] == startUrl
    ensures st'.currentAttempt == |pages|
    ensures st'.visited == Seen(st.visited, landed[..|pages|])
    ensures details == TryParseCurrentPage(rounds[|pages| - 1].0)
    ensures forall i | 0 <= i < |pages| - 1 :: !IsValidSellerData(TryParseCurrentPage(rounds[i].0))
    ensures forall i | 1 <= i < |pages| :: pages[i] !in Seen(st.visited, landed[..i])
    ensures landed[..|pages|] == pages ==> forall i | 1 <= i < |pages| :: pages[i] !in Seen(st.visited, pages[..i])
    ensures forall i | 1 <= i < |pages| ::
      TryAnotherProduct(sellerUrl, Seen(st.visited, landed[..i]), rounds[i - 1].1) == Some(pages[i])
    ensures IsValidSellerData(details) || |pages| == MaxAttempts
      || TryAnotherProduct(sellerUrl, st'.visited, rounds[|pages| - 1].1).None?
  {
    details, st', pages := AttemptLoop(st, startUrl, landed, rounds,
      page => TryParseCurrentPage(page),
      d => IsValidSellerData(d),
      (v, n) => TryAnotherProduct(sellerUrl, v, n));
    NavigatedPagesAreFresh(st.visited, sellerUrl, landed, pages, rounds);
    NoRedirectFresh(st.visited, landed, pages);
  }

  /** When each attempt landed where its link pointed, the links are new to the pages before. */
  lemma NoRedirectFresh(base: set<string>, landed: seq<string>, pages: seq<string>)
    requires |pages| <= |landed|
    requires forall i | 1 <= i < |pages| :: pages[i] !in Seen(base, landed[..i])
    ensures landed[..|pages|] == pages ==> forall i | 1 <= i < |pages| :: pages[i] !in Seen(base, pages[..i])
  {
    if landed[..|pages|] == pages {
      forall i | 1 <= i < |pages|
        ensures pages[i] !in Seen(base, pages[..i])
      {
        assert landed[..i] == pages[..i];
      }
    }
  }

  /** Recording `n` URLs adds at most `n` elements. */
  lemma {:induction false} SeenSize(pages: seq<string>)
    ensures |Seen({}, pages)| <= |pages|
    decreases |pages|
  {
    if pages != [] {
      SeenSize(pages[..|pages| - 1]);
    }
  }

  /** `parse_seller_details` after `reset_for_new_seller`: the visited set then holds exactly
      the URLs this seller's attempts landed on, so `get_attempts_info` reports at most as many
      visited products as attempts, at most ten; when every attempt lands where its link
      pointed, no page is opened twice and the two counts agree. */
  method ParseNewSeller(st: ParserState, startUrl: string, sellerUrl: string, landed: seq<string>,
                        rounds: seq<(PageObs, NavObs)>)
    returns (details: Details, st': ParserState, pages: seq<string>)
    requires |rounds| == MaxAttempts && |landed| == MaxAttempts
    ensures 1 <= st'.currentAttempt == |pages| <= MaxAttempts && pages[0] == startUrl
    ensures forall u :: u in st'.visited <==> u in landed[..|pages|]
    ensures |st'.visited| <= st'.currentAttempt
    ensures landed[..|pages|] == pages ==> Distinct(pages) && |st'.visited| == st'.currentAttempt
    ensures details == TryParseCurrentPage(rounds[|pages| - 1].0)
  {
    var start := ResetForNewSeller(st);
    details, st', pages := ParseSellerDetails(start, startUrl, sellerUrl, landed, rounds);
    var seen := landed[..|pages|];
    SeenSize(seen);
    forall u
      ensures u in st'.visited <==> u in seen
    {
      SeenFromEmpty(seen, u);
    }
    if seen == pages {
      FreshPagesCount(pages);
    }
  }
}
