/**
 The stand-alone line classifiers of `DataValidators`: company name, tax
 identifier (INN/OGRN), address and working hours, each a marker or digit
 count test on one line of seller text.
 */
module DataValidators {
  import opened Text

  const CompanyMarkers: seq<string> := ["ИП", "ООО", "АО", "ЗАО", "ПАО", "Ltd", "LLC", "Inc"]
  const AddressMarkers: seq<string> :=
    ["г.", "город", "ул.", "улица", "пр.", "проспект", "д.", "дом", "обл.", "область", "кв.", "квартира"]
  const HoursMarkers: seq<string> := ["режим работы", "работает", "часы работы"]

  /** Case-sensitive: one of the eight legal-form markers occurs. */
  predicate IsCompanyName(text: string) {
    ContainsAny(text, CompanyMarkers)
  }

  /** Between 10 and 15 digit characters, wherever they stand. */
  predicate IsInn(text: string) {
    10 <= |Digits(text)| <= 15
  }

  /** Case-insensitive: one of the twelve address markers occurs. */
  predicate IsAddress(text: string) {
    ContainsAny(Lower(text), AddressMarkers)
  }

  /** Case-insensitive: one of the three working-hours phrases occurs. */
  predicate IsWorkingHours(text: string) {
    ContainsAny(Lower(text), HoursMarkers)
  }

  /** The INN test only sees the digits: punctuation and letters around them change nothing. */
  lemma InnSeesOnlyDigits(text: string)
    ensures IsInn(text) <==> IsInn(Digits(text))
  {
    DigitsOfDigits(Digits(text));
  }

  /** "ОАО" is not a marker of its own, yet every text holding it counts as a
      company name, because it holds the marker "АО". */
  lemma OaoFoundThroughAo(text: string)
    requires Contains(text, "ОАО")
    ensures IsCompanyName(text)
    ensures "ОАО" !in CompanyMarkers
  {
    var i :| 0 <= i <= |text| && StartsWith(text[i..], "ОАО");
    assert text[i..][..3] == "ОАО";
    assert text[i + 1] == 'А' && text[i + 2] == 'О';
    assert text[i + 1..][..2] == [text[i + 1], text[i + 2]];
    assert StartsWith(text[i + 1..], "АО");
    assert CompanyMarkers[2] == "АО";
    assert Contains(text, CompanyMarkers[2]);
    ContainsAnyIff(text, CompanyMarkers);
  }

  /** The marker test is case-sensitive: every marker starts with a capital, so a text whose
      letters are all lower-case (such as "ооо" or "ип") is never a company name. */
  lemma LoweredTextIsNoCompany(text: string)
    ensures !IsCompanyName(Lower(text))
  {
    var s := Lower(text);
    forall i | 0 <= i < |CompanyMarkers|
      ensures CompanyMarkers[i] != [] && CompanyMarkers[i][0] !in s
    {
      var c := CompanyMarkers[i][0];
      assert 'A' <= c <= 'Z' || 'А' <= c <= 'Я';
      forall j | 0 <= j < |s|
        ensures s[j] != c
      {
        assert s[j] == LowerChar(text[j]);
      }
    }
    NoMarkerStarts(s, CompanyMarkers);
  }

  /** Address and working-hours tests ignore letter case. */
  lemma LowerCaseInsensitive(text: string)
    ensures IsAddress(Lower(text)) <==> IsAddress(text)
    ensures IsWorkingHours(Lower(text)) <==> IsWorkingHours(text)
  {
    LowerIdempotent(text);
  }

  /** A single number set in digit-free text (as in "ИНН: 7700000000.") passes exactly when it
      has 10 to 15 digits: the lengths of an INN (10 or 12) and of an OGRN (13 or 15). */
  lemma SingleNumberInn(pre: string, number: string, post: string)
    requires AllDigits(number) && Digits(pre) == [] && Digits(post) == []
    ensures IsInn(pre + number + post) <==> 10 <= |number| <= 15
  {
    DigitsAppend(pre + number, post);
    DigitsAppend(pre, number);
    DigitsOfDigits(number);
  }
}
