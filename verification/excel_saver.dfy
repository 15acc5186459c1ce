/**
 `ExcelSaver` (src/parser/category_inn_parser/excel_saver.py): the file-name
 sanitiser, the cell contents of the sellers sheet and the figures of the
 statistics sheet. Styling, widths, the timestamp and the write are left out.
 */
module ExcelSaver {
  import opened Text
  import opened Records

  // ---------------------------------------------------------------------------
  // safe_category_name (line 43)
  // ---------------------------------------------------------------------------

  /** `str.isalnum`, restricted to ASCII letters and digits and the basic Cyrillic block. */
  predicate IsAlnum(c: char) {
    IsDigit(c) || ('a' <= c <= 'z') || ('A' <= c <= 'Z') || ('Ѐ' <= c <= 'џ')
  }

  predicate SafeChar(c: char) {
    IsAlnum(c) || c == ' ' || c == '-' || c == '_'
  }

  /** The characters the generator expression keeps, in order. */
  function KeepSafe(s: string): (r: string)
    ensures |r| <= |s|
    ensures forall i | 0 <= i < |r| :: SafeChar(r[i])
  {
    if s == [] then [] else (if SafeChar(s[0]) then [s[0]] else []) + KeepSafe(s[1..])
  }

  /** `"".join(c for c in name if c.isalnum() or c in (' ', '-', '_')).rstrip()` */
  function SafeCategoryName(name: string): (r: string)
    ensures forall i | 0 <= i < |r| :: SafeChar(r[i])
    ensures r == [] || r[|r| - 1] != ' '
  {
    var k := KeepSafe(name);
    var r := TrimRight(k);
    assert forall i | 0 <= i < |r| :: r[i] == k[i];
    r
  }

  /** A name made only of kept characters passes the filter unchanged. */
  lemma {:induction false} KeepSafeFixes(s: string)
    requires forall i | 0 <= i < |s| :: SafeChar(s[i])
    ensures KeepSafe(s) == s
  {
    if s != [] {
      KeepSafeFixes(s[1..]);
      assert [s[0]] + s[1..] == s;
    }
  }

  /** Only unsafe characters are dropped: every character of a name that is kept reappears,
      and nothing foreign is added. */
  lemma {:induction false} KeepSafeMembers(s: string, c: char)
    ensures c in KeepSafe(s) <==> c in s && SafeChar(c)
  {
    if s != [] {
      KeepSafeMembers(s[1..], c);
      assert s == [s[0]] + s[1..];
    }
  }

  lemma TrimRightFixes(s: string)
    requires s == [] || !IsSpace(s[|s| - 1])
    ensures TrimRight(s) == s
  {
  }

  /** Sanitising twice changes nothing. */
  lemma SafeCategoryNameIdempotent(name: string)
    ensures SafeCategoryName(SafeCategoryName(name)) == SafeCategoryName(name)
  {
    var r := SafeCategoryName(name);
    KeepSafeFixes(r);
    assert r == [] || !IsSpace(r[|r| - 1]) by {
      if r != [] {
        var k := KeepSafe(name);
        assert r == TrimRight(k);
      }
    }
    TrimRightFixes(r);
  }

  // ---------------------------------------------------------------------------
  // The sellers sheet (lines 55-123)
  // ---------------------------------------------------------------------------

  const Headers: seq<string> := ["Имя продавца", "Название компании", "ИНН", "Ссылка на товар"]

  /** The rows one entry contributes. A bookkeeping key gives none; a seller gives one row per
      sample, or a single row without a link. Name, company and INN fill the first row only;
      the name falls back to the key. */
  function SellerRows(e: Entry): (r: seq<seq<string>>)
    ensures !IsSellerKey(e.key) ==> r == []
    ensures IsSellerKey(e.key) ==> |r| == if e.rec.samples == [] then 1 else |e.rec.samples|
    ensures forall k | 0 <= k < |r| :: |r[k]| == 4
    ensures r != [] ==> r[0][..3] == [GetOr(e.rec.sellerName, e.key), GetOr(e.rec.companyName, NotFound),
                                     GetOr(e.rec.inn, NotFound)]
    ensures forall k | 1 <= k < |r| :: r[k][..3] == ["", "", ""]
    ensures forall k | 0 <= k < |r| :: r[k][3] == if e.rec.samples == [] then "" else e.rec.samples[k].url
  {
    if !IsSellerKey(e.key) then []
    else
      var name := GetOr(e.rec.sellerName, e.key);
      var company := GetOr(e.rec.companyName, NotFound);
      var inn := GetOr(e.rec.inn, NotFound);
      var n := |e.rec.samples|;
      if n == 0 then [[name, company, inn, ""]]
      else seq(n, k requires 0 <= k < n => (if k == 0 then [name, company, inn] else ["", "", ""]) + [e.rec.samples[k].url])
  }

  /** The data rows, from spreadsheet row 2 on. */
  function DataRows(table: seq<Entry>): seq<seq<string>> {
    RowsOf(table, SellerRows)
  }

  /** `f"A1:D{row-1}"`, set only when `row > 2`, `row` being the first unused row. */
  function AutoFilter(table: seq<Entry>): (r: Option<string>)
    ensures r.Some? <==> |SheetOf(Headers, table, SellerRows)| > 1
  {
    var row := |DataRows(table)| + 2;
    if row > 2 then Some("A1:D" + NatToString(row - 1)) else None
  }

  /** Seller `j`'s `k`-th row is spreadsheet row `2 + (rows of the entries before j) + k`, and a
      filter, when set, ends at the last row written. */
  lemma SheetLayout(table: seq<Entry>, j: nat, k: nat)
    requires j < |table| && k < |SellerRows(table[j])|
    ensures 1 + |DataRows(table[..j])| + k < |SheetOf(Headers, table, SellerRows)|
    ensures SheetOf(Headers, table, SellerRows)[1 + |DataRows(table[..j])| + k] == SellerRows(table[j])[k]
    ensures AutoFilter(table) == Some("A1:D" + NatToString(|SheetOf(Headers, table, SellerRows)|))
  {
    SheetRowAt(Headers, table, SellerRows, j, k);
  }

  // ---------------------------------------------------------------------------
  // The statistics sheet (lines 153-155)
  // ---------------------------------------------------------------------------

  /** `total_sellers` */
  function TotalSellers(table: seq<Entry>): nat {
    if table == [] then 0
    else TotalSellers(table[..|table| - 1]) + (if IsSellerKey(table[|table| - 1].key) then 1 else 0)
  }

  /** Whether `v.get('inn') != 'Не найдено'` counts the entry; a missing `inn` does. */
  predicate InnCounted(e: Entry) {
    IsSellerKey(e.key) && e.rec.inn != Some(NotFound)
  }

  /** `sellers_with_inn` */
  function SellersWithInn(table: seq<Entry>): nat {
    if table == [] then 0
    else SellersWithInn(table[..|table| - 1]) + (if InnCounted(table[|table| - 1]) then 1 else 0)
  }

  /** `total_products`: the sample lengths of the sellers, summed. */
  function TotalProducts(table: seq<Entry>): nat {
    if table == [] then 0
    else
      var e := table[|table| - 1];
      TotalProducts(table[..|table| - 1]) + (if IsSellerKey(e.key) then |e.rec.samples| else 0)
  }

  /** Sellers without samples: each still gets one row. */
  function BareSellers(table: seq<Entry>): nat {
    if table == [] then 0
    else
      var e := table[|table| - 1];
      BareSellers(table[..|table| - 1]) + (if IsSellerKey(e.key) && e.rec.samples == [] then 1 else 0)
  }

  /** The statistics count the sellers of the table, and bookkeeping entries change none of
      the figures nor the sheet. */
  lemma {:induction false} StatsOfSellerEntries(table: seq<Entry>)
    ensures TotalSellers(table) == |SellerEntries(table)|
    ensures SellersWithInn(table) == SellersWithInn(SellerEntries(table))
    ensures TotalProducts(table) == TotalProducts(SellerEntries(table))
    ensures DataRows(table) == DataRows(SellerEntries(table))
  {
    if table != [] {
      var n := |table| - 1;
      var s := SellerEntries(table[..n]);
      StatsOfSellerEntries(table[..n]);
      if IsSellerKey(table[n].key) {
        assert SellerEntries(table) == s + [table[n]];
        assert (s + [table[n]])[..|s|] == s;
      } else {
        assert SellerEntries(table) == s;
        assert SellerRows(table[n]) == [];
      }
    }
  }

  /** No more sellers with an INN than sellers. */
  lemma {:induction false} SellersWithInnBound(table: seq<Entry>)
    ensures SellersWithInn(table) <= TotalSellers(table)
  {
    if table != [] {
      SellersWithInnBound(table[..|table| - 1]);
    }
  }

  /** The sheet has one row per sample plus one per seller without samples, so its data rows
      number between `total_products` and `total_products + total_sellers`. */
  lemma {:induction false} RowCount(table: seq<Entry>)
    ensures |DataRows(table)| == TotalProducts(table) + BareSellers(table)
    ensures BareSellers(table) <= TotalSellers(table)
    ensures TotalProducts(table) <= |DataRows(table)| <= TotalProducts(table) + TotalSellers(table)
  {
    if table != [] {
      RowCount(table[..|table| - 1]);
    }
  }
}
