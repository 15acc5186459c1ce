/**
 The per-seller dictionaries the category pipeline passes around
 (`{'company_name': ..., 'inn': ..., 'products_count': ..., 'sample_products': [...]}`),
 the insertion-ordered `sellers_data` dictionary holding them, and the
 "append if not already present" list idiom the pipeline uses for
 deduplication.
 */
module Records {
  import opened Text

  /** The placeholder the scraper writes for a value it could not find. */
  const NotFound: string := "Не найдено"
  /** The key a seller without a company name is filed under. */
  const Unknown: string := "Неизвестно"

  /** One entry of `sample_products`; `sellerLink` is absent on most paths. */
  datatype Sample = Sample(title: string, url: string, sellerLink: Option<string>)

  /** A seller dictionary. A `None` field is a key the dictionary does not hold. */
  datatype SellerRecord = SellerRecord(
    sellerName: Option<string>,
    companyName: Option<string>,
    inn: Option<string>,
    productsCount: nat,
    samples: seq<Sample>,
    filterName: Option<string>,
    parsedCompanyName: Option<string>)

  /** One `key: value` pair of `sellers_data`. */
  datatype Entry = Entry(key: string, rec: SellerRecord)

  /** `d.get(key, default)` for an optional string field. */
  function GetOr(field: Option<string>, default: string): string {
    if field.Some? then field.value else default
  }

  /** The keys of an insertion-ordered dictionary, in order. */
  function Keys(table: seq<Entry>): (r: seq<string>)
    ensures |r| == |table|
    ensures forall i | 0 <= i < |table| :: r[i] == table[i].key
  {
    if table == [] then [] else Keys(table[..|table| - 1]) + [table[|table| - 1].key]
  }

  /** A dictionary has each key once. */
  predicate WellKeyed(table: seq<Entry>) {
    Distinct(Keys(table))
  }

  /** Keys starting with `_` hold bookkeeping (`_files`), not sellers. */
  predicate IsSellerKey(key: string) {
    !StartsWith(key, "_")
  }

  /** Repeated `if x not in acc: acc.append(x)` over `s`. */
  function Dedup(s: seq<string>): (r: seq<string>)
    ensures Distinct(r)
    ensures forall x :: x in r <==> x in s
  {
    if s == [] then []
    else
      var p := Dedup(s[..|s| - 1]);
      var x := s[|s| - 1];
      assert s == s[..|s| - 1] + [x];
      if x in p then p else p + [x]
  }

  /** The position of the first occurrence of `x` in `s`. */
  function FirstIndex(s: seq<string>, x: string): (r: nat)
    requires x in s
    ensures r < |s| && s[r] == x && x !in s[..r]
  {
    if s[0] == x then 0 else FirstIndex(s[1..], x) + 1
  }

  lemma FirstIndexAppend(s: seq<string>, x: string, y: string)
    requires y in s
    ensures FirstIndex(s + [x], y) == FirstIndex(s, y)
  {
    var t := s + [x];
    var k := FirstIndex(s, y);
    var m := FirstIndex(t, y);
    assert t[k] == y;
    assert t[..k] == s[..k];
  }

  /** `Dedup` keeps first occurrences, in the order they first occur. */
  lemma {:induction false} DedupFirstOccurrenceOrder(s: seq<string>)
    ensures forall i, j | 0 <= i < j < |Dedup(s)| :: FirstIndex(s, Dedup(s)[i]) < FirstIndex(s, Dedup(s)[j])
  {
    if s != [] {
      var init := s[..|s| - 1];
      var x := s[|s| - 1];
      assert s == init + [x];
      DedupFirstOccurrenceOrder(init);
      var p := Dedup(init);
      forall y | y in p
        ensures FirstIndex(s, y) == FirstIndex(init, y)
      {
        FirstIndexAppend(init, x, y);
      }
      if x !in p {
        assert x !in init;
        assert FirstIndex(s, x) == |init| by {
          assert s[|init|] == x;
          assert s[..|init|] == init;
        }
        forall i, j | 0 <= i < j < |Dedup(s)|
          ensures FirstIndex(s, Dedup(s)[i]) < FirstIndex(s, Dedup(s)[j])
        {
          assert Dedup(s) == p + [x];
          assert Dedup(s)[i] == p[i];
          if j < |p| {
            assert Dedup(s)[j] == p[j];
          }
        }
      }
    }
  }

  /** The `inn` of a record, `''` when absent (`data.get('inn', '')`). */
  function InnOf(e: Entry): string {
    GetOr(e.rec.inn, "")
  }

  /** An INN worth writing out: non-empty and not the placeholder. */
  predicate UsableInn(inn: string) {
    inn != [] && inn != NotFound
  }

  /** The usable INNs of a table, in entry order, repetitions kept. */
  function UsableInns(table: seq<Entry>): (r: seq<string>)
    ensures forall i | 0 <= i < |r| :: UsableInn(r[i])
  {
    if table == [] then []
    else
      var n := |table| - 1;
      UsableInns(table[..n]) + (if UsableInn(InnOf(table[n])) then [InnOf(table[n])] else [])
  }

  lemma {:induction false} UsableInnsMembers(table: seq<Entry>, x: string)
    ensures x in UsableInns(table) <==> UsableInn(x) && exists i | 0 <= i < |table| :: InnOf(table[i]) == x
  {
    if table != [] {
      var n := |table| - 1;
      UsableInnsMembers(table[..n], x);
      if exists i | 0 <= i < |table| :: InnOf(table[i]) == x {
        var i :| 0 <= i < |table| && InnOf(table[i]) == x;
        if i < n {
          assert table[..n][i] == table[i];
        }
      }
    }
  }

  /** The entries whose key is not bookkeeping. */
  function SellerEntries(table: seq<Entry>): (r: seq<Entry>)
    ensures forall i | 0 <= i < |r| :: IsSellerKey(r[i].key)
    ensures |r| <= |table|
  {
    if table == [] then []
    else
      var n := |table| - 1;
      SellerEntries(table[..n]) + (if IsSellerKey(table[n].key) then [table[n]] else [])
  }

  /** Spreadsheet rows laid out entry after entry, `rowsOf(e)` being the block of entry `e`. */
  function RowsOf(table: seq<Entry>, rowsOf: Entry -> seq<seq<string>>): seq<seq<string>> {
    if table == [] then [] else RowsOf(table[..|table| - 1], rowsOf) + rowsOf(table[|table| - 1])
  }

  lemma {:induction false} RowsOfAppend(a: seq<Entry>, b: seq<Entry>, rowsOf: Entry -> seq<seq<string>>)
    ensures RowsOf(a + b, rowsOf) == RowsOf(a, rowsOf) + RowsOf(b, rowsOf)
    decreases |b|
  {
    if b == [] {
      assert a + b == a;
    } else {
      var n := |b| - 1;
      assert (a + b)[..|a + b| - 1] == a + b[..n];
      RowsOfAppend(a, b[..n], rowsOf);
    }
  }

  /** Entry `j`'s block starts right after the blocks of the entries before it. */
  lemma RowsOfBlock(table: seq<Entry>, rowsOf: Entry -> seq<seq<string>>, j: nat, k: nat)
    requires j < |table| && k < |rowsOf(table[j])|
    ensures |RowsOf(table[..j], rowsOf)| + k < |RowsOf(table, rowsOf)|
    ensures RowsOf(table, rowsOf)[|RowsOf(table[..j], rowsOf)| + k] == rowsOf(table[j])[k]
  {
    var pre, suf := table[..j], table[j + 1..];
    assert table == pre + ([table[j]] + suf);
    RowsOfAppend(pre, [table[j]] + suf, rowsOf);
    RowsOfAppend([table[j]], suf, rowsOf);
    assert [table[j]][..0] == [];
    assert RowsOf([table[j]], rowsOf) == rowsOf(table[j]);
  }

  /** A spreadsheet as its rows: the header row, then the entries' blocks in table order. */
  function SheetOf(headers: seq<string>, table: seq<Entry>, rowsOf: Entry -> seq<seq<string>>): (r: seq<seq<string>>)
    ensures |r| == |RowsOf(table, rowsOf)| + 1 && r[0] == headers
  {
    [headers] + RowsOf(table, rowsOf)
  }

  /** Entry `j`'s `k`-th row is spreadsheet row `2 + (rows of the entries before j) + k`. */
  lemma SheetRowAt(headers: seq<string>, table: seq<Entry>, rowsOf: Entry -> seq<seq<string>>, j: nat, k: nat)
    requires j < |table| && k < |rowsOf(table[j])|
    ensures 1 + |RowsOf(table[..j], rowsOf)| + k < |SheetOf(headers, table, rowsOf)|
    ensures SheetOf(headers, table, rowsOf)[1 + |RowsOf(table[..j], rowsOf)| + k] == rowsOf(table[j])[k]
  {
    RowsOfBlock(table, rowsOf, j, k);
  }
}
