/**
 `ExcelWriter` (parser/excel_writer.py): the sheet layout of a seller's
 product list and the file-name cleaner. Cell styling, widths and the file
 write itself are left out; the sheet is modelled as its cell contents.
 */
module ExcelWriter {
  import opened Text
  import opened ProductExtractor

  const Headers: seq<string> := ["Название товара", "Цена со скидкой", "Цена без скидки",
                                 "Скидка (%)", "Рейтинг", "Количество отзывов", "Ссылка на товар"]

  /** One data row, columns A to G. */
  function ProductRow(p: Product): (r: seq<string>)
    ensures |r| == |Headers|
    ensures r[0] == p.name && r[6] == p.url
  {
    [p.name, p.priceWithDiscount, p.priceWithoutDiscount, p.discountPercent, p.rating, p.reviewsCount, p.url]
  }

  /** A written cell: one-based row and column, and its value. */
  datatype Cell = Cell(row: nat, column: nat, value: string)

  /** The header cells of row 1 from column `from`. */
  function HeaderCells(from: nat): (r: seq<Cell>)
    requires 1 <= from <= |Headers| + 1
    ensures |r| == |Headers| + 1 - from
    ensures forall k | 0 <= k < |r| :: r[k] == Cell(1, from + k, Headers[from + k - 1])
    decreases |Headers| + 1 - from
  {
    if from == |Headers| + 1 then [] else [Cell(1, from, Headers[from - 1])] + HeaderCells(from + 1)
  }

  /** The cells of the data rows: `enumerate(products, 2)` over the seven columns. */
  function DataCells(products: seq<Product>): (r: seq<Cell>)
  {
    if products == [] then []
    else
      var row := |products| + 1;
      var values := ProductRow(products[|products| - 1]);
      DataCells(products[..|products| - 1]) + seq(7, (k: int) requires 0 <= k < 7 => Cell(row, k + 1, values[k]))
  }

  /** The written sheet: every cell in writing order, and the auto-filter range. */
  datatype Sheet = Sheet(cells: seq<Cell>, filter: string)

  /** `save_to_excel` up to `wb.save`. */
  function SaveToExcel(products: seq<Product>): (r: Sheet)
    ensures |r.cells| == 7 * (|products| + 1)
  {
    DataCellsCount(products);
    Sheet(HeaderCells(1) + DataCells(products), "A1:G" + NatToString(|products| + 1))
  }

  lemma {:induction false} DataCellsCount(products: seq<Product>)
    ensures |DataCells(products)| == 7 * |products|
  {
    if products != [] {
      DataCellsCount(products[..|products| - 1]);
    }
  }

  /** Product `i`, column `k` sits at position `7 * i + k` of the data cells: row `i + 2`,
      column `k + 1`, holding the product's `k`-th field. */
  lemma {:induction false} DataCellAt(products: seq<Product>, i: nat, k: nat)
    requires i < |products| && k < 7
    ensures |DataCells(products)| == 7 * |products|
    ensures DataCells(products)[7 * i + k] == Cell(i + 2, k + 1, ProductRow(products[i])[k])
  {
    DataCellsCount(products);
    var init := products[..|products| - 1];
    DataCellsCount(init);
    if i < |products| - 1 {
      DataCellAt(init, i, k);
      assert init[i] == products[i];
    }
  }

  /** Row 1 holds the seven headers in order, product `i` fills row `i + 2` columns A to G in
      field order, and the filter spans the header and every product row. */
  lemma SheetLayout(products: seq<Product>)
    ensures forall k | 0 <= k < 7 :: SaveToExcel(products).cells[k] == Cell(1, k + 1, Headers[k])
    ensures forall i, k | 0 <= i < |products| && 0 <= k < 7 ::
      SaveToExcel(products).cells[7 + 7 * i + k] == Cell(i + 2, k + 1, ProductRow(products[i])[k])
    ensures SaveToExcel(products).filter == "A1:G" + NatToString(|products| + 1)
  {
    forall k | 0 <= k < 7
      ensures SaveToExcel(products).cells[k] == Cell(1, k + 1, Headers[k])
    {
      assert SaveToExcel(products).cells[k] == HeaderCells(1)[k];
    }
    forall i, k | 0 <= i < |products| && 0 <= k < 7
      ensures SaveToExcel(products).cells[7 + 7 * i + k] == Cell(i + 2, k + 1, ProductRow(products[i])[k])
    {
      SheetCellAt(products, i, k);
    }
  }

  /** Product `i`, column `k` of the whole sheet, past the seven header cells. */
  lemma SheetCellAt(products: seq<Product>, i: nat, k: nat)
    requires i < |products| && k < 7
    ensures 7 + 7 * i + k < |SaveToExcel(products).cells|
    ensures SaveToExcel(products).cells[7 + 7 * i + k] == Cell(i + 2, k + 1, ProductRow(products[i])[k])
  {
    var j := 7 * i + k;
    DataCellAt(products, i, k);
    PartAfter(HeaderCells(1), DataCells(products), j);
  }

  /** Position `j` of the data cells is position `|h| + j` of the whole sheet. */
  lemma PartAfter(h: seq<Cell>, d: seq<Cell>, j: nat)
    requires j < |d|
    ensures (h + d)[|h| + j] == d[j]
  {
  }

  // ---------------------------------------------------------------------------
  // _clean_filename (lines 115-120)
  // ---------------------------------------------------------------------------

  const InvalidChars: string := "<>:\"/\\|?*"

  /** The loop `for char in invalid_chars: filename = filename.replace(char, '_')`, over the
      characters still to replace. */
  function ReplaceAll(s: string, chars: string): (r: string)
    ensures |r| == |s|
    decreases |chars|
  {
    if chars == [] then s else ReplaceAll(ReplaceChar(s, chars[0], '_'), chars[1..])
  }

  /** `_clean_filename`. */
  function CleanFilename(name: string): (r: string)
    ensures |r| == |name|
  {
    ReplaceAll(name, InvalidChars)
  }

  /** The chained replacements act character by character: a character in `chars` becomes `_`,
      any other stays, provided `_` itself is not among those replaced. */
  lemma {:induction false} ReplaceAllPointwise(s: string, chars: string)
    requires '_' !in chars
    ensures forall i | 0 <= i < |s| :: ReplaceAll(s, chars)[i] == if s[i] in chars then '_' else s[i]
    decreases |chars|
  {
    if chars != [] {
      var t := ReplaceChar(s, chars[0], '_');
      ReplaceAllPointwise(t, chars[1..]);
    }
  }

  /** The cleaned name has the same length, every invalid character replaced by `_`, every other
      character unchanged, and no invalid character left. */
  lemma CleanFilenameSpec(name: string)
    ensures |CleanFilename(name)| == |name|
    ensures forall i | 0 <= i < |name| ::
      CleanFilename(name)[i] == if name[i] in InvalidChars then '_' else name[i]
    ensures forall i | 0 <= i < |name| :: CleanFilename(name)[i] !in InvalidChars
  {
    ReplaceAllPointwise(name, InvalidChars);
  }

  /** Cleaning twice is cleaning once. */
  lemma CleanFilenameIdempotent(name: string)
    ensures CleanFilename(CleanFilename(name)) == CleanFilename(name)
  {
    var c := CleanFilename(name);
    CleanFilenameSpec(name);
    CleanFilenameSpec(c);
  }
}
