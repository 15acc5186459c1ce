/**
 `FileManager.save_inn_to_txt` (src/parser/category_inn_parser/file_manager.py):
 the list of INNs written to the text file and the file's content. The file
 name (a timestamp) and the write itself are left out.
 */
module FileManager {
  import opened Text
  import opened Records
  import CategoryParser
  import SellerParser

  /** The loop of `save_inn_to_txt`: bookkeeping keys skipped, each usable INN appended
      unless already listed. */
  function InnLines(table: seq<Entry>): (r: seq<string>)
    ensures forall i | 0 <= i < |r| :: UsableInn(r[i])
  {
    if table == [] then []
    else
      var n := |table| - 1;
      var acc := InnLines(table[..n]);
      var inn := InnOf(table[n]);
      if !StartsWith(table[n].key, "_") && inn != [] && inn != NotFound && inn !in acc then acc + [inn] else acc
  }

  /** The list depends on the seller entries only, and is the INN list of the category
      pipeline computed over them. */
  lemma {:induction false} InnLinesSkipsBookkeeping(table: seq<Entry>)
    ensures InnLines(table) == CategoryParser.InnList(SellerEntries(table))
  {
    if table != [] {
      var n := |table| - 1;
      InnLinesSkipsBookkeeping(table[..n]);
      var s := SellerEntries(table[..n]);
      if IsSellerKey(table[n].key) {
        assert SellerEntries(table) == s + [table[n]];
        assert (s + [table[n]])[..|s|] == s;
      } else {
        assert SellerEntries(table) == s;
      }
    }
  }

  lemma {:induction false} SellerEntriesMembers(table: seq<Entry>, e: Entry)
    ensures e in SellerEntries(table) <==> e in table && IsSellerKey(e.key)
  {
    if table != [] {
      var n := |table| - 1;
      SellerEntriesMembers(table[..n], e);
      assert table == table[..n] + [table[n]];
    }
  }

  /** The written INNs are pairwise distinct, in first-occurrence order, and are exactly the
      usable INNs of the seller entries. */
  lemma InnLinesProperties(table: seq<Entry>)
    ensures Distinct(InnLines(table))
    ensures forall x :: x in InnLines(table) <==> x in UsableInns(SellerEntries(table))
    ensures forall x :: x in InnLines(table) <==>
      UsableInn(x) && exists i | 0 <= i < |table| :: IsSellerKey(table[i].key) && InnOf(table[i]) == x
    ensures forall i, j | 0 <= i < j < |InnLines(table)| ::
      FirstIndex(UsableInns(SellerEntries(table)), InnLines(table)[i])
        < FirstIndex(UsableInns(SellerEntries(table)), InnLines(table)[j])
  {
    InnLinesSkipsBookkeeping(table);
    var s := SellerEntries(table);
    CategoryParser.InnListProperties(s);
    forall x
      ensures x in InnLines(table) <==>
        UsableInn(x) && exists i | 0 <= i < |table| :: IsSellerKey(table[i].key) && InnOf(table[i]) == x
    {
      if x in InnLines(table) {
        var k :| 0 <= k < |s| && InnOf(s[k]) == x;
        SellerEntriesMembers(table, s[k]);
        var i :| 0 <= i < |table| && table[i] == s[k];
      }
      if UsableInn(x) && exists i | 0 <= i < |table| :: IsSellerKey(table[i].key) && InnOf(table[i]) == x {
        var i :| 0 <= i < |table| && IsSellerKey(table[i].key) && InnOf(table[i]) == x;
        SellerEntriesMembers(table, table[i]);
        var k :| 0 <= k < |s| && s[k] == table[i];
      }
    }
  }

  /** The marker of a failed product page is not filtered out: it is written as an INN. */
  lemma ErrorMarkerWritten(key: string, sellerName: string, productLink: string)
    requires IsSellerKey(key)
    ensures InnLines([Entry(key, SellerParser.ParseSingleSeller(sellerName, productLink, None))])
      == [SellerParser.ParseError]
  {
    var t := [Entry(key, SellerParser.ParseSingleSeller(sellerName, productLink, None))];
    assert t[..0] == [];
    assert SellerParser.ParseError != NotFound by {
      assert SellerParser.ParseError[0] != NotFound[0];
    }
  }

  /** `'\n'.join(inn_list)` */
  function FileContent(table: seq<Entry>): string {
    Join(InnLines(table), "\n")
  }

  /** The file is empty exactly when no INN is written, and otherwise ends with the last INN,
      not with a line break. */
  lemma FileContentShape(table: seq<Entry>)
    ensures FileContent(table) == [] <==> InnLines(table) == []
    ensures InnLines(table) != [] ==> EndsWith(FileContent(table), InnLines(table)[|InnLines(table)| - 1])
  {
    var l := InnLines(table);
    if l != [] {
      JoinEndsWithLast(l, "\n");
      assert UsableInn(l[|l| - 1]);
    }
  }

  /** Reading the file back line by line gives the list, provided no INN holds a line break. */
  lemma FileContentLines(table: seq<Entry>)
    requires forall i | 0 <= i < |table| :: '\n' !in InnOf(table[i])
    requires InnLines(table) != []
    ensures SplitChar(FileContent(table), '\n') == InnLines(table)
  {
    var l := InnLines(table);
    InnLinesProperties(table);
    forall k | 0 <= k < |l|
      ensures '\n' !in l[k]
    {
      assert l[k] in l;
    }
    SplitJoin(l, '\n');
  }
}
