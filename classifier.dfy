/**
 * The stand-alone keyword categoriser: a table of (keyword, category) rows
 * read from a workbook, a case-insensitive first-match lookup of a concept,
 * the loop that keeps the well-formed movement rows of a bank CSV and appends
 * their category, and the output workbook with its fixed header row.
 * Spreadsheet and file I/O are not modelled: the loops start from the rows
 * the readers delivered.
 */
module Classifier {
  import opened Seqs
  import opened Text

  /** One row of the key table: the keyword as written, the category lower-cased. */
  datatype KeyRow = KeyRow(key: string, category: string)

  /** One call of the CSV reader: a record, or a record the reader refused. */
  datatype ReadResult = Record(fields: seq<string>) | ReadError

  /** What one CSV file produced: its kept rows, or an error. */
  datatype Analysis = Analysis(failed: bool, content: seq<seq<string>>)

  /** The key matches when its lower-cased form occurs in the lower-cased concept. */
  predicate KeyMatches(concept: string, row: KeyRow) {
    Contains(ToLower(concept), ToLower(row.key))
  }

  /** The category of the first matching key, in table order; `""` when none matches. */
  function FirstMatch(concept: string, keys: seq<KeyRow>): string {
    if keys == [] then ""
    else if KeyMatches(concept, keys[0]) then keys[0].category
    else FirstMatch(concept, keys[1..])
  }

  /** `obtenerCategoria`: scan the table and stop at the first key that matches. */
  method CategoryOf(concept: string, keys: seq<KeyRow>) returns (category: string)
    ensures category == FirstMatch(concept, keys)
  {
    category := "";
    var i := 0;
    while i < |keys|
      invariant 0 <= i <= |keys|
      invariant forall j :: 0 <= j < i ==> !KeyMatches(concept, keys[j])
      invariant FirstMatch(concept, keys) == FirstMatch(concept, keys[i..])
      invariant category == ""
    {
      if KeyMatches(concept, keys[i]) {
        category := keys[i].category;
        break;
      }
      assert keys[i..][1..] == keys[i + 1..];
      i := i + 1;
    }
  }

  /** The lookup's answer is the category of the first matching key. */
  lemma {:induction false} FirstMatchIsFirst(concept: string, keys: seq<KeyRow>, i: int)
    requires 0 <= i < |keys| && KeyMatches(concept, keys[i])
    requires forall j :: 0 <= j < i ==> !KeyMatches(concept, keys[j])
    ensures FirstMatch(concept, keys) == keys[i].category
  {
    if i > 0 {
      FirstMatchIsFirst(concept, keys[1..], i - 1);
    }
  }

  /** When no key matches, the category is empty. */
  lemma {:induction false} NoMatchIsEmpty(concept: string, keys: seq<KeyRow>)
    requires forall j :: 0 <= j < |keys| ==> !KeyMatches(concept, keys[j])
    ensures FirstMatch(concept, keys) == ""
  {
    if keys != [] {
      NoMatchIsEmpty(concept, keys[1..]);
    }
  }

  /** A non-empty answer is the category of some key that matches. */
  lemma {:induction false} MatchHasKey(concept: string, keys: seq<KeyRow>)
    requires FirstMatch(concept, keys) != ""
    ensures exists j :: 0 <= j < |keys| && KeyMatches(concept, keys[j]) && keys[j].category == FirstMatch(concept, keys)
  {
    if !KeyMatches(concept, keys[0]) {
      MatchHasKey(concept, keys[1..]);
      var j :| 0 <= j < |keys[1..]| && KeyMatches(concept, keys[1..][j]) && keys[1..][j].category == FirstMatch(concept, keys[1..]);
      assert keys[j + 1] == keys[1..][j];
    } else {
      assert KeyMatches(concept, keys[0]);
    }
  }

  /** An empty keyword matches every concept. */
  lemma EmptyKeyMatches(concept: string, category: string)
    ensures KeyMatches(concept, KeyRow("", category))
  {
    EmptyContained(ToLower(concept));
  }

  /** Once a key has matched, the rows after it are never consulted. */
  lemma {:induction false} LaterRowsIgnored(concept: string, keys: seq<KeyRow>, more: seq<KeyRow>)
    requires exists j :: 0 <= j < |keys| && KeyMatches(concept, keys[j])
    ensures FirstMatch(concept, keys + more) == FirstMatch(concept, keys)
  {
    if !KeyMatches(concept, keys[0]) {
      var j :| 0 <= j < |keys| && KeyMatches(concept, keys[j]);
      assert keys[1..][j - 1] == keys[j];
      assert (keys + more)[1..] == keys[1..] + more;
      LaterRowsIgnored(concept, keys[1..], more);
    }
  }

  /** The lookup ignores the case of the concept. */
  lemma {:induction false} CaseOfConceptIgnored(concept: string, keys: seq<KeyRow>)
    ensures FirstMatch(ToLower(concept), keys) == FirstMatch(concept, keys)
  {
    ToLowerIdempotent(concept);
    if keys != [] {
      CaseOfConceptIgnored(concept, keys[1..]);
    }
  }

  /** A worksheet row that yields a key row: it has a keyword cell and a category cell. */
  predicate HasKeyCells(row: seq<string>) {
    |row| >= 2
  }

  function KeyOf(row: seq<string>): KeyRow
    requires HasKeyCells(row)
  {
    KeyRow(row[0], ToLower(row[1]))
  }

  /** The key rows of a run of worksheet rows, in order. */
  function KeyRows(rows: seq<seq<string>>): seq<KeyRow> {
    if rows == [] then []
    else KeyRows(rows[..|rows| - 1]) + (if HasKeyCells(rows[|rows| - 1]) then [KeyOf(rows[|rows| - 1])] else [])
  }

  /** The key table of a worksheet: its first row is a header and is skipped. */
  function KeyTable(rows: seq<seq<string>>): seq<KeyRow> {
    if rows == [] then [] else KeyRows(rows[1..])
  }

  /** `obtenerClavesCategoria`'s row loop. */
  method LoadKeyTable(rows: seq<seq<string>>) returns (keys: seq<KeyRow>)
    ensures keys == KeyTable(rows)
  {
    keys := [];
    var i := 0;
    while i < |rows|
      invariant 0 <= i <= |rows|
      invariant keys == if i == 0 then [] else KeyRows(rows[1..i])
    {
      if i == 0 {
        i := i + 1;
        assert rows[1..i] == [];
        continue;
      }
      assert rows[1..i + 1][..i - 1] == rows[1..i];
      if |rows[i]| < 2 {
        i := i + 1;
        continue;
      }
      keys := keys + [KeyRow(rows[i][0], ToLower(rows[i][1]))];
      i := i + 1;
    }
    assert |rows| > 0 ==> rows[1..] == rows[1..|rows|];
  }

  /** A key row comes from a worksheet row with two or more cells; no row yields two. */
  lemma {:induction false} KeyRowsMembers(rows: seq<seq<string>>, k: KeyRow)
    ensures k in KeyRows(rows) <==> exists i :: 0 <= i < |rows| && HasKeyCells(rows[i]) && k == KeyOf(rows[i])
    ensures |KeyRows(rows)| <= |rows|
  {
    if rows != [] {
      var init := rows[..|rows| - 1];
      KeyRowsMembers(init, k);
      if exists i :: 0 <= i < |init| && HasKeyCells(init[i]) && k == KeyOf(init[i]) {
        var i :| 0 <= i < |init| && HasKeyCells(init[i]) && k == KeyOf(init[i]);
        assert rows[i] == init[i];
      }
      if exists i :: 0 <= i < |rows| && HasKeyCells(rows[i]) && k == KeyOf(rows[i]) {
        var i :| 0 <= i < |rows| && HasKeyCells(rows[i]) && k == KeyOf(rows[i]);
        if i < |rows| - 1 {
          assert init[i] == rows[i];
        }
      }
    }
  }

  /**
   * The table holds exactly the rows after the header that have two or more
   * cells, each with its keyword as written and its category lower-cased.
   */
  lemma KeyTableMembers(rows: seq<seq<string>>, k: KeyRow)
    ensures k in KeyTable(rows) <==> exists i :: 1 <= i < |rows| && HasKeyCells(rows[i]) && k == KeyOf(rows[i])
  {
    if rows != [] {
      KeyRowsMembers(rows[1..], k);
      if exists i :: 1 <= i < |rows| && HasKeyCells(rows[i]) && k == KeyOf(rows[i]) {
        var i :| 1 <= i < |rows| && HasKeyCells(rows[i]) && k == KeyOf(rows[i]);
        assert rows[1..][i - 1] == rows[i];
      }
    }
  }

  /** Every category in the table is already lower-case. */
  lemma CategoriesLowerCase(rows: seq<seq<string>>, k: KeyRow)
    requires k in KeyTable(rows)
    ensures ToLower(k.category) == k.category
  {
    KeyTableMembers(rows, k);
    var i :| 1 <= i < |rows| && HasKeyCells(rows[i]) && k == KeyOf(rows[i]);
    ToLowerIdempotent(rows[i][1]);
  }

  /** Whatever the header row holds, the table is the same. */
  lemma HeaderIgnored(header: seq<string>, other: seq<string>, rows: seq<seq<string>>)
    ensures KeyTable([header] + rows) == KeyTable([other] + rows)
  {
    assert ([header] + rows)[1..] == rows;
    assert ([other] + rows)[1..] == rows;
  }

  /**
   * A record the loop keeps: read without error, exactly 8 fields, a
   * non-empty first field that does not start with `Fecha` (a header line).
   */
  predicate Kept(r: ReadResult) {
    r.Record? && |r.fields| == 8 && r.fields[0] != "" && !StartsWith(r.fields[0], "Fecha")
  }

  function KeptTest(): ReadResult -> bool {
    r => Kept(r)
  }

  /** A kept record's fields with the category of its concept (field 2) appended. */
  function Augmented(r: ReadResult, keys: seq<KeyRow>): seq<string>
    requires Kept(r)
  {
    r.fields + [FirstMatch(r.fields[2], keys)]
  }

  /** The rows a CSV file contributes: its kept records, augmented, in the order read. */
  function ProcessedRows(lines: seq<ReadResult>, keys: seq<KeyRow>): seq<seq<string>> {
    if lines == [] then []
    else
      var last := lines[|lines| - 1];
      ProcessedRows(lines[..|lines| - 1], keys) + (if Kept(last) then [Augmented(last, keys)] else [])
  }

  /** `procesarCSV`'s read loop: skip what is not a movement, append the category to the rest. */
  method ProcessCSV(lines: seq<ReadResult>, keys: seq<KeyRow>) returns (content: seq<seq<string>>)
    ensures content == ProcessedRows(lines, keys)
  {
    content := [];
    var i := 0;
    while i < |lines|
      invariant 0 <= i <= |lines|
      invariant content == ProcessedRows(lines[..i], keys)
    {
      assert lines[..i + 1][..i] == lines[..i];
      var line := lines[i];
      if line.ReadError? {
        i := i + 1;
        continue;
      }
      if |line.fields| != 8 {
        i := i + 1;
        continue;
      }
      if line.fields[0] == "" {
        i := i + 1;
        continue;
      }
      if StartsWith(line.fields[0], "Fecha") {
        i := i + 1;
        continue;
      }
      var category := CategoryOf(line.fields[2], keys);
      content := content + [line.fields + [category]];
      i := i + 1;
    }
    assert lines[..|lines|] == lines;
  }

  /** One output row per kept record. */
  lemma {:induction false} ProcessedLength(lines: seq<ReadResult>, keys: seq<KeyRow>)
    ensures |ProcessedRows(lines, keys)| == |Filter(lines, KeptTest())|
  {
    if lines != [] {
      ProcessedLength(lines[..|lines| - 1], keys);
    }
  }

  /**
   * The kept rows keep the order of the file: the i-th output row is the i-th
   * kept record with the category of its concept appended.
   */
  lemma {:induction false} ProcessedAt(lines: seq<ReadResult>, keys: seq<KeyRow>, i: int)
    requires 0 <= i < |Filter(lines, KeptTest())|
    ensures Kept(Filter(lines, KeptTest())[i])
    ensures |ProcessedRows(lines, keys)| == |Filter(lines, KeptTest())|
    ensures ProcessedRows(lines, keys)[i] == Augmented(Filter(lines, KeptTest())[i], keys)
  {
    var init := lines[..|lines| - 1];
    ProcessedLength(lines, keys);
    ProcessedLength(init, keys);
    if i < |Filter(init, KeptTest())| {
      ProcessedAt(init, keys, i);
    }
  }

  /**
   * A row is contributed exactly when a kept record of the file, with its
   * category appended, is that row.
   */
  lemma {:induction false} ProcessedRowsMembers(lines: seq<ReadResult>, keys: seq<KeyRow>, row: seq<string>)
    ensures row in ProcessedRows(lines, keys) <==>
      exists r :: r in lines && Kept(r) && row == r.fields + [FirstMatch(r.fields[2], keys)]
  {
    if lines != [] {
      var init := lines[..|lines| - 1];
      ProcessedRowsMembers(init, keys, row);
      if exists r :: r in init && Kept(r) && row == r.fields + [FirstMatch(r.fields[2], keys)] {
        var r :| r in init && Kept(r) && row == r.fields + [FirstMatch(r.fields[2], keys)];
        assert r in lines;
      }
      if exists r :: r in lines && Kept(r) && row == r.fields + [FirstMatch(r.fields[2], keys)] {
        var r :| r in lines && Kept(r) && row == r.fields + [FirstMatch(r.fields[2], keys)];
        if r != lines[|lines| - 1] {
          assert lines == init + [lines[|lines| - 1]];
          assert r in init;
        }
      }
    }
  }

  /** Every row a file contributes has nine fields: its eight, then the category of its concept. */
  lemma ProcessedRowShape(lines: seq<ReadResult>, keys: seq<KeyRow>, row: seq<string>)
    requires row in ProcessedRows(lines, keys)
    ensures |row| == 9
    ensures row[8] == FirstMatch(row[2], keys)
  {
    ProcessedRowsMembers(lines, keys, row);
  }

  /** Order kept: the kept records are a subsequence of the file's records. */
  lemma KeptInOrder(lines: seq<ReadResult>)
    ensures IsSubseq(Filter(lines, KeptTest()), lines)
  {
    FilterIsSubseq(lines, KeptTest());
  }

  /** The first row of the output workbook. */
  const Header: seq<string> := ["Fecha contable", "Fecha valor", "Concepto", "Importe", "Moneda", "Saldo", "Moneda", "Concepto ampliado", "Categoria"]

  /** The rows of the files that did not fail, one file after another. */
  function Contents(results: seq<Analysis>): seq<seq<string>> {
    if results == [] then []
    else
      var last := results[|results| - 1];
      Contents(results[..|results| - 1]) + (if last.failed then [] else last.content)
  }

  /**
   * `escribirLibro`'s assembly of the sheet: the header, then the content of
   * every file that did not fail, in the order the results arrive.
   */
  method BuildSheet(results: seq<Analysis>) returns (sheet: seq<seq<string>>)
    ensures sheet == [Header] + Contents(results)
  {
    sheet := [Header];
    var i := 0;
    while i < |results|
      invariant 0 <= i <= |results|
      invariant sheet == [Header] + Contents(results[..i])
    {
      assert results[..i + 1][..i] == results[..i];
      if results[i].failed {
        i := i + 1;
        continue;
      }
      sheet := sheet + results[i].content;
      i := i + 1;
    }
    assert results[..|results|] == results;
  }

  /** The header has nine columns, one per field of a processed row. */
  lemma HeaderWidth()
    ensures |Header| == 9 && Header[8] == "Categoria"
  {
  }

  /** A result whose content is the processed rows of some file. */
  ghost predicate FromFile(a: Analysis, keys: seq<KeyRow>) {
    exists lines :: a.content == ProcessedRows(lines, keys)
  }

  /** Row `j` of a non-failed result is a row of the sheet's content. */
  lemma {:induction false} ContentsInclude(results: seq<Analysis>, k: int, row: seq<string>)
    requires 0 <= k < |results| && !results[k].failed && row in results[k].content
    ensures row in Contents(results)
  {
    if k < |results| - 1 {
      ContentsInclude(results[..|results| - 1], k, row);
    }
  }

  /** Every row of the sheet after the header comes from a file that did not fail. */
  lemma {:induction false} ContentsFrom(results: seq<Analysis>, row: seq<string>)
    requires row in Contents(results)
    ensures exists k :: 0 <= k < |results| && !results[k].failed && row in results[k].content
  {
    var init := results[..|results| - 1];
    if row in Contents(init) {
      ContentsFrom(init, row);
      var k :| 0 <= k < |init| && !init[k].failed && row in init[k].content;
      assert results[k] == init[k];
    }
  }

  /** When every result came from the row loop, every sheet row below the header has nine fields. */
  lemma SheetRowsWidth(results: seq<Analysis>, keys: seq<KeyRow>, row: seq<string>)
    requires forall k :: 0 <= k < |results| ==> FromFile(results[k], keys)
    requires row in Contents(results)
    ensures |row| == 9 && |row| == |Header|
  {
    ContentsFrom(results, row);
    var k :| 0 <= k < |results| && !results[k].failed && row in results[k].content;
    var lines :| results[k].content == ProcessedRows(lines, keys);
    ProcessedRowShape(lines, keys, row);
  }
}
