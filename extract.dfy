/**
 * `extract_stock_info`: from the data tables of a detail page to the long
 * list of (label, value) pairs.
 *
 * `PagePairs` and its helpers are the specification; `ExtractStockInfo` is
 * the source's nested loop appending to `all_data`, proved equal to it.
 */
module Extract {
  import opened Wrappers
  import opened Page

  /** The tables `find_all('table', class_='w728')` returns, in document order. */
  function W728Tables(doc: Document): (r: seq<Table>)
    ensures forall t :: t in r <==> t in doc && DataTableClass in t.classes
    ensures |r| <= |doc|
    decreases |doc|
  {
    if doc == [] then []
    else
      var rest := W728Tables(doc[..|doc| - 1]);
      assert doc == doc[..|doc| - 1] + [doc[|doc| - 1]];
      if DataTableClass in doc[|doc| - 1].classes then rest + [doc[|doc| - 1]] else rest
  }

  /** Python's `tables[:-1]`: all but the last table, and nothing when there is none. */
  function AllButLast(tables: seq<Table>): (r: seq<Table>)
    ensures tables == [] ==> r == []
    ensures tables != [] ==> r + [tables[|tables| - 1]] == tables
  {
    if tables == [] then [] else tables[..|tables| - 1]
  }

  /** The text a value cell contributes: its `span.txt` text when present, else the whole cell text. */
  function ValueText(c: Cell): string
  {
    match c.txt
    case Some(t) => t
    case None => c.text
  }

  /** How many pairs a row of `n` cells yields. */
  function PairCount(n: nat): nat
  {
    if n < 2 then 0 else if n < 4 then 1 else 2
  }

  /** The label cells the row rule reads (0 from 2 cells on, 2 from 4 cells on) all have a `span.txt`. */
  predicate LabelsPresent(row: Row)
  {
    && (|row| >= 2 ==> row[0].txt.Some?)
    && (|row| >= 4 ==> row[2].txt.Some?)
  }

  /** The labels a row holds in the cells the row rule reads as labels. */
  function RowLabels(row: Row): set<string>
  {
    (if |row| >= 2 && row[0].txt.Some? then {row[0].txt.value} else {})
    + (if |row| >= 4 && row[2].txt.Some? then {row[2].txt.value} else {})
  }

  /** The row rule: cells 0/1 give a pair from two cells on, cells 2/3 a second one from four cells on. */
  function RowPairs(row: Row): (r: Result<seq<Pair>, ScrapeError>)
    ensures r.Success? <==> LabelsPresent(row)
    ensures r.Failure? ==> r.error == ParseError
    ensures r.Success? ==> |r.value| == PairCount(|row|)
    ensures r.Success? && |row| >= 2 ==> r.value[0] == Pair(row[0].txt.value, ValueText(row[1]))
    ensures r.Success? && |row| >= 4 ==> r.value[1] == Pair(row[2].txt.value, ValueText(row[3]))
  {
    if |row| < 2 then Success([])
    else if row[0].txt.None? then Failure(ParseError)
    else
      var first := Pair(row[0].txt.value, ValueText(row[1]));
      if |row| < 4 then Success([first])
      else if row[2].txt.None? then Failure(ParseError)
      else Success([first, Pair(row[2].txt.value, ValueText(row[3]))])
  }

  /** Joins two partial results: both must succeed, and their pairs are kept in order. */
  function Join(a: Result<seq<Pair>, ScrapeError>, b: Result<seq<Pair>, ScrapeError>): Result<seq<Pair>, ScrapeError>
  {
    if a.Failure? then a
    else if b.Failure? then b
    else Success(a.value + b.value)
  }

  /** The pairs of a table's rows, in row order; the first failing row fails the table. */
  function TablePairs(rows: seq<Row>): (r: Result<seq<Pair>, ScrapeError>)
    ensures r.Failure? ==> r.error == ParseError
    decreases |rows|
  {
    if rows == [] then Success([])
    else Join(TablePairs(rows[..|rows| - 1]), RowPairs(rows[|rows| - 1]))
  }

  /** The pairs of a list of tables, in table order. */
  function PagePairs(tables: seq<Table>): (r: Result<seq<Pair>, ScrapeError>)
    ensures r.Failure? ==> r.error == ParseError
    decreases |tables|
  {
    if tables == [] then Success([])
    else Join(PagePairs(tables[..|tables| - 1]), TablePairs(tables[|tables| - 1].rows))
  }

  /** What `extract_stock_info` returns (or raises) for a document. */
  function ExtractSpec(doc: Document): (r: Result<seq<Pair>, ScrapeError>)
    ensures |W728Tables(doc)| <= 1 ==> r == Success([])
  {
    PagePairs(AllButLast(W728Tables(doc)))
  }

  /** Every label cell the row rule reads, in every given table, has its `span.txt`. */
  ghost predicate WellFormed(tables: seq<Table>)
  {
    forall i, j :: 0 <= i < |tables| && 0 <= j < |tables[i].rows| ==> LabelsPresent(tables[i].rows[j])
  }

  /** `l` stands in a label cell of some row of the given tables. */
  ghost predicate LabelOnPage(tables: seq<Table>, l: string)
  {
    exists i, j :: 0 <= i < |tables| && 0 <= j < |tables[i].rows| && l in RowLabels(tables[i].rows[j])
  }

  /** The set of labels of a pair list. */
  function Names(ps: seq<Pair>): set<string>
  {
    set p | p in ps :: p.name
  }

  /**
   * `extract_stock_info`: loops over every `w728` table but the last and
   * appends the pairs of its rows to `all_data`. A missing label span
   * raises, and nothing is returned then.
   */
  method ExtractStockInfo(doc: Document) returns (r: Result<seq<Pair>, ScrapeError>)
    ensures r == ExtractSpec(doc)
  {
    var tables := AllButLast(W728Tables(doc));
    var allData: seq<Pair> := [];
    var ti := 0;
    while ti < |tables|
      invariant 0 <= ti <= |tables|
      invariant PagePairs(tables[..ti]) == Success(allData)
    {
      var next := AppendTableRows(allData, tables[ti].rows);
      assert tables[..ti + 1][..ti] == tables[..ti];
      if next.Failure? {
        PageFailurePersists(tables, ti + 1);
        return Failure(ParseError);
      }
      allData := next.value;
      ti := ti + 1;
    }
    assert tables[..|tables|] == tables;
    r := Success(allData);
  }

  /** The loop over the rows of one table, appending each row's pairs to `allData`. */
  method AppendTableRows(allData: seq<Pair>, rows: seq<Row>) returns (r: Result<seq<Pair>, ScrapeError>)
    ensures r == Join(Success(allData), TablePairs(rows))
  {
    var acc := allData;
    var ri := 0;
    while ri < |rows|
      invariant 0 <= ri <= |rows|
      invariant TablePairs(rows[..ri]).Success?
      invariant acc == allData + TablePairs(rows[..ri]).value
    {
      var next := AppendRow(acc, rows[ri]);
      assert rows[..ri + 1][..ri] == rows[..ri];
      if next.Failure? {
        TableFailurePersists(rows, ri + 1);
        return Failure(ParseError);
      }
      acc := next.value;
      ri := ri + 1;
    }
    assert rows[..|rows|] == rows;
    r := Success(acc);
  }

  /** The body of the row loop: appends the pair of cells 0/1 and then that of cells 2/3. */
  method AppendRow(allData: seq<Pair>, cols: Row) returns (r: Result<seq<Pair>, ScrapeError>)
    ensures r == Join(Success(allData), RowPairs(cols))
  {
    var acc := allData;
    if |cols| >= 2 {
      if cols[0].txt.None? {
        return Failure(ParseError);
      }
      var label1 := cols[0].txt.value;
      var value1 := if cols[1].txt.Some? then cols[1].txt.value else cols[1].text;
      acc := acc + [Pair(label1, value1)];
    }
    if |cols| >= 4 {
      if cols[2].txt.None? {
        return Failure(ParseError);
      }
      var label2 := cols[2].txt.value;
      var value2 := if cols[3].txt.Some? then cols[3].txt.value else cols[3].text;
      acc := acc + [Pair(label2, value2)];
    }
    assert acc == allData + RowPairs(cols).value;
    r := Success(acc);
  }

  /** Once a prefix of the rows fails, the whole table fails. */
  lemma {:induction false} TableFailurePersists(rows: seq<Row>, k: nat)
    requires k <= |rows|
    requires TablePairs(rows[..k]).Failure?
    ensures TablePairs(rows).Failure?
    decreases |rows| - k
  {
    if k < |rows| {
      assert rows[..k + 1][..k] == rows[..k];
      TableFailurePersists(rows, k + 1);
    } else {
      assert rows[..k] == rows;
    }
  }

  /** Once a prefix of the tables fails, the whole page fails. */
  lemma {:induction false} PageFailurePersists(tables: seq<Table>, k: nat)
    requires k <= |tables|
    requires PagePairs(tables[..k]).Failure?
    ensures PagePairs(tables).Failure?
    decreases |tables| - k
  {
    if k < |tables| {
      assert tables[..k + 1][..k] == tables[..k];
      PageFailurePersists(tables, k + 1);
    } else {
      assert tables[..k] == tables;
    }
  }
}

module ExtractProperties {
  import opened Wrappers
  import opened Page
  import opened Extract

  /** Cells after index 3 never matter: a row yields what its first four cells yield. */
  lemma RowPairsIgnoresExtraCells(row: Row)
    requires |row| > 4
    ensures RowPairs(row) == RowPairs(row[..4])
  {
    assert row[..4][0] == row[0] && row[..4][1] == row[1];
    assert row[..4][2] == row[2] && row[..4][3] == row[3];
  }

  lemma JoinAssociative(x: Result<seq<Pair>, ScrapeError>, y: Result<seq<Pair>, ScrapeError>, z: Result<seq<Pair>, ScrapeError>)
    ensures Join(Join(x, y), z) == Join(x, Join(y, z))
  {
    if x.Success? && y.Success? && z.Success? {
      assert (x.value + y.value) + z.value == x.value + (y.value + z.value);
    }
  }

  /** Pairs keep table order: the pairs of `a + b` are those of `a` followed by those of `b`. */
  lemma {:induction false} PagePairsAppend(a: seq<Table>, b: seq<Table>)
    ensures PagePairs(a + b) == Join(PagePairs(a), PagePairs(b))
    decreases |b|
  {
    if b == [] {
      assert a + b == a;
      assert PagePairs(a).Success? ==> PagePairs(a).value + [] == PagePairs(a).value;
    } else {
      var b' := b[..|b| - 1];
      assert (a + b)[..|a + b| - 1] == a + b';
      assert (a + b)[|a + b| - 1] == b[|b| - 1];
      PagePairsAppend(a, b');
      JoinAssociative(PagePairs(a), PagePairs(b'), TablePairs(b[|b| - 1].rows));
    }
  }

  /** Rows keep their order inside a table in the same way. */
  lemma {:induction false} TablePairsAppend(a: seq<Row>, b: seq<Row>)
    ensures TablePairs(a + b) == Join(TablePairs(a), TablePairs(b))
    decreases |b|
  {
    if b == [] {
      assert a + b == a;
      assert TablePairs(a).Success? ==> TablePairs(a).value + [] == TablePairs(a).value;
    } else {
      var b' := b[..|b| - 1];
      assert (a + b)[..|a + b| - 1] == a + b';
      assert (a + b)[|a + b| - 1] == b[|b| - 1];
      TablePairsAppend(a, b');
      JoinAssociative(TablePairs(a), TablePairs(b'), RowPairs(b[|b| - 1]));
    }
  }

  /** `find_all` distributes over concatenation of documents. */
  lemma {:induction false} W728TablesAppend(a: Document, b: Document)
    ensures W728Tables(a + b) == W728Tables(a) + W728Tables(b)
    decreases |b|
  {
    if b == [] {
      assert a + b == a;
    } else {
      var b' := b[..|b| - 1];
      assert (a + b)[..|a + b| - 1] == a + b';
      assert (a + b)[|a + b| - 1] == b[|b| - 1];
      W728TablesAppend(a, b');
    }
  }

  /** A document without `w728` tables has no data tables. */
  lemma {:induction false} NoDataTables(doc: Document)
    requires forall t :: t in doc ==> DataTableClass !in t.classes
    ensures W728Tables(doc) == []
    decreases |doc|
  {
    if doc != [] {
      assert doc[|doc| - 1] in doc;
      assert forall t :: t in doc[..|doc| - 1] ==> t in doc;
      NoDataTables(doc[..|doc| - 1]);
    }
  }

  /**
   * The last `w728` table of a page never contributes, whatever it holds:
   * the pairs are those of the `w728` tables before it.
   */
  lemma LastDataTableIgnored(before: Document, last: Table, after: Document)
    requires DataTableClass in last.classes
    requires forall t :: t in after ==> DataTableClass !in t.classes
    ensures ExtractSpec(before + [last] + after) == PagePairs(W728Tables(before))
  {
    W728TablesAppend(before + [last], after);
    W728TablesAppend(before, [last]);
    assert [last][..0] == [];
    assert W728Tables([last]) == [last];
    NoDataTables(after);
    assert W728Tables(before + [last] + after) == W728Tables(before) + [last];
  }

  /** A table yields pairs exactly when every row has the label spans the row rule reads. */
  lemma {:induction false} TableSucceedsIff(rows: seq<Row>)
    ensures TablePairs(rows).Success? <==> forall j :: 0 <= j < |rows| ==> LabelsPresent(rows[j])
    decreases |rows|
  {
    if rows != [] {
      var pre := rows[..|rows| - 1];
      TableSucceedsIff(pre);
      assert forall j :: 0 <= j < |pre| ==> pre[j] == rows[j];
    }
  }

  /** A list of tables yields pairs exactly when it is well formed. */
  lemma {:induction false} PageSucceedsIff(tables: seq<Table>)
    ensures PagePairs(tables).Success? <==> WellFormed(tables)
    decreases |tables|
  {
    if tables != [] {
      var pre := tables[..|tables| - 1];
      var last := tables[|tables| - 1];
      PageSucceedsIff(pre);
      TableSucceedsIff(last.rows);
      assert forall i :: 0 <= i < |pre| ==> pre[i] == tables[i];
      if WellFormed(pre) && PagePairs(tables).Failure? {
        // the last table fails: one of its rows lacks a label span
        var j :| 0 <= j < |last.rows| && !LabelsPresent(last.rows[j]);
        assert !LabelsPresent(tables[|tables| - 1].rows[j]);
      }
    }
  }

  /** `extract_stock_info` raises exactly when a row of a data table (all `w728` tables but the last) lacks a label span. */
  lemma ExtractSucceedsIff(doc: Document)
    ensures ExtractSpec(doc).Success? <==> WellFormed(AllButLast(W728Tables(doc)))
  {
    PageSucceedsIff(AllButLast(W728Tables(doc)));
  }

  /** The names of a concatenation. */
  lemma NamesAppend(a: seq<Pair>, b: seq<Pair>)
    ensures Names(a + b) == Names(a) + Names(b)
  {
    forall l | l in Names(a + b) ensures l in Names(a) + Names(b) {
      var p :| p in a + b && p.name == l;
    }
    forall l | l in Names(a) + Names(b) ensures l in Names(a + b) {
      if l in Names(a) {
        var p :| p in a && p.name == l;
        assert p in a + b;
      } else {
        var p :| p in b && p.name == l;
        assert p in a + b;
      }
    }
  }

  /** The labels a row yields are the labels of its label cells. */
  lemma RowNames(row: Row)
    requires RowPairs(row).Success?
    ensures Names(RowPairs(row).value) == RowLabels(row)
  {
    var v := RowPairs(row).value;
    if |row| >= 4 {
      assert v == [v[0], v[1]];
      assert v[0] in v && v[1] in v;
    } else if |row| >= 2 {
      assert v == [v[0]];
      assert v[0] in v;
    }
  }

  /** The labels a table yields are the labels in the label cells of its rows. */
  lemma {:induction false} TableNames(rows: seq<Row>)
    requires TablePairs(rows).Success?
    ensures forall l :: l in Names(TablePairs(rows).value) <==>
      exists j :: 0 <= j < |rows| && l in RowLabels(rows[j])
    decreases |rows|
  {
    if rows != [] {
      var pre := rows[..|rows| - 1];
      var last := rows[|rows| - 1];
      TableNames(pre);
      RowNames(last);
      NamesAppend(TablePairs(pre).value, RowPairs(last).value);
      forall l ensures l in Names(TablePairs(rows).value) <==>
        exists j :: 0 <= j < |rows| && l in RowLabels(rows[j])
      {
        if l in Names(TablePairs(pre).value) {
          var j :| 0 <= j < |pre| && l in RowLabels(pre[j]);
          assert pre[j] == rows[j];
        } else if l in RowLabels(last) {
          assert l in RowLabels(rows[|rows| - 1]);
        }
      }
    }
  }

  /** The labels a list of tables yields are exactly the labels on those tables. */
  lemma {:induction false} PageNames(tables: seq<Table>)
    requires PagePairs(tables).Success?
    ensures forall l :: l in Names(PagePairs(tables).value) <==> LabelOnPage(tables, l)
    decreases |tables|
  {
    if tables != [] {
      var pre := tables[..|tables| - 1];
      var last := tables[|tables| - 1];
      PageNames(pre);
      TableNames(last.rows);
      NamesAppend(PagePairs(pre).value, TablePairs(last.rows).value);
      forall l ensures l in Names(PagePairs(tables).value) <==> LabelOnPage(tables, l)
      {
        if l in Names(PagePairs(pre).value) {
          var i, j :| 0 <= i < |pre| && 0 <= j < |pre[i].rows| && l in RowLabels(pre[i].rows[j]);
          assert pre[i] == tables[i];
        } else if l in Names(TablePairs(last.rows).value) {
          var j :| 0 <= j < |last.rows| && l in RowLabels(last.rows[j]);
          assert tables[|tables| - 1] == last;
        } else if LabelOnPage(tables, l) {
          var i, j :| 0 <= i < |tables| && 0 <= j < |tables[i].rows| && l in RowLabels(tables[i].rows[j]);
          assert false;
        }
      }
    }
  }
}
