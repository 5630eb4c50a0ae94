/**
 * The parsed detail page, as far as the extractor looks at it.
 *
 * BeautifulSoup is not part of this model: a document is the list of its
 * tables in document order, a table carries its CSS classes and its rows,
 * a row is its list of `td` cells, and a cell carries the text of its first
 * `span` of class `txt` (if it has one) and its whole text.
 */
module Page {
  import opened Wrappers

  datatype Cell = Cell(txt: Option<string>, text: string)

  type Row = seq<Cell>

  datatype Table = Table(classes: set<string>, rows: seq<Row>)

  type Document = seq<Table>

  /** One long-format entry: its `name` is the Label column, `value` the Value column. */
  datatype Pair = Pair(name: string, value: string)

  /** The two ways one ticker's pipeline can fail. */
  datatype ScrapeError =
    | FetchError(status: int)  // the response code was not 200
    | ParseError               // a label cell had no `span.txt`

  /** The class that marks the data tables on a detail page. */
  const DataTableClass: string := "w728"
}
