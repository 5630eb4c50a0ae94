# stock-scrapper: the per-ticker pipeline in Dafny

The scraper fetches the fundamentals page of a ticker from fundamentus.com.br
(`/detalhes.php?papel=<ticker>`), reads the `w728` tables of the page into a
long list of (label, value) pairs, cleans the labels and values and pivots
the pairs into one wide record per ticker. This project models that
pipeline for one ticker and proves what it does:

- `page.dfy` (module `Page`): the parsed page. A document is its list of
  tables; a table has its CSS classes and rows; a cell has the text of its
  first `span.txt` (optional) and its whole text. Also the `Pair` of the long
  format and the two errors a ticker can fail with.
- `fetch.dfy` (module `Fetch`): the request URL and the status rule of
  `get_stock_data`. The HTTP GET is a function parameter
  `get: (url, headers) -> Response`.
- `extract.dfy` (modules `Extract`, `ExtractProperties`): the row rule, the
  specification of `extract_stock_info` as functions, the source's nested
  loop as methods proved equal to it, and the lemmas about which tables and
  cells contribute, in which order, and when the extraction raises.
- `strings.dfy` (module `Strings`): Python's `str.replace`, empty pattern
  included, with the facts the cleaning relies on.
- `normalize.dfy` (module `Normalize`): the cleaning chain of
  `normalize_data` step by step, in the source's order, and the pivot.
  `unidecode` is the function parameter `translit`; nothing is assumed about
  it, so every result holds for any transliteration.
- `scraper.dfy` (module `Scraper`): `scrape_stock` as the composition, and
  its outcome: which failure, and which columns on success.
- `wrappers.dfy` (module `Wrappers`): `Option` and `Result`; the source's
  exceptions become `Failure(FetchError(status))` and `Failure(ParseError)`.

Everything is a function of its inputs, so the pipeline is deterministic
for a given page and transliteration.

Three behaviours of the code worth noting:

- A response fails unless its status is exactly 200; other 2xx codes fail
  too (main.py:29), not only non-2xx ones.
- A label is always the text of the cell's `span.txt`; there is no fallback
  to the whole cell text for labels (main.py:42, main.py:46). Only values
  fall back (main.py:43, main.py:47).
- One label cell without a `span.txt` in any data table fails the whole
  ticker; no row is skipped (main.py:42, main.py:46).

## Model

| member | source | states |
|---|---|---|
| `Fetch.StockUrl` | main.py:27 | the URL is the base, then `/detalhes.php?papel=`, then the ticker, and the ticker is read back from it unchanged |
| `Fetch.StockUrlInjective` | main.py:27 | two different tickers never get the same URL |
| `Fetch.GetStockData` | main.py:25-31 | succeeds with the fetched page exactly when the status is 200; any other status, other 2xx codes included, fails with that status |
| `Extract.W728Tables` | main.py:36 | the tables kept are exactly those of the document with class `w728`, no more than the document has |
| `Extract.AllButLast` | main.py:37 | `tables[:-1]`: nothing for no tables, otherwise the tables without the last one, which put back gives the input |
| `Extract.RowPairs` | main.py:39-48 | a row yields 0 pairs below 2 cells, 1 with 2 or 3 cells, 2 from 4 cells on; pair one is (span text of cell 0, value of cell 1), pair two (span text of cell 2, value of cell 3); a value is the cell's span text if present, else its whole text; it fails exactly when a label cell it reads lacks a span |
| `Extract.TablePairs` | main.py:38-48 | a table either yields pairs or fails with the parse error, never another error |
| `Extract.PagePairs` | main.py:37-48 | the tables either yield pairs or fail with the parse error, never another error |
| `Extract.ExtractSpec` | main.py:36-37 | a page with at most one `w728` table yields no pairs |
| `Extract.ExtractStockInfo` | main.py:33-50 | the nested loop over all `w728` tables but the last returns exactly the specified pairs, or the parse error when the specification fails |
| `Extract.AppendTableRows` | main.py:38-48 | the loop over one table's rows appends exactly that table's pairs to what was collected, or fails |
| `Extract.AppendRow` | main.py:40-48 | the loop body appends exactly the row's pairs, in cell order, or fails on a missing label span |
| `Extract.TableFailurePersists` | main.py:39-48 | a row that raises fails its whole table, whatever rows follow |
| `Extract.PageFailurePersists` | main.py:37-48 | a table that raises fails the whole page, whatever tables follow: no partial result |
| `ExtractProperties.RowPairsIgnoresExtraCells` | main.py:41-48 | cells after index 3 never change what a row yields |
| `ExtractProperties.PagePairsAppend` | main.py:37-48 | pairs come out in table order: the pairs of two table lists in a row are those of the first followed by those of the second, and either failing fails both |
| `ExtractProperties.TablePairsAppend` | main.py:39-48 | pairs come out in row order within a table, in the same sense |
| `ExtractProperties.W728TablesAppend` | main.py:36 | the `w728` tables of two documents in a row are those of the first followed by those of the second |
| `ExtractProperties.NoDataTables` | main.py:36 | a document without `w728` tables has none to scan |
| `ExtractProperties.LastDataTableIgnored` | main.py:36-37 | the last `w728` table never contributes, whatever its rows: the result is that of the `w728` tables before it |
| `ExtractProperties.TableSucceedsIff` | main.py:39-48 | a table yields pairs if and only if every row has the label spans the row rule reads |
| `ExtractProperties.PageSucceedsIff` | main.py:37-48 | a list of tables yields pairs if and only if all of its rows do |
| `ExtractProperties.ExtractSucceedsIff` | main.py:36-48 | the extraction raises if and only if some row of a `w728` table other than the last lacks a label span |
| `ExtractProperties.RowNames` | main.py:42-46 | the labels a row yields are exactly the span texts of its label cells |
| `ExtractProperties.TableNames` | main.py:38-48 | the labels a table yields are exactly those in the label cells of its rows |
| `ExtractProperties.PageNames` | main.py:37-48 | the labels the tables yield are exactly those standing in their label cells |
| `Strings.Replace` | main.py:62-64 | Python `str.replace`: an empty pattern inserts the replacement around every character (the result is as long as the string plus one more than its length times the replacement's length), deleting a non-empty pattern never lengthens the string, and a string shorter than the pattern is unchanged; `ReplaceEmptyByEmpty` and `DeleteChar` state what the cleaning uses |
| `Strings.ReplaceEmptyByEmpty` | main.py:63 | `replace('', '')` is the identity on every string |
| `Strings.DeleteChar` | main.py:62-64 | replacing one character by the empty string gives the string without that character, every other character kept in order and number (equal to `Without`, same multiset minus that character, unchanged when the character is absent) |
| `Strings.DeleteCharFromRun` | main.py:64 | a string made only of periods becomes empty once periods are removed |
| `Normalize.DropEmptyLabels` | main.py:60 | a pair survives the filter exactly when it was in the input and its raw label is non-empty |
| `Normalize.Pivot` | main.py:52-56 | one record whose columns are exactly the distinct labels, each holding the value of some pair with that label |
| `Normalize.CleanPairs` | main.py:60-65 | the five cleaning steps in the source order give one pair per pair with a non-empty raw label and no period in any label; `CleanPairsPointwise` says what each pair becomes |
| `Normalize.NormalizeData` | main.py:58-67 | `normalize_data` gives a record in which no column name contains a period; `NormalizeColumns` gives its columns and values |
| `Normalize.CleanPairsPointwise` | main.py:60-65 | the chain keeps the non-empty-label pairs in order and maps each label to translit-then-remove-periods and each value to remove-newlines-then-translit |
| `Normalize.NormalizeColumns` | main.py:58-67 | the columns are exactly the cleaned forms of the non-empty raw labels, and each holds the cleaned value of a pair with that label |
| `Normalize.PeriodOnlyLabelBecomesEmptyColumn` | main.py:60-64 | the filter runs on the raw label, so a label that transliterates to periods only (such as ".") survives and becomes the empty column name |
| `Normalize.ValueCleaningKeepsPeriods` | main.py:62-65 | a value is transliterated from the raw value with only its newlines removed: periods keep their number, and a value without newlines (such as "12.34") is transliterated unchanged |
| `Normalize.LabelCleaningKeepsNewlines` | main.py:61-64 | a cleaned label is the transliterated label with only its periods removed: its newlines stay, in the same number |
| `Normalize.DropEmptyLabelsAppend` | main.py:60 | the filter splits over a concatenation of pair lists |
| `Normalize.NormalizeSeesKeptPairsOnly` | main.py:60-66 | the record depends only on the pairs the filter keeps |
| `Normalize.EmptyLabelIgnored` | main.py:60 | a pair with an empty label, wherever it stands, does not change the record |
| `Scraper.ScrapeSpec` | main.py:69-75 | a fetch error carries the answer status, which is not 200; a record comes only from a 200 answer and has no period in a column name; `ScrapeOutcome` and `ScrapeColumns` give the rest |
| `Scraper.ScrapeStock` | main.py:69-75 | fetch, extraction and normalization composed; the first failure is the result |
| `Scraper.ScrapeOutcome` | main.py:69-75 | a ticker fails with the status when it is not 200, with the parse error when a data table lacks a label span, and succeeds exactly when neither happens |
| `Scraper.ScrapeColumns` | main.py:69-75 | on success the columns are exactly the cleaned forms of the non-empty labels standing in the `w728` tables other than the last |

## Left out

- The HTTP request (main.py:28) is the parameter `get`; headers are passed through to it. Timeouts, transport errors and the exception text are not modelled; a failure keeps only the status.
- BeautifulSoup parsing (main.py:31, main.py:36, main.py:38, main.py:40, main.py:42): the page is given already parsed. Tables nested inside a table (whose rows `find_all('tr')` would also return) and cells of nested rows are not modelled.
- `unidecode` (main.py:4) is the parameter `translit`; nothing is said about its output, so no lemma depends on what it does to accents.
- `pandas.Series.str.replace` is modelled as a literal replacement (the `regex=False` default of pandas 2); older pandas versions treating the pattern as a regular expression are not modelled.
- Normalize.Pivot: states only the column set and that each column holds the value of some pair with that label. pandas' behaviour for a repeated label with `aggfunc=lambda x: x` (which may keep an array or raise), column sorting, `dropna`, and the pivot of an empty frame are library-defined and not modelled; the body keeps the last value.
- `run_scraper` (main.py:77-89): the thread pool, completion order, per-ticker error logging and the progress bar are concurrency and I/O.
- `create_dirs`, logging setup, reading the ticker CSV, writing the output CSV, date-stamped file names, `pd.concat`, `print` and `main` (main.py:18-23, main.py:91-109): file-system and library plumbing.
