/**
 * `scrape_stock`: one ticker through fetch, extraction and normalization.
 * A failure at any stage is the ticker's result; nothing partial is kept.
 */
module Scraper {
  import opened Wrappers
  import opened Page
  import opened Extract
  import opened ExtractProperties
  import opened Normalize
  import opened Fetch

  /**
   * The record (or the error) one ticker yields, given the transport and the
   * transliteration: a fetch error carries a status other than 200, and a
   * record comes only from a 200 answer and has no period in a column name.
   */
  function ScrapeSpec(stock: string, get: (string, Headers) -> Response, translit: string -> string)
    : (r: Result<Record, ScrapeError>)
    ensures r.Failure? && r.error.FetchError? ==>
      r.error.status == get(StockUrl(BaseUrl, stock), BrowserHeaders).status && r.error.status != 200
    ensures r.Success? ==> get(StockUrl(BaseUrl, stock), BrowserHeaders).status == 200
    ensures r.Success? ==> forall k :: k in r.value ==> '.' !in k
  {
    match GetStockData(BaseUrl, stock, BrowserHeaders, get)
    case Failure(e) => Failure(e)
    case Success(doc) =>
      match ExtractSpec(doc)
      case Failure(e) => Failure(e)
      case Success(pairs) => Success(NormalizeData(pairs, translit))
  }

  /** `scrape_stock`, calling the extraction loop. */
  method ScrapeStock(stock: string, get: (string, Headers) -> Response, translit: string -> string)
    returns (r: Result<Record, ScrapeError>)
    ensures r == ScrapeSpec(stock, get, translit)
  {
    var soup := GetStockData(BaseUrl, stock, BrowserHeaders, get);
    if soup.Failure? {
      return Failure(soup.error);
    }
    var raw := ExtractStockInfo(soup.value);
    if raw.Failure? {
      return Failure(raw.error);
    }
    r := Success(NormalizeData(raw.value, translit));
  }

  /** The page a ticker's request answers with. */
  function Answer(stock: string, get: (string, Headers) -> Response): Response
  {
    get(StockUrl(BaseUrl, stock), BrowserHeaders)
  }

  /**
   * A ticker fails with the status when it is not 200, with a parse error
   * when a data table lacks a label span, and succeeds otherwise.
   */
  lemma ScrapeOutcome(stock: string, get: (string, Headers) -> Response, translit: string -> string)
    ensures Answer(stock, get).status != 200 ==>
      ScrapeSpec(stock, get, translit) == Failure(FetchError(Answer(stock, get).status))
    ensures Answer(stock, get).status == 200 && !WellFormed(AllButLast(W728Tables(Answer(stock, get).content))) ==>
      ScrapeSpec(stock, get, translit) == Failure(ParseError)
    ensures ScrapeSpec(stock, get, translit).Success? <==>
      Answer(stock, get).status == 200 && WellFormed(AllButLast(W728Tables(Answer(stock, get).content)))
  {
    ExtractSucceedsIff(Answer(stock, get).content);
  }

  /**
   * On success the record's columns are exactly the cleaned forms of the
   * non-empty labels standing in the data tables of the page.
   */
  lemma ScrapeColumns(stock: string, get: (string, Headers) -> Response, translit: string -> string)
    requires ScrapeSpec(stock, get, translit).Success?
    ensures forall k :: k in ScrapeSpec(stock, get, translit).value <==>
      exists l :: LabelOnPage(AllButLast(W728Tables(Answer(stock, get).content)), l)
                  && l != "" && CleanLabel(l, translit) == k
  {
    var doc := Answer(stock, get).content;
    var tables := AllButLast(W728Tables(doc));
    var pairs := PagePairs(tables).value;
    var r := ScrapeSpec(stock, get, translit).value;
    assert r == NormalizeData(pairs, translit);
    PageNames(tables);
    NormalizeColumns(pairs, translit);
    forall k ensures k in r <==> exists l :: LabelOnPage(tables, l) && l != "" && CleanLabel(l, translit) == k
    {
      if k in r {
        var p :| p in pairs && p.name != "" && CleanLabel(p.name, translit) == k;
        assert p.name in Names(pairs);
      }
      if exists l :: LabelOnPage(tables, l) && l != "" && CleanLabel(l, translit) == k {
        var l :| LabelOnPage(tables, l) && l != "" && CleanLabel(l, translit) == k;
        assert l in Names(pairs);
        var p :| p in pairs && p.name == l;
      }
    }
  }
}
