/**
 * The request half of `get_stock_data`: the detail-page URL and the status
 * rule. The HTTP call itself is the parameter `get`, and the HTML parse is
 * already done in the `Document` it answers with.
 */
module Fetch {
  import opened Wrappers
  import opened Page

  const BaseUrl: string := "https://fundamentus.com.br"

  const UserAgent: string :=
    "Mozilla/5.0 (Windows NT 10.0; Win64; x64) AppleWebKit/537.36 (KHTML, like Gecko) Chrome/125.0.0.0 Safari/537.36"

  type Headers = map<string, string>

  /** The one header every request sends. */
  const BrowserHeaders: Headers := map["User-Agent" := UserAgent]

  const DetailsPath: string := "/detalhes.php?papel="

  /** What the transport answers: a status code and the parsed page. */
  datatype Response = Response(status: int, content: Document)

  /** Recovers the ticker from a detail-page URL under `base`, if it is one. */
  function TickerOf(base: string, url: string): Option<string>
  {
    var prefix := base + DetailsPath;
    if |prefix| <= |url| && url[..|prefix|] == prefix then Some(url[|prefix|..]) else None
  }

  /** The detail-page URL of a ticker: the ticker is read back from it unchanged. */
  function StockUrl(base: string, stock: string): (url: string)
    ensures |url| == |base| + |DetailsPath| + |stock|
    ensures url[..|base|] == base
    ensures TickerOf(base, url) == Some(stock)
  {
    var url := base + DetailsPath + stock;
    assert url[..|base + DetailsPath|] == base + DetailsPath;
    assert url[|base + DetailsPath|..] == stock;
    url
  }

  /** Two tickers never share a detail-page URL. */
  lemma StockUrlInjective(base: string, s1: string, s2: string)
    requires StockUrl(base, s1) == StockUrl(base, s2)
    ensures s1 == s2
  {
    assert TickerOf(base, StockUrl(base, s1)) == Some(s1);
  }

  /**
   * `get_stock_data`: one GET of the ticker's URL with the given headers;
   * any status but exactly 200 (other 2xx codes included) is a failure
   * carrying that status.
   */
  function GetStockData(base: string, stock: string, headers: Headers, get: (string, Headers) -> Response)
    : (r: Result<Document, ScrapeError>)
    ensures r.Success? <==> get(StockUrl(base, stock), headers).status == 200
    ensures r.Success? ==> r.value == get(StockUrl(base, stock), headers).content
    ensures r.Failure? ==> r.error == FetchError(get(StockUrl(base, stock), headers).status)
  {
    var response := get(StockUrl(base, stock), headers);
    if response.status != 200 then Failure(FetchError(response.status))
    else Success(response.content)
  }
}
