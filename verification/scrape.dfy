/** The pure part of `scrape_product`: extract the page's data island, collect every value
    stored under "product" anywhere in it, and resolve the candidate for the requested URL.
    The fetch is left out: the page text and the final URL after redirects are inputs. */
module Scrape {
  import opened Wrappers
  import opened Errors
  import opened Json
  import opened CaptureCleanup
  import opened Extract
  import opened Resolve

  /** The key the deep lookup searches for (line 83). */
  function ProductKey(): string
  {
    "product"
  }

  /** Lines 79-96 for a fetched page `html` requested as `url` and served from `finalUrl`. */
  function ScrapeProduct(
    html: string, url: string, finalUrl: string,
    byId: string -> Option<string>,
    byDataName: string -> Option<string>,
    productLike: string -> Option<string>,
    parse: string -> Option<Value>): (r: Result<Value, Error>)
    ensures r == Failure(NoNextDataFound) <==> ExtractNextData(html, byId, byDataName, productLike, parse).Failure?
  {
    match ExtractNextData(html, byId, byDataName, productLike, parse)
    case Failure(e) => Failure(e)
    case Success(data) => ResolveProduct(Lookup(ProductKey(), data), url, finalUrl)
  }

  /** A scraped product is a value stored under "product" somewhere in the extracted document,
      and the resolver's filter accepts it. */
  lemma ScrapedProductIsKeyedAndAccepted(
    html: string, url: string, finalUrl: string,
    byId: string -> Option<string>,
    byDataName: string -> Option<string>,
    productLike: string -> Option<string>,
    parse: string -> Option<Value>)
    requires ScrapeProduct(html, url, finalUrl, byId, byDataName, productLike, parse).Success?
    ensures var p := ScrapeProduct(html, url, finalUrl, byId, byDataName, productLike, parse).value;
            var data := ExtractNextData(html, byId, byDataName, productLike, parse);
            && data.Success?
            && (exists path :: FoundAt(data.value, ProductKey(), path, p))
            && Test(p, url, finalUrl) == Accept
  {
    var data := ExtractNextData(html, byId, byDataName, productLike, parse).value;
    var candidates := Lookup(ProductKey(), data);
    var p := ResolveProduct(candidates, url, finalUrl).value;
    ResolvedIsAcceptedCandidate(candidates, url, finalUrl);
    LookupFindsExactlyKeyedValues(ProductKey(), data, p);
  }

  /** A document with no "product" entry at any depth fails with `ProductExtractionFailed`. */
  lemma NoProductEntryFails(
    html: string, url: string, finalUrl: string,
    byId: string -> Option<string>,
    byDataName: string -> Option<string>,
    productLike: string -> Option<string>,
    parse: string -> Option<Value>,
    data: Value)
    requires ExtractNextData(html, byId, byDataName, productLike, parse) == Success(data)
    requires forall path, v :: !FoundAt(data, ProductKey(), path, v)
    ensures ScrapeProduct(html, url, finalUrl, byId, byDataName, productLike, parse) == Failure(ProductExtractionFailed)
  {
    LookupEmptyIffKeyAbsent(ProductKey(), data);
    ResolveFailsIffAllSkipped([], url, finalUrl);
  }

  /** The common page: the `__NEXT_DATA__` element holds bare JSON that parses, and the first
      "product" value the filter does not skip is accepted; that value is the result. */
  lemma ScrapesFirstAcceptedProduct(
    html: string, url: string, finalUrl: string,
    byId: string -> Option<string>,
    byDataName: string -> Option<string>,
    productLike: string -> Option<string>,
    parse: string -> Option<Value>,
    json: string, data: Value, i: nat)
    requires byId(html) == Some(json)
    requires |json| > 0 && json[0] == '{' && json[|json| - 1] == '}'
    requires parse(json) == Some(data)
    requires FirstDecided(Lookup(ProductKey(), data), url, finalUrl, 0, i)
    requires Test(Lookup(ProductKey(), data)[i], url, finalUrl) == Accept
    ensures ScrapeProduct(html, url, finalUrl, byId, byDataName, productLike, parse) == Success(Lookup(ProductKey(), data)[i])
  {
    CleanupKeepsBareJson(json);
    ExtractNextDataOutcome(html, byId, byDataName, productLike, parse);
    ResolveFirstDecided(Lookup(ProductKey(), data), url, finalUrl, i);
  }
}
