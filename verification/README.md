# Product scraper core, modelled in Dafny

The service fetches a product page from a Next.js storefront and returns the product record
for the requested URL. This project models the pure pipeline behind that, as it stands in
`main.py`:

1. **`extract_next_data`** (module `Extract`, with the cleanup in `CaptureCleanup`). Three
   search strategies are tried in a fixed order:
   - the `<script id="__NEXT_DATA__">` element;
   - the `<script data-name="query">` element;
   - a loose object with a `"product"` member.

   A hit has its group 1 taken, which is then cleaned up:
   - surrounding whitespace is stripped;
   - one leading `window.__NEXT_DATA__ =` assignment is removed;
   - every trailing `;` is dropped.

   The cleaned text is then parsed as JSON. The first strategy that both matches and parses
   wins. If none does, the call fails with "No Next.js data found". The third pattern has no
   capture group, so `match.group(1)` raises and the handler swallows the error. That
   strategy therefore never yields a document, and the model shows this.
2. **`nested_lookup("product", data)`** (module `Json`). This collects every value stored
   under the key `"product"` at any depth, including values inside arrays and inside other
   matched values. It is described twice:
   - as a recursive walk;
   - independently, by the path of array and member steps that leads to each value.

   The two are proved to agree.
3. **The candidate resolver** (module `Resolve`). The candidates are scanned in order. The
   first one accepted is returned. A candidate is accepted when it has a `urlKey` and either:
   - that key occurs in the final URL; or
   - the requested URL's last `/`-segment occurs in that key.

   A candidate can also make Python raise `TypeError`, which aborts the scan. There are
   three ways:
   - `'urlKey' in p` raises for null, booleans and numbers. On a list it is an element test,
     and on a string a substring test, so a list or string without `"urlKey"` is skipped.
   - A list or string that does contain `"urlKey"` raises at the subscript `p['urlKey']`.
   - A `urlKey` value that is not a string raises at `in str(response.url)`.

   The filter is therefore three-valued: accept, skip, or raise. When every candidate is
   skipped, including when there are none, the `if not product` check fails with "Product
   data extraction failed". A candidate whose test raises stops the scan with `TypeError`
   first, before any later candidate is looked at.
4. **`scrape_product`** without the fetch (module `Scrape`). It composes the three steps. The
   page text and the final URL after redirects are inputs.

The regex searches and `json.loads` are parameters:
- each search is a partial function from the page to the captured text;
- the parser is a partial function from text to a JSON `Value`.

Python's string operations are written out in `Text`:
- `strip` uses Python's whitespace set;
- `rstrip` of one character;
- `in` on strings, with an executable test proved equal to the positional definition;
- `split('/')[-1]`.

Shared types live in `Wrappers` (`Option`, `Result`) and `Errors` (the three failures).

## Behaviour worth knowing

- `rstrip(';')` (line 64) drops every trailing `;`, not only one.
- Nothing checks that a `urlKey` is non-empty (lines 89-91). An empty key is in every URL,
  so it always matches.
- The third strategy (line 53) can never produce a document, even when its pattern matches
  text that parses. Its pattern has no group 1 (line 60), and the `except` on line 66
  catches the resulting error.

## Model

| member | source | states |
|---|---|---|
| Text.Strip | main.py:63 | `str.strip()`: the result is the input with only whitespace removed from its two ends, and it neither starts nor ends with whitespace |
| Text.StripPadded | main.py:63 | stripping text with non-blank ends that is padded by whitespace on both sides gives back exactly that text |
| Text.RStrip | main.py:64 | `rstrip(';')`: the result is a prefix of the input, everything cut off is `;`, and the result does not end in `;` |
| Text.RStripPadded | main.py:64 | any run of `;` after text not ending in `;` is removed, and nothing else is |
| Text.ContainsIsInfix | main.py:90-91 | Python's `needle in hay` on strings holds exactly when `needle` occurs as a contiguous block of `hay` at some position |
| Text.Split | main.py:90-91 | `split('/')` returns at least one piece, no piece contains `/`, and joining the pieces with `/` rebuilds the input |
| Text.LastSegmentIsTextAfterFinalSlash | main.py:90-91 | `url.split('/')[-1]` is the suffix after the final `/`, and it is the whole URL exactly when the URL has no `/` |
| Text.TrailingSlashGivesEmptySegment | main.py:90-91 | a URL ending in `/` has an empty last segment |
| CaptureCleanup.AssignmentEnd | main.py:62-63 | the anchored substitution removes at most a prefix of the text, and only when the stripped text starts with `window.__NEXT_DATA__` |
| CaptureCleanup.StripAssignmentRemovesPrefix | main.py:62-63 | an assignment prefix, with any whitespace around the name and the `=`, is removed and the text after it is kept whole |
| CaptureCleanup.StripAssignmentRemovesOnlyOnce | main.py:62-63 | a second copy of the assignment after the first survives: `^` anchors the substitution at the start |
| CaptureCleanup.CleanupFor | main.py:62-64 | the cleaned text never ends in `;` |
| CaptureCleanup.Cleanup | main.py:62-64 | the cleaned capture of a `window.__NEXT_DATA__` script never ends in `;` |
| CaptureCleanup.AssignmentEndMatchesPattern | main.py:62-63 | on text without leading whitespace, the substitution removes something exactly when the text starts with the name, optional whitespace and `=` |
| CaptureCleanup.CleanupKeepsCleanText | main.py:62-64 | text with no surrounding whitespace, no trailing `;` and no name-whitespace-`=` at its start is returned unchanged, even when it starts with the name |
| CaptureCleanup.CleanupKeepsNameWithoutAssignment | main.py:62-64 | the name followed by anything other than whitespace or `=`, such as `window.__NEXT_DATA__.props`, is kept unchanged |
| CaptureCleanup.CleanupKeepsBareJson | main.py:62-64 | a capture that is already a JSON object text is parsed as captured |
| CaptureCleanup.CleanupDropsAssignmentAndSemicolons | main.py:62-64 | `<ws>name<ws>=<ws>json;;;<ws>` cleans up to exactly `json` |
| CaptureCleanup.CleanupDropsNextDataAssignment | main.py:62-64 | `window.__NEXT_DATA__ = {...};` with any whitespace and any number of `;` cleans up to the JSON text |
| Extract.Group | main.py:60 | `match.group(1)` has a value exactly when the pattern has a first capture group |
| Extract.ExtractFrom | main.py:56-69 | the loop succeeds exactly when some strategy matches and parses; it then returns the document of the first such strategy, since every earlier one was skipped; otherwise it fails with `NoNextDataFound` |
| Extract.CapturingAttempt | main.py:57-65 | a strategy with a capture group yields the parse of its cleaned capture when its search hits, and nothing otherwise |
| Extract.PlainSearchNeverYields | main.py:53-67 | the group-less third strategy yields nothing, whatever it matches and whatever the parser would return |
| Extract.ExtractFromFirstHit | main.py:56-67 | the first strategy that matches and parses decides the result, and later strategies are never consulted |
| Extract.ExtractNextDataOutcome | main.py:43-69 | the full outcome: the first strategy's document if it matches and parses, else the second's, else `NoNextDataFound`; the third strategy's search has no influence |
| Extract.ExtractsAssignedNextData | main.py:45-65 | a `__NEXT_DATA__` element holding `window.__NEXT_DATA__ = <json>;` gives the parse of `<json>` |
| Extract.ExtractFailsWithoutCapture | main.py:53-69 | when neither capturing strategy yields a document the call fails with "No Next.js data found", even if the third pattern matches |
| Json.Get | main.py:90-91 | `p['urlKey']` / `p.get('urlKey')` has a value exactly when the object has that key, and the value is one stored under it |
| Json.GetDistinct | main.py:90-91 | in an object with distinct keys, `obj[key]` is the value of the one member with that key |
| Json.LookupSound | main.py:83 | every value the deep lookup returns is stored under `"product"` at the end of some path of array and member steps |
| Json.LookupComplete | main.py:83 | every value stored under `"product"` at any depth, inside arrays or objects, is returned |
| Json.LookupFindsExactlyKeyedValues | main.py:83 | a value is returned exactly when it is stored under the key somewhere in the document |
| Json.LookupEmptyIffKeyAbsent | main.py:83 | the lookup returns nothing exactly when the key occurs nowhere in the document |
| Resolve.HasUrlKey | main.py:89 | `'urlKey' in p` raises exactly for null, booleans and numbers, and is a key test on objects |
| Resolve.Test | main.py:89-91 | a candidate is accepted exactly when it is an object whose `urlKey` is a string that occurs in the final URL or contains the requested URL's last segment; testing raises exactly for null, booleans, numbers, a list holding `"urlKey"`, a string containing `"urlKey"`, and an object whose `urlKey` is not a string |
| Resolve.NextMatch | main.py:87-92 | the generator gives nothing exactly when every candidate is skipped; otherwise the first candidate not skipped decides the result: it is returned if accepted, and a raise gives `CandidateTypeError` |
| Resolve.ResolveProduct | main.py:87-96 | resolution fails only with `ProductExtractionFailed` or `CandidateTypeError` |
| Resolve.AcceptedIsTruthy | main.py:94-96 | an accepted candidate is never false, so `if not product` rejects only the exhausted generator |
| Resolve.ResolveFirstDecided | main.py:87-96 | the first candidate not skipped is returned if accepted, or aborts with `CandidateTypeError` if testing it raises |
| Resolve.ResolveFailsIffAllSkipped | main.py:87-96 | "Product data extraction failed" is raised exactly when every candidate is skipped, including when there are none |
| Resolve.ResolveFailsIffNoneAccepted | main.py:87-96 | when every candidate is an object whose `urlKey`, if present, is a string, "Product data extraction failed" is raised exactly when no candidate is accepted |
| Resolve.UrlKeyIsStoredMember | main.py:90-91 | for a candidate with distinct keys, its `urlKey` is the string of the member stored under that key, wherever that member sits |
| Resolve.ResolvedIsAcceptedCandidate | main.py:87-92 | a returned product is one of the candidates, with a string `urlKey` that matches one of the URLs |
| Resolve.LaterMatchIsFound | main.py:87-92 | candidates without a `urlKey` are passed over, and a matching candidate after them is returned |
| Resolve.EmptyUrlKeyMatches | main.py:90 | a candidate whose `urlKey` is empty is accepted for every pair of URLs |
| Resolve.TrailingSlashMatchesAnyStringKey | main.py:90-91 | for a requested URL ending in `/`, every object with a string `urlKey` is accepted |
| Resolve.NonStringUrlKeyRaises | main.py:90 | a `urlKey` that is not a string makes the test raise |
| Scrape.ScrapeProduct | main.py:79-96 | the scrape fails with `NoNextDataFound` exactly when extraction fails |
| Scrape.ScrapedProductIsKeyedAndAccepted | main.py:80-98 | a scraped product is a value stored under `"product"` in the extracted document, and the filter accepts it |
| Scrape.NoProductEntryFails | main.py:83-96 | a document with no `"product"` entry at any depth fails with "Product data extraction failed" |
| Scrape.ScrapesFirstAcceptedProduct | main.py:80-98 | a `__NEXT_DATA__` element holding a bare JSON object text that parses yields the first `"product"` value the filter does not skip, when that value is accepted |

## Left out

- The Flask routes (`/healthcheck`, `/`, `/api/scrape-product`, main.py:104-128) and their mapping of errors to HTTP status codes are left out: they are a thin web adapter.
- The HTTP fetch is left out: the `httpx` client, redirect following and `raise_for_status` (main.py:26-34, 76-77) are network I/O. The page text and the final URL are inputs, and fetch errors are not modelled.
- `human_delay`, the asyncio event loop, the random user agent and all logging (main.py:10-24, 39-40, 84, 95, 100) are left out: they do not affect the result.
- The regex engine is left out, and each search is a parameter returning the captured text or nothing. Only the shape of the match object is kept: the first two patterns have one group and the third has none.
- `json.loads` is a parameter: a partial function from text to a document. `Number` holds integers only, because floating point is left out.
- Objects are not required to have distinct keys. Python's parser keeps only the last value of a repeated key. `Get` returns the first member with the key, and `Lookup` returns every value. The two agree on objects with distinct keys (`DistinctKeys`, `Json.GetDistinct`), which is all the parser produces.
- The `nested_lookup` library's internal traversal order is not taken from its source. The model yields a matching value before the values nested inside it, in document order. The lookup lemmas do not depend on this order. The resolver's first match does.
- Resolve.NextMatch: the `TypeError` message text, which names the offending type, is reduced to the error kind `CandidateTypeError`.
- The logging of swallowed exceptions and the `except Exception: raise` wrapper (main.py:66-67, 99-101) are left out: re-raising passes the error on unchanged, and the model does the same.
