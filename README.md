# MSPriceEngine ingestion layer in Dafny

This project models the ingestion and normalisation layer of MSPriceEngine, a
price aggregator for Mexican online stores. The layer fetches listings from
store APIs, product feeds and HTML scrapers, turns them into one canonical
`Product` record, validates them, and writes them to the stores, categories
and products tables.

One module per source file or component:

- `Canonical` (product.dfy): the canonical `Product` record, its validation and the batch filter (app/integrations/base.py).
- `JsonValue`, `JsonFeed` (json_value.dfy, json_parser.dfy): decoded JSON values and the JSON feed parser. It covers product-list discovery, alias-based field resolution and price parsing.
- `CsvFeed` (csv_parser.dfy): the CSV feed parser, with column mapping, aliases and price parsing.
- `XmlFeed` (xml_parser.dfy): the XML feed parser. The Google Merchant entry format is tried first, and the generic `<product>` format only when it yields nothing.
- `ApiAdapter` (api_adapter.dfy): the shared REST adapter. The sliding-window rate limiter is the class `RateLimiter`. The module also has the request headers and URL, the "has more pages" check and the page loop.
- `MercadoLibre`, `Amazon` (mercadolibre.dfy, amazon.dfy): the two API-backed stores.
- `FeedStores` (feed_stores.dfy): the feed-backed stores Coppel, Sears and Liverpool, plus the placeholder adapters.
- `ProductTable` (product_table.dfy): the three tables and the database session, as the class `Session`. The session keeps committed and staged rows apart.
- `Importer` (importer.dfy): the import driver import_products.py. It covers slugs, category setup, the per-query upsert batch and the whole run.
- `Scheduler` (scheduler.dfy): the scheduled scrape of one store (app/scheduler.py).
- `Scraper` (scraper.dfy): the shared scraper helpers. These are the fetch with retries and exponential back-off, the price and name cleaners, and the multi-page scrape.
- `Numerals`, `PriceText`, `Text`, `Seqs`, `Wrappers`: Python's `float()` on decimal text, the three price-text cleaners, the string methods used (`strip`, `split`, `lower`, `replace`, `in`), list helpers, and `Option`.

Stateful code is modelled as classes: the rate limiter and the database session. The loops of the importer, the scheduler, the page loop and the scraper fetch are methods. Each of them is proved against a specification function, and the properties are lemmas about those functions. Parsers and validation are pure functions.

Inputs that come from outside are parameters:

- HTTP responses, as a function from request to decoded response;
- the clock;
- the outcome of a scrape.

Where the design description and the code disagree, the model follows the code:

- Records without a sku. The scheduler's lookup `sku == item.get('sku')` becomes `IS NULL` for such a record, so a record without a sku updates the store's first sku-less row instead of being inserted. The importer does insert such records, because it looks up only a truthy sku (`Importer.Match`). See the findings below.
- Failures while saving. When saving a scheduled query raises, nothing is rolled back, and the staged rows are written by the next query's commit. The importer rolls back only when a query's batch commit fails. An exception while building a record is skipped per record. A category commit that breaks the unique `categories.slug` is not caught: the import ends there, before any query runs (`Importer.AccentedNameCollides`).
- Fields a scheduler update changes. An update there changes only price, availability and timestamp. The importer's update also changes name, URL, image and currency.
- The JSON round trip. The design describes a record serialized by a JSON feed parser and parsed again into an equal record. The code has no serializer: records leave the parsers only as `Product` values written to the database. So there is no round trip to state.
- The end-to-end JSON example. In the example feed record, "X" has no image field. `validate` requires the image URL to start with "http", so the record is rejected and the example yields no record (`JsonFeed.NoImageRejected`).

## Model

| member | source | states |
|---|---|---|
| Canonical.NewProduct | app/integrations/base.py:12-27 | a record built with only the required fields has currency "MXN" and is available; every other field is the one passed |
| Canonical.Validate | app/integrations/base.py:29-39 | a record is valid exactly when its name has a non-whitespace character, its price is positive, and both its store URL and image URL start with "http" |
| Canonical.ValidateProducts | app/integrations/base.py:90-100 | the result keeps input order, holds only valid records, and keeps every valid record as often as the input has it |
| Canonical.ValidateProductsIdempotent | app/integrations/base.py:90-100 | validating an already validated list changes nothing |
| Canonical.ValidateProductsAppend | app/integrations/base.py:90-100 | validating a concatenation gives the concatenation of the validated parts, so each record is judged on its own |
| JsonFeed.ExtractProductList | app/integrations/parsers/json_parser.py:106-146 | the path walk and common-key loops return exactly the list that `ProductList` describes |
| JsonFeed.WalkAppend | app/integrations/parsers/json_parser.py:122-128 | following a dotted path in two parts is the same as following the first part and then the rest |
| JsonFeed.ListRootUnchanged | app/integrations/parsers/json_parser.py:116-118 | when the document root is a list, that list is returned whatever path is configured |
| JsonFeed.PathMissNoFallback | app/integrations/parsers/json_parser.py:121-128 | when a configured path misses at some step the result is `[]`, and the common keys are not tried |
| JsonFeed.FirstContributing | app/integrations/parsers/json_parser.py:134-144 | a common key it reports contributes a list; that no earlier key does is stated by `JsonFeed.FirstCommonListWins` |
| JsonFeed.FirstCommonListWins | app/integrations/parsers/json_parser.py:134-146 | the scan returns the list of the earliest contributing key, either directly or through its `items`; every earlier key contributes nothing; when no key contributes the result is `[]` |
| JsonFeed.ProductsKeyFirst | app/integrations/parsers/json_parser.py:133-140 | with no path set and a `products` list at the root, that list is the product list |
| JsonFeed.FieldTrimmed | app/integrations/parsers/json_parser.py:210-211 | a resolved field neither starts nor ends with whitespace |
| JsonFeed.GetField | app/integrations/parsers/json_parser.py:189-213 | the alias loop with its early return computes `Field` |
| JsonFeed.FieldNoneIff | app/integrations/parsers/json_parser.py:200-213 | the field is absent exactly when no alias is present with a non-null unwrapped value |
| JsonFeed.FirstResolving | app/integrations/parsers/json_parser.py:200-211 | a reported alias resolves; that none before it does is stated by `JsonFeed.FieldFirstResolving` |
| JsonFeed.FieldFirstResolving | app/integrations/parsers/json_parser.py:200-213 | the field is the stripped text of the earliest resolving alias, with a dict value unwrapped through `value`, else `text`; every earlier alias is missing or null |
| JsonFeed.ParsePriceDict | app/integrations/parsers/json_parser.py:226-231 | a dict price is read through `value` when present, else through `amount`, one level deep only; a dict found at that level does not convert |
| JsonFeed.DictNotPrice | app/integrations/parsers/json_parser.py:234-239 | the text of a dict starts with "{", so it never converts and the price is `None` |
| JsonFeed.PriceSpellingsParse | app/integrations/parsers/json_parser.py:234-237 | "$1,299.99" and "MXN 1299.99" both convert to 1299.99 |
| JsonFeed.ParsePriceWholeNumber | app/integrations/parsers/json_parser.py:234-237 | a whole number converts to itself, whether it is given as text or as a decoded number |
| JsonFeed.ParseItemSpec | app/integrations/parsers/json_parser.py:148-187 | an item yields a product exactly when name, price and url resolve to non-empty text and the price converts to a positive value; the product carries the parser's store name and the resolved fields; its price is the converted price text; its image is the resolved image text, "" when no image alias resolves |
| JsonFeed.ParsedPriceSpellings | app/integrations/parsers/json_parser.py:234-237 | an item whose price reads "$1,299.99" or "MXN 1299.99", with a name and a url, parses to a product priced 1299.99 |
| JsonFeed.ParsedItemValid | app/integrations/parsers/json_parser.py:167-184 | a parsed product passes validation exactly when its url and image url start with "http"; the name and price guards already hold |
| JsonFeed.ParsedItemsFromDicts | app/integrations/parsers/json_parser.py:97-102 | every output product comes from a dict element that parses to it, and every dict that parses contributes its product |
| JsonFeed.ParsedItemsAppend | app/integrations/parsers/json_parser.py:97-102 | the list is processed element by element, so output order is list order |
| JsonFeed.ParseFromDict | app/integrations/parsers/json_parser.py:79-104 | the result is the parsed dict elements of the located list, in order |
| JsonFeed.ParseFromString | app/integrations/parsers/json_parser.py:62-77 | text that does not decode yields `[]`; otherwise the result is as for the decoded document |
| JsonFeed.NoImageRejected | app/integrations/parsers/json_parser.py:163-184 | an item whose image aliases all miss yields a product with image "", which validation rejects |
| JsonValue.GetFirst | app/integrations/parsers/json_parser.py:200-202 | a key is present exactly when some entry has it, and `get` returns the value of the first such entry |
| JsonValue.Repr | app/integrations/parsers/json_parser.py:234 | `repr()` of any decoded value is non-empty |
| JsonValue.PyStr | app/integrations/parsers/json_parser.py:234 | `str()` of a non-string is non-empty, of a list starts with '[' and of a dict with '{' |
| CsvFeed.Aliases | app/integrations/parsers/csv_parser.py:38-45 | each field has alias columns, and the first alias is the field's own name |
| CsvFeed.GetValue | app/integrations/parsers/csv_parser.py:133-160 | tries the custom column, then the aliases, then the exact column, and computes `Value` |
| CsvFeed.ScanAliases | app/integrations/parsers/csv_parser.py:151-154 | the alias loop with its early return computes `AliasValue` |
| CsvFeed.FirstHit | app/integrations/parsers/csv_parser.py:152-153 | a reported alias column is present with a non-empty cell; that none before it is is stated by `CsvFeed.AliasOrder` |
| CsvFeed.AliasOrder | app/integrations/parsers/csv_parser.py:151-154 | the value is the stripped cell of the earliest alias column that is present and non-empty; every earlier one is missing or empty; with no hit there is no value |
| CsvFeed.CustomWins | app/integrations/parsers/csv_parser.py:144-148 | a configured custom column that is present wins, even when its cell is blank (the value is then "") |
| CsvFeed.ExactLastResort | app/integrations/parsers/csv_parser.py:150-160 | without a custom column, the exact-match column is reached only when the field's own cell is empty, and it then yields ""; with no such column the value is `None` |
| CsvFeed.ValueTrimmed | app/integrations/parsers/csv_parser.py:148-158 | a value read from a row never starts or ends with whitespace |
| CsvFeed.ParseRowSpec | app/integrations/parsers/csv_parser.py:101-131 | a row yields a product exactly when name, price and url are non-empty and the cleaned price converts; the product carries the resolved name and url, the converted price of either sign, the parser's store name, the resolved image or "" when none, and the category and sku as read |
| CsvFeed.NonPositiveKept | app/integrations/parsers/csv_parser.py:116-128 | a row whose price converts to zero or less is still kept, and validation then rejects the product |
| CsvFeed.ParseFromString | app/integrations/parsers/csv_parser.py:75-99 | the result is the products of the rows that parse, in row order |
| CsvFeed.ParsedRows | app/integrations/parsers/csv_parser.py:94-97 | every product comes from a row that parses to it; every row that parses contributes its product; a failing row drops only itself |
| XmlFeed.WithTag | app/integrations/parsers/xml_parser.py:72 | `findall` keeps every element with the tag and only those, in document order and each as often as it occurs (the `Filter` of the children by tag) |
| XmlFeed.FirstWithTag | app/integrations/parsers/xml_parser.py:92-97 | `find` returns an element with the tag, and no earlier child has that tag; it returns nothing exactly when no element has the tag |
| XmlFeed.BuildItemSpec | app/integrations/parsers/xml_parser.py:99-115 | an item yields a product exactly when its name element and its price element exist, the price element has text, and that text converts; the product has the converted price, the parser's store name and the name, link and image texts ("" for a missing element or text); category and sku are the elements' texts, `None` when the element is missing |
| XmlFeed.MxnPriceByMode | app/integrations/parsers/xml_parser.py:101-102 | a merchant price "MXN " + d converts to the value of d, while the generic parser keeps "MXN" and the same price fails to convert |
| XmlFeed.GenericMxn | app/integrations/parsers/xml_parser.py:128 | the generic cleaner leaves "MXN " + d unconvertible |
| XmlFeed.TwoPassSpec | app/integrations/parsers/xml_parser.py:71-84 | products never mix the two passes: all come from the entries or all from the generic products; the generic pass runs exactly when no entry parses, however many entries there are |
| XmlFeed.ParseItems | app/integrations/parsers/xml_parser.py:72-75 | the loop returns the parsed items, in document order, leaving out those that fail |
| XmlFeed.ParseFromString | app/integrations/parsers/xml_parser.py:58-84 | a document the reader rejects makes the call fail; otherwise the merchant pass runs, then the generic pass only when the merchant pass gave nothing |
| ApiAdapter.RateLimiter.constructor | app/integrations/api_adapter.py:43-49 | a new limiter has the configured limit and an empty request log |
| ApiAdapter.RateLimiter.Apply | app/integrations/api_adapter.py:129-146 | the log is pruned to the last second; the wait is the one `WaitFor` gives; the request is recorded at the clock reading after the sleep, `now + wait + lag`; a limit of zero with an empty log raises and the log stays pruned; the new log is `Admit` of the old |
| ApiAdapter.PrunedSpec | app/integrations/api_adapter.py:134-136 | pruning keeps exactly the timestamps later than one second before now, in log order and with their multiplicity |
| ApiAdapter.WaitSpec | app/integrations/api_adapter.py:138-143 | below the limit there is no wait; the call raises only for a limit of zero or less with an empty log; at the limit the wait is what is left of the second since the oldest retained request, and it lies in (0, 1] seconds |
| ApiAdapter.NextCallWaits | app/integrations/api_adapter.py:136-146 | after `limit` serial calls within one second, a further call before one second has passed since the first was recorded waits exactly until that second is over, and is recorded no earlier than one second after the first |
| ApiAdapter.BurstAdmitsAll | app/integrations/api_adapter.py:136-146 | up to the limit, serial calls within one second never wait, and the log holds each call's time in order |
| ApiAdapter.AdmitBelowLimit | app/integrations/api_adapter.py:136-146 | below the limit, a call on a log less than a second old is recorded without a wait and nothing is pruned |
| ApiAdapter.PrunedSorted | app/integrations/api_adapter.py:136 | pruning a log in time order leaves it in time order |
| ApiAdapter.AdmitKeepsSorted | app/integrations/api_adapter.py:136-146 | with a clock that never runs backwards the log stays in time order after a call, so the first retained entry used for the wait is the oldest, and the newest entry is the last |
| ApiAdapter.SetHeader | app/integrations/api_adapter.py:113 | assigning a header sets that name and leaves every other header unchanged; the header list grows only when the name is new |
| ApiAdapter.GetAuthHeaders | app/integrations/api_adapter.py:96-127 | the User-Agent and Accept headers are always present; an api_key config with a key sets the configured key header (X-API-Key by default); bearer uses `token`, else `access_token`; oauth uses `access_token`; any other type, or a missing or empty credential, gives only the base headers |
| ApiAdapter.StoredBaseUrl | app/integrations/api_adapter.py:44 | the stored base URL is the given one without its trailing slashes, and only those |
| ApiAdapter.TrailingSlashIgnored | app/integrations/api_adapter.py:44-77 | a trailing slash on the base URL does not change the request URL, and stripping slashes twice is stripping once |
| ApiAdapter.HasMorePagesOrder | app/integrations/api_adapter.py:241-270 | on a dict response the first present key of `has_next`, `next_page`, `total_pages` and `paging` decides, and with none of them the answer is no |
| ApiAdapter.TotalPagesDecides | app/integrations/api_adapter.py:259-260 | a numeric `total_pages`, with no earlier key present, says to go on exactly while the page is below it |
| ApiAdapter.PageParams | app/integrations/api_adapter.py:214-215 | the page request has the base parameters with the page key set to the page number, and nothing else changes |
| ApiAdapter.FetchAllPages | app/integrations/api_adapter.py:186-239 | the loop returns the products of the page run from page 1 |
| ApiAdapter.RunPage | app/integrations/api_adapter.py:217-233 | a page within the bound adds nothing when its request or parse fails or it is empty; otherwise it adds its products, followed by the later pages' products only when the has-more decision is yes |
| ApiAdapter.RunPages | app/integrations/api_adapter.py:210-233 | pages are requested one after another from the first, at least one when the first is within the bound, and never beyond the bound |
| ApiAdapter.RunStops | app/integrations/api_adapter.py:222-237 | every requested page but the last said to go on; the last one stopped the loop or was the last page allowed |
| ApiAdapter.RunGathers | app/integrations/api_adapter.py:226 | the result is the requested pages' products, concatenated in page order |
| ApiAdapter.RunToBound | app/integrations/api_adapter.py:212 | when every page up to the bound says to go on, all pages up to the bound are requested |
| MercadoLibre.ThumbnailUpgrade | app/integrations/stores/mercadolibre.py:146-151 | upgrading a thumbnail keeps its length, turns the "I" of every "-I.jpg" into "O", keeps every other character, and leaves no "-I.jpg" behind |
| MercadoLibre.UpgradeAt | app/integrations/stores/mercadolibre.py:151 | one position of the upgraded thumbnail is "O" right after a "-" that starts "-I.jpg", and the original character everywhere else |
| MercadoLibre.ImageOfSpec | app/integrations/stores/mercadolibre.py:146-151 | the image read from a string thumbnail has its length and is the upgraded text when non-empty; no thumbnail gives ""; no image contains "-I.jpg" |
| MercadoLibre.ParseItemSpec | app/integrations/stores/mercadolibre.py:120-173 | a parsed item is a dict whose id, title, price and permalink are all truthy; the product carries the title, the permalink, the store name, the id as sku and the converted price; the currency is the item's `currency_id`, MXN when missing; the category is its `category_id`, none when missing or null; it is available exactly when `available_quantity` is positive, a missing quantity counting as none; the image is the thumbnail with every "-I.jpg" replaced by "-O.jpg", "" without a thumbnail, and never contains "-I.jpg" |
| MercadoLibre.ParseItemSucceeds | app/integrations/stores/mercadolibre.py:120-173 | an item parses exactly when it is a dict whose id, title and permalink are truthy strings, whose price is truthy and converts, and whose thumbnail, category, currency and quantity read without raising |
| MercadoLibre.ParseSearchResponse | app/integrations/stores/mercadolibre.py:95-118 | the loop over `results` computes `SearchResults`: the products of the items that parse, in order; a missing `results` key gives none; a response that is not a dict raises |
| MercadoLibre.SearchResultsSpec | app/integrations/stores/mercadolibre.py:107-118 | every product comes from an item under `results` that parses to it, and every such item contributes |
| MercadoLibre.SearchParams | app/integrations/stores/mercadolibre.py:58-65 | the parameters are the query and `min(limit, 50)`, plus the category exactly when one is given |
| MercadoLibre.FetchProducts | app/integrations/stores/mercadolibre.py:38-93 | builds the parameters, makes one request or runs the page loop, and returns the `FetchResult` of the inputs |
| MercadoLibre.FetchResultSpec | app/integrations/stores/mercadolibre.py:55-93 | a missing or empty query gives `[]`; every result has at most `limit` products, all valid; when the fetch succeeds the result is the validated first `limit` fetched products, in fetched order; a raising fetch gives `[]` |
| MercadoLibre.PagesNeeded | app/integrations/stores/mercadolibre.py:69-79 | above 50 results the page bound is the number of 50-result pages needed, rounded up, and the loop requests between one and that many pages |
| MercadoLibre.OffsetAsWritten | app/integrations/stores/mercadolibre.py:72-79 | as written, page 1 is sent with offset 1 and page 2 with offset 2, both asking for 50 results, so the second window overlaps the first |
| MercadoLibre.CorrectedOffsets | app/integrations/stores/mercadolibre.py:72-79 | with the correction, page p is sent with offset 50·(p−1) and limit 50, so consecutive pages cover adjacent, disjoint windows |
| MercadoLibre.CorrectedFetchSpec | app/integrations/stores/mercadolibre.py:55-93 | the corrected fetch keeps the guarantees: no query gives `[]`, at most `limit` products, all valid; up to 50 results it equals the original |
| MercadoLibre.TestConnection | app/integrations/stores/mercadolibre.py:175-188 | the check succeeds only on a dict response from the site request, and then exactly when its id is "MLM" |
| Amazon.SearchPayload | app/integrations/stores/amazon.py:76-91 | the payload has the keywords, the three resources, `min(limit, 10)` items, the partner tag and type and the marketplace, plus `SearchIndex` exactly when a category is given |
| Amazon.ParseItemSpec | app/integrations/stores/amazon.py:135-171 | an item yields a product only when it is a dict with a truthy ASIN, title, detail page URL and first-listing price; the name is the title's display value; the price is the first listing's, whatever the others hold; the image is the large image URL, "" when there is none; the product has currency MXN and the ASIN as sku |
| Amazon.ParseItemSucceeds | app/integrations/stores/amazon.py:135-171 | an item with a truthy string ASIN, title and detail page URL, a truthy first-listing price that converts, and a string large image URL does parse |
| Amazon.ParseSearchResponse | app/integrations/stores/amazon.py:118-133 | the loop over `SearchResult.Items` computes `SearchResults`: the products of the items that parse, in order |
| Amazon.FetchProducts | app/integrations/stores/amazon.py:50-102 | applies the credential and query gates, builds the payload, requests, parses and validates, giving the `FetchResult` of the inputs |
| Amazon.FetchResultSpec | app/integrations/stores/amazon.py:67-102 | without all three credentials, or without a query, there are no products; every product returned is valid; otherwise the result is the validated products of the response, in order |
| Amazon.StubFetchesNothing | app/integrations/stores/amazon.py:104-116 | with the unsigned request stub, the fetch returns no product for any input |
| Amazon.TestConnection | app/integrations/stores/amazon.py:173-184 | the check is true exactly when all three credentials are configured |
| FeedStores.TakeOfFilters | app/integrations/stores/coppel.py:68-85 | three filters in a row are one filter by their conjunction, and the truncated result keeps order and holds only elements that pass |
| FeedStores.PipelineSpec | app/integrations/stores/coppel.py:68-85 | validation runs before truncation: the result is the first `limit` feed products that pass both filters and validation, in feed order; so it has at most `limit` products and is a subsequence of the feed |
| FeedStores.CategoryFilterNeedsCategory | app/integrations/stores/coppel.py:76-81 | under a category filter every product returned has a non-empty category that contains the filter, ignoring case; so products without a category are dropped |
| FeedStores.QueryFilterMatchesName | app/integrations/stores/coppel.py:69-74 | under a query every product returned is valid and has the query in its name, ignoring case |
| FeedStores.ConnectionMeansValidProduct | app/integrations/stores/coppel.py:98-100 | a fetch with `limit=1` and no filter is non-empty exactly when the feed holds a valid product |
| FeedStores.CoppelFetchSpec | app/integrations/stores/coppel.py:43-89 | without `feed_url`, or when the feed cannot be fetched or decoded, there is nothing; otherwise at most `limit` products, each valid, carrying the store name "Coppel" and passing both filters |
| FeedStores.CoppelConnectionSpec | app/integrations/stores/coppel.py:91-103 | the connection check succeeds exactly when `feed_url` is set and the feed holds a valid product |
| FeedStores.CoppelParseFromFile | app/integrations/stores/coppel.py:105-122 | an unreadable file gives nothing; otherwise the result is the valid products parsed from the document, in document order and each as often as the document has it; every one carries the store name "Coppel" |
| FeedStores.JsonStoreName | app/integrations/parsers/json_parser.py:176-179 | every product parsed from a JSON document carries the parser's store name |
| FeedStores.SearsFetchSpec | app/integrations/stores/sears.py:39-85 | without `feed_url`, or when the feed cannot be fetched or parsed, there is nothing; otherwise the result is the first `limit` products of the feed that pass both filters and validation, in feed order |
| FeedStores.SearsConnectionSpec | app/integrations/stores/sears.py:87-99 | the connection check succeeds exactly when `feed_url` is set and the feed holds a valid product |
| FeedStores.SearsParseFromFile | app/integrations/stores/sears.py:101-118 | an unreadable file gives nothing; otherwise the result is the valid products parsed from the document, in document order and each as often as the document has it |
| FeedStores.LiverpoolParser | app/integrations/stores/liverpool.py:31-36 | a JSON parser without a product path, with the store name "Liverpool", exists exactly when `feed_url` is set |
| FeedStores.LiverpoolFetchSpec | app/integrations/stores/liverpool.py:38-85 | without `feed_url`, or when the feed fails, there is nothing; otherwise the feed pipeline runs over a JSON parser without a product path |
| FeedStores.LiverpoolConnectionSpec | app/integrations/stores/liverpool.py:87-96 | the connection check is false without `feed_url`, and otherwise succeeds exactly when the feed holds a valid product |
| FeedStores.PlaceholderFetch | app/integrations/stores/coppel.py:138-146 | the API placeholders (`CoppelAPIIntegration`, `SearsAPIIntegration`, `LiverpoolAPIIntegration`) return no product for any arguments |
| FeedStores.PlaceholderTestConnection | app/integrations/stores/liverpool.py:136-138 | the placeholders' connection check is always false |
| ProductTable.Flag | app/scheduler.py:67 | the stored `available` is 1 exactly when the flag holds and 0 exactly when it does not |
| ProductTable.FirstWhere | app/scheduler.py:59-62 | `.first()` finds a matching row that no earlier row matches, and finds nothing exactly when no row matches |
| ProductTable.WithStore | app/scheduler.py:43-48 | get-or-create leaves the store table alone when the name is present, appends one row with the name and URL otherwise, afterwards the name is always present, and the unique store names stay unique |
| ProductTable.StoreId | app/scheduler.py:43-48 | the id of a present store is a valid row id whose row has that name |
| ProductTable.WithCategory | import_products.py:105-115 | get-or-create leaves the category table alone when the name is present, and when it succeeds the name is present afterwards |
| ProductTable.WithCategorySpec | import_products.py:105-115 | get-or-create fails exactly when no row has the name and some row already has the new row's slug, as the commit raises on the unique `categories.slug` (app/models.py:30); a successful create appends the row, and unique names and slugs stay unique |
| ProductTable.CategoryId | import_products.py:105-115 | the id of a present category is a valid row id whose row has that name |
| ProductTable.Session.constructor | app/database.py:17 | a new session sees the given tables and has nothing staged |
| ProductTable.Session.GetOrCreateStore | app/scheduler.py:43-48 | the store table becomes its get-or-create result, the id returned is the named row's, and nothing else changes |
| ProductTable.Session.GetOrCreateCategory | import_products.py:105-115 | on success the category table becomes its get-or-create result and the id returned is the named row's; on a duplicate slug the table keeps its committed rows and no id is returned; nothing else changes |
| ProductTable.Session.Add | app/scheduler.py:80 | `db.add` stages one more row after the staged ones and changes nothing committed |
| ProductTable.Session.Update | app/scheduler.py:64-68 | assigning to a loaded row changes only that row's staged copy |
| ProductTable.Session.Commit | app/scheduler.py:82 | the staged rows become the committed ones |
| ProductTable.Session.Rollback | app/scheduler.py:91-92 | the staged changes are discarded and the committed rows stay |
| Importer.Unaccented | import_products.py:23-28 | the six accent rewrites act letter by letter: same length, each character mapped on its own |
| Importer.DropRun | import_products.py:30 | drops the leading characters outside `[a-z0-9]`, leaving a suffix that starts with a slug character or is empty |
| Importer.HyphenateDashed | import_products.py:30 | after the run replacement only `[a-z0-9]` and single '-' remain, and a leading '-' comes only from a leading non-slug character |
| Importer.HyphenateFixed | import_products.py:30 | a string of slug characters and single dashes is left as it is by the run replacement |
| Importer.StripDashesWellFormed | import_products.py:32 | trimming the dashes of such a string leaves no '-' at either end and no two '-' in a row |
| Importer.WellFormedFixed | import_products.py:19-33 | a well-formed slug is left as it is by every step of `create_slug` |
| Importer.CreateSlugSpec | import_products.py:19-33 | the slug holds only `[a-z0-9]` and '-', never starts or ends with '-', never has two '-' in a row, and applying `create_slug` again changes nothing |
| Importer.SlugOfComputacion | import_products.py:22-33 | accents are folded after lowercasing: "Computación" gives "computacion" |
| Importer.SetupKeepsRows | import_products.py:105-117 | the category loop keeps every existing category row |
| Importer.SetupFailureSticks | import_products.py:105-117 | after a category commit raises, the later names are not processed and the loop's outcome is the one at the failure |
| Importer.SetupOkIff | import_products.py:105-117 | the category loop completes exactly when no step meets a new name whose slug is already taken |
| Importer.SetupFailsAt | import_products.py:105-117 | a failed category loop has a step that collides, and returns its index |
| Importer.SetupOkPrefix | import_products.py:105-117 | every prefix of a completed category loop completes too |
| Importer.SetupKeepsUnique | import_products.py:105-117 | the category loop keeps the unique constraints on names and slugs |
| Importer.AccentedNameCollides | import_products.py:105-114 | with an existing row "Electronica" whose slug is "electronica", creating "Electrónica" meets the same slug: the loop fails at once, leaving the table unchanged and the dict empty |
| Importer.SlugOfElectronica | import_products.py:22-33 | "Electrónica" gives the slug "electronica" |
| Importer.SetupAddsOnlyMissing | import_products.py:105-115 | the category loop adds a row only for a name that no existing row has |
| Importer.SetupHasEveryName | import_products.py:116 | when no category commit raised, every category name of the loop, lower-cased, is a key of the `categories` dict |
| Importer.SetupIdsPointAtRows | import_products.py:105-117 | each id in the `categories` dict is the id of a row whose name lower-cases to its key |
| Importer.CategoryFor | import_products.py:120-153 | a query gets a category id only when its lower-cased form is a mapped query whose category was set up, and then that category's id; an unmapped query gets none |
| Importer.Match | import_products.py:161-167 | a record updates a committed row of the same store and sku, found only for a non-empty sku; with a non-empty sku and no match, no committed row of the store has that sku |
| Importer.Refreshed | import_products.py:169-178 | an update overwrites name, price, store URL, image URL, availability (as 1 or 0), currency and timestamp, and keeps store, category and sku |
| Importer.SaveAll | import_products.py:159-198 | every record of the batch is either an update or an insert, and the table grows by the number of inserts |
| Importer.SaveAllUpdates | import_products.py:162-178 | after the batch a committed row is unchanged unless some record's lookup found it; it then holds the fields of the last such record, with its own store, category and sku |
| Importer.SaveAllInserts | import_products.py:179-194 | the batch appends exactly one new row per record without a match, in record order, each with the query's category |
| Importer.DuplicateSkuInsertedTwice | import_products.py:162-194 | because lookups see only committed rows, two records with the same new sku in one batch are both inserted |
| Importer.SaveAllKeepsKeys | import_products.py:169-178 | the batch keeps the store, sku and category of every committed row |
| Importer.QueryStepSpec | import_products.py:143-212 | a query whose search found nothing, or whose commit failed, leaves the table and the totals as they were; a committed query adds one row per insert, counts every record once, and keeps the keys of existing rows |
| Importer.ImportRunSpec | import_products.py:140-216 | over the whole run existing rows keep their store, sku and category, the totals only grow, and the table grows by exactly the number of imported products |
| Importer.EmptySearchesChangeNothing | import_products.py:148-150 | when every search comes back empty, the run writes nothing and counts nothing |
| Importer.SetupCategories | import_products.py:95-117 | the category loop gets or creates each category in turn and collects the ids, and stops at the first commit that raises, as `CategorySetup` says |
| Importer.SaveRecord | import_products.py:160-198 | one record stages an update of its committed match or a new row, as `SaveOne` says |
| Importer.SaveBatch | import_products.py:156-198 | the product loop of one query stages the rows and counts that `SaveAll` gives |
| Importer.RunQuery | import_products.py:159-208 | one query saves the batch, then commits it and adds its counts, or rolls it back, as `QueryStep` says |
| Importer.ImportQueries | import_products.py:137-216 | the query loop leaves the session clean, with the rows and totals of `ImportRun` |
| Importer.ImportFromMercadoLibre | import_products.py:53-224 | a failed connection check changes nothing and counts nothing; otherwise the store and the categories are got or created; a duplicate category slug raises, and then no product row changes; without it the table and the totals are those of `ImportRun` |
| Scheduler.ScraperFor | app/scheduler.py:19-40 | a scraper is found exactly when the lower-cased store name is one of the keys amazon, walmart, liverpool |
| Scheduler.Lookup | app/scheduler.py:59-62 | a found position holds a committed row of this store with the item's sku (None matching None), and no earlier committed row matches; nothing found means no committed row matches; corrected, an item without sku finds nothing |
| Scheduler.SaveItemSpec | app/scheduler.py:57-80 | a matched row changes only in price, availability and time, and fails exactly when the price key is missing; otherwise a row is appended with the item's name, URL, sku, price and image, no category, currency MXN and available 1 iff the item is available, failing exactly when name, url or price is missing |
| Scheduler.FailureSticks | app/scheduler.py:57-87 | once an item of a query raised, the items after it change nothing |
| Scheduler.SaveItemsStep | app/scheduler.py:57-80 | one more item on a query that has not failed yet stages that item's rows, or fails with the rows before it |
| Scheduler.SaveItemKeepsOthers | app/scheduler.py:57-80 | saving an item never changes a row of another store |
| Scheduler.SaveItemsKeepOthers | app/scheduler.py:57-80 | saving a query's items never changes a row of another store |
| Scheduler.ScrapeRunKeepsOthers | app/scheduler.py:51-87 | scraping one store leaves every other store's rows, committed and staged, as they were |
| Scheduler.SkulessItemOverwrites | app/scheduler.py:59-62 | as written, a scraped item without a sku overwrites the price of the store's unrelated sku-less row and inserts nothing |
| Scheduler.CorrectedSkulessInserted | app/scheduler.py:59-62 | corrected, a sku-less item is inserted beside the existing row, and every row the lookup finds has the item's own non-empty sku |
| Scheduler.FailedQueryCommittedLater | app/scheduler.py:82-87 | as written, the first items of a query that failed part-way are committed by the next query's commit |
| Scheduler.CorrectedQueryAtomic | app/scheduler.py:82-87 | corrected, a query leaves nothing staged and commits either nothing or its complete batch |
| Scheduler.CorrectedRunClean | app/scheduler.py:51-87 | corrected, the whole query loop never leaves anything staged |
| Scheduler.SaveScraped | app/scheduler.py:57-80 | the product loop stages exactly the rows of the item-by-item specification, stops at the first item that raises, and leaves the committed rows, stores and categories alone |
| Scheduler.ScrapeStore | app/scheduler.py:25-92 | an unknown store changes nothing; otherwise the store is got or created, the committed products are those of the query-by-query specification, categories are unchanged and nothing stays staged after close |
| Scraper.Backoff | app/scrapers/base.py:56-57 | the waits after the first n failed attempts are 1, 2, 4, ... seconds, `2 ** attempt` each |
| Scraper.FirstSuccess | app/scrapers/base.py:47-53 | the attempt returned is the first successful one among the first n, and there is none exactly when all n fail |
| Scraper.Fetch | app/scrapers/base.py:36-60 | the body is the one of the first successful attempt among `retry` with the exponential waits before it; when every attempt fails the result is None after `retry - 1` waits, and `retry <= 0` makes no attempt |
| Scraper.FirstSuccessStable | app/scrapers/base.py:47-53 | a success among the first n attempts stays the first among any larger number of attempts |
| Scraper.BackoffTotal | app/scrapers/base.py:56-57 | each wait doubles the one before, and n waits last 2^n - 1 seconds together |
| Scraper.CleanPriceExamples | app/scrapers/base.py:78-81 | the three documented spellings "$1,299.99", "MXN 1,299.99" and "$ 1299" clean to 1299.99, 1299.99 and 1299.0 |
| Scraper.DollarSpaceDigits | app/scrapers/base.py:91-92 | "$ " before any digit string cleans to that digit string's value |
| Scraper.CleanPriceBlank | app/scrapers/base.py:91-95 | text that is empty once the symbols, separators and spaces are removed is not a price (the float conversion raises) |
| Scraper.WordsOfJoin | app/scrapers/base.py:107 | splitting a space-joined list of non-empty space-free words gives the words back |
| Scraper.JoinSingleSpaced | app/scrapers/base.py:107 | joining non-empty space-free words with single spaces gives text without leading, trailing, repeated or non-' ' whitespace |
| Scraper.CleanNameSpec | app/scrapers/base.py:97-107 | the cleaned name is single-spaced, has the same words as the raw name, is their single-space join (the final strip changes nothing) and cleaning it again changes nothing |
| Scraper.ScrapeMultiple | app/scrapers/base.py:146-158 | at most one result per URL |
| Scraper.ScrapeMultipleSpec | app/scrapers/base.py:156-158 | the results are exactly the successful scrapes, in URL order: each comes from one URL, every success is kept, all are kept when none fails, the list is empty exactly when every scrape fails, and the results of a split URL list are those of the first part followed by those of the rest |
| Numerals.ParseUnsigned | app/integrations/parsers/json_parser.py:237 | an unsigned numeral converts to a non-negative value |
| Numerals.RejectsLetterStart | app/integrations/parsers/csv_parser.py:118 | `float` raises on text that does not start with a sign, a digit or a point |
| Numerals.DigitsParse | app/integrations/parsers/csv_parser.py:118 | a string of digits converts to its decimal value |
| Numerals.DecimalParse | app/integrations/parsers/xml_parser.py:102 | digits, a point and digits convert to the exact decimal value whole + frac / 10^len(frac) |
| Numerals.DecimalFloat | app/integrations/parsers/xml_parser.py:102 | the same holds through `float`'s whitespace trimming |
| Numerals.FloatOfTrimmed | app/scrapers/base.py:92 | on text without surrounding whitespace `float` is the signed-numeral conversion |
| Numerals.ExampleValues | app/integrations/parsers/json_parser.py:237 | "1299.99" and "10.00" convert to 1299.99 and 10.0 |
| Numerals.NatToString | app/integrations/parsers/json_parser.py:234 | `str` of a natural number is a non-empty digit string |
| Numerals.NatToStringValue | app/integrations/parsers/json_parser.py:234 | the digits of `str(n)` have the value n |
| Numerals.NatToStringRoundTrip | app/integrations/parsers/json_parser.py:234-237 | `float(str(n))` is n for every natural number n, so a whole-number price survives the cleaner |
| PriceText.CurrencyKeepsNumeral | app/integrations/parsers/json_parser.py:235 | the currency cleaner leaves a plain numeral as it is |
| PriceText.GenericKeepsNumeral | app/integrations/parsers/xml_parser.py:128 | the generic XML cleaner leaves a plain numeral as it is |
| PriceText.ScrapedKeepsNumeral | app/scrapers/base.py:91 | the scraper's cleaner leaves a plain numeral as it is |
| PriceText.CurrencyDollarThousands | app/integrations/parsers/csv_parser.py:117 | "$" a "," b cleans to the numeral a followed by b |
| PriceText.GenericDollarThousands | app/integrations/parsers/xml_parser.py:128 | the generic cleaner also turns "$" a "," b into a followed by b |
| PriceText.ScrapedDollarThousands | app/scrapers/base.py:91 | the scraper's cleaner also turns "$" a "," b into a followed by b |
| PriceText.CurrencyDollar | app/integrations/parsers/xml_parser.py:101 | "$" before a numeral cleans to the numeral |
| PriceText.CurrencyMxn | app/integrations/parsers/json_parser.py:235 | "MXN " before a numeral cleans to the numeral (the space is trimmed) |
| PriceText.ScrapedDropMxn | app/scrapers/base.py:91 | removing spaces and then "MXN" turns "MXN " before a numeral into the numeral |
| PriceText.ScrapedMxnThousands | app/scrapers/base.py:91 | "MXN " a "," b cleans to a followed by b |
| PriceText.ScrapedDollarSpace | app/scrapers/base.py:91 | "$ " before a numeral cleans to the numeral |
| PriceText.GenericKeepsMxn | app/integrations/parsers/xml_parser.py:128 | the generic cleaner does not remove "MXN": "MXN " before a non-empty numeral is left as it is |
| PriceText.MxnNotNumber | app/integrations/parsers/xml_parser.py:128 | trimmed text starting with 'M' is not a float, so a generic-feed price "MXN 10" is rejected |
| PriceText.CurrencyRejectsLead | app/integrations/parsers/csv_parser.py:117-118 | text whose first character is no sign, digit, point, space or removed marker still does not convert after cleaning |
| PriceText.PriceSpellingsAgree | app/integrations/parsers/json_parser.py:235 | "$1,299.99" and "MXN 1299.99" clean to the same "1299.99", and the scraper's cleaner gives "1299.99" for "$1,299.99" and "MXN 1,299.99" |
| Text.LStripBy | app/integrations/parsers/csv_parser.py:148 | the result is a suffix of the input, starts with a kept character, and every character removed before it is one the predicate strips |
| Text.RStripBy | app/integrations/parsers/csv_parser.py:148 | the result is a prefix of the input, ends with a kept character, and every character removed after it is one the predicate strips |
| Text.StripEmptyIffBlank | app/integrations/base.py:31 | `strip()` gives the empty string exactly when every character is whitespace |
| Text.StripTrimmed | app/integrations/parsers/csv_parser.py:154 | text without leading or trailing whitespace is left as it is |
| Text.StripIdempotent | app/integrations/parsers/csv_parser.py:158 | stripping twice is stripping once |
| Text.StripEdges | app/integrations/parsers/json_parser.py:211 | stripped text is empty or begins and ends with a non-whitespace character |
| Text.Lower | app/integrations/stores/coppel.py:70 | `lower()` keeps the length and lower-cases each character on its own |
| Text.SubstringAt | app/integrations/stores/coppel.py:73 | `needle in hay` holds exactly when the needle occurs at some position of hay |
| Text.Remove | app/integrations/parsers/json_parser.py:235 | `replace(pat, '')` never makes the text longer |
| Text.RemoveChar | app/scrapers/base.py:91 | removing a one-character pattern is deleting every occurrence of that character |
| Text.RemoveAbsent | app/integrations/parsers/csv_parser.py:117 | removing a pattern whose first character does not occur changes nothing |
| Text.ReplaceAbsent | app/integrations/stores/mercadolibre.py:151 | replacing a pattern whose first character does not occur changes nothing |
| Text.ReplaceKeepsLength | app/integrations/stores/mercadolibre.py:151 | replacing by a string of the pattern's length keeps the length |
| Text.ReplaceLeavesNone | app/integrations/stores/mercadolibre.py:151 | after replacing every occurrence by a different same-length string with the same first character (and no overlap), the pattern no longer occurs |
| Text.ReplaceOverwrites | app/integrations/stores/mercadolibre.py:151 | replacing by a text of the pattern's length, for a pattern whose first character does not recur, overwrites every occurrence by the replacement |
| Text.ReplaceOverwritesAt | app/integrations/stores/mercadolibre.py:151 | one position of one occurrence is overwritten by the replacement's character at the same offset |
| Text.ReplaceKeeps | app/integrations/stores/mercadolibre.py:151 | under the same conditions every position outside the occurrences keeps its character |
| Text.ReplaceOnePosition | app/integrations/stores/mercadolibre.py:151 | a replacement that changes one position of the pattern, whose character occurs nowhere else in it, changes exactly that position of every occurrence |
| Text.NoOverlap | app/integrations/stores/mercadolibre.py:151 | an occurrence of a pattern whose first character does not recur leaves no other occurrence starting inside it |
| Text.Words | app/scrapers/base.py:107 | `split()` gives non-empty words without whitespace |
| Text.Split | app/integrations/parsers/json_parser.py:122 | `split(sep)` gives at least one part and no part contains the separator |
| Seqs.Filter | app/integrations/stores/sears.py:66-76 | a list comprehension with a condition keeps at most the input's elements |
| Seqs.FilterMembers | app/integrations/stores/sears.py:66-76 | an element is kept exactly when it is in the input and satisfies the condition |
| Seqs.FilterAppend | app/integrations/base.py:90-100 | filtering a concatenation is concatenating the filtered parts |
| Seqs.FilterIsSubsequence | app/integrations/stores/sears.py:66-76 | the kept elements are a subsequence of the input: input order is preserved |
| Seqs.FilterCounts | app/integrations/stores/sears.py:66-76 | each kept value occurs as often as in the input, and a rejected value not at all |
| Seqs.FilterCountsAll | app/integrations/stores/sears.py:66-76 | the same count statement for every value at once |
| Seqs.FilterIdempotent | app/integrations/base.py:90-100 | filtering twice by the same condition is filtering once |
| Seqs.FilterFilter | app/integrations/stores/sears.py:66-80 | filtering by one condition and then another is filtering by their conjunction |
| Seqs.Take | app/integrations/stores/sears.py:81 | `s[:n]` is a prefix whose length is n clipped to the list, and for negative n all but the last -n elements |
| Seqs.PrefixSubsequence | app/integrations/stores/sears.py:81 | a prefix is a subsequence |
| Seqs.FlattenAppend | app/integrations/api_adapter.py:225 | extending the accumulated list by one more page appends that page's items |
| Seqs.MapSome | app/scrapers/base.py:156-158 | dropping the failures keeps at most one result per input |
| Seqs.MapSomeAppend | app/scrapers/base.py:156-158 | results of a concatenation are the concatenated results |
| Seqs.MapSomeSnoc | app/scrapers/base.py:156-158 | one more input adds its result exactly when it did not fail |
| Seqs.MapSomeFrom | app/scrapers/base.py:156-158 | every result comes from some input |
| Seqs.MapSomeKeeps | app/scrapers/base.py:156-158 | every successful input's result is kept |
| Seqs.MapSomeTotal | app/scrapers/base.py:156-158 | when nothing fails, the results are the inputs' results one for one |
| Seqs.MapSomeEmpty | app/scrapers/base.py:156-158 | no result comes back exactly when every input fails |

## Left out

- Python's `float()` is modelled only on decimal numerals: an optional sign, digits and an optional fraction, with surrounding whitespace. Exponents, `inf`, `nan` and digit underscores are rejected in the model, where Python accepts them. No feed price in the code's examples uses them.
- Values are exact reals, with no binary floating-point rounding.
- Whitespace for `strip` and `split` is the Latin-1 subset of Python's `str.isspace`. `lower` covers ASCII and the Latin-1 upper-case letters. Full Unicode tables are not modelled.
- The HTTP clients (`httpx`, `aiohttp`), `json.loads`, `csv.DictReader` and `xml.etree.ElementTree.fromstring` are not modelled. The model starts from their decoded results: a `Json` value, the rows as field maps, an element tree. A malformed document is an error value.
- `csv_parser.py:86-92`: splitting the CSV text into lines and `csv.DictReader`'s quoting rules are left out. The CSV model starts from the rows as header-to-cell maps.
- `asyncio.sleep` and the wall clock: waits are returned as values, so nothing actually sleeps. The rate limiter records a request at the clock reading after its sleep, given as the wait plus a non-negative `lag`. That assumes the sleep lasts at least the wait and that the wall clock does not run backwards.
- The rate limiter's `asyncio.Lock` is left out. Each call's check-and-wait runs as one atomic step, so interleavings of concurrent callers are not modelled.
- `asyncio.gather`: `Scraper.ScrapeMultiple` runs the scrapes in URL order. An exception that escapes a scrape is not modelled.
- Logging and `print` output are left out. They change no state.
- `import_products.py:214-216`: the one-second delay between queries is left out, since it only waits.
- The argument parsing and `main` entry point of import_products.py are left out. The run is modelled from its inputs.
- `app/scheduler.py:96-157`: the APScheduler wiring (jobs, triggers, start/stop) is left out. Only `scrape_store` is modelled.
- `app/scheduler.py:89-92`: a failing store lookup or store commit would end the run, but the model's commit always succeeds. Database errors in the scheduler are not modelled.
- `import_products.py:196-198`: an exception while building a record is not modelled, because no such exception can arise from the modelled data.
- A failed batch commit of an importer query is an input outcome, followed by the rollback.
- `import_products.py:87` and `import_products.py:114`: a category commit fails in the model only on the unique `categories.slug`, and the store commit never fails. It cannot break the unique `stores.name`, because a row is created only for a missing name (`ProductTable.WithStore`). Other database failures of these commits, and the session state after the raise, are not modelled.
- `app/integrations/stores/mercadolibre.py:190-205`: `get_categories` is left out. No ingestion path calls it.
- `app/integrations/api_adapter.py:162-176`: the base `test_connection` is left out. Both API-backed stores override it, and the overrides are modelled.
- `app/integrations/stores/amazon.py:187-200`: `AmazonFallbackIntegration` is left out. It only prints setup instructions.
- Walmart and the HTML scrapers for Amazon, Walmart and Liverpool are not part of this model. Their page parsing depends on BeautifulSoup over live HTML. The scheduler's per-query scrape result is an input.
- Timestamps (`datetime.utcnow()`) are an abstract integer `now`. `created_at` is not modelled.
- A row's id is its position plus one, and `.first()` returns the first row in insertion order. The code never deletes rows.
- A decoded JSON object is an association list in document order, with keys unique as after `json.loads`. `repr()` of a string is approximated with plain single quotes, without escaping.
- Missing texts read as "": an XML name, link or image element without text, and a MercadoLibre item without a thumbnail (`MercadoLibre.ImageOf`), give "" where Python gives `None`. Validation rejects both alike, but in the code a `None` name makes a later query filter raise, and the model does not reproduce that exception.
- Scraper.Fetch: every failed attempt counts as a caught `httpx.HTTPError` (app/scrapers/base.py:54). Any other exception raised while fetching would escape `fetch_page` without a retry, and the model does not represent it.
- MercadoLibre.ParseItemSpec: a JSON value of the wrong type (not a string) in a field the code uses as a string makes the item be skipped. The code would keep that value and might raise later.
- Amazon.ParseItemSpec: the same for the Amazon item fields. A non-string value makes the item be skipped.

## Findings

| source | as written | input that shows it | evidently intended | confidence | as-written member | corrected member |
|---|---|---|---|---|---|---|
| app/integrations/stores/mercadolibre.py:77 | the page loop puts the page counter 1, 2, … into `offset` | a search with limit 100: page 1 asks for offset 1, page 2 for offset 2, each with limit 50 | offset 50·(page − 1), so the pages are adjacent windows | not executed | MercadoLibre.OffsetAsWritten | MercadoLibre.CorrectedOffsets |
| app/scheduler.py:59-62 | the lookup filters on `sku == item.get('sku')`, which for a missing sku matches rows whose sku is NULL | a store with a committed sku-less row "Existing" at 100.0, and a scraped sku-less item "Other" at 5.0: the existing row gets price 5.0 and no row is inserted | a record without a sku is always inserted as a new row | not executed | Scheduler.SkulessItemOverwrites | Scheduler.CorrectedSkulessInserted |
| app/scheduler.py:85-87 | an exception while saving a query's items is caught without a rollback | a first query whose second item has no price, then an empty query: the first query's first item is committed by the second query's commit | a failed batch is rolled back, so nothing from it is applied | not executed | Scheduler.FailedQueryCommittedLater | Scheduler.CorrectedQueryAtomic |
