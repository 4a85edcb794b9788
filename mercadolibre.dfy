/**
 * The Mercado Libre integration (app/integrations/stores/mercadolibre.py):
 * the search parameters, the choice between one request and the page loop,
 * truncation and validation of the result, the search-response and item
 * mapping, and the connection check.
 *
 * A request is an abstract function from query parameters to the decoded
 * response of the search endpoint (`None` when the request raises).
 */
module MercadoLibre {
  import opened Wrappers
  import opened JsonValue
  import opened Canonical
  import Text
  import Numerals
  import Seqs
  import ApiAdapter

  const StoreName: string := "Mercado Libre"
  const BaseUrl: string := "https://api.mercadolibre.com"
  const RateLimit: int := 5
  const SiteId: string := "MLM"
  /** The most results the search endpoint returns per request. */
  const PageSize: int := 50

  /**
   * The image URL from the thumbnail: a non-empty string has every "-I.jpg"
   * replaced by "-O.jpg"; a missing or falsy thumbnail gives no image ("");
   * `.replace` on a truthy non-string raises (`None`).
   */
  function ImageOf(thumbnail: Option<Json>): Option<string> {
    match thumbnail
    case None => Some([])
    case Some(JStr(t)) => Some(if t != [] then Text.ReplaceAll(t, "-I.jpg", "-O.jpg") else [])
    case Some(v) => if Truthy(v) then None else Some([])
  }

  /** `item['category_id']` when the key is present (at `None`: not representable). */
  function CategoryOf(f: seq<(string, Json)>): Option<Option<string>> {
    match Get(f, "category_id")
    case None => Some(None)
    case Some(JNull) => Some(None)
    case Some(JStr(s)) => Some(Some(s))
    case Some(_) => None
  }

  /** `item.get('currency_id', 'MXN')` (at `None`: not representable). */
  function CurrencyOf(f: seq<(string, Json)>): Option<string> {
    match Get(f, "currency_id")
    case None => Some("MXN")
    case Some(JStr(s)) => Some(s)
    case Some(_) => None
  }

  /** `item.get('available_quantity', 0) > 0`: `None` where the comparison raises. */
  function AvailableOf(f: seq<(string, Json)>): Option<bool> {
    match Get(f, "available_quantity")
    case None => Some(false)
    case Some(JNum(x, _)) => Some(x > 0.0)
    case Some(JBool(b)) => Some(b)
    case Some(_) => None
  }

  /**
   * `_parse_item`: `None` for a non-dict item, when any of id, title, price
   * and permalink is missing or falsy, or when a conversion raises.
   */
  function ParseItem(item: Json): Option<Product> {
    if !item.JObj? then None
    else
      var f := item.fields;
      var id := GetOr(f, "id", JNull);
      var title := GetOr(f, "title", JNull);
      var price := GetOr(f, "price", JNull);
      var permalink := GetOr(f, "permalink", JNull);
      if !(Truthy(id) && Truthy(title) && Truthy(price) && Truthy(permalink)) then None
      else if !id.JStr? || !title.JStr? || !permalink.JStr? then None
      else
        match (PyFloat(price), ImageOf(Get(f, "thumbnail")), CategoryOf(f), CurrencyOf(f), AvailableOf(f))
        case (Some(p), Some(image), Some(category), Some(currency), Some(available)) =>
          Some(Product(title.s, p, StoreName, permalink.s, image, category, Some(id.s), currency, available))
        case _ => None
  }

  /**
   * The thumbnail upgrade keeps the length, turns the "I" of every "-I.jpg"
   * into "O" and leaves every other character alone, so no "-I.jpg" is left.
   */
  lemma ThumbnailUpgrade(t: string)
    ensures |Text.ReplaceAll(t, "-I.jpg", "-O.jpg")| == |t|
    ensures forall i :: 0 <= i < |t| ==> Text.ReplaceAll(t, "-I.jpg", "-O.jpg")[i] == if Text.OccursAt("-I.jpg", t, i - 1) then 'O' else t[i]
    ensures !Text.IsSubstring("-I.jpg", Text.ReplaceAll(t, "-I.jpg", "-O.jpg"))
  {
    var pat, rep := "-I.jpg", "-O.jpg";
    assert pat[1..] == "I.jpg" && rep[1..] == "O.jpg";
    assert pat[1] != rep[1];
    Text.ReplaceKeepsLength(t, pat, rep);
    Text.ReplaceLeavesNone(t, pat, rep);
    forall i | 0 <= i < |t|
      ensures Text.ReplaceAll(t, pat, rep)[i] == if Text.OccursAt(pat, t, i - 1) then 'O' else t[i]
    {
      UpgradeAt(t, i);
    }
  }

  /** One position of the thumbnail upgrade. */
  lemma UpgradeAt(t: string, i: int)
    requires 0 <= i < |t|
    ensures |Text.ReplaceAll(t, "-I.jpg", "-O.jpg")| == |t|
    ensures Text.ReplaceAll(t, "-I.jpg", "-O.jpg")[i] == if Text.OccursAt("-I.jpg", t, i - 1) then 'O' else t[i]
  {
    var pat, rep := "-I.jpg", "-O.jpg";
    assert pat[1..] == "I.jpg";
    assert forall j :: 0 <= j < |pat| && j != 1 ==> rep[j] == pat[j] && pat[j] != pat[1];
    Text.ReplaceOnePosition(t, pat, rep, 1, i);
  }

  /**
   * An item yields a product only when it is a dict whose id, title, price
   * and permalink are all truthy. The product carries the title, the
   * permalink, the store name and the id as sku; the currency defaults to
   * MXN; it is available exactly when the quantity is positive (a missing
   * quantity counts as none); the currency and the category are the item's
   * own when it has them as strings; the image is the thumbnail with every
   * "-I.jpg" upgraded to "-O.jpg", of the thumbnail's length and with no
   * "-I.jpg" left, and empty when there is no thumbnail.
   */
  lemma ParseItemSpec(item: Json, r: Product)
    requires ParseItem(item) == Some(r)
    ensures item.JObj? && Truthy(GetOr(item.fields, "id", JNull)) && Truthy(GetOr(item.fields, "title", JNull))
    ensures Truthy(GetOr(item.fields, "price", JNull)) && Truthy(GetOr(item.fields, "permalink", JNull))
    ensures Some(JStr(r.name)) == Get(item.fields, "title") && Some(JStr(r.storeUrl)) == Get(item.fields, "permalink")
    ensures r.sku.Some? && Some(JStr(r.sku.value)) == Get(item.fields, "id") && r.storeName == StoreName
    ensures Some(r.price) == PyFloat(Get(item.fields, "price").value)
    ensures !HasKey(item.fields, "currency_id") ==> r.currency == "MXN"
    ensures forall s :: Get(item.fields, "currency_id") == Some(JStr(s)) ==> r.currency == s
    ensures forall s :: Get(item.fields, "category_id") == Some(JStr(s)) ==> r.category == Some(s)
    ensures !HasKey(item.fields, "category_id") || Get(item.fields, "category_id") == Some(JNull) ==> r.category.None?
    ensures !HasKey(item.fields, "available_quantity") ==> !r.available
    ensures forall x, t :: Get(item.fields, "available_quantity") == Some(JNum(x, t)) ==> (r.available <==> x > 0.0)
    ensures forall t :: Get(item.fields, "thumbnail") == Some(JStr(t)) ==> |r.imageUrl| == |t|
    ensures forall t :: Get(item.fields, "thumbnail") == Some(JStr(t)) && t != [] ==> r.imageUrl == Text.ReplaceAll(t, "-I.jpg", "-O.jpg")
    ensures !HasKey(item.fields, "thumbnail") ==> r.imageUrl == []
    ensures !Text.IsSubstring("-I.jpg", r.imageUrl)
  {
    ParseItemParts(item);
    ImageOfSpec(Get(item.fields, "thumbnail"), r.imageUrl);
    CurrencyOfSpec(item.fields, r.currency);
    CategoryOfSpec(item.fields, r.category);
  }

  /** The currency read: the item's own string, MXN when there is none. */
  lemma CurrencyOfSpec(f: seq<(string, Json)>, currency: string)
    requires CurrencyOf(f) == Some(currency)
    ensures !HasKey(f, "currency_id") ==> currency == "MXN"
    ensures forall s :: Get(f, "currency_id") == Some(JStr(s)) ==> currency == s
  {
  }

  /** The category read: the item's own string, none when it is missing or null. */
  lemma CategoryOfSpec(f: seq<(string, Json)>, category: Option<string>)
    requires CategoryOf(f) == Some(category)
    ensures forall s :: Get(f, "category_id") == Some(JStr(s)) ==> category == Some(s)
    ensures !HasKey(f, "category_id") || Get(f, "category_id") == Some(JNull) ==> category.None?
  {
  }

  /**
   * The converse of `ParseItemSpec`: a dict whose id, title and permalink are
   * non-empty strings, whose price is truthy and converts, and whose
   * thumbnail, category, currency and quantity all read without raising,
   * does parse.
   */
  lemma ParseItemSucceeds(item: Json)
    ensures ParseItem(item).Some? <==>
      item.JObj? && Truthy(GetOr(item.fields, "id", JNull)) && GetOr(item.fields, "id", JNull).JStr?
      && Truthy(GetOr(item.fields, "title", JNull)) && GetOr(item.fields, "title", JNull).JStr?
      && Truthy(GetOr(item.fields, "permalink", JNull)) && GetOr(item.fields, "permalink", JNull).JStr?
      && Truthy(GetOr(item.fields, "price", JNull)) && PyFloat(GetOr(item.fields, "price", JNull)).Some?
      && ImageOf(Get(item.fields, "thumbnail")).Some? && CategoryOf(item.fields).Some?
      && CurrencyOf(item.fields).Some? && AvailableOf(item.fields).Some?
  {
  }

  /** A parsed item's fields each come from the converter that reads them. */
  lemma ParseItemParts(item: Json)
    requires ParseItem(item).Some?
    ensures item.JObj?
    ensures Truthy(GetOr(item.fields, "id", JNull)) && Truthy(GetOr(item.fields, "title", JNull))
      && Truthy(GetOr(item.fields, "price", JNull)) && Truthy(GetOr(item.fields, "permalink", JNull))
    ensures var r := ParseItem(item).value; var f := item.fields;
      Some(JStr(r.name)) == Get(f, "title") && Some(JStr(r.storeUrl)) == Get(f, "permalink")
      && r.sku.Some? && Some(JStr(r.sku.value)) == Get(f, "id") && r.storeName == StoreName
      && Some(r.price) == PyFloat(Get(f, "price").value)
    ensures var r := ParseItem(item).value; var f := item.fields;
      ImageOf(Get(f, "thumbnail")) == Some(r.imageUrl) && CategoryOf(f) == Some(r.category)
      && CurrencyOf(f) == Some(r.currency) && AvailableOf(f) == Some(r.available)
  {
  }

  /** An image read from a thumbnail, as `ParseItemSpec` states it. */
  lemma ImageOfSpec(thumbnail: Option<Json>, image: string)
    requires ImageOf(thumbnail) == Some(image)
    ensures forall t :: thumbnail == Some(JStr(t)) ==> |image| == |t|
    ensures forall t :: thumbnail == Some(JStr(t)) && t != [] ==> image == Text.ReplaceAll(t, "-I.jpg", "-O.jpg")
    ensures thumbnail.None? ==> image == []
    ensures !Text.IsSubstring("-I.jpg", image)
  {
    match thumbnail
    case Some(JStr(t)) =>
      if t != [] {
        ThumbnailUpgrade(t);
      } else {
        Text.SubstringFits("-I.jpg", image);
      }
    case _ =>
      Text.SubstringFits("-I.jpg", image);
  }


  /**
   * `_parse_search_response`: the products of the items under `results`
   * (none when the key is missing), in order. `None` where it raises: the
   * response is not a dict, or `results` cannot be iterated. Iterating a
   * string or a dict gives strings, none of which is an item.
   */
  function SearchResults(response: Json): Option<seq<Product>> {
    if !response.JObj? then None
    else
      match GetOr(response.fields, "results", JArr([]))
      case JArr(items) => Some(Seqs.MapSome(items, ParseItem))
      case JStr(_) => Some([])
      case JObj(_) => Some([])
      case _ => None
  }

  /** `_parse_search_response` as written: the loop over the results. */
  method ParseSearchResponse(response: Json) returns (r: Option<seq<Product>>)
    ensures r == SearchResults(response)
  {
    if !response.JObj? {
      return None;
    }
    var results := GetOr(response.fields, "results", JArr([]));
    if results.JStr? || results.JObj? {
      return Some([]);
    }
    if !results.JArr? {
      return None;
    }
    var items := results.elems;
    var products := [];
    var i := 0;
    while i < |items|
      invariant 0 <= i <= |items|
      invariant products == Seqs.MapSome(items[..i], ParseItem)
    {
      assert items[..i + 1] == items[..i] + [items[i]];
      Seqs.MapSomeSnoc(items[..i], items[i], ParseItem);
      var product := ParseItem(items[i]);
      if product.Some? {
        products := products + [product.value];
      }
      i := i + 1;
    }
    assert items[..i] == items;
    return Some(products);
  }

  /**
   * A response without `results` has no products; otherwise every product
   * comes from an item that parses to it and every such item contributes.
   */
  lemma SearchResultsSpec(fields: seq<(string, Json)>, items: seq<Json>)
    ensures !HasKey(fields, "results") ==> SearchResults(JObj(fields)) == Some([])
    ensures Get(fields, "results") == Some(JArr(items)) ==>
      var ps := SearchResults(JObj(fields)).value;
      (forall p :: p in ps ==> exists i :: 0 <= i < |items| && ParseItem(items[i]) == Some(p))
      && (forall i :: 0 <= i < |items| && ParseItem(items[i]).Some? ==> ParseItem(items[i]).value in ps)
  {
    Seqs.MapSomeFrom(items, ParseItem);
    forall i | 0 <= i < |items| && ParseItem(items[i]).Some?
      ensures ParseItem(items[i]).value in Seqs.MapSome(items, ParseItem)
    {
      Seqs.MapSomeKeeps(items, ParseItem, i);
    }
  }

  function Min(a: int, b: int): int {
    if a <= b then a else b
  }

  /** The search parameters: the query, the per-request limit, the category when given. */
  function SearchParams(query: string, category: Option<string>, limit: int): (ps: ApiAdapter.Params)
    ensures ps.Keys == {"q", "limit"} + (if category.Some? && category.value != [] then {"category"} else {})
    ensures ps["q"] == ApiAdapter.PStr(query) && ps["limit"] == ApiAdapter.PInt(Min(limit, PageSize))
    ensures category.Some? && category.value != [] ==> ps["category"] == ApiAdapter.PStr(category.value)
  {
    var base := map["q" := ApiAdapter.PStr(query), "limit" := ApiAdapter.PInt(Min(limit, PageSize))];
    if category.Some? && category.value != [] then base["category" := ApiAdapter.PStr(category.value)] else base
  }

  /** The page bound of the paginated search: one page per 50 results, rounded up. */
  function MaxPages(limit: int): int {
    (limit + 49) / 50
  }

  /** The page loop as written: the page counter goes into `offset`. */
  function SearchPaging(request: ApiAdapter.Params -> Option<Json>, params: ApiAdapter.Params, limit: int): ApiAdapter.Paging {
    ApiAdapter.Paging(request, SearchResults, params, "offset", MaxPages(limit))
  }

  /** The products fetched before truncation: `None` when the single request or its parsing raises. */
  function Fetched(request: ApiAdapter.Params -> Option<Json>, query: string, category: Option<string>, limit: int): Option<seq<Product>> {
    var params := SearchParams(query, category, limit);
    if limit > PageSize then Some(ApiAdapter.Run(SearchPaging(request, params, limit), 1).products)
    else
      match request(params)
      case None => None
      case Some(response) => SearchResults(response)
  }

  /** `fetch_products`' result. */
  function FetchResult(request: ApiAdapter.Params -> Option<Json>, query: Option<string>,
                       category: Option<string>, limit: int): seq<Product> {
    if query.None? || query.value == [] then []
    else
      match Fetched(request, query.value, category, limit)
      case None => []
      case Some(ps) => ValidateProducts(Seqs.Take(ps, limit))
  }

  /** `fetch_products` as written: the parameters built in place, then one request or the page loop. */
  method FetchProducts(request: ApiAdapter.Params -> Option<Json>, query: Option<string>,
                       category: Option<string>, limit: int) returns (products: seq<Product>)
    ensures products == FetchResult(request, query, category, limit)
  {
    if query.None? || query.value == [] {
      return [];
    }
    var params: ApiAdapter.Params := map["q" := ApiAdapter.PStr(query.value), "limit" := ApiAdapter.PInt(Min(limit, PageSize))];
    if category.Some? && category.value != [] {
      params := params["category" := ApiAdapter.PStr(category.value)];
    }
    assert params == SearchParams(query.value, category, limit);
    var fetched: seq<Product>;
    if limit > PageSize {
      fetched := ApiAdapter.FetchAllPages(SearchPaging(request, params, limit));
    } else {
      var response := request(params);
      if response.None? {
        return [];
      }
      var parsed := ParseSearchResponse(response.value);
      if parsed.None? {
        return [];
      }
      fetched := parsed.value;
    }
    products := ValidateProducts(Seqs.Take(fetched, limit));
  }

  /**
   * No query, no products; a request or a response that raises, no products;
   * otherwise at most `limit` products, all valid, in the order fetched:
   * validation runs on the first `limit` fetched products.
   */
  lemma FetchResultSpec(request: ApiAdapter.Params -> Option<Json>, query: Option<string>,
                        category: Option<string>, limit: int)
    ensures query.None? || query.value == [] ==> FetchResult(request, query, category, limit) == []
    ensures var r := FetchResult(request, query, category, limit);
      (limit >= 0 ==> |r| <= limit) && (forall p :: p in r ==> Validate(p))
    ensures query.Some? && query.value != [] && Fetched(request, query.value, category, limit).None? ==>
      FetchResult(request, query, category, limit) == []
    ensures query.Some? && query.value != [] && Fetched(request, query.value, category, limit).Some? ==>
      FetchResult(request, query, category, limit)
        == ValidateProducts(Seqs.Take(Fetched(request, query.value, category, limit).value, limit))
  {
  }

  /**
   * Up to 50 results take one request with the search parameters; above
   * that the page loop runs with one page per 50 results (rounded up) and
   * never requests more pages than that.
   */
  lemma PagesNeeded(request: ApiAdapter.Params -> Option<Json>, query: string, category: Option<string>, limit: int)
    requires limit > PageSize
    ensures var cfg := SearchPaging(request, SearchParams(query, category, limit), limit);
      cfg.maxPages * PageSize >= limit > (cfg.maxPages - 1) * PageSize
      && 1 <= |ApiAdapter.Run(cfg, 1).requested| <= cfg.maxPages
  {
    var cfg := SearchPaging(request, SearchParams(query, category, limit), limit);
    ApiAdapter.RunPages(ApiAdapter.Steps(cfg), cfg.maxPages, 1);
  }

  /**
   * As written, page `p` is requested with `offset` = `p` and 50 results
   * per page: the first page skips the first result and the second page
   * asks again for 49 results the first one already covered.
   */
  lemma OffsetAsWritten(request: ApiAdapter.Params -> Option<Json>, query: string, category: Option<string>, limit: int)
    requires limit > PageSize
    ensures var cfg := SearchPaging(request, SearchParams(query, category, limit), limit);
      var first := ApiAdapter.PageParams(cfg, 1);
      var second := ApiAdapter.PageParams(cfg, 2);
      first["offset"] == ApiAdapter.PInt(1) && second["offset"] == ApiAdapter.PInt(2)
      && first["limit"] == second["limit"] == ApiAdapter.PInt(PageSize)
      && second["offset"].i < first["offset"].i + first["limit"].i
  {
  }

  /**
   * The offset the search endpoint expects for a page counter: the index of
   * the page's first result; any parameter set without a page counter is
   * passed through.
   */
  function ToOffset(ps: ApiAdapter.Params): ApiAdapter.Params {
    if "page" in ps && ps["page"].PInt? then (ps - {"page"})["offset" := ApiAdapter.PInt((ps["page"].i - 1) * PageSize)]
    else ps
  }

  /** The page loop with the counter in `page`, turned into a result offset before the request. */
  function CorrectedPaging(request: ApiAdapter.Params -> Option<Json>, params: ApiAdapter.Params, limit: int): ApiAdapter.Paging {
    ApiAdapter.Paging((ps: ApiAdapter.Params) => request(ToOffset(ps)), SearchResults, params, "page", MaxPages(limit))
  }

  /** `fetch_products`' result with the offsets corrected. */
  function CorrectedFetchResult(request: ApiAdapter.Params -> Option<Json>, query: Option<string>,
                                category: Option<string>, limit: int): seq<Product> {
    if query.None? || query.value == [] then []
    else
      var params := SearchParams(query.value, category, limit);
      var fetched :=
        if limit > PageSize then Some(ApiAdapter.Run(CorrectedPaging(request, params, limit), 1).products)
        else
          match request(params)
          case None => None
          case Some(response) => SearchResults(response);
      match fetched
      case None => []
      case Some(ps) => ValidateProducts(Seqs.Take(ps, limit))
  }

  /**
   * With the correction, page `p` reaches the endpoint with the search
   * parameters and `offset` = 50·(p−1): the pages cover consecutive,
   * disjoint windows of 50 results starting at the first.
   */
  lemma CorrectedOffsets(query: string, category: Option<string>, limit: int, p: int)
    requires limit > PageSize && p >= 1
    ensures var params := SearchParams(query, category, limit);
      var sent := ToOffset(params["page" := ApiAdapter.PInt(p)]);
      sent == params["offset" := ApiAdapter.PInt((p - 1) * PageSize)]
      && sent["limit"] == ApiAdapter.PInt(PageSize)
      && ToOffset(params["page" := ApiAdapter.PInt(p + 1)])["offset"].i == sent["offset"].i + sent["limit"].i
  {
    var params := SearchParams(query, category, limit);
    var withPage := params["page" := ApiAdapter.PInt(p)];
    assert "page" !in params;
    assert withPage - {"page"} == params;
  }

  /** The corrected fetch keeps the guarantees of the original: at most `limit` valid products. */
  lemma CorrectedFetchSpec(request: ApiAdapter.Params -> Option<Json>, query: Option<string>,
                           category: Option<string>, limit: int)
    ensures query.None? || query.value == [] ==> CorrectedFetchResult(request, query, category, limit) == []
    ensures var r := CorrectedFetchResult(request, query, category, limit);
      (limit >= 0 ==> |r| <= limit) && (forall p :: p in r ==> Validate(p))
    ensures limit <= PageSize ==> CorrectedFetchResult(request, query, category, limit) == FetchResult(request, query, category, limit)
  {
  }

  /** `test_connection`: the site request answers with the site id "MLM". */
  function TestConnection(response: Option<Json>): (ok: bool)
    ensures ok <==> response.Some? && response.value.JObj? && Get(response.value.fields, "id") == Some(JStr(SiteId))
  {
    match response
    case Some(JObj(f)) => Get(f, "id") == Some(JStr(SiteId))
    case _ => false
  }
}
