/**
 * The Amazon MX integration (app/integrations/stores/amazon.py): the
 * credential and query gates, the search payload, the signed-request stub,
 * the search-response and item mapping, and the connection check.
 *
 * The configuration is a map of strings; the signed request is a parameter
 * (the source's stub is `PaapiStub`).
 */
module Amazon {
  import opened Wrappers
  import opened JsonValue
  import opened Canonical
  import Seqs

  const StoreName: string := "Amazon MX"
  const Marketplace: string := "www.amazon.com.mx"
  /** The most items one search request returns. */
  const MaxItemCount: int := 10

  /** `config.get(key, '')`. */
  function Setting(config: map<string, string>, key: string): string {
    if key in config then config[key] else []
  }

  /** All three credentials are configured and non-empty. */
  predicate HasCredentials(config: map<string, string>) {
    Setting(config, "access_key") != [] && Setting(config, "secret_key") != []
    && Setting(config, "partner_tag") != []
  }

  /** A payload value: a string, a number or a list of strings. */
  datatype Field = FStr(s: string) | FInt(i: int) | FList(items: seq<string>)
  type Payload = map<string, Field>

  function Min(a: int, b: int): int {
    if a <= b then a else b
  }

  /** The SearchItems request body; `SearchIndex` only when a category is given. */
  function SearchPayload(config: map<string, string>, query: string, category: Option<string>, limit: int): (p: Payload)
    ensures p.Keys == {"Keywords", "Resources", "ItemCount", "PartnerTag", "PartnerType", "Marketplace"}
      + (if category.Some? && category.value != [] then {"SearchIndex"} else {})
    ensures p["Keywords"] == FStr(query) && p["ItemCount"] == FInt(Min(limit, MaxItemCount))
    ensures p["PartnerTag"] == FStr(Setting(config, "partner_tag"))
    ensures category.Some? && category.value != [] ==> p["SearchIndex"] == FStr(category.value)
  {
    var base := map[
      "Keywords" := FStr(query),
      "Resources" := FList(["Images.Primary.Large", "ItemInfo.Title", "Offers.Listings.Price"]),
      "ItemCount" := FInt(Min(limit, MaxItemCount)),
      "PartnerTag" := FStr(Setting(config, "partner_tag")),
      "PartnerType" := FStr("Associates"),
      "Marketplace" := FStr(Marketplace)];
    if category.Some? && category.value != [] then base["SearchIndex" := FStr(category.value)] else base
  }

  /** `_make_paapi_request` as it stands: the request is not signed or sent, and no item comes back. */
  function PaapiStub(payload: Payload): Option<Json> {
    Some(JObj([("SearchResult", JObj([("Items", JArr([]))]))]))
  }

  /** A `.get` on the result of a `.get`: `None` when either receiver is not a dict. */
  function Then(v: Option<Json>, key: string, default: Json): Option<Json> {
    match v
    case Some(x) => DictGet(x, key, default)
    case None => None
  }

  /**
   * `offers[0].get("Price", {}).get("Amount")` for truthy `offers`: `None`
   * when this raises (the offers are not a list, or the first listing or its
   * price is not a dict).
   */
  function FirstListingPrice(offers: Json): Option<Json> {
    match offers
    case JArr(ls) => if ls == [] then None else Then(DictGet(ls[0], "Price", JObj([])), "Amount", JNull)
    case _ => None
  }

  /** A string field; a falsy non-string becomes "" (no value), a truthy one is not representable. */
  function TextOf(v: Json): Option<string> {
    if v.JStr? then Some(v.s) else if Truthy(v) then None else Some([])
  }

  /**
   * `_parse_item`: `None` unless the ASIN, the title, the price of the first
   * listing and the detail page URL are all present and truthy, or when any
   * lookup or the price conversion raises.
   */
  function ParseItem(item: Json): Option<Product> {
    var asin := DictGet(item, "ASIN", JNull);
    var title := Then(Then(DictGet(item, "ItemInfo", JObj([])), "Title", JObj([])), "DisplayValue", JNull);
    var offers := Then(DictGet(item, "Offers", JObj([])), "Listings", JArr([]));
    var image := Then(Then(Then(DictGet(item, "Images", JObj([])), "Primary", JObj([])), "Large", JObj([])), "URL", JStr([]));
    var detail := DictGet(item, "DetailPageURL", JStr([]));
    if asin.None? || title.None? || offers.None? || image.None? || detail.None? then None
    else
      var price := if Truthy(offers.value) then FirstListingPrice(offers.value) else Some(JNull);
      if price.None? then None
      else if !(Truthy(asin.value) && Truthy(title.value) && Truthy(price.value) && Truthy(detail.value)) then None
      else if !asin.value.JStr? || !title.value.JStr? || !detail.value.JStr? then None
      else
        match (PyFloat(price.value), TextOf(image.value))
        case (Some(p), Some(url)) =>
          Some(NewProduct(title.value.s, p, StoreName, detail.value.s, url, None, Some(asin.value.s)))
        case _ => None
  }

  /**
   * The converse of `ParseItemSpec`: an item with every path present, a
   * truthy string ASIN, title and detail page URL, and a truthy first-listing
   * price that converts, with a string large image URL, does parse.
   */
  lemma ParseItemSucceeds(item: Json)
    ensures var asin := DictGet(item, "ASIN", JNull);
      var title := Then(Then(DictGet(item, "ItemInfo", JObj([])), "Title", JObj([])), "DisplayValue", JNull);
      var offers := Then(DictGet(item, "Offers", JObj([])), "Listings", JArr([]));
      var image := Then(Then(Then(DictGet(item, "Images", JObj([])), "Primary", JObj([])), "Large", JObj([])), "URL", JStr([]));
      var detail := DictGet(item, "DetailPageURL", JStr([]));
      asin.Some? && asin.value.JStr? && Truthy(asin.value) && title.Some? && title.value.JStr? && Truthy(title.value)
      && detail.Some? && detail.value.JStr? && Truthy(detail.value)
      && offers.Some? && Truthy(offers.value) && FirstListingPrice(offers.value).Some?
      && Truthy(FirstListingPrice(offers.value).value) && PyFloat(FirstListingPrice(offers.value).value).Some?
      && image.Some? && image.value.JStr?
      ==> ParseItem(item).Some?
  {
  }

  /**
   * An item yields a product only when it is a dict with a truthy ASIN,
   * title, detail page URL and first-listing price; the price is that of the
   * first listing, whatever the others hold. The product is named by the
   * truthy title `ItemInfo.Title.DisplayValue`, has currency MXN, the ASIN
   * as sku, the large image's URL as image, and "" as image when there is
   * no large image.
   */
  lemma ParseItemSpec(item: Json)
    ensures ParseItem(item).Some? ==>
      item.JObj? && Truthy(GetOr(item.fields, "ASIN", JNull))
      && Truthy(GetOr(item.fields, "DetailPageURL", JStr([])))
      && var offers := Then(DictGet(item, "Offers", JObj([])), "Listings", JArr([]));
         offers.Some? && offers.value.JArr? && offers.value.elems != []
         && var amount := Then(DictGet(offers.value.elems[0], "Price", JObj([])), "Amount", JNull);
            amount.Some? && Truthy(amount.value) && Some(ParseItem(item).value.price) == PyFloat(amount.value)
    ensures ParseItem(item).Some? ==>
      var r := ParseItem(item).value;
      r.currency == "MXN" && r.storeName == StoreName && r.category.None?
      && Some(JStr(r.sku.value)) == Get(item.fields, "ASIN") && Some(JStr(r.storeUrl)) == Get(item.fields, "DetailPageURL")
      && ((Then(Then(DictGet(item, "Images", JObj([])), "Primary", JObj([])), "Large", JObj([]))
             == Some(JObj([]))) ==> r.imageUrl == [])
    ensures ParseItem(item).Some? ==>
      var r := ParseItem(item).value;
      var title := Then(Then(DictGet(item, "ItemInfo", JObj([])), "Title", JObj([])), "DisplayValue", JNull);
      title.Some? && Truthy(title.value) && title.value == JStr(r.name) && r.name != []
    ensures ParseItem(item).Some? ==>
      var r := ParseItem(item).value;
      var image := Then(Then(Then(DictGet(item, "Images", JObj([])), "Primary", JObj([])), "Large", JObj([])), "URL", JStr([]));
      image.Some? && (image.value.JStr? ==> r.imageUrl == image.value.s)
  {
  }

  /**
   * `_parse_search_response`: the products of
   * `response.get("SearchResult", {}).get("Items", [])` in order; iterating
   * a string or a dict gives strings, none of which is an item. `None` where
   * it raises.
   */
  function SearchResults(response: Json): Option<seq<Product>> {
    match Then(DictGet(response, "SearchResult", JObj([])), "Items", JArr([]))
    case Some(JArr(items)) => Some(Seqs.MapSome(items, ParseItem))
    case Some(JStr(_)) => Some([])
    case Some(JObj(_)) => Some([])
    case _ => None
  }

  /** `_parse_search_response` as written: the loop over the items. */
  method ParseSearchResponse(response: Json) returns (r: Option<seq<Product>>)
    ensures r == SearchResults(response)
  {
    var found := Then(DictGet(response, "SearchResult", JObj([])), "Items", JArr([]));
    if found.None? {
      return None;
    }
    var items := found.value;
    if items.JStr? || items.JObj? {
      return Some([]);
    }
    if !items.JArr? {
      return None;
    }
    var products := [];
    var i := 0;
    while i < |items.elems|
      invariant 0 <= i <= |items.elems|
      invariant products == Seqs.MapSome(items.elems[..i], ParseItem)
    {
      assert items.elems[..i + 1] == items.elems[..i] + [items.elems[i]];
      Seqs.MapSomeSnoc(items.elems[..i], items.elems[i], ParseItem);
      var product := ParseItem(items.elems[i]);
      if product.Some? {
        products := products + [product.value];
      }
      i := i + 1;
    }
    assert items.elems[..i] == items.elems;
    return Some(products);
  }

  /** `fetch_products`' result for a given signed-request function. */
  function FetchResult(request: Payload -> Option<Json>, config: map<string, string>,
                       query: Option<string>, category: Option<string>, limit: int): seq<Product> {
    if !HasCredentials(config) || query.None? || query.value == [] then []
    else
      match request(SearchPayload(config, query.value, category, limit))
      case None => []
      case Some(response) =>
        match SearchResults(response)
        case None => []
        case Some(ps) => ValidateProducts(ps)
  }

  /** `fetch_products` as written: the gates, the payload built in place, the request, parsing and validation. */
  method FetchProducts(request: Payload -> Option<Json>, config: map<string, string>,
                       query: Option<string>, category: Option<string>, limit: int) returns (products: seq<Product>)
    ensures products == FetchResult(request, config, query, category, limit)
  {
    if !(Setting(config, "access_key") != [] && Setting(config, "secret_key") != [] && Setting(config, "partner_tag") != []) {
      return [];
    }
    if query.None? || query.value == [] {
      return [];
    }
    var payload: Payload := map[
      "Keywords" := FStr(query.value),
      "Resources" := FList(["Images.Primary.Large", "ItemInfo.Title", "Offers.Listings.Price"]),
      "ItemCount" := FInt(Min(limit, MaxItemCount)),
      "PartnerTag" := FStr(Setting(config, "partner_tag")),
      "PartnerType" := FStr("Associates"),
      "Marketplace" := FStr(Marketplace)];
    if category.Some? && category.value != [] {
      payload := payload["SearchIndex" := FStr(category.value)];
    }
    assert payload == SearchPayload(config, query.value, category, limit);
    var response := request(payload);
    if response.None? {
      return [];
    }
    var parsed := ParseSearchResponse(response.value);
    if parsed.None? {
      return [];
    }
    products := ValidateProducts(parsed.value);
  }

  /**
   * Without the three credentials, or without a query, there are no
   * products; otherwise the products are valid ones from the response, in
   * order.
   */
  lemma FetchResultSpec(request: Payload -> Option<Json>, config: map<string, string>,
                        query: Option<string>, category: Option<string>, limit: int)
    ensures !HasCredentials(config) ==> FetchResult(request, config, query, category, limit) == []
    ensures query.None? || query.value == [] ==> FetchResult(request, config, query, category, limit) == []
    ensures forall p :: p in FetchResult(request, config, query, category, limit) ==> Validate(p)
    ensures HasCredentials(config) && query.Some? && query.value != [] ==>
      var response := request(SearchPayload(config, query.value, category, limit));
      response.Some? && SearchResults(response.value).Some? ==>
        FetchResult(request, config, query, category, limit) == ValidateProducts(SearchResults(response.value).value)
  {
  }

  /** With the request stub, `fetch_products` returns no product for any input. */
  lemma StubFetchesNothing(config: map<string, string>, query: Option<string>, category: Option<string>, limit: int)
    ensures FetchResult(PaapiStub, config, query, category, limit) == []
  {
    var response := JObj([("SearchResult", JObj([("Items", JArr([]))]))]);
    assert Get(response.fields, "SearchResult") == Some(JObj([("Items", JArr([]))]));
    assert SearchResults(response) == Some([]);
  }

  /**
   * `test_connection`: false without the credentials; otherwise the search
   * call cannot raise (`fetch_products` catches everything), so true.
   */
  function TestConnection(config: map<string, string>): (ok: bool)
    ensures ok <==> (Setting(config, "access_key") != [] && Setting(config, "secret_key") != []
                     && Setting(config, "partner_tag") != [])
  {
    HasCredentials(config)
  }
}
