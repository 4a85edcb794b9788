/**
 * The feed-based store integrations (app/integrations/stores/coppel.py,
 * sears.py and liverpool.py): each fetches a whole feed, filters it locally
 * by query and category, validates and truncates; and their API
 * placeholders, which return nothing.
 *
 * The fetched feed is an input: the decoded JSON document or the XML element
 * tree, or `None` when the download or the decoding fails.
 */
module FeedStores {
  import opened Wrappers
  import opened Canonical
  import Text
  import Seqs
  import JsonValue
  import JsonFeed
  import XmlFeed

  /** The query filter: the lowercased query occurs in the lowercased name. */
  predicate NameMatches(p: Product, query: string) {
    Text.IsSubstring(Text.Lower(query), Text.Lower(p.name))
  }

  /** The category filter: a non-empty category containing the lowercased filter. */
  predicate CategoryMatches(p: Product, category: string) {
    p.category.Some? && p.category.value != [] && Text.IsSubstring(Text.Lower(category), Text.Lower(p.category.value))
  }

  /** The query filter, when a query is given (non-empty); otherwise every product passes. */
  function QueryTest(query: Option<string>): Product -> bool {
    (p: Product) => query.None? || query.value == [] || NameMatches(p, query.value)
  }

  /** The category filter, when a category is given (non-empty); otherwise every product passes. */
  function CategoryTest(category: Option<string>): Product -> bool {
    (p: Product) => category.None? || category.value == [] || CategoryMatches(p, category.value)
  }

  /** A product the pipeline may return: it passes both filters and validation. */
  function KeptTest(query: Option<string>, category: Option<string>): Product -> bool {
    (p: Product) => QueryTest(query)(p) && CategoryTest(category)(p) && Validate(p)
  }

  /**
   * The local pipeline of `fetch_products`: query filter, category filter,
   * validation, then `[:limit]`. An absent filter is the filter every
   * product passes.
   */
  function Pipeline(ps: seq<Product>, query: Option<string>, category: Option<string>, limit: int): seq<Product> {
    Seqs.Take(ValidateProducts(Seqs.Filter(Seqs.Filter(ps, QueryTest(query)), CategoryTest(category))), limit)
  }

  /** Three filters in a row are one filter by their conjunction; the result of `[:n]` keeps order and membership. */
  lemma TakeOfFilters<T>(s: seq<T>, f: T -> bool, g: T -> bool, v: T -> bool, h: T -> bool, n: int)
    requires forall x :: h(x) == (f(x) && g(x) && v(x))
    ensures Seqs.Take(Seqs.Filter(Seqs.Filter(Seqs.Filter(s, f), g), v), n) == Seqs.Take(Seqs.Filter(s, h), n)
    ensures Seqs.IsSubsequence(Seqs.Take(Seqs.Filter(s, h), n), s)
    ensures forall x :: x in Seqs.Take(Seqs.Filter(s, h), n) ==> h(x)
  {
    var fg := (x: T) => f(x) && g(x);
    Seqs.FilterFilter(s, f, g, fg);
    Seqs.FilterFilter(s, fg, v, h);
    var all := Seqs.Filter(s, h);
    var r := Seqs.Take(all, n);
    Seqs.FilterIsSubsequence(s, h);
    Seqs.FilterMembers(s, h);
    Seqs.PrefixSubsequence(r, all);
    Seqs.SubsequenceTrans(r, all, s);
    Seqs.SubsequenceElems(r, all);
  }

  /**
   * Validation runs before truncation: the result is the first `limit`
   * products of the feed that pass both filters and validation, in feed
   * order. So it has at most `limit` products, it is a subsequence of the
   * feed, and a product without a category never survives a category filter.
   */
  lemma PipelineSpec(ps: seq<Product>, query: Option<string>, category: Option<string>, limit: int)
    ensures Pipeline(ps, query, category, limit) == Seqs.Take(Seqs.Filter(ps, KeptTest(query, category)), limit)
    ensures limit >= 0 ==> |Pipeline(ps, query, category, limit)| <= limit
    ensures Seqs.IsSubsequence(Pipeline(ps, query, category, limit), ps)
    ensures forall p :: p in Pipeline(ps, query, category, limit) ==> KeptTest(query, category)(p)
  {
    TakeOfFilters(ps, QueryTest(query), CategoryTest(category), Validate, KeptTest(query, category), limit);
  }

  /** Under a category filter, every product returned has a non-empty category containing it. */
  lemma CategoryFilterNeedsCategory(ps: seq<Product>, query: Option<string>, category: string, limit: int)
    requires category != []
    ensures forall p :: p in Pipeline(ps, query, Some(category), limit) ==>
      p.category.Some? && p.category.value != [] && CategoryMatches(p, category)
  {
    PipelineSpec(ps, query, Some(category), limit);
  }

  /** Under a query, every product returned has the query in its name, ignoring case. */
  lemma QueryFilterMatchesName(ps: seq<Product>, query: string, category: Option<string>, limit: int)
    requires query != []
    ensures forall p :: p in Pipeline(ps, Some(query), category, limit) ==> NameMatches(p, query) && Validate(p)
  {
    PipelineSpec(ps, Some(query), category, limit);
  }

  /**
   * `test_connection` of a feed store: a fetch with `limit=1` and no filter
   * is non-empty exactly when the feed holds a valid product.
   */
  lemma ConnectionMeansValidProduct(ps: seq<Product>)
    ensures |Pipeline(ps, None, None, 1)| > 0 <==> exists i :: 0 <= i < |ps| && Validate(ps[i])
  {
    PipelineSpec(ps, None, None, 1);
    var h := KeptTest(None, None);
    assert forall x :: h(x) == Validate(x);
    FirstOfFilter(ps, h);
  }

  /** `filter(s)[:1]` is non-empty exactly when some element passes. */
  lemma FirstOfFilter<T>(s: seq<T>, h: T -> bool)
    ensures |Seqs.Take(Seqs.Filter(s, h), 1)| > 0 <==> exists i :: 0 <= i < |s| && h(s[i])
  {
    var all := Seqs.Filter(s, h);
    Seqs.FilterMembers(s, h);
    if exists i :: 0 <= i < |s| && h(s[i]) {
      var i :| 0 <= i < |s| && h(s[i]);
      assert s[i] in all;
    }
    if all != [] {
      assert all[0] in all;
    }
  }

  /** `config.get(key, '')`. */
  function Setting(config: map<string, string>, key: string): string {
    if key in config then config[key] else []
  }

  // Coppel -----------------------------------------------------------------

  /** Coppel's JSON parser, with the configured `product_path`. */
  function CoppelParser(config: map<string, string>): JsonFeed.Parser {
    JsonFeed.Parser("Coppel", if "product_path" in config then Some(config["product_path"]) else None)
  }

  /** The products of a JSON document under a parser (`parse_from_string` after decoding). */
  function JsonProducts(p: JsonFeed.Parser, doc: JsonValue.Json): seq<Product> {
    JsonFeed.ParsedItems(p, JsonFeed.ProductList(p, doc))
  }

  /** `CoppelIntegration.fetch_products`: nothing without `feed_url` or when the feed fails. */
  function CoppelFetch(config: map<string, string>, feed: Option<JsonValue.Json>,
                       query: Option<string>, category: Option<string>, limit: int): seq<Product> {
    if Setting(config, "feed_url") == [] then []
    else
      match feed
      case None => []
      case Some(doc) => Pipeline(JsonProducts(CoppelParser(config), doc), query, category, limit)
  }

  /**
   * Without `feed_url`, or when the feed cannot be fetched or decoded, there
   * is nothing; otherwise every product is a valid Coppel product of the
   * feed, at most `limit` of them.
   */
  lemma CoppelFetchSpec(config: map<string, string>, feed: Option<JsonValue.Json>,
                        query: Option<string>, category: Option<string>, limit: int)
    ensures Setting(config, "feed_url") == [] || feed.None? ==> CoppelFetch(config, feed, query, category, limit) == []
    ensures limit >= 0 ==> |CoppelFetch(config, feed, query, category, limit)| <= limit
    ensures forall p :: p in CoppelFetch(config, feed, query, category, limit) ==>
      Validate(p) && p.storeName == "Coppel" && QueryTest(query)(p) && CategoryTest(category)(p)
  {
    if Setting(config, "feed_url") != [] && feed.Some? {
      var ps := JsonProducts(CoppelParser(config), feed.value);
      PipelineSpec(ps, query, category, limit);
      JsonStoreName(CoppelParser(config), feed.value);
      Seqs.SubsequenceElems(Pipeline(ps, query, category, limit), ps);
    }
  }

  /** `CoppelIntegration.test_connection`: a one-product fetch is non-empty. */
  function CoppelTestConnection(config: map<string, string>, feed: Option<JsonValue.Json>): bool {
    |CoppelFetch(config, feed, None, None, 1)| > 0
  }

  /** The connection check succeeds exactly when `feed_url` is set and the feed holds a valid product. */
  lemma CoppelConnectionSpec(config: map<string, string>, feed: Option<JsonValue.Json>)
    ensures CoppelTestConnection(config, feed) <==> (Setting(config, "feed_url") != [] && feed.Some?
      && var ps := JsonProducts(CoppelParser(config), feed.value);
         exists i :: 0 <= i < |ps| && Validate(ps[i]))
  {
    if Setting(config, "feed_url") != [] && feed.Some? {
      var ps := JsonProducts(CoppelParser(config), feed.value);
      assert CoppelFetch(config, feed, None, None, 1) == Pipeline(ps, None, None, 1);
      ConnectionMeansValidProduct(ps);
    } else {
      assert CoppelFetch(config, feed, None, None, 1) == [];
    }
  }

  /**
   * `CoppelIntegration.parse_from_file`: the valid products of a local
   * document, in document order and each as often as the document has it;
   * nothing when it cannot be read.
   */
  function CoppelParseFromFile(config: map<string, string>, doc: Option<JsonValue.Json>): (r: seq<Product>)
    ensures forall p :: p in r ==> Validate(p) && p.storeName == "Coppel"
    ensures doc.None? ==> r == []
    ensures doc.Some? ==> var ps := JsonProducts(CoppelParser(config), doc.value);
      Seqs.IsSubsequence(r, ps) && forall p :: multiset(r)[p] == if Validate(p) then multiset(ps)[p] else 0
  {
    match doc
    case None => []
    case Some(d) =>
      var ps := JsonProducts(CoppelParser(config), d);
      JsonStoreName(CoppelParser(config), d);
      ValidateProducts(ps)
  }

  /** Every product parsed from a JSON document carries the parser's store name. */
  lemma JsonStoreName(p: JsonFeed.Parser, doc: JsonValue.Json)
    ensures forall r :: r in JsonProducts(p, doc) ==> r.storeName == p.storeName
  {
    var xs := JsonFeed.ProductList(p, doc);
    JsonFeed.ParsedItemsFromDicts(p, xs);
    forall r | r in JsonProducts(p, doc)
      ensures r.storeName == p.storeName
    {
      var i :| 0 <= i < |xs| && xs[i].JObj? && JsonFeed.ParseItem(p, xs[i].fields) == Some(r);
      JsonFeed.ParseItemSpec(p, xs[i].fields);
    }
  }

  // Sears ------------------------------------------------------------------

  const SearsParser: XmlFeed.Parser := XmlFeed.Parser("Sears")

  /** The products of an XML document (`parse_from_string` after reading the tree). */
  function XmlProducts(p: XmlFeed.Parser, root: XmlFeed.Element): seq<Product> {
    XmlFeed.TwoPass(XmlFeed.Entries(root), XmlFeed.Products(root), XmlFeed.MerchantParser(p), XmlFeed.GenericParser(p))
  }

  /** `SearsIntegration.fetch_products`: nothing without `feed_url` or when the feed fails. */
  function SearsFetch(config: map<string, string>, feed: Option<XmlFeed.Element>,
                      query: Option<string>, category: Option<string>, limit: int): seq<Product> {
    if Setting(config, "feed_url") == [] then []
    else
      match feed
      case None => []
      case Some(root) => Pipeline(XmlProducts(SearsParser, root), query, category, limit)
  }

  /**
   * Without `feed_url`, or when the feed cannot be fetched or parsed, there
   * is nothing; otherwise the first `limit` valid matching products of the
   * feed, all from one of the two passes.
   */
  lemma SearsFetchSpec(config: map<string, string>, feed: Option<XmlFeed.Element>,
                       query: Option<string>, category: Option<string>, limit: int)
    ensures Setting(config, "feed_url") == [] || feed.None? ==> SearsFetch(config, feed, query, category, limit) == []
    ensures Setting(config, "feed_url") != [] && feed.Some? ==>
      var ps := XmlProducts(SearsParser, feed.value);
      SearsFetch(config, feed, query, category, limit) == Seqs.Take(Seqs.Filter(ps, KeptTest(query, category)), limit)
      && Seqs.IsSubsequence(SearsFetch(config, feed, query, category, limit), ps)
  {
    if Setting(config, "feed_url") != [] && feed.Some? {
      PipelineSpec(XmlProducts(SearsParser, feed.value), query, category, limit);
    }
  }

  /** `SearsIntegration.test_connection`: a one-product fetch is non-empty. */
  function SearsTestConnection(config: map<string, string>, feed: Option<XmlFeed.Element>): bool {
    |SearsFetch(config, feed, None, None, 1)| > 0
  }

  /** The connection check succeeds exactly when `feed_url` is set and the feed holds a valid product. */
  lemma SearsConnectionSpec(config: map<string, string>, feed: Option<XmlFeed.Element>)
    ensures SearsTestConnection(config, feed) <==> (Setting(config, "feed_url") != [] && feed.Some?
      && var ps := XmlProducts(SearsParser, feed.value);
         exists i :: 0 <= i < |ps| && Validate(ps[i]))
  {
    if Setting(config, "feed_url") != [] && feed.Some? {
      var ps := XmlProducts(SearsParser, feed.value);
      assert SearsFetch(config, feed, None, None, 1) == Pipeline(ps, None, None, 1);
      ConnectionMeansValidProduct(ps);
    } else {
      assert SearsFetch(config, feed, None, None, 1) == [];
    }
  }

  /**
   * `SearsIntegration.parse_from_file`: the valid products of a local
   * document, in document order and each as often as the document has it;
   * nothing when it cannot be read.
   */
  function SearsParseFromFile(doc: Option<XmlFeed.Element>): (r: seq<Product>)
    ensures forall p :: p in r ==> Validate(p)
    ensures doc.None? ==> r == []
    ensures doc.Some? ==> var ps := XmlProducts(SearsParser, doc.value);
      Seqs.IsSubsequence(r, ps) && forall p :: multiset(r)[p] == if Validate(p) then multiset(ps)[p] else 0
  {
    match doc
    case None => []
    case Some(root) => ValidateProducts(XmlProducts(SearsParser, root))
  }

  // Liverpool --------------------------------------------------------------

  /** The Liverpool constructor: a JSON parser without `product_path`, only when `feed_url` is set. */
  function LiverpoolParser(config: map<string, string>): (p: Option<JsonFeed.Parser>)
    ensures p.Some? <==> Setting(config, "feed_url") != []
    ensures p.Some? ==> p.value.storeName == "Liverpool" && p.value.productPath.None?
  {
    if Setting(config, "feed_url") != [] then Some(JsonFeed.Parser("Liverpool", None)) else None
  }

  /** `LiverpoolIntegration.fetch_products`: nothing without `feed_url` or when the feed fails. */
  function LiverpoolFetch(config: map<string, string>, feed: Option<JsonValue.Json>,
                          query: Option<string>, category: Option<string>, limit: int): seq<Product> {
    match LiverpoolParser(config)
    case None => []
    case Some(p) =>
      match feed
      case None => []
      case Some(doc) => Pipeline(JsonProducts(p, doc), query, category, limit)
  }

  /** Without `feed_url` there is nothing, however the feed looks; with it, Liverpool runs the Coppel pipeline without a product path. */
  lemma LiverpoolFetchSpec(config: map<string, string>, feed: Option<JsonValue.Json>,
                           query: Option<string>, category: Option<string>, limit: int)
    ensures Setting(config, "feed_url") == [] || feed.None? ==> LiverpoolFetch(config, feed, query, category, limit) == []
    ensures Setting(config, "feed_url") != [] && feed.Some? ==>
      LiverpoolFetch(config, feed, query, category, limit)
      == Pipeline(JsonProducts(JsonFeed.Parser("Liverpool", None), feed.value), query, category, limit)
  {
  }

  /** `LiverpoolIntegration.test_connection`: false without `feed_url`, else a one-product fetch is non-empty. */
  function LiverpoolTestConnection(config: map<string, string>, feed: Option<JsonValue.Json>): bool {
    if Setting(config, "feed_url") == [] then false
    else |LiverpoolFetch(config, feed, None, None, 1)| > 0
  }

  /** The connection check succeeds exactly when `feed_url` is set and the feed holds a valid product. */
  lemma LiverpoolConnectionSpec(config: map<string, string>, feed: Option<JsonValue.Json>)
    ensures LiverpoolTestConnection(config, feed) <==> (Setting(config, "feed_url") != [] && feed.Some?
      && var ps := JsonProducts(JsonFeed.Parser("Liverpool", None), feed.value);
         exists i :: 0 <= i < |ps| && Validate(ps[i]))
  {
    if Setting(config, "feed_url") != [] && feed.Some? {
      var ps := JsonProducts(JsonFeed.Parser("Liverpool", None), feed.value);
      assert LiverpoolFetch(config, feed, None, None, 1) == Pipeline(ps, None, None, 1);
      ConnectionMeansValidProduct(ps);
    } else {
      assert LiverpoolFetch(config, feed, None, None, 1) == [];
    }
  }

  // Placeholders -----------------------------------------------------------

  /**
   * `fetch_products` of `CoppelAPIIntegration`, `SearsAPIIntegration` and
   * `LiverpoolAPIIntegration`: no product, whatever the arguments.
   */
  function PlaceholderFetch(query: Option<string>, category: Option<string>, limit: int): (r: seq<Product>)
    ensures r == []
  {
    []
  }

  /** `test_connection` of the three placeholders: always false. */
  function PlaceholderTestConnection(): (ok: bool)
    ensures !ok
  {
    false
  }
}
