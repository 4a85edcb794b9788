/**
 * The XML feed parser (app/integrations/parsers/xml_parser.py): the choice
 * between Google Merchant Atom entries and generic `<product>` elements, and
 * the two item parsers.
 *
 * The model starts from the element tree; a document the XML reader rejects
 * is given as `None`, and the parser lets that failure through (`None`).
 * Tags are in the reader's `{namespace}local` form.
 */
module XmlFeed {
  import opened Wrappers
  import opened Canonical
  import Text
  import Numerals
  import PriceText
  import Seqs

  /** An element: its tag, its text (absent when the element has none), its children in order. */
  datatype Element = Element(tag: string, text: Option<string>, children: seq<Element>)

  const AtomEntry: string := "{http://www.w3.org/2005/Atom}entry"
  const MerchantNs: string := "{http://base.google.com/ns/1.0}"

  /** `XMLFeedParser(store_name)`. */
  datatype Parser = Parser(storeName: string)

  /** All elements below `e`, in document order (`e` itself excluded): what `.//` searches. */
  function Descendants(e: Element): seq<Element>
    decreases e
  {
    Seqs.Flatten(seq(|e.children|, i requires 0 <= i < |e.children| => [e.children[i]] + Descendants(e.children[i])))
  }

  /** The test `findall` applies to each element. */
  function HasTag(tag: string): Element -> bool {
    (x: Element) => x.tag == tag
  }

  /**
   * The elements of `es` with tag `tag`, in order (`findall`): exactly the
   * list comprehension over `es` that keeps the tagged elements.
   */
  function WithTag(es: seq<Element>, tag: string): (r: seq<Element>)
    ensures r == Seqs.Filter(es, HasTag(tag))
    ensures forall x :: x in r <==> x in es && x.tag == tag
    ensures Seqs.IsSubsequence(r, es)
    decreases |es|
  {
    Seqs.FilterMembers(es, HasTag(tag));
    Seqs.FilterIsSubsequence(es, HasTag(tag));
    if es == [] then []
    else (if es[0].tag == tag then [es[0]] else []) + WithTag(es[1..], tag)
  }

  /** The first element of `es` with tag `tag` (`find`). */
  function FirstWithTag(es: seq<Element>, tag: string): (r: Option<Element>)
    ensures r.Some? ==> r.value.tag == tag
    ensures r.Some? ==> exists i :: 0 <= i < |es| && es[i] == r.value && forall j :: 0 <= j < i ==> es[j].tag != tag
    ensures r.None? <==> forall i :: 0 <= i < |es| ==> es[i].tag != tag
    decreases |es|
  {
    if es == [] then None
    else if es[0].tag == tag then Some(es[0])
    else
      var r := FirstWithTag(es[1..], tag);
      if r.None? then None
      else
        var i :| 0 <= i < |es[1..]| && es[1..][i] == r.value && r.value.tag == tag
          && forall j :: 0 <= j < i ==> es[1..][j].tag != tag;
        assert es[i + 1] == r.value;
        assert forall j :: 0 <= j < i + 1 ==> es[j].tag != tag by {
          forall j | 0 <= j < i + 1 ensures es[j].tag != tag {
            if j > 0 { assert es[j] == es[1..][j - 1]; }
          }
        }
        r
  }

  /** The text of a found element as a string field: "" when not found or without text. */
  function TextOr(e: Option<Element>): string {
    match e
    case Some(x) => x.text.GetOr([])
    case None => []
  }

  /** The text of a found element as an optional field: `None` when not found or without text. */
  function OptText(e: Option<Element>): Option<string> {
    match e
    case Some(x) => x.text
    case None => None
  }

  /** The fields an item parser found: each by `find`, as an element or `None`. */
  datatype Found = Found(
    name: Option<Element>, price: Option<Element>, link: Option<Element>,
    image: Option<Element>, category: Option<Element>, sku: Option<Element>)

  /** The shared tail of both item parsers, given the price conversion of the mode. */
  function BuildItem(p: Parser, f: Found, price: string -> Option<real>): Option<Product> {
    if f.name.None? || f.price.None? then None
    else
      match f.price.value.text
      case None => None
      case Some(t) =>
        match price(t)
        case None => None
        case Some(v) =>
          Some(NewProduct(TextOr(f.name), v, p.storeName, TextOr(f.link), TextOr(f.image),
                          OptText(f.category), OptText(f.sku)))
  }

  /** The fields of a merchant entry: the first matching descendant in the merchant namespace. */
  function MerchantFields(item: Element): Found {
    var d := Descendants(item);
    Found(FirstWithTag(d, MerchantNs + "title"), FirstWithTag(d, MerchantNs + "price"),
          FirstWithTag(d, MerchantNs + "link"), FirstWithTag(d, MerchantNs + "image_link"),
          FirstWithTag(d, MerchantNs + "product_type"), FirstWithTag(d, MerchantNs + "id"))
  }

  /** The fields of a generic product: the first matching direct child. */
  function GenericFields(item: Element): Found {
    var c := item.children;
    Found(FirstWithTag(c, "name"), FirstWithTag(c, "price"), FirstWithTag(c, "url"),
          FirstWithTag(c, "image"), FirstWithTag(c, "category"), FirstWithTag(c, "sku"))
  }

  /** A merchant price: "MXN", "$" and "," removed, trimmed, converted. */
  function MerchantPrice(t: string): Option<real> {
    Numerals.ParseFloat(PriceText.CleanCurrency(t))
  }

  /** A generic price: only "$" and "," removed, trimmed, converted. */
  function GenericPrice(t: string): Option<real> {
    Numerals.ParseFloat(PriceText.CleanGeneric(t))
  }

  /** `_parse_google_merchant_item`. */
  function MerchantItem(p: Parser, item: Element): Option<Product> {
    BuildItem(p, MerchantFields(item), MerchantPrice)
  }

  /** `_parse_generic_item`. */
  function GenericItem(p: Parser, item: Element): Option<Product> {
    BuildItem(p, GenericFields(item), GenericPrice)
  }

  /**
   * An item yields a product only when both its name and its price element
   * exist and the price text converts; the product then has the store name,
   * the converted price, the texts of the found name, link, image, category
   * and sku elements ("" for a link or image without text), "" for a missing
   * link or image, and `None` for a missing category or sku.
   */
  lemma BuildItemSpec(p: Parser, f: Found, price: string -> Option<real>)
    ensures BuildItem(p, f, price).Some? <==>
      f.name.Some? && f.price.Some? && f.price.value.text.Some? && price(f.price.value.text.value).Some?
    ensures BuildItem(p, f, price).Some? ==>
      var r := BuildItem(p, f, price).value;
      Some(r.price) == price(f.price.value.text.value)
      && r.storeName == p.storeName && r.name == f.name.value.text.GetOr([])
      && (f.link.None? ==> r.storeUrl == []) && (f.image.None? ==> r.imageUrl == [])
      && (f.link.Some? ==> r.storeUrl == f.link.value.text.GetOr([]))
      && (f.image.Some? ==> r.imageUrl == f.image.value.text.GetOr([]))
      && (f.category.None? ==> r.category.None?) && (f.sku.None? ==> r.sku.None?)
      && (f.category.Some? ==> r.category == f.category.value.text)
      && (f.sku.Some? ==> r.sku == f.sku.value.text)
  {
  }

  /**
   * The two modes differ in the cleaner: a merchant price "MXN " + d
   * converts to the value of the numeral d, while the generic parser keeps
   * "MXN" and the same price fails to convert.
   */
  lemma MxnPriceByMode(d: string)
    requires PriceText.Numeral(d) && d != []
    ensures MerchantPrice("MXN " + d) == Numerals.ParseFloat(d)
    ensures GenericPrice("MXN " + d).None?
  {
    PriceText.CurrencyMxn(d);
    GenericMxn(d);
  }

  lemma GenericMxn(d: string)
    requires PriceText.Numeral(d) && d != []
    ensures GenericPrice("MXN " + d).None?
  {
    GenericLead(d);
    PriceText.MxnNotNumber(PriceText.CleanGeneric("MXN " + d));
  }

  lemma GenericLead(d: string)
    requires PriceText.Numeral(d) && d != []
    ensures var c := PriceText.CleanGeneric("MXN " + d); |c| > 0 && c[0] == 'M' && Text.Strip(c) == c
  {
    PriceText.GenericKeepsMxn(d);
    Text.StripIdempotent(Text.Remove(Text.Remove("MXN " + d, "$"), ","));
  }

  function MerchantParser(p: Parser): Element -> Option<Product> {
    (e: Element) => MerchantItem(p, e)
  }

  function GenericParser(p: Parser): Element -> Option<Product> {
    (e: Element) => GenericItem(p, e)
  }

  /**
   * The outcome of the two passes: the products of `entries` under `f`, or,
   * when there are none, the products of `items` under `g`.
   */
  function TwoPass(entries: seq<Element>, items: seq<Element>,
                   f: Element -> Option<Product>, g: Element -> Option<Product>): seq<Product> {
    var m := Seqs.MapSome(entries, f);
    if m != [] then m else Seqs.MapSome(items, g)
  }

  /**
   * The passes never mix: all products come from the entries, or all from
   * the items; the second pass runs exactly when no entry parses, however
   * many entries there are.
   */
  lemma TwoPassSpec(entries: seq<Element>, items: seq<Element>,
                    f: Element -> Option<Product>, g: Element -> Option<Product>)
    ensures var r := TwoPass(entries, items, f, g);
      (forall x :: x in r ==> exists i :: 0 <= i < |entries| && f(entries[i]) == Some(x))
      || (forall x :: x in r ==> exists i :: 0 <= i < |items| && g(items[i]) == Some(x))
    ensures (forall i :: 0 <= i < |entries| ==> f(entries[i]).None?) ==>
      TwoPass(entries, items, f, g) == Seqs.MapSome(items, g)
    ensures (exists i :: 0 <= i < |entries| && f(entries[i]).Some?) ==>
      TwoPass(entries, items, f, g) == Seqs.MapSome(entries, f)
  {
    Seqs.MapSomeEmpty(entries, f);
    Seqs.MapSomeFrom(entries, f);
    Seqs.MapSomeFrom(items, g);
  }

  /** The Atom entries and the generic products of a document, in document order. */
  function Entries(root: Element): seq<Element> {
    WithTag(Descendants(root), AtomEntry)
  }

  function Products(root: Element): seq<Element> {
    WithTag(Descendants(root), "product")
  }

  /** Products from the items `items`, parsed by `f` in order (one of the two passes). */
  method ParseItems(items: seq<Element>, f: Element -> Option<Product>) returns (products: seq<Product>)
    ensures products == Seqs.MapSome(items, f)
  {
    products := [];
    var i := 0;
    while i < |items|
      invariant 0 <= i <= |items|
      invariant products == Seqs.MapSome(items[..i], f)
    {
      assert items[..i + 1] == items[..i] + [items[i]];
      Seqs.MapSomeSnoc(items[..i], items[i], f);
      var product := f(items[i]);
      if product.Some? {
        products := products + [product.value];
      }
      i := i + 1;
    }
    assert items[..i] == items;
  }

  /**
   * `parse_from_string`: the merchant pass, and the generic pass only when
   * the merchant pass produced no product. A document the reader rejects
   * makes the call fail (`None`).
   */
  method ParseFromString(p: Parser, doc: Option<Element>) returns (r: Option<seq<Product>>)
    ensures doc.None? ==> r.None?
    ensures doc.Some? ==>
      r == Some(TwoPass(Entries(doc.value), Products(doc.value), MerchantParser(p), GenericParser(p)))
  {
    if doc.None? {
      return None;
    }
    var root := doc.value;
    var products := ParseItems(Entries(root), MerchantParser(p));
    if products == [] {
      products := ParseItems(Products(root), GenericParser(p));
    }
    return Some(products);
  }
}
