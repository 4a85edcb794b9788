/**
 * The JSON feed parser (app/integrations/parsers/json_parser.py): locating
 * the product list inside a decoded document, alias-based field lookup, price
 * cleaning, and mapping each item to a canonical product.
 *
 * The model starts from the decoded value; `json.loads` itself is not part of
 * it, and a document that does not decode is given as `None`.
 */
module JsonFeed {
  import opened Wrappers
  import opened JsonValue
  import opened Canonical
  import Text
  import Numerals
  import PriceText
  import Seqs

  /** `JSONFeedParser(store_name, product_path)`. */
  datatype Parser = Parser(storeName: string, productPath: Option<string>)

  /** The keys tried, in order, when no configured path locates a list. */
  const CommonKeys: seq<string> := ["products", "items", "data", "results", "records"]

  const NameKeys: seq<string> := ["name", "title", "product_name", "productName"]
  const PriceKeys: seq<string> := ["price", "cost", "amount", "precio"]
  const UrlKeys: seq<string> := ["url", "link", "product_url", "productUrl"]
  const ImageKeys: seq<string> := ["image", "image_url", "imageUrl", "thumbnail"]
  const CategoryKeys: seq<string> := ["category", "product_type", "productType"]
  const SkuKeys: seq<string> := ["sku", "id", "product_id", "productId"]

  /** A path is followed only when it is set and non-empty (Python truthiness). */
  predicate UsesPath(p: Parser) {
    p.productPath.Some? && p.productPath.value != []
  }

  /**
   * Following `keys` from `current`: `None` as soon as a step is not a dict
   * or lacks the key.
   */
  function Walk(current: Json, keys: seq<string>): Option<Json>
    decreases |keys|
  {
    if keys == [] then Some(current)
    else if current.JObj? && HasKey(current.fields, keys[0]) then
      Walk(Get(current.fields, keys[0]).value, keys[1..])
    else None
  }

  /** What one common key contributes: a list under it, or a list under its `items`. */
  function CommonKeyList(fields: seq<(string, Json)>, key: string): Option<seq<Json>> {
    match Get(fields, key)
    case Some(JArr(xs)) => Some(xs)
    case Some(JObj(inner)) =>
      (match Get(inner, "items")
       case Some(JArr(xs)) => Some(xs)
       case _ => None)
    case _ => None
  }

  /** The list of the first key in `keys` that contributes one, else `[]`. */
  function FirstCommonList(fields: seq<(string, Json)>, keys: seq<string>): seq<Json>
    decreases |keys|
  {
    if keys == [] then []
    else
      match CommonKeyList(fields, keys[0])
      case Some(xs) => xs
      case None => FirstCommonList(fields, keys[1..])
  }

  /** The product list of a decoded document, as `_extract_product_list` locates it. */
  function ProductList(p: Parser, data: Json): seq<Json> {
    if data.JArr? then data.elems
    else if !data.JObj? then []
    else if UsesPath(p) then
      match Walk(data, Text.Split(p.productPath.value, '.'))
      case None => []
      case Some(JArr(xs)) => xs
      case Some(_) => FirstCommonList(data.fields, CommonKeys)
    else FirstCommonList(data.fields, CommonKeys)
  }

  /** `_extract_product_list`: the path walk and the common-key scan as loops. */
  method ExtractProductList(p: Parser, data: Json) returns (list: seq<Json>)
    ensures list == ProductList(p, data)
  {
    if data.JArr? {
      return data.elems;
    }
    if UsesPath(p) && data.JObj? {
      var keys := Text.Split(p.productPath.value, '.');
      var current := data;
      var i := 0;
      while i < |keys|
        invariant 0 <= i <= |keys|
        invariant Walk(data, keys) == Walk(current, keys[i..])
      {
        if current.JObj? && HasKey(current.fields, keys[i]) {
          current := Get(current.fields, keys[i]).value;
        } else {
          return [];
        }
        i := i + 1;
      }
      if current.JArr? {
        return current.elems;
      }
    }
    if data.JObj? {
      var k := 0;
      while k < |CommonKeys|
        invariant 0 <= k <= |CommonKeys|
        invariant FirstCommonList(data.fields, CommonKeys) == FirstCommonList(data.fields, CommonKeys[k..])
      {
        var key := CommonKeys[k];
        if HasKey(data.fields, key) {
          var value := Get(data.fields, key).value;
          if value.JArr? {
            return value.elems;
          } else if value.JObj? && HasKey(value.fields, "items") {
            var items := Get(value.fields, "items").value;
            if items.JArr? {
              return items.elems;
            }
          }
        }
        k := k + 1;
      }
    }
    return [];
  }

  /** Following a path in two parts is following the first part, then the rest. */
  lemma {:induction false} WalkAppend(current: Json, ks1: seq<string>, ks2: seq<string>)
    ensures Walk(current, ks1 + ks2) ==
            (match Walk(current, ks1) case None => None case Some(v) => Walk(v, ks2))
    decreases |ks1|
  {
    if ks1 == [] {
      assert ks1 + ks2 == ks2;
    } else {
      assert (ks1 + ks2)[0] == ks1[0];
      assert (ks1 + ks2)[1..] == ks1[1..] + ks2;
      if current.JObj? && HasKey(current.fields, ks1[0]) {
        WalkAppend(Get(current.fields, ks1[0]).value, ks1[1..], ks2);
      }
    }
  }

  /** A root that is a list is the product list, whatever the configured path. */
  lemma ListRootUnchanged(p: Parser, xs: seq<Json>)
    ensures ProductList(p, JArr(xs)) == xs
  {
  }

  /** A configured path that misses yields `[]`; the common keys are not tried. */
  lemma PathMissNoFallback(p: Parser, fields: seq<(string, Json)>)
    requires UsesPath(p)
    requires Walk(JObj(fields), Text.Split(p.productPath.value, '.')).None?
    ensures ProductList(p, JObj(fields)) == []
  {
  }

  /** The position of the first key of `keys` that contributes a list. */
  function FirstContributing(fields: seq<(string, Json)>, keys: seq<string>): (i: Option<nat>)
    ensures i.Some? ==> i.value < |keys| && CommonKeyList(fields, keys[i.value]).Some?
    decreases |keys|
  {
    if keys == [] then None
    else if CommonKeyList(fields, keys[0]).Some? then Some(0)
    else
      match FirstContributing(fields, keys[1..])
      case None => None
      case Some(k) => Some(k + 1)
  }

  /**
   * The common-key scan returns the list of the earliest contributing key
   * (even an empty one), every earlier key contributes nothing, and when no
   * key contributes the result is `[]`.
   */
  lemma {:induction false} FirstCommonListWins(fields: seq<(string, Json)>, keys: seq<string>)
    ensures match FirstContributing(fields, keys)
      case None =>
        FirstCommonList(fields, keys) == [] && forall j :: 0 <= j < |keys| ==> CommonKeyList(fields, keys[j]).None?
      case Some(i) =>
        (Some(FirstCommonList(fields, keys)) == CommonKeyList(fields, keys[i])
         && forall j :: 0 <= j < i ==> CommonKeyList(fields, keys[j]).None?)
    decreases |keys|
  {
    if keys != [] && CommonKeyList(fields, keys[0]).None? {
      FirstCommonListWins(fields, keys[1..]);
      assert forall j :: 0 < j < |keys| ==> keys[j] == keys[1..][j - 1];
    }
  }

  /** With a `products` list at the root and no path, that list is the product list. */
  lemma ProductsKeyFirst(p: Parser, fields: seq<(string, Json)>, xs: seq<Json>)
    requires !UsesPath(p)
    requires Get(fields, "products") == Some(JArr(xs))
    ensures ProductList(p, JObj(fields)) == xs
  {
  }

  /** `_get_field`'s unwrapping of a dict value: its `value`, else its `text`, else itself. */
  function Unwrap(v: Json): Json {
    if v.JObj? then
      (if HasKey(v.fields, "value") then Get(v.fields, "value").value
       else if HasKey(v.fields, "text") then Get(v.fields, "text").value
       else v)
    else v
  }

  /** The alias `key` resolves in `item`: it is present and its unwrapped value is not `None`. */
  predicate Resolves(item: seq<(string, Json)>, key: string) {
    HasKey(item, key) && Unwrap(Get(item, key).value) != JNull
  }

  /** The field as `_get_field` reads it: the stripped `str()` of the first resolving alias. */
  function Field(item: seq<(string, Json)>, keys: seq<string>): Option<string>
    decreases |keys|
  {
    if keys == [] then None
    else if Resolves(item, keys[0]) then Some(Text.Strip(PyStr(Unwrap(Get(item, keys[0]).value))))
    else Field(item, keys[1..])
  }

  /** A resolved field is trimmed: it neither starts nor ends with whitespace. */
  lemma {:induction false} FieldTrimmed(item: seq<(string, Json)>, keys: seq<string>)
    ensures var r := Field(item, keys);
      r.Some? ==> r.value == [] || (!Text.IsSpace(r.value[0]) && !Text.IsSpace(r.value[|r.value| - 1]))
    decreases |keys|
  {
    if keys != [] {
      if Resolves(item, keys[0]) {
        Text.StripEdges(PyStr(Unwrap(Get(item, keys[0]).value)));
      } else {
        FieldTrimmed(item, keys[1..]);
      }
    }
  }

  /** `_get_field`: the alias loop with its early return. */
  method GetField(item: seq<(string, Json)>, keys: seq<string>) returns (r: Option<string>)
    ensures r == Field(item, keys)
  {
    var i := 0;
    while i < |keys|
      invariant 0 <= i <= |keys|
      invariant Field(item, keys) == Field(item, keys[i..])
    {
      var key := keys[i];
      if HasKey(item, key) {
        var value := Get(item, key).value;
        if value.JObj? {
          if HasKey(value.fields, "value") {
            value := Get(value.fields, "value").value;
          } else if HasKey(value.fields, "text") {
            value := Get(value.fields, "text").value;
          }
        }
        if value != JNull {
          return Some(Text.Strip(PyStr(value)));
        }
      }
      i := i + 1;
    }
    return None;
  }

  /** The stripped `str()` of the unwrapped value stored under `key`. */
  function FieldText(item: seq<(string, Json)>, key: string): string
    requires HasKey(item, key)
  {
    Text.Strip(PyStr(Unwrap(Get(item, key).value)))
  }

  /** `Field` is absent exactly when no alias resolves. */
  lemma {:induction false} FieldNoneIff(item: seq<(string, Json)>, keys: seq<string>)
    ensures Field(item, keys).None? <==> forall j :: 0 <= j < |keys| ==> !Resolves(item, keys[j])
    decreases |keys|
  {
    if keys != [] {
      FieldNoneIff(item, keys[1..]);
      assert forall j :: 0 < j < |keys| ==> keys[j] == keys[1..][j - 1];
    }
  }

  /** The position of the first alias of `keys` that resolves in `item`. */
  function FirstResolving(item: seq<(string, Json)>, keys: seq<string>): (i: Option<nat>)
    ensures i.Some? ==> i.value < |keys| && Resolves(item, keys[i.value])
    decreases |keys|
  {
    if keys == [] then None
    else if Resolves(item, keys[0]) then Some(0)
    else
      match FirstResolving(item, keys[1..])
      case None => None
      case Some(k) => Some(k + 1)
  }

  /**
   * `Field` is the text of the earliest resolving alias, and every alias
   * before that one is absent or `None`.
   */
  lemma {:induction false} FieldFirstResolving(item: seq<(string, Json)>, keys: seq<string>)
    ensures match FirstResolving(item, keys)
      case None => Field(item, keys).None?
      case Some(i) =>
        (Field(item, keys) == Some(FieldText(item, keys[i])) && forall j :: 0 <= j < i ==> !Resolves(item, keys[j]))
    decreases |keys|
  {
    if keys != [] && !Resolves(item, keys[0]) {
      FieldFirstResolving(item, keys[1..]);
      assert forall j :: 0 < j < |keys| ==> keys[j] == keys[1..][j - 1];
    }
  }

  /**
   * `_parse_price`: a dict is read through `value`, else `amount`; the text is
   * then cleaned of "MXN", "$" and "," and converted.
   */
  function ParsePrice(v: Json): Option<real> {
    var u :=
      if v.JObj? && HasKey(v.fields, "value") then Get(v.fields, "value").value
      else if v.JObj? && HasKey(v.fields, "amount") then Get(v.fields, "amount").value
      else v;
    Numerals.ParseFloat(PriceText.CleanCurrency(PyStr(u)))
  }

  /**
   * A dict price is read one level deep: through `value` when present, else
   * through `amount`; a dict found there does not convert, since its text
   * starts with "{".
   */
  lemma ParsePriceDict(fields: seq<(string, Json)>)
    ensures HasKey(fields, "value") ==>
      var u := Get(fields, "value").value;
      ParsePrice(JObj(fields)) == if u.JObj? then None else ParsePrice(u)
    ensures !HasKey(fields, "value") && HasKey(fields, "amount") ==>
      var u := Get(fields, "amount").value;
      ParsePrice(JObj(fields)) == if u.JObj? then None else ParsePrice(u)
  {
    if HasKey(fields, "value") {
      DictNotPrice(Get(fields, "value").value);
    } else if HasKey(fields, "amount") {
      DictNotPrice(Get(fields, "amount").value);
    }
  }

  lemma DictNotPrice(u: Json)
    ensures u.JObj? ==> Numerals.ParseFloat(PriceText.CleanCurrency(PyStr(u))).None?
  {
    if u.JObj? {
      PriceText.CurrencyRejectsLead(PyStr(u));
    }
  }

  /** The spellings "$1,299.99" and "MXN 1299.99" both convert to 1299.99. */
  lemma PriceSpellingsParse()
    ensures ParsePrice(JStr("$1,299.99")) == ParsePrice(JStr("MXN 1299.99")) == Some(1299.99)
  {
    PriceText.PriceSpellingsAgree();
    Numerals.Value1299();
  }

  /** A whole number, as text or as a decoded number, converts to itself. */
  lemma ParsePriceWholeNumber(n: nat)
    ensures ParsePrice(JStr(Numerals.NatToString(n))) == Some(n as real)
    ensures ParsePrice(JNum(n as real, Numerals.NatToString(n))) == Some(n as real)
  {
    var s := Numerals.NatToString(n);
    assert PyStr(JStr(s)) == s;
    PriceOfNat(JStr(s), n);
    assert PyStr(JNum(n as real, s)) == s;
    PriceOfNat(JNum(n as real, s), n);
  }

  lemma PriceOfNat(u: Json, n: nat)
    requires !u.JObj? && PyStr(u) == Numerals.NatToString(n)
    ensures ParsePrice(u) == Some(n as real)
  {
    var s := Numerals.NatToString(n);
    DigitsNumeral(s);
    Numerals.NatToStringRoundTrip(n);
    PriceOfNumeral(u, s, n as real);
  }

  /** A value that is not a dict and whose text is a plain numeral converts as `float` does. */
  lemma PriceOfNumeral(u: Json, s: string, v: real)
    requires !u.JObj? && PyStr(u) == s && PriceText.Numeral(s) && Numerals.ParseFloat(s) == Some(v)
    ensures ParsePrice(u) == Some(v)
  {
    PriceText.CurrencyKeepsNumeral(s);
  }

  lemma DigitsNumeral(s: string)
    requires Numerals.AllDigits(s)
    ensures PriceText.Numeral(s)
  {
    forall i | 0 <= i < |s|
      ensures PriceText.IsNumeralChar(s[i])
    {
      assert Numerals.IsDigit(s[i]);
    }
  }

  /**
   * `_parse_item`: `None` unless name, price and url are present and
   * non-empty and the price converts to a positive value. The price text
   * passed on is already a string, so the dict branch of `ParsePrice` is not
   * reached from here.
   */
  function ParseItem(p: Parser, item: seq<(string, Json)>): Option<Product> {
    var name := Field(item, NameKeys);
    var priceText := Field(item, PriceKeys);
    var url := Field(item, UrlKeys);
    if name.GetOr([]) == [] || priceText.GetOr([]) == [] || url.GetOr([]) == [] then None
    else
      match ParsePrice(JStr(priceText.value))
      case None => None
      case Some(price) =>
        if price <= 0.0 then None
        else Some(NewProduct(name.value, price, p.storeName, url.value,
                             Field(item, ImageKeys).GetOr([]),
                             Field(item, CategoryKeys), Field(item, SkuKeys)))
  }

  /**
   * When `_parse_item` yields a product and when it does not, and what the
   * product carries: the store name of the parser, the resolved name, url,
   * category, sku and image, a non-blank name, the price converted from the
   * resolved price text (positive), and "" as image when no image alias
   * resolves.
   */
  lemma ParseItemSpec(p: Parser, item: seq<(string, Json)>)
    ensures ParseItem(p, item).Some? <==>
      Field(item, NameKeys).GetOr([]) != [] && Field(item, PriceKeys).GetOr([]) != []
      && Field(item, UrlKeys).GetOr([]) != []
      && ParsePrice(JStr(Field(item, PriceKeys).value)).Some?
      && ParsePrice(JStr(Field(item, PriceKeys).value)).value > 0.0
    ensures ParseItem(p, item).Some? ==>
      var r := ParseItem(p, item).value;
      r.storeName == p.storeName && r.price > 0.0 && NonBlank(r.name)
      && Some(r.name) == Field(item, NameKeys) && Some(r.storeUrl) == Field(item, UrlKeys)
      && r.category == Field(item, CategoryKeys) && r.sku == Field(item, SkuKeys)
      && r.currency == "MXN" && r.available
      && Some(r.price) == ParsePrice(JStr(Field(item, PriceKeys).value))
      && r.imageUrl == Field(item, ImageKeys).GetOr([])
      && (Field(item, ImageKeys).None? ==> r.imageUrl == [])
  {
    FieldTrimmed(item, NameKeys);
    if ParseItem(p, item).Some? {
      var r := ParseItem(p, item).value;
      assert !Text.IsSpace(r.name[0]);
    }
  }

  /**
   * An item whose name and url resolve to non-empty text and whose price
   * resolves to "$1,299.99" or "MXN 1299.99" becomes a product priced 1299.99.
   */
  lemma ParsedPriceSpellings(p: Parser, item: seq<(string, Json)>)
    requires Field(item, NameKeys).GetOr([]) != [] && Field(item, UrlKeys).GetOr([]) != []
    requires Field(item, PriceKeys) == Some("$1,299.99") || Field(item, PriceKeys) == Some("MXN 1299.99")
    ensures ParseItem(p, item).Some? && ParseItem(p, item).value.price == 1299.99
  {
    PriceSpellingsParse();
    ParseItemSpec(p, item);
  }

  /**
   * A parsed item passes validation exactly when its url and its image url
   * start with "http": the name and price checks already hold.
   */
  lemma ParsedItemValid(p: Parser, item: seq<(string, Json)>)
    requires ParseItem(p, item).Some?
    ensures var r := ParseItem(p, item).value;
      Validate(r) <==> Text.StartsWith(r.storeUrl, "http") && Text.StartsWith(r.imageUrl, "http")
  {
    ParseItemSpec(p, item);
  }

  /** `parse_from_dict`'s per-element step: a dict is parsed, anything else is skipped. */
  function ItemParser(p: Parser): Json -> Option<Product> {
    (x: Json) => if x.JObj? then ParseItem(p, x.fields) else None
  }

  /** The products of a product list, in list order. */
  function ParsedItems(p: Parser, xs: seq<Json>): seq<Product> {
    Seqs.MapSome(xs, ItemParser(p))
  }

  /**
   * Every output product comes from a dict of the list that parses to it,
   * and every dict that parses contributes its product.
   */
  lemma ParsedItemsFromDicts(p: Parser, xs: seq<Json>)
    ensures forall r :: r in ParsedItems(p, xs) ==>
      exists i :: 0 <= i < |xs| && xs[i].JObj? && ParseItem(p, xs[i].fields) == Some(r)
    ensures forall i :: 0 <= i < |xs| && xs[i].JObj? && ParseItem(p, xs[i].fields).Some? ==>
      ParseItem(p, xs[i].fields).value in ParsedItems(p, xs)
  {
    var f := ItemParser(p);
    Seqs.MapSomeFrom(xs, f);
    forall r | r in ParsedItems(p, xs)
      ensures exists i :: 0 <= i < |xs| && xs[i].JObj? && ParseItem(p, xs[i].fields) == Some(r)
    {
      var i :| 0 <= i < |xs| && f(xs[i]) == Some(r);
      assert xs[i].JObj? && ParseItem(p, xs[i].fields) == Some(r);
    }
    forall i | 0 <= i < |xs| && xs[i].JObj? && ParseItem(p, xs[i].fields).Some?
      ensures ParseItem(p, xs[i].fields).value in ParsedItems(p, xs)
    {
      Seqs.MapSomeKeeps(xs, f, i);
    }
  }

  /** The list is processed element by element: output order is list order. */
  lemma ParsedItemsAppend(p: Parser, xs: seq<Json>, ys: seq<Json>)
    ensures ParsedItems(p, xs + ys) == ParsedItems(p, xs) + ParsedItems(p, ys)
  {
    Seqs.MapSomeAppend(xs, ys, ItemParser(p));
  }

  /** The products of one more list element. */
  lemma ParsedItemsSnoc(p: Parser, xs: seq<Json>, i: nat)
    requires i < |xs|
    ensures ParsedItems(p, xs[..i + 1])
      == ParsedItems(p, xs[..i]) + if xs[i].JObj? && ParseItem(p, xs[i].fields).Some? then [ParseItem(p, xs[i].fields).value] else []
  {
    assert xs[..i + 1] == xs[..i] + [xs[i]];
    Seqs.MapSomeSnoc(xs[..i], xs[i], ItemParser(p));
  }

  /** `parse_from_dict`: locate the list, then parse its dict elements in order. */
  method ParseFromDict(p: Parser, data: Json) returns (products: seq<Product>)
    ensures products == ParsedItems(p, ProductList(p, data))
  {
    var list := ExtractProductList(p, data);
    products := [];
    if |list| == 0 {
      return;
    }
    var i := 0;
    while i < |list|
      invariant 0 <= i <= |list|
      invariant products == ParsedItems(p, list[..i])
    {
      var item := list[i];
      ParsedItemsSnoc(p, list, i);
      if item.JObj? {
        var product := ParseItem(p, item.fields);
        if product.Some? {
          products := products + [product.value];
        }
      }
      i := i + 1;
    }
    assert list[..i] == list;
  }

  /** `parse_from_string` over the decoder's outcome: text that does not decode yields `[]`. */
  method ParseFromString(p: Parser, decoded: Option<Json>) returns (products: seq<Product>)
    ensures decoded.None? ==> products == []
    ensures decoded.Some? ==> products == ParsedItems(p, ProductList(p, decoded.value))
  {
    if decoded.None? {
      return [];
    }
    products := ParseFromDict(p, decoded.value);
  }

  /**
   * An item whose image aliases all miss yields a product with image URL "",
   * which the validator rejects: the parser keeps the item, the feed's
   * validation step then drops it.
   */
  lemma NoImageRejected(p: Parser, item: seq<(string, Json)>)
    requires ParseItem(p, item).Some? && Field(item, ImageKeys).None?
    ensures ParseItem(p, item).value.imageUrl == [] && !Validate(ParseItem(p, item).value)
  {
    ParseItemSpec(p, item);
  }
}
