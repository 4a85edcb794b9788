/**
 * The canonical product record that every integration produces, its
 * validation rule, and the order-preserving validation filter
 * (app/integrations/base.py).
 */
module Canonical {
  import opened Wrappers
  import opened Text
  import Seqs

  datatype Product = Product(
    name: string,
    price: real,
    storeName: string,
    storeUrl: string,
    imageUrl: string,
    category: Option<string>,
    sku: Option<string>,
    currency: string,
    available: bool)

  /** The dataclass constructor with its defaults: currency "MXN", available. */
  function NewProduct(name: string, price: real, storeName: string, storeUrl: string,
                      imageUrl: string, category: Option<string>, sku: Option<string>): (p: Product)
    ensures p.currency == "MXN" && p.available
    ensures p.name == name && p.price == price && p.storeName == storeName
    ensures p.storeUrl == storeUrl && p.imageUrl == imageUrl && p.category == category && p.sku == sku
  {
    Product(name, price, storeName, storeUrl, imageUrl, category, sku, "MXN", true)
  }

  /** The name has a character that is not whitespace. */
  predicate NonBlank(s: string) {
    exists i :: 0 <= i < |s| && !IsSpace(s[i])
  }

  /**
   * `Product.validate`: the chain of guards on name, price, store URL and
   * image URL. An empty image URL is rejected like a relative one.
   */
  function Validate(p: Product): (ok: bool)
    ensures ok <==> NonBlank(p.name) && p.price > 0.0
                    && StartsWith(p.storeUrl, "http") && StartsWith(p.imageUrl, "http")
  {
    StripEmptyIffBlank(p.name);
    if p.name == [] || |Strip(p.name)| == 0 then false
    else if p.price == 0.0 || p.price <= 0.0 then false
    else if p.storeUrl == [] || !StartsWith(p.storeUrl, "http") then false
    else if p.imageUrl == [] || !StartsWith(p.imageUrl, "http") then false
    else true
  }

  /**
   * `validate_products`: exactly the valid records, in input order — a
   * subsequence holding every valid occurrence and no invalid one.
   */
  function ValidateProducts(ps: seq<Product>): (r: seq<Product>)
    ensures Seqs.IsSubsequence(r, ps)
    ensures forall p :: p in r ==> Validate(p)
    ensures forall p :: multiset(r)[p] == if Validate(p) then multiset(ps)[p] else 0
    ensures |r| <= |ps|
  {
    Seqs.FilterIsSubsequence(ps, Validate);
    Seqs.FilterMembers(ps, Validate);
    Seqs.FilterCountsAll(ps, Validate);
    Seqs.Filter(ps, Validate)
  }

  /** Validating an already validated list changes nothing. */
  lemma ValidateProductsIdempotent(ps: seq<Product>)
    ensures ValidateProducts(ValidateProducts(ps)) == ValidateProducts(ps)
  {
    Seqs.FilterIdempotent(ps, Validate);
  }

  /** Validation distributes over concatenation (it looks at one record at a time). */
  lemma ValidateProductsAppend(a: seq<Product>, b: seq<Product>)
    ensures ValidateProducts(a + b) == ValidateProducts(a) + ValidateProducts(b)
  {
    Seqs.FilterAppend(a, b, Validate);
  }
}
