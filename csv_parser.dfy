/**
 * The CSV feed parser (app/integrations/parsers/csv_parser.py): column
 * resolution for each product field (custom mapping, then aliases, then the
 * field's own name), row-to-product mapping, and the row loop.
 *
 * The model starts from rows already split by the CSV reader: each row maps
 * header names to cell text.
 */
module CsvFeed {
  import opened Wrappers
  import opened Canonical
  import Text
  import Numerals
  import PriceText
  import Seqs

  /** The product fields the parser reads. */
  datatype FieldName = Name | Price | Url | Image | Category | Sku

  /** The field's own name: the key of the custom mapping and the exact-match column. */
  function Key(f: FieldName): string {
    match f
    case Name => "name"
    case Price => "price"
    case Url => "url"
    case Image => "image"
    case Category => "category"
    case Sku => "sku"
  }

  /** `default_mappings`: the alias columns of each field, in the order they are tried. */
  function Aliases(f: FieldName): (cols: seq<string>)
    ensures cols != [] && cols[0] == Key(f)
  {
    match f
    case Name => ["name", "title", "product_name", "product_title"]
    case Price => ["price", "cost", "amount", "product_price"]
    case Url => ["url", "link", "product_url", "product_link"]
    case Image => ["image", "image_url", "image_link", "product_image"]
    case Category => ["category", "product_category", "product_type"]
    case Sku => ["sku", "id", "product_id", "product_sku"]
  }

  type Row = map<string, string>

  /** `CSVFeedParser(store_name, column_mapping)`: field name to column name. */
  datatype Parser = Parser(storeName: string, columnMapping: map<string, string>)

  /** The custom column of `f` applies: it is configured and present in the row. */
  predicate CustomApplies(p: Parser, row: Row, f: FieldName) {
    Key(f) in p.columnMapping && p.columnMapping[Key(f)] in row
  }

  /** An alias column is taken when it is present and non-empty (before stripping). */
  predicate AliasHit(row: Row, col: string) {
    col in row && row[col] != []
  }

  /** The stripped cell of the first alias column that hits. */
  function AliasValue(row: Row, cols: seq<string>): Option<string>
    decreases |cols|
  {
    if cols == [] then None
    else if AliasHit(row, cols[0]) then Some(Text.Strip(row[cols[0]]))
    else AliasValue(row, cols[1..])
  }

  /** `_get_value`: custom column, then aliases, then the exact column, else `None`. */
  function Value(p: Parser, row: Row, f: FieldName): Option<string> {
    if CustomApplies(p, row, f) then Some(Text.Strip(row[p.columnMapping[Key(f)]]))
    else
      match AliasValue(row, Aliases(f))
      case Some(v) => Some(v)
      case None => if Key(f) in row then Some(Text.Strip(row[Key(f)])) else None
  }

  /** `_get_value` as written: custom column, alias loop, exact column. */
  method GetValue(p: Parser, row: Row, f: FieldName) returns (r: Option<string>)
    ensures r == Value(p, row, f)
  {
    var field := Key(f);
    if field in p.columnMapping {
      var custom := p.columnMapping[field];
      if custom in row {
        return Some(Text.Strip(row[custom]));
      }
    }
    r := ScanAliases(row, Aliases(f));
    if r.None? && field in row {
      r := Some(Text.Strip(row[field]));
    }
  }

  /** The alias loop of `_get_value`, with its early return. */
  method ScanAliases(row: Row, cols: seq<string>) returns (r: Option<string>)
    ensures r == AliasValue(row, cols)
  {
    var i := 0;
    while i < |cols|
      invariant 0 <= i <= |cols|
      invariant AliasValue(row, cols) == AliasValue(row, cols[i..])
    {
      var col := cols[i];
      if col in row && row[col] != [] {
        return Some(Text.Strip(row[col]));
      }
      i := i + 1;
    }
    return None;
  }

  /** The position of the first alias column that hits. */
  function FirstHit(row: Row, cols: seq<string>): (i: Option<nat>)
    ensures i.Some? ==> i.value < |cols| && AliasHit(row, cols[i.value])
    decreases |cols|
  {
    if cols == [] then None
    else if AliasHit(row, cols[0]) then Some(0)
    else
      match FirstHit(row, cols[1..])
      case None => None
      case Some(k) => Some(k + 1)
  }

  /**
   * Aliases are tried in their listed order: the value is the stripped cell of
   * the earliest alias that is present and non-empty; all earlier ones are absent
   * or empty; with no hit there is no value.
   */
  lemma {:induction false} AliasOrder(row: Row, cols: seq<string>)
    ensures match FirstHit(row, cols)
      case None => AliasValue(row, cols).None? && forall j :: 0 <= j < |cols| ==> !AliasHit(row, cols[j])
      case Some(i) =>
        (AliasValue(row, cols) == Some(Text.Strip(row[cols[i]]))
         && forall j :: 0 <= j < i ==> !AliasHit(row, cols[j]))
    decreases |cols|
  {
    if cols != [] && !AliasHit(row, cols[0]) {
      AliasOrder(row, cols[1..]);
      assert forall j :: 0 < j < |cols| ==> cols[j] == cols[1..][j - 1];
    }
  }

  /** A configured custom column that is present wins, even when its cell is blank. */
  lemma CustomWins(p: Parser, row: Row, f: FieldName)
    requires CustomApplies(p, row, f)
    ensures Value(p, row, f) == Some(Text.Strip(row[p.columnMapping[Key(f)]]))
    ensures Text.Strip(row[p.columnMapping[Key(f)]]) == [] ==> Value(p, row, f) == Some([])
  {
  }

  /**
   * Without a custom column the exact column is the last resort; since the
   * field's own name is its first alias, it is only reached when that cell is
   * empty, and it then yields "". With no column at all the value is `None`.
   */
  lemma ExactLastResort(p: Parser, row: Row, f: FieldName)
    requires !CustomApplies(p, row, f) && FirstHit(row, Aliases(f)).None?
    ensures Key(f) in row ==> Value(p, row, f) == Some([])
    ensures Key(f) !in row ==> Value(p, row, f).None?
  {
    AliasOrder(row, Aliases(f));
    if Key(f) in row {
      assert !AliasHit(row, Aliases(f)[0]);
      assert row[Key(f)] == [];
      Text.StripTrimmed([]);
    }
  }

  /** A value read from the row never starts or ends with whitespace. */
  lemma ValueTrimmed(p: Parser, row: Row, f: FieldName)
    ensures var v := Value(p, row, f);
      v.Some? ==> v.value == [] || (!Text.IsSpace(v.value[0]) && !Text.IsSpace(v.value[|v.value| - 1]))
  {
    var v := Value(p, row, f);
    if CustomApplies(p, row, f) {
      Text.StripEdges(row[p.columnMapping[Key(f)]]);
    } else {
      AliasOrder(row, Aliases(f));
      match FirstHit(row, Aliases(f))
      case Some(i) =>
        Text.StripEdges(row[Aliases(f)[i]]);
      case None =>
        if Key(f) in row {
          Text.StripEdges(row[Key(f)]);
        }
    }
  }

  /**
   * `_parse_row`: `None` unless name, price and url are non-empty and the
   * cleaned price converts. The price is not checked for sign: whatever
   * converts is taken.
   */
  function ParseRow(p: Parser, row: Row): Option<Product> {
    var name := Value(p, row, Name);
    var priceText := Value(p, row, Price);
    var url := Value(p, row, Url);
    if name.GetOr([]) == [] || priceText.GetOr([]) == [] || url.GetOr([]) == [] then None
    else
      match Numerals.ParseFloat(PriceText.CleanCurrency(priceText.value))
      case None => None
      case Some(price) =>
        Some(NewProduct(name.value, price, p.storeName, url.value,
                        Value(p, row, Image).GetOr([]),
                        Value(p, row, Category), Value(p, row, Sku)))
  }

  /**
   * When a row yields a product and what it carries: the resolved name and
   * url (the name is not blank), the converted price (of any sign), the parser's store name, the
   * resolved image ("" when no image column resolves), and the category and sku as read.
   */
  lemma ParseRowSpec(p: Parser, row: Row)
    ensures ParseRow(p, row).Some? <==>
      Value(p, row, Name).GetOr([]) != [] && Value(p, row, Price).GetOr([]) != []
      && Value(p, row, Url).GetOr([]) != []
      && Numerals.ParseFloat(PriceText.CleanCurrency(Value(p, row, Price).value)).Some?
    ensures ParseRow(p, row).Some? ==>
      var r := ParseRow(p, row).value;
      Some(r.name) == Value(p, row, Name) && Some(r.storeUrl) == Value(p, row, Url)
      && Some(r.price) == Numerals.ParseFloat(PriceText.CleanCurrency(Value(p, row, Price).value))
      && r.storeName == p.storeName && r.category == Value(p, row, Category) && r.sku == Value(p, row, Sku)
      && r.imageUrl == Value(p, row, Image).GetOr([])
      && (Value(p, row, Image).None? ==> r.imageUrl == [])
      && r.currency == "MXN" && r.available && NonBlank(r.name)
  {
    ValueTrimmed(p, row, Name);
    if ParseRow(p, row).Some? {
      var r := ParseRow(p, row).value;
      assert !Text.IsSpace(r.name[0]);
    }
  }

  /**
   * The CSV parser keeps a row whose price converts to zero or less; only the
   * feed's validation step rejects it.
   */
  lemma NonPositiveKept(p: Parser, row: Row)
    requires ParseRow(p, row).Some? && ParseRow(p, row).value.price <= 0.0
    ensures !Validate(ParseRow(p, row).value)
  {
  }

  /** `parse_from_string`'s per-row step. */
  function RowParser(p: Parser): Row -> Option<Product> {
    (row: Row) => ParseRow(p, row)
  }

  /** `parse_from_string` over the rows of the reader: the products of the rows that parse, in row order. */
  method ParseFromString(p: Parser, rows: seq<Row>) returns (products: seq<Product>)
    ensures products == Seqs.MapSome(rows, RowParser(p))
  {
    products := [];
    var i := 0;
    while i < |rows|
      invariant 0 <= i <= |rows|
      invariant products == Seqs.MapSome(rows[..i], RowParser(p))
    {
      var row := rows[i];
      assert rows[..i + 1] == rows[..i] + [row];
      Seqs.MapSomeSnoc(rows[..i], row, RowParser(p));
      var product := ParseRow(p, row);
      if product.Some? {
        products := products + [product.value];
      }
      i := i + 1;
    }
    assert rows[..i] == rows;
  }

  /**
   * Every product comes from a row that parses to it, every row that parses
   * contributes its product, and a failing row drops only itself.
   */
  lemma ParsedRows(p: Parser, rows: seq<Row>)
    ensures forall r :: r in Seqs.MapSome(rows, RowParser(p)) ==>
      exists i :: 0 <= i < |rows| && ParseRow(p, rows[i]) == Some(r)
    ensures forall i :: 0 <= i < |rows| && ParseRow(p, rows[i]).Some? ==>
      ParseRow(p, rows[i]).value in Seqs.MapSome(rows, RowParser(p))
    ensures forall a, b :: Seqs.MapSome(a + b, RowParser(p)) == Seqs.MapSome(a, RowParser(p)) + Seqs.MapSome(b, RowParser(p))
  {
    var f := RowParser(p);
    Seqs.MapSomeFrom(rows, f);
    forall i | 0 <= i < |rows| && ParseRow(p, rows[i]).Some?
      ensures ParseRow(p, rows[i]).value in Seqs.MapSome(rows, f)
    {
      Seqs.MapSomeKeeps(rows, f, i);
    }
    forall a, b ensures Seqs.MapSome(a + b, f) == Seqs.MapSome(a, f) + Seqs.MapSome(b, f) {
      Seqs.MapSomeAppend(a, b, f);
    }
  }
}
