/**
 * The scheduled scrape of one store (app/scheduler.py, `scrape_store`): the
 * scraper lookup, the store get-or-create, and the per-query loop that
 * updates or inserts the scraped products and commits after each query.
 *
 * Each query's scrape result is an input (`None` when the scrape raised).
 * The lookup runs against the committed rows only (the session does not
 * flush before querying), and an exception while saving a query's products
 * is caught without a rollback, so what was staged before it stays in the
 * session.
 *
 * `corrected` selects the intended behaviour instead of the written one:
 * no lookup for an item without a sku, and a rollback when a query fails.
 */
module Scheduler {
  import opened Wrappers
  import opened ProductTable
  import Text

  /**
   * A scraped item (a dict). `name`, `url` and `price` are `None` when the
   * key is missing, so that `item[key]` raises; `sku` and `imageUrl` are what
   * `.get` returns; `available` is the truth of `.get('available', True)`.
   */
  datatype Scraped = Scraped(
    name: Option<string>, url: Option<string>, sku: Option<string>,
    price: Option<real>, imageUrl: Option<string>, available: bool)

  /** A registered scraper's store name and base URL. */
  datatype Scraper = Scraper(storeName: string, baseUrl: string)

  /** The scrapers by key (their store names and URLs come from app/scrapers/). */
  const Scrapers: map<string, Scraper> := map[
    "amazon" := Scraper("Amazon MX", "https://www.amazon.com.mx"),
    "walmart" := Scraper("Walmart MX", "https://www.walmart.com.mx"),
    "liverpool" := Scraper("Liverpool", "https://www.liverpool.com.mx")]

  /** `self.scrapers.get(store_name.lower())`. */
  function ScraperFor(storeName: string): (r: Option<Scraper>)
    ensures r.Some? <==> Text.Lower(storeName) in Scrapers
  {
    var key := Text.Lower(storeName);
    if key in Scrapers then Some(Scrapers[key]) else None
  }

  /**
   * The row an item updates: the first committed row of the store with the
   * item's sku. As written the filter is `sku == item.get('sku')`,
   * which for a missing sku is `IS NULL`, so an item without a sku finds the
   * store's first committed row without one. Corrected, such an item finds
   * nothing.
   */
  function Lookup(committed: seq<ProductRow>, storeId: int, sku: Option<string>, corrected: bool): (r: Option<nat>)
    ensures r.Some? ==> (r.value < |committed| && committed[r.value].sku == sku && committed[r.value].storeId == storeId)
    ensures r.Some? ==> forall j :: 0 <= j < r.value ==> !(committed[j].sku == sku && committed[j].storeId == storeId)
    ensures r.None? && !(corrected && sku.None?) ==>
      forall j :: 0 <= j < |committed| ==> !(committed[j].sku == sku && committed[j].storeId == storeId)
    ensures corrected && sku.None? ==> r.None?
  {
    if corrected && sku.None? then None
    else FirstWhere(committed, (row: ProductRow) => row.sku == sku && row.storeId == storeId)
  }

  /** The staged rows after an item, or `None` when a required key is missing. */
  function SaveItem(committed: seq<ProductRow>, pending: seq<ProductRow>, item: Scraped, storeId: int,
                    now: int, corrected: bool): (r: Option<seq<ProductRow>>)
    requires |committed| <= |pending|
    ensures r.Some? ==> |r.value| >= |pending|
  {
    match Lookup(committed, storeId, item.sku, corrected)
    case Some(i) =>
      if item.price.None? then None
      else Some(pending[i := pending[i].(price := item.price.value, available := Flag(item.available), lastUpdated := now)])
    case None =>
      if item.name.None? || item.url.None? || item.price.None? then None
      else Some(pending + [ProductRow(item.name.value, storeId, None, item.url.value, item.sku, item.price.value,
                                      "MXN", item.imageUrl, Flag(item.available), now)])
  }

  /** The staged rows after a query's items, and whether all were saved (no exception). */
  datatype Staged = Staged(rows: seq<ProductRow>, ok: bool)

  /** The product loop of one query; it stops at the first item that raises. */
  function SaveItems(committed: seq<ProductRow>, pending: seq<ProductRow>, items: seq<Scraped>, storeId: int,
                     now: int, corrected: bool): (s: Staged)
    requires |committed| <= |pending|
    ensures |s.rows| >= |pending|
    decreases |items|
  {
    if items == [] then Staged(pending, true)
    else
      var prev := SaveItems(committed, pending, items[..|items| - 1], storeId, now, corrected);
      if !prev.ok then prev
      else
        match SaveItem(committed, prev.rows, items[|items| - 1], storeId, now, corrected)
        case None => Staged(prev.rows, false)
        case Some(rows) => Staged(rows, true)
  }

  /** The session: the committed rows and the staged ones. */
  datatype Db = Db(committed: seq<ProductRow>, pending: seq<ProductRow>)

  predicate Consistent(d: Db) {
    |d.committed| <= |d.pending|
  }

  /**
   * One query. A scrape that raised changes nothing; otherwise the items are
   * saved and committed. When saving raised, the written code keeps the
   * staged rows (no rollback) and the corrected code discards them.
   */
  function ScrapeQuery(d: Db, result: Option<seq<Scraped>>, storeId: int, now: int, corrected: bool): (r: Db)
    requires Consistent(d)
    ensures Consistent(r)
  {
    match result
    case None => d
    case Some(items) =>
      var s := SaveItems(d.committed, d.pending, items, storeId, now, corrected);
      if s.ok then Db(s.rows, s.rows)
      else if corrected then Db(d.committed, d.committed)
      else Db(d.committed, s.rows)
  }

  /** The query loop, one step per scrape result. */
  function ScrapeRun(d: Db, results: seq<Option<seq<Scraped>>>, storeId: int, now: int, corrected: bool): (r: Db)
    requires Consistent(d)
    ensures Consistent(r)
    decreases |results|
  {
    if results == [] then d
    else ScrapeQuery(ScrapeRun(d, results[..|results| - 1], storeId, now, corrected), results[|results| - 1], storeId, now, corrected)
  }

  /**
   * A matched row changes only in price, availability and time; a new row
   * has the item's name, URL, sku, price and image, no category, currency
   * MXN, and `available` 1 unless the item says otherwise.
   */
  lemma SaveItemSpec(committed: seq<ProductRow>, pending: seq<ProductRow>, item: Scraped, storeId: int,
                     now: int, corrected: bool)
    requires |committed| <= |pending|
    ensures var r := SaveItem(committed, pending, item, storeId, now, corrected);
      match Lookup(committed, storeId, item.sku, corrected)
      case Some(i) =>
        (r.Some? <==> item.price.Some?)
        && (r.Some? ==>
              |r.value| == |pending|
              && (forall j :: 0 <= j < |pending| && j != i ==> r.value[j] == pending[j])
              && r.value[i] == pending[i].(price := item.price.value, available := Flag(item.available), lastUpdated := now))
      case None =>
        (r.Some? <==> item.name.Some? && item.url.Some? && item.price.Some?)
        && (r.Some? ==>
              r.value[..|pending|] == pending && |r.value| == |pending| + 1
              && var row := r.value[|pending|];
                 row.name == item.name.value && row.storeUrl == item.url.value && row.sku == item.sku
                 && row.price == item.price.value && row.imageUrl == item.imageUrl && row.categoryId.None?
                 && row.storeId == storeId && row.currency == "MXN" && (row.available == 1 <==> item.available))
  {
  }

  /** Once an item raised, the rest of the query's items are not looked at. */
  lemma {:induction false} FailureSticks(committed: seq<ProductRow>, pending: seq<ProductRow>, items: seq<Scraped>,
                                         storeId: int, now: int, corrected: bool, j: nat)
    requires |committed| <= |pending| && j <= |items|
    requires !SaveItems(committed, pending, items[..j], storeId, now, corrected).ok
    ensures SaveItems(committed, pending, items, storeId, now, corrected)
      == SaveItems(committed, pending, items[..j], storeId, now, corrected)
    decreases |items|
  {
    if j < |items| {
      var init := items[..|items| - 1];
      assert init[..j] == items[..j];
      FailureSticks(committed, pending, init, storeId, now, corrected, j);
    } else {
      assert items[..j] == items;
    }
  }

  /** The effect of one more item on a query that has not failed yet. */
  lemma SaveItemsStep(committed: seq<ProductRow>, pending: seq<ProductRow>, items: seq<Scraped>,
                      storeId: int, now: int, corrected: bool, j: nat)
    requires |committed| <= |pending| && j < |items|
    requires SaveItems(committed, pending, items[..j], storeId, now, corrected).ok
    ensures var prev := SaveItems(committed, pending, items[..j], storeId, now, corrected);
      var next := SaveItem(committed, prev.rows, items[j], storeId, now, corrected);
      SaveItems(committed, pending, items[..j + 1], storeId, now, corrected)
        == (if next.None? then Staged(prev.rows, false) else Staged(next.value, true))
  {
    assert items[..j + 1][..j] == items[..j];
  }

  /** The rows of `c0` that belong to another store are still there, unchanged. */
  predicate OthersKept(c0: seq<ProductRow>, rows: seq<ProductRow>, storeId: int) {
    |c0| <= |rows| && forall j :: 0 <= j < |c0| && c0[j].storeId != storeId ==> rows[j] == c0[j]
  }

  lemma SaveItemKeepsOthers(c0: seq<ProductRow>, committed: seq<ProductRow>, pending: seq<ProductRow>, item: Scraped,
                            storeId: int, now: int, corrected: bool)
    requires |committed| <= |pending| && OthersKept(c0, committed, storeId) && OthersKept(c0, pending, storeId)
    ensures var r := SaveItem(committed, pending, item, storeId, now, corrected);
      r.Some? ==> OthersKept(c0, r.value, storeId)
  {
  }

  lemma {:induction false} SaveItemsKeepOthers(c0: seq<ProductRow>, committed: seq<ProductRow>, pending: seq<ProductRow>,
                                               items: seq<Scraped>, storeId: int, now: int, corrected: bool)
    requires |committed| <= |pending| && OthersKept(c0, committed, storeId) && OthersKept(c0, pending, storeId)
    ensures OthersKept(c0, SaveItems(committed, pending, items, storeId, now, corrected).rows, storeId)
    decreases |items|
  {
    if items != [] {
      var init := items[..|items| - 1];
      SaveItemsKeepOthers(c0, committed, pending, init, storeId, now, corrected);
      var prev := SaveItems(committed, pending, init, storeId, now, corrected);
      SaveItemKeepsOthers(c0, committed, prev.rows, items[|items| - 1], storeId, now, corrected);
    }
  }

  /**
   * Scraping one store never changes another store's products, committed
   * or staged.
   */
  lemma {:induction false} ScrapeRunKeepsOthers(c0: seq<ProductRow>, d: Db, results: seq<Option<seq<Scraped>>>,
                                                storeId: int, now: int, corrected: bool)
    requires Consistent(d) && OthersKept(c0, d.committed, storeId) && OthersKept(c0, d.pending, storeId)
    ensures var r := ScrapeRun(d, results, storeId, now, corrected);
      OthersKept(c0, r.committed, storeId) && OthersKept(c0, r.pending, storeId)
    decreases |results|
  {
    if results != [] {
      var init := results[..|results| - 1];
      ScrapeRunKeepsOthers(c0, d, init, storeId, now, corrected);
      var prev := ScrapeRun(d, init, storeId, now, corrected);
      if results[|results| - 1].Some? {
        SaveItemsKeepOthers(c0, prev.committed, prev.pending, results[|results| - 1].value, storeId, now, corrected);
      }
    }
  }

  // Findings -------------------------------------------------------------

  /** A committed row without a sku in store `storeId`. */
  function SkulessRow(storeId: int): ProductRow {
    ProductRow("Existing", storeId, None, "https://example.com/1", None, 100.0, "MXN", None, 1, 0)
  }

  /** A scraped item without a sku. */
  function SkulessItem(): Scraped {
    Scraped(Some("Other"), Some("https://example.com/2"), None, Some(5.0), None, true)
  }

  /**
   * As written, a scraped item without a sku is taken for the store's
   * existing row without a sku: that unrelated row gets the item's price
   * and no row is inserted.
   */
  lemma SkulessItemOverwrites(storeId: int, now: int)
    ensures var d := ScrapeQuery(Db([SkulessRow(storeId)], [SkulessRow(storeId)]), Some([SkulessItem()]), storeId, now, false);
      |d.committed| == 1 && d.committed[0].price == 5.0 && d.committed[0].name == "Existing"
  {
    var rows := [SkulessRow(storeId)];
    assert Lookup(rows, storeId, None, false) == Some(0);
    assert [SkulessItem()][..0] == [];
  }

  /**
   * Corrected, an item without a sku is never matched: every row it
   * changes was found by its own sku, and the example item is inserted
   * beside the existing row, which keeps its price.
   */
  lemma CorrectedSkulessInserted(storeId: int, now: int)
    ensures var d := ScrapeQuery(Db([SkulessRow(storeId)], [SkulessRow(storeId)]), Some([SkulessItem()]), storeId, now, true);
      |d.committed| == 2 && d.committed[0] == SkulessRow(storeId) && d.committed[1].name == "Other"
    ensures forall committed: seq<ProductRow>, sku: Option<string> ::
      Lookup(committed, storeId, sku, true).Some? ==> sku.Some? && committed[Lookup(committed, storeId, sku, true).value].sku == sku
  {
    assert [SkulessItem()][..0] == [];
  }

  /** An item that names no price: `item['price']` raises. */
  function PricelessItem(): Scraped {
    Scraped(Some("Broken"), Some("https://example.com/3"), Some("B1"), None, None, true)
  }

  function GoodItem(): Scraped {
    Scraped(Some("Good"), Some("https://example.com/4"), Some("G1"), Some(10.0), None, true)
  }

  /**
   * As written, a query that fails part-way leaves its first items staged;
   * the next query's commit writes them, although the failed query was
   * reported as an error.
   */
  lemma FailedQueryCommittedLater(storeId: int, now: int)
    ensures var d := ScrapeRun(Db([], []), [Some([GoodItem(), PricelessItem()]), Some([])], storeId, now, false);
      |d.committed| == 1 && d.committed[0].sku == Some("G1")
  {
    var first := [GoodItem(), PricelessItem()];
    assert first[..1] == [GoodItem()];
    assert [GoodItem()][..0] == [];
    var staged := SaveItems([], [], [GoodItem()], storeId, now, false);
    assert staged.ok && |staged.rows| == 1 && staged.rows[0].sku == Some("G1");
    var runs: seq<Option<seq<Scraped>>> := [Some(first), Some([])];
    assert runs[..1] == [Some(first)];
    assert runs[..1][..0] == [];
  }

  /**
   * Corrected, every query is all-or-nothing: afterwards nothing is staged,
   * and the committed rows are either unchanged or the complete batch.
   */
  lemma CorrectedQueryAtomic(d: Db, result: Option<seq<Scraped>>, storeId: int, now: int)
    requires d.pending == d.committed
    ensures var r := ScrapeQuery(d, result, storeId, now, true);
      r.pending == r.committed
      && (r.committed == d.committed
          || (result.Some? && r.committed == SaveItems(d.committed, d.committed, result.value, storeId, now, true).rows
              && SaveItems(d.committed, d.committed, result.value, storeId, now, true).ok))
  {
  }

  /** Corrected, the run never leaves anything staged. */
  lemma {:induction false} CorrectedRunClean(d: Db, results: seq<Option<seq<Scraped>>>, storeId: int, now: int)
    requires d.pending == d.committed
    ensures var r := ScrapeRun(d, results, storeId, now, true); r.pending == r.committed
    decreases |results|
  {
    if results != [] {
      CorrectedRunClean(d, results[..|results| - 1], storeId, now);
      CorrectedQueryAtomic(ScrapeRun(d, results[..|results| - 1], storeId, now, true), results[|results| - 1], storeId, now);
    }
  }

  // The method ----------------------------------------------------------

  /** The product loop of one query, as written: stop at the first item that raises. */
  method SaveScraped(db: Session, items: seq<Scraped>, storeId: int, now: int) returns (ok: bool)
    requires db.Valid()
    modifies db
    ensures Staged(db.pending, ok) == SaveItems(old(db.products), old(db.pending), items, storeId, now, false)
    ensures db.products == old(db.products) && db.stores == old(db.stores) && db.categories == old(db.categories)
  {
    var j := 0;
    while j < |items|
      invariant 0 <= j <= |items|
      invariant db.products == old(db.products) && db.stores == old(db.stores) && db.categories == old(db.categories)
      invariant Staged(db.pending, true) == SaveItems(db.products, old(db.pending), items[..j], storeId, now, false)
    {
      SaveItemsStep(db.products, old(db.pending), items, storeId, now, false, j);
      var item := items[j];
      ghost var next := SaveItem(db.products, db.pending, item, storeId, now, false);
      var found := Lookup(db.products, storeId, item.sku, false);
      if found.Some? {
        if item.price.None? {
          assert next.None?;
          FailureSticks(db.products, old(db.pending), items, storeId, now, false, j + 1);
          return false;
        }
        var i := found.value;
        db.Update(i, db.pending[i].(price := item.price.value, available := Flag(item.available), lastUpdated := now));
        assert next == Some(db.pending);
      } else {
        if item.name.None? || item.url.None? || item.price.None? {
          assert next.None?;
          FailureSticks(db.products, old(db.pending), items, storeId, now, false, j + 1);
          return false;
        }
        db.Add(ProductRow(item.name.value, storeId, None, item.url.value, item.sku, item.price.value,
                          "MXN", item.imageUrl, Flag(item.available), now));
        assert next == Some(db.pending);
      }
      j := j + 1;
    }
    assert items[..j] == items;
    return true;
  }

  /**
   * `scrape_store`: nothing for an unknown store; otherwise the store row is
   * got or created and each query's result saved and committed, a failing
   * query being skipped without a rollback. Closing the session at the end
   * drops whatever is still staged.
   */
  method ScrapeStore(db: Session, storeName: string, results: seq<Option<seq<Scraped>>>, now: int)
    requires db.Clean()
    modifies db
    ensures ScraperFor(storeName).None? ==>
      db.stores == old(db.stores) && db.categories == old(db.categories) && db.products == old(db.products)
    ensures ScraperFor(storeName).Some? ==>
      var s := ScraperFor(storeName).value;
      db.stores == WithStore(old(db.stores), s.storeName, s.baseUrl)
      && db.categories == old(db.categories)
      && db.products == ScrapeRun(Db(old(db.products), old(db.products)), results,
                                  StoreId(db.stores, s.storeName), now, false).committed
      && db.pending == db.products
  {
    var scraper := ScraperFor(storeName);
    if scraper.None? {
      return;
    }
    var storeId := db.GetOrCreateStore(scraper.value.storeName, scraper.value.baseUrl);
    ghost var d0 := Db(db.products, db.pending);
    var q := 0;
    while q < |results|
      invariant 0 <= q <= |results|
      invariant db.stores == WithStore(old(db.stores), scraper.value.storeName, scraper.value.baseUrl)
      invariant db.categories == old(db.categories)
      invariant storeId == StoreId(db.stores, scraper.value.storeName)
      invariant Db(db.products, db.pending) == ScrapeRun(d0, results[..q], storeId, now, false)
    {
      assert results[..q + 1][..q] == results[..q];
      var result := results[q];
      if result.Some? {
        var ok := SaveScraped(db, result.value, storeId, now);
        if ok {
          db.Commit();
        }
      }
      q := q + 1;
    }
    assert results[..q] == results;
    db.Rollback();
  }
}
