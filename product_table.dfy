/**
 * The three tables the ingestion writes (app/models.py: stores, categories,
 * products) and the database session that stages changes to them.
 *
 * A table is a sequence of rows; a row's id is its position plus one (the
 * ingestion never deletes). The session keeps the committed product rows
 * and the staged ones: the committed rows as this session sees them (with
 * its in-memory updates) followed by the rows it has added. Sessions are
 * created with `autoflush=False` (app/database.py:17), so a query sees only
 * committed rows; a staged row becomes visible through `Commit`, and
 * `Rollback` discards the staged changes.
 */
module ProductTable {
  import opened Wrappers

  datatype StoreRow = StoreRow(name: string, url: string)

  datatype CategoryRow = CategoryRow(name: string, slug: string, description: string)

  /** A products row; `lastUpdated` is an abstract timestamp. */
  datatype ProductRow = ProductRow(
    name: string, storeId: int, categoryId: Option<int>, storeUrl: string,
    sku: Option<string>, price: real, currency: string, imageUrl: Option<string>,
    available: int, lastUpdated: int)

  /** `1 if flag else 0`: how a boolean is stored in the integer `available` column. */
  function Flag(b: bool): (r: int)
    ensures r == 1 <==> b
    ensures r == 0 <==> !b
  {
    if b then 1 else 0
  }

  /** The position of the first element satisfying `f` (`query(...).filter(...).first()`). */
  function FirstWhere<T>(s: seq<T>, f: T -> bool): (r: Option<nat>)
    ensures r.Some? ==> r.value < |s| && f(s[r.value]) && forall j :: 0 <= j < r.value ==> !f(s[j])
    ensures r.None? <==> forall j :: 0 <= j < |s| ==> !f(s[j])
    decreases |s|
  {
    if s == [] then None
    else if f(s[0]) then Some(0)
    else
      match FirstWhere(s[1..], f)
      case None => None
      case Some(i) => Some(i + 1)
  }

  /** The position of the store row named `name`. */
  function FindStore(stores: seq<StoreRow>, name: string): Option<nat> {
    FirstWhere(stores, (s: StoreRow) => s.name == name)
  }

  /** The position of the category row named `name`. */
  function FindCategory(categories: seq<CategoryRow>, name: string): Option<nat> {
    FirstWhere(categories, (c: CategoryRow) => c.name == name)
  }

  /** The unique constraint on `stores.name` (app/models.py:13). */
  predicate StoresUnique(stores: seq<StoreRow>) {
    forall i, j :: 0 <= i < j < |stores| ==> stores[i].name != stores[j].name
  }

  /**
   * The store table after a get-or-create of `name`: a row is added only when
   * none has that name, so the commit never breaks the unique `stores.name`.
   */
  function WithStore(stores: seq<StoreRow>, name: string, url: string): (r: seq<StoreRow>)
    ensures FindStore(stores, name).Some? ==> r == stores
    ensures FindStore(stores, name).None? ==> r == stores + [StoreRow(name, url)]
    ensures FindStore(r, name).Some?
    ensures StoresUnique(stores) ==> StoresUnique(r)
  {
    if FindStore(stores, name).Some? then stores
    else
      assert (stores + [StoreRow(name, url)])[|stores|].name == name;
      stores + [StoreRow(name, url)]
  }

  /** The id of the row named `name` in a store table that has one. */
  function StoreId(stores: seq<StoreRow>, name: string): (id: int)
    requires FindStore(stores, name).Some?
    ensures 1 <= id <= |stores| && stores[id - 1].name == name
  {
    FindStore(stores, name).value + 1
  }

  /** The position of the category row whose slug is `slug`. */
  function FindSlug(categories: seq<CategoryRow>, slug: string): Option<nat> {
    FirstWhere(categories, (c: CategoryRow) => c.slug == slug)
  }

  /** The unique constraints on `categories.name` and `categories.slug` (app/models.py:29-30). */
  predicate CategoriesUnique(categories: seq<CategoryRow>) {
    forall i, j :: 0 <= i < j < |categories| ==>
      categories[i].name != categories[j].name && categories[i].slug != categories[j].slug
  }

  /**
   * The category table after a get-or-create of `row`: unchanged when a row
   * has its name, and otherwise `row` appended. None when the new row's slug
   * is already some row's slug: the commit then raises on the unique
   * `categories.slug` and the table stays as it was.
   */
  function WithCategory(categories: seq<CategoryRow>, row: CategoryRow): (r: Option<seq<CategoryRow>>)
    ensures FindCategory(categories, row.name).Some? ==> r == Some(categories)
    ensures r.Some? ==> FindCategory(r.value, row.name).Some?
  {
    if FindCategory(categories, row.name).Some? then Some(categories)
    else if FindSlug(categories, row.slug).Some? then None
    else
      assert (categories + [row])[|categories|].name == row.name;
      Some(categories + [row])
  }

  /**
   * The get-or-create fails exactly when the name is new and the slug is
   * taken; otherwise a new name appends `row`, and the unique constraints on
   * name and slug still hold.
   */
  lemma WithCategorySpec(categories: seq<CategoryRow>, row: CategoryRow)
    ensures WithCategory(categories, row).None? <==>
      (forall j :: 0 <= j < |categories| ==> categories[j].name != row.name)
      && (exists j :: 0 <= j < |categories| && categories[j].slug == row.slug)
    ensures WithCategory(categories, row).Some? && FindCategory(categories, row.name).None? ==>
      WithCategory(categories, row) == Some(categories + [row])
    ensures WithCategory(categories, row).Some? && CategoriesUnique(categories) ==>
      CategoriesUnique(WithCategory(categories, row).value)
  {
    if FindCategory(categories, row.name).None? && FindSlug(categories, row.slug).None? {
      assert (categories + [row])[|categories|] == row;
    }
  }

  /** The id of the row named `name` in a category table that has one. */
  function CategoryId(categories: seq<CategoryRow>, name: string): (id: int)
    requires FindCategory(categories, name).Some?
    ensures 1 <= id <= |categories| && categories[id - 1].name == name
  {
    FindCategory(categories, name).value + 1
  }

  class Session {
    var stores: seq<StoreRow>
    var categories: seq<CategoryRow>
    /** The committed product rows: what a query sees. */
    var products: seq<ProductRow>
    /** The product rows as they will be after a commit. */
    var pending: seq<ProductRow>

    /** Staged rows extend the committed ones: the first are (possibly updated) committed rows. */
    predicate Valid()
      reads this
    {
      |products| <= |pending|
    }

    /** A session with nothing staged. */
    predicate Clean()
      reads this
    {
      pending == products
    }

    constructor(stores: seq<StoreRow>, categories: seq<CategoryRow>, products: seq<ProductRow>)
      ensures this.stores == stores && this.categories == categories
      ensures this.products == products && pending == products
    {
      this.stores := stores;
      this.categories := categories;
      this.products := products;
      pending := products;
    }

    /** `db.query(models.Store).filter(name == ...).first()`, then add and commit when there is none. */
    method GetOrCreateStore(name: string, url: string) returns (id: int)
      requires Clean()
      modifies this
      ensures stores == WithStore(old(stores), name, url) && id == StoreId(stores, name)
      ensures categories == old(categories) && products == old(products) && pending == old(pending)
    {
      var found := FindStore(stores, name);
      if found.None? {
        stores := stores + [StoreRow(name, url)];
        assert stores[|stores| - 1].name == name;
      }
      id := StoreId(stores, name);
    }

    /**
     * The same get-or-create for a category row. None when the commit raises
     * on a duplicate slug; the table then keeps its committed rows.
     */
    method GetOrCreateCategory(row: CategoryRow) returns (id: Option<int>)
      requires Clean()
      modifies this
      ensures WithCategory(old(categories), row).None? ==> categories == old(categories) && id.None?
      ensures WithCategory(old(categories), row).Some? ==>
        categories == WithCategory(old(categories), row).value && id == Some(CategoryId(categories, row.name))
      ensures stores == old(stores) && products == old(products) && pending == old(pending)
    {
      var found := FindCategory(categories, row.name);
      if found.None? {
        if FindSlug(categories, row.slug).Some? {
          return None;
        }
        categories := categories + [row];
        assert categories[|categories| - 1].name == row.name;
      }
      id := Some(CategoryId(categories, row.name));
    }

    /** `db.add(row)` for a new product row. */
    method Add(row: ProductRow)
      modifies this
      ensures pending == old(pending) + [row]
      ensures stores == old(stores) && categories == old(categories) && products == old(products)
    {
      pending := pending + [row];
    }

    /** Attribute assignments on a loaded row: the staged copy of committed row `i` changes. */
    method Update(i: nat, row: ProductRow)
      requires i < |pending|
      modifies this
      ensures pending == old(pending)[i := row]
      ensures stores == old(stores) && categories == old(categories) && products == old(products)
    {
      pending := pending[i := row];
    }

    /** `db.commit()` that succeeds: the staged rows become the committed ones. */
    method Commit()
      modifies this
      ensures products == old(pending) && pending == old(pending)
      ensures stores == old(stores) && categories == old(categories)
    {
      products := pending;
    }

    /** `db.rollback()`: the staged changes are discarded. */
    method Rollback()
      modifies this
      ensures pending == old(products) && products == old(products)
      ensures stores == old(stores) && categories == old(categories)
    {
      pending := products;
    }
  }
}
