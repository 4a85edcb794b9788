/**
 * The Mercado Libre import script (import_products.py): slugs for category
 * rows, the store and category get-or-create, and the per-query batch that
 * inserts or updates products keyed by (store, sku) and commits as a unit.
 *
 * The connection check, each query's search result and each commit's
 * outcome are inputs; printing and the delay between queries are left out.
 */
module Importer {
  import opened Wrappers
  import opened Canonical
  import opened ProductTable
  import Text
  import Seqs

  // Slugs -------------------------------------------------------------------

  /** The characters a slug keeps: `[a-z0-9]`. */
  predicate IsSlugChar(c: char) {
    'a' <= c <= 'z' || '0' <= c <= '9'
  }

  predicate IsDash(c: char) {
    c == '-'
  }

  /** The accent rewrites, applied to one lower-case character. */
  function Unaccent(c: char): char {
    if c in "\U{00E1}\U{00E0}\U{00E4}\U{00E2}" then 'a'
    else if c in "\U{00E9}\U{00E8}\U{00EB}\U{00EA}" then 'e'
    else if c in "\U{00ED}\U{00EC}\U{00EF}\U{00EE}" then 'i'
    else if c in "\U{00F3}\U{00F2}\U{00F6}\U{00F4}" then 'o'
    else if c in "\U{00FA}\U{00F9}\U{00FC}\U{00FB}" then 'u'
    else if c == '\U{00F1}' then 'n'
    else c
  }

  /**
   * The six accent substitutions in a row. Each replaces single characters
   * by an ASCII letter that no later pattern matches, so together they act
   * character by character.
   */
  function Unaccented(s: string): (r: string)
    ensures |r| == |s| && forall i :: 0 <= i < |s| ==> r[i] == Unaccent(s[i])
  {
    seq(|s|, i requires 0 <= i < |s| => Unaccent(s[i]))
  }

  /** Drops the leading characters outside `[a-z0-9]`. */
  function DropRun(s: string): (r: string)
    ensures |r| <= |s| && r == s[|s| - |r|..]
    ensures r == [] || IsSlugChar(r[0])
    decreases |s|
  {
    if s != [] && !IsSlugChar(s[0]) then DropRun(s[1..]) else s
  }

  /** `re.sub(r'[^a-z0-9]+', '-', s)`: every maximal run outside `[a-z0-9]` becomes one '-'. */
  function Hyphenate(s: string): string
    decreases |s|
  {
    if s == [] then []
    else if IsSlugChar(s[0]) then [s[0]] + Hyphenate(s[1..])
    else "-" + Hyphenate(DropRun(s[1..]))
  }

  /** `s.strip('-')`. */
  function StripDashes(s: string): string {
    Text.RStripBy(Text.LStripBy(s, IsDash), IsDash)
  }

  /** `create_slug`. */
  function CreateSlug(text: string): string {
    StripDashes(Hyphenate(Unaccented(Text.Lower(text))))
  }

  /** Only `[a-z0-9]` and '-', no '-' at either end, no two '-' in a row. */
  predicate WellFormedSlug(w: string) {
    (forall i :: 0 <= i < |w| ==> IsSlugChar(w[i]) || w[i] == '-')
    && (w != [] ==> w[0] != '-' && w[|w| - 1] != '-')
    && (forall i :: 0 <= i < |w| - 1 ==> !(w[i] == '-' && w[i + 1] == '-'))
  }

  /** Only `[a-z0-9]` and '-', and no two '-' in a row. */
  predicate Dashed(w: string) {
    (forall i :: 0 <= i < |w| ==> IsSlugChar(w[i]) || w[i] == '-')
    && (forall i :: 0 <= i < |w| - 1 ==> !(w[i] == '-' && w[i + 1] == '-'))
  }

  /** What `Hyphenate` produces: only slug characters and single dashes, a dash never followed by a dash. */
  lemma {:induction false} HyphenateDashed(s: string)
    ensures Dashed(Hyphenate(s))
    ensures Hyphenate(s) != [] && Hyphenate(s)[0] == '-' ==> s != [] && !IsSlugChar(s[0])
    decreases |s|
  {
    if s == [] {
    } else if IsSlugChar(s[0]) {
      HyphenateDashed(s[1..]);
      var t := Hyphenate(s[1..]);
      assert Hyphenate(s) == [s[0]] + t;
    } else {
      var d := DropRun(s[1..]);
      HyphenateDashed(d);
      var t := Hyphenate(d);
      assert Hyphenate(s) == "-" + t;
      assert t != [] ==> t[0] != '-';
    }
  }

  /** A dashed string is a fixed point of `Hyphenate`. */
  lemma {:induction false} HyphenateFixed(w: string)
    requires Dashed(w)
    ensures Hyphenate(w) == w
    decreases |w|
  {
    if w != [] {
      var t := w[1..];
      DashedSlice(w, 1, |w|);
      HyphenateFixed(t);
      DashedHead(w);
      HyphenateHead(w);
      assert w == [w[0]] + t;
    }
  }

  /** In a dashed string a leading '-' is followed by a slug character, if by anything. */
  lemma DashedHead(w: string)
    requires Dashed(w) && w != []
    ensures IsSlugChar(w[0]) || (w[0] == '-' && (|w| == 1 || IsSlugChar(w[1])))
  {
    if !IsSlugChar(w[0]) && |w| > 1 {
      assert !(w[0] == '-' && w[1] == '-');
    }
  }

  /** One step of `Hyphenate` when the string's second character does not extend a run. */
  lemma HyphenateHead(w: string)
    requires w != [] && (IsSlugChar(w[0]) || (w[0] == '-' && (|w| == 1 || IsSlugChar(w[1]))))
    ensures Hyphenate(w) == [w[0]] + Hyphenate(w[1..])
  {
    if !IsSlugChar(w[0]) {
      var t := w[1..];
      if t != [] {
        assert IsSlugChar(t[0]);
      }
      assert DropRun(t) == t;
    }
  }

  /** Trimming the dashes of a dashed string leaves a well-formed slug. */
  lemma StripDashesWellFormed(s: string)
    requires Dashed(s)
    ensures WellFormedSlug(StripDashes(s))
  {
    var l := Text.LStripBy(s, IsDash);
    DashedSlice(s, |s| - |l|, |s|);
    var r := Text.RStripBy(l, IsDash);
    DashedSlice(l, 0, |r|);
    assert r != [] ==> !IsDash(r[0]) && !IsDash(r[|r| - 1]) by {
      if r != [] {
        assert r[0] == l[0];
      }
    }
    DashedWellFormed(r);
  }

  /** A dashed string with no '-' at either end is a well-formed slug. */
  lemma DashedWellFormed(w: string)
    requires Dashed(w) && (w != [] ==> !IsDash(w[0]) && !IsDash(w[|w| - 1]))
    ensures WellFormedSlug(w)
  {
  }

  /** A slice of a dashed string is dashed. */
  lemma DashedSlice(s: string, lo: int, hi: int)
    requires Dashed(s) && 0 <= lo <= hi <= |s|
    ensures Dashed(s[lo..hi])
  {
    var t := s[lo..hi];
    assert forall i :: 0 <= i < |t| ==> t[i] == s[lo + i];
  }

  /** A well-formed slug has nothing to lower-case, unaccent, hyphenate or trim. */
  lemma WellFormedFixed(w: string)
    requires WellFormedSlug(w)
    ensures CreateSlug(w) == w
  {
    SlugCharsFixed(w);
    HyphenateFixed(w);
    WellFormedStripped(w);
  }

  /** Lower-casing and unaccenting leave slug characters and '-' alone. */
  lemma SlugCharsFixed(w: string)
    requires forall i :: 0 <= i < |w| ==> IsSlugChar(w[i]) || w[i] == '-'
    ensures Text.Lower(w) == w && Unaccented(w) == w
  {
    assert forall i :: 0 <= i < |w| ==> Text.Lower(w)[i] == w[i];
    assert forall i :: 0 <= i < |w| ==> Unaccented(w)[i] == w[i];
  }

  /** A string with no '-' at either end has no dashes to trim. */
  lemma WellFormedStripped(w: string)
    requires w != [] ==> w[0] != '-' && w[|w| - 1] != '-'
    ensures StripDashes(w) == w
  {
    var l := Text.LStripBy(w, IsDash);
    assert l == w;
  }

  /**
   * `create_slug` yields only `[a-z0-9]` and '-', never a leading,
   * trailing or doubled '-', and applying it again changes nothing.
   */
  lemma CreateSlugSpec(text: string)
    ensures WellFormedSlug(CreateSlug(text))
    ensures CreateSlug(CreateSlug(text)) == CreateSlug(text)
  {
    HyphenateDashed(Unaccented(Text.Lower(text)));
    StripDashesWellFormed(Hyphenate(Unaccented(Text.Lower(text))));
    WellFormedFixed(CreateSlug(text));
  }

  /** Accented letters are folded after lowercasing: "Computación" gives "computacion". */
  lemma SlugOfComputacion()
    ensures CreateSlug("Computaci\U{00F3}n") == "computacion"
  {
    LowerComputacion();
    UnaccentComputacion();
    DashedComputacion();
    HyphenateFixed("computacion");
  }

  lemma LowerComputacion()
    ensures Text.Lower("Computaci\U{00F3}n") == "computaci\U{00F3}n"
  {
    var s := "Computaci\U{00F3}n";
    assert Text.LowerChar(s[0]) == 'c';
    forall i | 1 <= i < |s|
      ensures Text.LowerChar(s[i]) == s[i]
    {
    }
  }

  lemma UnaccentComputacion()
    ensures Unaccented("computaci\U{00F3}n") == "computacion"
  {
    var s := "computaci\U{00F3}n";
    assert Unaccent(s[9]) == 'o';
    forall i | 0 <= i < |s| && i != 9
      ensures Unaccent(s[i]) == s[i]
    {
    }
  }

  lemma DashedComputacion()
    ensures Dashed("computacion")
  {
  }

  // Store and categories ----------------------------------------------------

  const StoreName: string := "Mercado Libre"
  const StoreUrl: string := "https://www.mercadolibre.com.mx"

  /** The categories the import makes sure exist, in order. */
  const CategoryNames: seq<string> :=
    ["Electr\U{00F3}nica", "Computaci\U{00F3}n", "Celulares", "Videojuegos", "Audio", "Hogar"]

  /** The description of a created category. */
  function Description(name: string): string {
    "Productos de " + name
  }

  /** What the category loop leaves: the table, the `categories` dict, and whether no commit raised. */
  datatype Setup = Setup(table: seq<CategoryRow>, ids: map<string, int>, ok: bool)

  /** The row the category loop creates for `name` when none has that name. */
  function NewCategory(name: string, slug: string -> string): CategoryRow {
    CategoryRow(name, slug(name), Description(name))
  }

  /**
   * The category loop: the table after getting or creating each name in
   * turn (a created row gets the slug `slug(name)`), and the `categories`
   * dict from the lower-cased name to the row id. A commit that raises on a
   * duplicate slug ends the loop with `ok` false; the rows committed before
   * it stay.
   */
  function CategorySetup(cats: seq<CategoryRow>, names: seq<string>, slug: string -> string): Setup
    decreases |names|
  {
    if names == [] then Setup(cats, map[], true)
    else
      var prev := CategorySetup(cats, names[..|names| - 1], slug);
      var name := names[|names| - 1];
      if !prev.ok then prev
      else
        match WithCategory(prev.table, NewCategory(name, slug))
        case None => Setup(prev.table, prev.ids, false)
        case Some(table) => Setup(table, prev.ids[Text.Lower(name) := CategoryId(table, name)], true)
  }

  /** The step for `names[k]` cannot commit: its name is new and its slug is taken. */
  predicate CollidesAt(cats: seq<CategoryRow>, names: seq<string>, slug: string -> string, k: nat)
    requires k < |names|
  {
    WithCategory(CategorySetup(cats, names[..k], slug).table, NewCategory(names[k], slug)).None?
  }

  /** After a raising commit the later names are not processed. */
  lemma {:induction false} SetupFailureSticks(cats: seq<CategoryRow>, names: seq<string>, slug: string -> string, k: nat)
    requires k <= |names| && !CategorySetup(cats, names[..k], slug).ok
    ensures CategorySetup(cats, names, slug) == CategorySetup(cats, names[..k], slug)
    decreases |names|
  {
    if k < |names| {
      var init := names[..|names| - 1];
      assert init[..k] == names[..k];
      SetupFailureSticks(cats, init, slug, k);
    } else {
      assert names[..k] == names;
    }
  }

  /** The category loop succeeds exactly when no step meets a duplicate slug. */
  lemma SetupOkIff(cats: seq<CategoryRow>, names: seq<string>, slug: string -> string)
    ensures CategorySetup(cats, names, slug).ok <==>
      forall k :: 0 <= k < |names| ==> !CollidesAt(cats, names, slug, k)
  {
    if CategorySetup(cats, names, slug).ok {
      SetupOkNoCollision(cats, names, slug);
    } else {
      var k := SetupFailsAt(cats, names, slug);
    }
  }

  /** A failed loop has a step that collides. */
  lemma {:induction false} SetupFailsAt(cats: seq<CategoryRow>, names: seq<string>, slug: string -> string) returns (k: nat)
    requires !CategorySetup(cats, names, slug).ok
    ensures k < |names| && CollidesAt(cats, names, slug, k)
    decreases |names|
  {
    var n := |names| - 1;
    SetupLastStep(cats, names, slug);
    if CategorySetup(cats, names[..n], slug).ok {
      k := n;
    } else {
      k := SetupFailsAt(cats, names[..n], slug);
      CollidesAtPrefix(cats, names, slug, n, k);
    }
  }

  /** In a successful loop no step collides. */
  lemma SetupOkNoCollision(cats: seq<CategoryRow>, names: seq<string>, slug: string -> string)
    requires CategorySetup(cats, names, slug).ok
    ensures forall k :: 0 <= k < |names| ==> !CollidesAt(cats, names, slug, k)
  {
    forall k | 0 <= k < |names|
      ensures !CollidesAt(cats, names, slug, k)
    {
      SetupOkNoCollisionAt(cats, names, slug, k);
    }
  }

  /** In a successful loop step `k` does not collide. */
  lemma SetupOkNoCollisionAt(cats: seq<CategoryRow>, names: seq<string>, slug: string -> string, k: nat)
    requires CategorySetup(cats, names, slug).ok && k < |names|
    ensures !CollidesAt(cats, names, slug, k)
  {
    var pre := names[..k + 1];
    SetupOkPrefix(cats, names, slug, k + 1);
    assert pre[..k] == names[..k];
    SetupLastStep(cats, pre, slug);
    CollidesAtPrefix(cats, names, slug, k + 1, k);
  }

  /** Every prefix of a successful loop succeeds. */
  lemma {:induction false} SetupOkPrefix(cats: seq<CategoryRow>, names: seq<string>, slug: string -> string, m: nat)
    requires CategorySetup(cats, names, slug).ok && m <= |names|
    ensures CategorySetup(cats, names[..m], slug).ok
    decreases |names|
  {
    if m < |names| {
      var init := names[..|names| - 1];
      SetupLastStep(cats, names, slug);
      SetupOkPrefix(cats, init, slug, m);
      assert init[..m] == names[..m];
    } else {
      assert names[..m] == names;
    }
  }

  /** Whether step `k` collides depends only on the names up to `k`. */
  lemma CollidesAtPrefix(cats: seq<CategoryRow>, names: seq<string>, slug: string -> string, n: nat, k: nat)
    requires k < n <= |names|
    ensures CollidesAt(cats, names, slug, k) == CollidesAt(cats, names[..n], slug, k)
  {
    assert names[..k] == names[..n][..k];
  }

  /** The loop over `names` succeeds iff the loop over all but the last does and the last step commits. */
  lemma SetupLastStep(cats: seq<CategoryRow>, names: seq<string>, slug: string -> string)
    requires names != []
    ensures CategorySetup(cats, names, slug).ok ==
      (CategorySetup(cats, names[..|names| - 1], slug).ok && !CollidesAt(cats, names, slug, |names| - 1))
  {
  }

  /**
   * An existing row "Electronica" already has the slug of "Electrónica", the
   * first category of the import: its commit raises, and the loop ends with
   * the table unchanged and an empty dict.
   */
  lemma AccentedNameCollides(description: string)
    ensures var cats := [CategoryRow("Electronica", "electronica", description)];
      CategorySetup(cats, CategoryNames, CreateSlug) == Setup(cats, map[], false)
  {
    var cats := [CategoryRow("Electronica", "electronica", description)];
    SlugOfElectronica();
    assert CategoryNames[..1][..0] == [];
    assert cats[0].name != CategoryNames[0];
    assert CategorySetup(cats, CategoryNames[..1], CreateSlug) == Setup(cats, map[], false);
    SetupFailureSticks(cats, CategoryNames, CreateSlug, 1);
  }

  lemma SlugOfElectronica()
    ensures CreateSlug("Electr\U{00F3}nica") == "electronica"
  {
    LowerElectronica();
    UnaccentElectronica();
    DashedElectronica();
    HyphenateFixed("electronica");
  }

  lemma LowerElectronica()
    ensures Text.Lower("Electr\U{00F3}nica") == "electr\U{00F3}nica"
  {
    var s := "Electr\U{00F3}nica";
    assert Text.LowerChar(s[0]) == 'e';
    forall i | 1 <= i < |s|
      ensures Text.LowerChar(s[i]) == s[i]
    {
    }
  }

  lemma UnaccentElectronica()
    ensures Unaccented("electr\U{00F3}nica") == "electronica"
  {
    var s := "electr\U{00F3}nica";
    assert Unaccent(s[6]) == 'o';
    forall i | 0 <= i < |s| && i != 6
      ensures Unaccent(s[i]) == s[i]
    {
    }
  }

  lemma DashedElectronica()
    ensures Dashed("electronica")
  {
  }

  /** The category loop keeps every existing row. */
  lemma {:induction false} SetupKeepsRows(cats: seq<CategoryRow>, names: seq<string>, slug: string -> string)
    ensures var table := CategorySetup(cats, names, slug).table;
      |cats| <= |table| && table[..|cats|] == cats
    decreases |names|
  {
    if names != [] {
      var init := names[..|names| - 1];
      SetupKeepsRows(cats, init, slug);
      var prev := CategorySetup(cats, init, slug).table;
      var name := names[|names| - 1];
      var row := NewCategory(name, slug);
      if CategorySetup(cats, init, slug).ok && FindCategory(prev, name).None? && WithCategory(prev, row).Some? {
        var table := prev + [row];
        assert CategorySetup(cats, names, slug).table == table;
        assert table[..|cats|] == prev[..|cats|];
      }
    }
  }

  /** The category loop adds a row only for a name that no existing row has. */
  lemma {:induction false} SetupAddsOnlyMissing(cats: seq<CategoryRow>, names: seq<string>, slug: string -> string)
    ensures OnlyMissingAdded(cats, CategorySetup(cats, names, slug).table)
    decreases |names|
  {
    if names != [] {
      var init := names[..|names| - 1];
      SetupAddsOnlyMissing(cats, init, slug);
      SetupKeepsRows(cats, init, slug);
      var prev := CategorySetup(cats, init, slug).table;
      var name := names[|names| - 1];
      var row := NewCategory(name, slug);
      if CategorySetup(cats, init, slug).ok && FindCategory(prev, name).None? && WithCategory(prev, row).Some? {
        NewNameAbsent(cats, prev, name);
        AddedMissing(cats, prev, row);
      }
    }
  }

  /** The category loop keeps the unique constraints on name and slug. */
  lemma {:induction false} SetupKeepsUnique(cats: seq<CategoryRow>, names: seq<string>, slug: string -> string)
    requires CategoriesUnique(cats)
    ensures CategoriesUnique(CategorySetup(cats, names, slug).table)
    decreases |names|
  {
    if names != [] {
      var init := names[..|names| - 1];
      SetupKeepsUnique(cats, init, slug);
      WithCategorySpec(CategorySetup(cats, init, slug).table, NewCategory(names[|names| - 1], slug));
    }
  }

  /** Every row past the first `|cats|` holds a name that no row of `cats` has. */
  predicate OnlyMissingAdded(cats: seq<CategoryRow>, table: seq<CategoryRow>) {
    forall i :: |cats| <= i < |table| ==> FindCategory(cats, table[i].name).None?
  }

  lemma AddedMissing(cats: seq<CategoryRow>, prev: seq<CategoryRow>, row: CategoryRow)
    requires OnlyMissingAdded(cats, prev) && FindCategory(cats, row.name).None?
    ensures OnlyMissingAdded(cats, prev + [row])
  {
    var table := prev + [row];
    assert forall i :: |cats| <= i < |prev| ==> table[i] == prev[i];
  }

  /** Every name of the loop is a key of the `categories` dict, lower-cased. */
  lemma {:induction false} SetupHasEveryName(cats: seq<CategoryRow>, names: seq<string>, slug: string -> string)
    ensures CategorySetup(cats, names, slug).ok ==>
      forall k :: 0 <= k < |names| ==> Text.Lower(names[k]) in CategorySetup(cats, names, slug).ids
    decreases |names|
  {
    if names != [] && CategorySetup(cats, names, slug).ok {
      var init := names[..|names| - 1];
      SetupHasEveryName(cats, init, slug);
      forall k | 0 <= k < |names| - 1
        ensures Text.Lower(names[k]) in CategorySetup(cats, names, slug).ids
      {
        assert names[k] == init[k];
      }
    }
  }

  /** Each id in the `categories` dict is the id of a row whose name lower-cases to its key. */
  lemma {:induction false} SetupIdsPointAtRows(cats: seq<CategoryRow>, names: seq<string>, slug: string -> string)
    ensures IdsValid(CategorySetup(cats, names, slug).table, CategorySetup(cats, names, slug).ids)
    decreases |names|
  {
    if names != [] {
      var init := names[..|names| - 1];
      SetupIdsPointAtRows(cats, init, slug);
      var prev := CategorySetup(cats, init, slug);
      var name := names[|names| - 1];
      if prev.ok && WithCategory(prev.table, NewCategory(name, slug)).Some? {
        var table := WithCategory(prev.table, NewCategory(name, slug)).value;
        var id := CategoryId(table, name);
        assert CategorySetup(cats, names, slug) == Setup(table, prev.ids[Text.Lower(name) := id], true);
        assert table[..|prev.table|] == prev.table;
        IdsStep(prev.table, prev.ids, table, Text.Lower(name), id);
      }
    }
  }

  /** One step of the category loop keeps every id pointing at its row. */
  lemma IdsStep(prev: seq<CategoryRow>, ids: map<string, int>, table: seq<CategoryRow>, key: string, id: int)
    requires IdsValid(prev, ids)
    requires |prev| <= |table| && table[..|prev|] == prev
    requires 1 <= id <= |table| && Text.Lower(table[id - 1].name) == key
    ensures IdsValid(table, ids[key := id])
  {
    forall k | k in ids
      ensures RowFor(table, k, ids[k])
    {
      RowForGrown(prev, table, k, ids[k]);
    }
  }

  /** Every id in `ids` belongs to a row whose name lower-cases to its key. */
  predicate IdsValid(table: seq<CategoryRow>, ids: map<string, int>) {
    forall key :: key in ids ==> RowFor(table, key, ids[key])
  }

  /** Id `id` belongs to a row whose name lower-cases to `key`. */
  predicate RowFor(table: seq<CategoryRow>, key: string, id: int) {
    1 <= id <= |table| && Text.Lower(table[id - 1].name) == key
  }

  lemma RowForGrown(table: seq<CategoryRow>, bigger: seq<CategoryRow>, key: string, id: int)
    requires RowFor(table, key, id)
    requires |table| <= |bigger| && bigger[..|table|] == table
    ensures RowFor(bigger, key, id)
  {
    assert bigger[id - 1] == table[id - 1];
  }

  /** A name absent from a table is absent from its prefix. */
  lemma NewNameAbsent(cats: seq<CategoryRow>, table: seq<CategoryRow>, name: string)
    requires |cats| <= |table| && table[..|cats|] == cats
    requires FindCategory(table, name).None?
    ensures FindCategory(cats, name).None?
  {
    assert forall j :: 0 <= j < |cats| ==> cats[j] == table[j];
  }

  /** `query_to_category`: the lower-cased category name for each predefined query. */
  const QueryToCategory: map<string, string> := map[
    "laptop" := "computaci\U{00F3}n",
    "iphone" := "celulares",
    "samsung galaxy" := "celulares",
    "nintendo switch" := "videojuegos",
    "playstation 5" := "videojuegos",
    "xbox" := "videojuegos",
    "airpods" := "audio",
    "audifonos" := "audio",
    "tablet" := "computaci\U{00F3}n",
    "smart tv" := "electr\U{00F3}nica",
    "mouse gamer" := "computaci\U{00F3}n",
    "teclado mecanico" := "computaci\U{00F3}n"]

  /** `query_to_category.get(query.lower())`: the category id for a query, `None` when unmapped. */
  function CategoryFor(ids: map<string, int>, query: string): (r: Option<int>)
    ensures r.Some? ==> (Text.Lower(query) in QueryToCategory && QueryToCategory[Text.Lower(query)] in ids
                         && r.value == ids[QueryToCategory[Text.Lower(query)]])
    ensures Text.Lower(query) !in QueryToCategory ==> r.None?
  {
    var q := Text.Lower(query);
    if q in QueryToCategory && QueryToCategory[q] in ids then Some(ids[QueryToCategory[q]]) else None
  }

  // The batch ---------------------------------------------------------------

  /**
   * The committed row a record updates: only a truthy sku is looked up, and
   * only among the rows committed before the batch (the session does not
   * flush before querying).
   */
  function Match(committed: seq<ProductRow>, storeId: int, sku: Option<string>): (r: Option<nat>)
    ensures r.Some? ==> (r.value < |committed| && committed[r.value].sku == sku
                         && committed[r.value].storeId == storeId && sku.Some? && sku.value != [])
    ensures (sku.Some? && sku.value != [] && r.None?) ==>
      forall j :: 0 <= j < |committed| ==> !(committed[j].sku == sku && committed[j].storeId == storeId)
  {
    if sku.Some? && sku.value != [] then FirstWhere(committed, (row: ProductRow) => row.sku == sku && row.storeId == storeId)
    else None
  }

  /** The update of an existing row: its store, category and sku stay. */
  function Refreshed(row: ProductRow, p: Product, now: int): (r: ProductRow)
    ensures r.storeId == row.storeId && r.categoryId == row.categoryId && r.sku == row.sku
    ensures r.name == p.name && r.price == p.price && r.storeUrl == p.storeUrl
      && r.imageUrl == Some(p.imageUrl) && r.available == Flag(p.available)
      && r.currency == p.currency && r.lastUpdated == now
  {
    row.(name := p.name, price := p.price, storeUrl := p.storeUrl, imageUrl := Some(p.imageUrl),
         available := Flag(p.available), currency := p.currency, lastUpdated := now)
  }

  /** The new row for a record without a match. */
  function Inserted(p: Product, storeId: int, categoryId: Option<int>, now: int): ProductRow {
    ProductRow(p.name, storeId, categoryId, p.storeUrl, p.sku, p.price, p.currency,
               Some(p.imageUrl), Flag(p.available), now)
  }

  /** The staged rows of a batch and its two counters. */
  datatype Batch = Batch(rows: seq<ProductRow>, imported: nat, updated: nat)

  /** One record of the batch: update its committed match, or stage a new row. */
  function SaveOne(committed: seq<ProductRow>, b: Batch, p: Product, storeId: int, categoryId: Option<int>, now: int): Batch
    requires |committed| <= |b.rows|
  {
    match Match(committed, storeId, p.sku)
    case Some(i) => Batch(b.rows[i := Refreshed(b.rows[i], p, now)], b.imported, b.updated + 1)
    case None => Batch(b.rows + [Inserted(p, storeId, categoryId, now)], b.imported + 1, b.updated)
  }

  /** The batch of one query, record by record. Every record is either an update or an insert. */
  function SaveAll(committed: seq<ProductRow>, ps: seq<Product>, storeId: int, categoryId: Option<int>, now: int): (b: Batch)
    ensures |b.rows| == |committed| + b.imported && b.imported + b.updated == |ps|
    decreases |ps|
  {
    if ps == [] then Batch(committed, 0, 0)
    else SaveOne(committed, SaveAll(committed, ps[..|ps| - 1], storeId, categoryId, now), ps[|ps| - 1], storeId, categoryId, now)
  }

  /** The batch after one more record. */
  lemma SaveAllStep(committed: seq<ProductRow>, ps: seq<Product>, storeId: int, categoryId: Option<int>, now: int, j: nat)
    requires j < |ps|
    ensures SaveAll(committed, ps[..j + 1], storeId, categoryId, now)
      == SaveOne(committed, SaveAll(committed, ps[..j], storeId, categoryId, now), ps[j], storeId, categoryId, now)
  {
    assert ps[..j + 1][..j] == ps[..j];
  }

  lemma SaveOneAt(committed: seq<ProductRow>, rows: seq<ProductRow>, imported: nat, updated: nat, p: Product,
                  storeId: int, categoryId: Option<int>, now: int)
    requires |committed| <= |rows|
    ensures var m := Match(committed, storeId, p.sku);
      SaveOne(committed, Batch(rows, imported, updated), p, storeId, categoryId, now)
        == if m.Some? then Batch(rows[m.value := Refreshed(rows[m.value], p, now)], imported, updated + 1)
           else Batch(rows + [Inserted(p, storeId, categoryId, now)], imported + 1, updated)
  {
  }

  /** The last record of `ps` whose lookup finds committed row `i`. */
  function LastFor(committed: seq<ProductRow>, ps: seq<Product>, storeId: int, i: nat): Option<Product>
    decreases |ps|
  {
    if ps == [] then None
    else if Match(committed, storeId, ps[|ps| - 1].sku) == Some(i) then Some(ps[|ps| - 1])
    else LastFor(committed, ps[..|ps| - 1], storeId, i)
  }

  /**
   * After the batch a committed row is unchanged unless a record's lookup
   * found it; then it holds the fields of the last such record, and its
   * store, category and sku are still its own.
   */
  lemma {:induction false} SaveAllUpdates(committed: seq<ProductRow>, ps: seq<Product>, storeId: int,
                                          categoryId: Option<int>, now: int, i: nat)
    requires i < |committed|
    ensures SaveAll(committed, ps, storeId, categoryId, now).rows[i] ==
      match LastFor(committed, ps, storeId, i)
      case None => committed[i]
      case Some(p) => Refreshed(committed[i], p, now)
    decreases |ps|
  {
    if ps != [] {
      SaveAllUpdates(committed, ps[..|ps| - 1], storeId, categoryId, now, i);
    }
  }

  /** The rows a batch stages as new: one per record whose lookup finds nothing, in order. */
  function InsertedRows(committed: seq<ProductRow>, ps: seq<Product>, storeId: int, categoryId: Option<int>, now: int): seq<ProductRow>
    decreases |ps|
  {
    if ps == [] then []
    else
      var p := ps[|ps| - 1];
      InsertedRows(committed, ps[..|ps| - 1], storeId, categoryId, now)
      + (if Match(committed, storeId, p.sku).None? then [Inserted(p, storeId, categoryId, now)] else [])
  }

  /**
   * The batch leaves the committed rows in place and appends exactly the
   * rows of the records without a match: a record without a sku, or whose
   * sku no committed row of the store has, gets a new row with the query's
   * category.
   */
  lemma {:induction false} SaveAllInserts(committed: seq<ProductRow>, ps: seq<Product>, storeId: int,
                                          categoryId: Option<int>, now: int)
    ensures var rows := SaveAll(committed, ps, storeId, categoryId, now).rows;
      rows[|committed|..] == InsertedRows(committed, ps, storeId, categoryId, now)
    decreases |ps|
  {
    if ps != [] {
      var init := ps[..|ps| - 1];
      SaveAllInserts(committed, init, storeId, categoryId, now);
      var b := SaveAll(committed, init, storeId, categoryId, now);
      var p := ps[|ps| - 1];
      match Match(committed, storeId, p.sku)
      case Some(i) =>
        assert b.rows[i := Refreshed(b.rows[i], p, now)][|committed|..] == b.rows[|committed|..];
      case None =>
        assert (b.rows + [Inserted(p, storeId, categoryId, now)])[|committed|..]
            == b.rows[|committed|..] + [Inserted(p, storeId, categoryId, now)];
    }
  }

  /**
   * Because lookups see only committed rows, two records with the same new
   * sku in one batch are both inserted: the table ends with two rows for
   * the same (store, sku).
   */
  lemma DuplicateSkuInsertedTwice(committed: seq<ProductRow>, p: Product, storeId: int, categoryId: Option<int>, now: int)
    requires Match(committed, storeId, p.sku).None?
    ensures SaveAll(committed, [p, p], storeId, categoryId, now)
      == Batch(committed + [Inserted(p, storeId, categoryId, now), Inserted(p, storeId, categoryId, now)], 2, 0)
  {
    var ins := Inserted(p, storeId, categoryId, now);
    assert [p][..0] == [];
    assert SaveAll(committed, [p], storeId, categoryId, now) == Batch(committed + [ins], 1, 0);
    assert [p, p][..1] == [p];
    assert SaveAll(committed, [p, p], storeId, categoryId, now) == Batch(committed + [ins] + [ins], 2, 0);
  }

  /** The (store, sku, category) of each of the first `|before|` rows is the same in `after`. */
  predicate KeysKept(before: seq<ProductRow>, after: seq<ProductRow>) {
    |before| <= |after|
    && forall i :: 0 <= i < |before| ==>
         after[i].storeId == before[i].storeId && after[i].sku == before[i].sku
         && after[i].categoryId == before[i].categoryId
  }

  lemma SaveAllKeepsKeys(committed: seq<ProductRow>, ps: seq<Product>, storeId: int, categoryId: Option<int>, now: int)
    ensures KeysKept(committed, SaveAll(committed, ps, storeId, categoryId, now).rows)
  {
    forall i | 0 <= i < |committed|
      ensures var r := SaveAll(committed, ps, storeId, categoryId, now).rows[i];
        r.storeId == committed[i].storeId && r.sku == committed[i].sku && r.categoryId == committed[i].categoryId
    {
      SaveAllUpdates(committed, ps, storeId, categoryId, now, i);
    }
  }

  lemma KeysKeptTrans(a: seq<ProductRow>, b: seq<ProductRow>, c: seq<ProductRow>)
    requires KeysKept(a, b) && KeysKept(b, c)
    ensures KeysKept(a, c)
  {
  }

  // Queries -----------------------------------------------------------------

  /** The committed rows and the two running totals. */
  datatype Totals = Totals(rows: seq<ProductRow>, imported: nat, updated: nat)

  /**
   * One query: an empty search result changes nothing; otherwise the batch
   * is committed as a unit, or rolled back when the commit fails, in which
   * case the totals stay as they were.
   */
  function QueryStep(t: Totals, ps: seq<Product>, categoryId: Option<int>, commitOk: bool, storeId: int, now: int): Totals {
    if ps == [] then t
    else
      var b := SaveAll(t.rows, ps, storeId, categoryId, now);
      if commitOk then Totals(b.rows, t.imported + b.imported, t.updated + b.updated) else t
  }

  /** The query loop: one step per query, with its search result, its category and its commit outcome. */
  function ImportRun(t: Totals, storeId: int, ids: map<string, int>, queries: seq<string>,
                     fetched: seq<seq<Product>>, commits: seq<bool>, now: int): Totals
    requires |fetched| == |queries| && |commits| == |queries|
    decreases |queries|
  {
    if queries == [] then t
    else
      var n := |queries| - 1;
      QueryStep(ImportRun(t, storeId, ids, queries[..n], fetched[..n], commits[..n], now),
                fetched[n], CategoryFor(ids, queries[n]), commits[n], storeId, now)
  }

  /**
   * All-or-nothing per query: a query whose search found nothing or whose
   * commit failed leaves the table and the totals as they were; a committed
   * query adds one row per insert, counts every record once, and keeps the
   * keys of all existing rows.
   */
  lemma QueryStepSpec(t: Totals, ps: seq<Product>, categoryId: Option<int>, commitOk: bool, storeId: int, now: int)
    ensures ps == [] || !commitOk ==> QueryStep(t, ps, categoryId, commitOk, storeId, now) == t
    ensures var r := QueryStep(t, ps, categoryId, commitOk, storeId, now);
      KeysKept(t.rows, r.rows) && t.imported <= r.imported && t.updated <= r.updated
      && |r.rows| - |t.rows| == r.imported - t.imported
      && (ps != [] && commitOk ==> (r.imported - t.imported) + (r.updated - t.updated) == |ps|)
  {
    SaveAllKeepsKeys(t.rows, ps, storeId, categoryId, now);
  }

  /**
   * Over the whole run, existing rows keep their store, sku and category,
   * and the table grows by exactly the number of imported products.
   */
  lemma {:induction false} ImportRunSpec(t: Totals, storeId: int, ids: map<string, int>, queries: seq<string>,
                                         fetched: seq<seq<Product>>, commits: seq<bool>, now: int)
    requires |fetched| == |queries| && |commits| == |queries|
    ensures var r := ImportRun(t, storeId, ids, queries, fetched, commits, now);
      KeysKept(t.rows, r.rows) && t.imported <= r.imported && t.updated <= r.updated
      && |r.rows| - |t.rows| == r.imported - t.imported
    decreases |queries|
  {
    if queries != [] {
      var n := |queries| - 1;
      ImportRunSpec(t, storeId, ids, queries[..n], fetched[..n], commits[..n], now);
      var mid := ImportRun(t, storeId, ids, queries[..n], fetched[..n], commits[..n], now);
      QueryStepSpec(mid, fetched[n], CategoryFor(ids, queries[n]), commits[n], storeId, now);
      KeysKeptTrans(t.rows, mid.rows, ImportRun(t, storeId, ids, queries, fetched, commits, now).rows);
    }
  }

  /** When every search comes back empty, the run writes nothing and counts nothing. */
  lemma EmptySearchesChangeNothing(t: Totals, storeId: int, ids: map<string, int>, queries: seq<string>,
                                   commits: seq<bool>, now: int)
    requires |commits| == |queries|
    ensures ImportRun(t, storeId, ids, queries, seq(|queries|, _ => []), commits, now) == t
  {
    EmptyRun(t, storeId, ids, queries, seq(|queries|, _ => []), commits, now);
  }

  lemma {:induction false} EmptyRun(t: Totals, storeId: int, ids: map<string, int>, queries: seq<string>,
                                    fetched: seq<seq<Product>>, commits: seq<bool>, now: int)
    requires |fetched| == |queries| && |commits| == |queries|
    requires forall k :: 0 <= k < |fetched| ==> fetched[k] == []
    ensures ImportRun(t, storeId, ids, queries, fetched, commits, now) == t
    decreases |queries|
  {
    if queries != [] {
      var n := |queries| - 1;
      EmptyRun(t, storeId, ids, queries[..n], fetched[..n], commits[..n], now);
    }
  }

  // The import ---------------------------------------------------------------

  /**
   * The category loop of `import_from_mercadolibre`: get or create each
   * category of `names` (created with the slug `slug(name)`), collecting the
   * ids by lower-cased name.
   */
  method SetupCategories(db: Session, names: seq<string>, slug: string -> string) returns (ids: map<string, int>, ok: bool)
    requires db.Clean()
    modifies db
    ensures Setup(db.categories, ids, ok) == CategorySetup(old(db.categories), names, slug)
    ensures db.stores == old(db.stores) && db.products == old(db.products) && db.pending == old(db.pending)
  {
    ids := map[];
    ok := true;
    var k := 0;
    while k < |names|
      invariant 0 <= k <= |names|
      invariant db.stores == old(db.stores) && db.products == old(db.products) && db.pending == old(db.pending)
      invariant Setup(db.categories, ids, true) == CategorySetup(old(db.categories), names[..k], slug)
    {
      var name := names[k];
      var id := db.GetOrCreateCategory(NewCategory(name, slug));
      assert names[..k + 1][..k] == names[..k];
      if id.None? {
        ok := false;
        SetupFailureSticks(old(db.categories), names, slug, k + 1);
        return;
      }
      ids := ids[Text.Lower(name) := id.value];
      k := k + 1;
    }
    assert names[..k] == names;
  }

  /** One record: update the committed row its sku finds, or stage a new row. */
  method SaveRecord(db: Session, p: Product, storeId: int, category: Option<int>, now: int, imported: nat, updated: nat)
    returns (newImported: nat, newUpdated: nat)
    requires db.Valid()
    modifies db
    ensures Batch(db.pending, newImported, newUpdated)
      == SaveOne(old(db.products), Batch(old(db.pending), imported, updated), p, storeId, category, now)
    ensures db.products == old(db.products) && db.stores == old(db.stores) && db.categories == old(db.categories)
  {
    SaveOneAt(db.products, db.pending, imported, updated, p, storeId, category, now);
    newImported, newUpdated := imported, updated;
    var existing := Match(db.products, storeId, p.sku);
    if existing.Some? {
      db.Update(existing.value, Refreshed(db.pending[existing.value], p, now));
      newUpdated := updated + 1;
    } else {
      db.Add(Inserted(p, storeId, category, now));
      newImported := imported + 1;
    }
  }

  /** The product loop of one query: stage an update or an insert per record, counting each. */
  method SaveBatch(db: Session, products: seq<Product>, storeId: int, category: Option<int>, now: int)
    returns (imported: nat, updated: nat)
    requires db.Clean()
    modifies db
    ensures Batch(db.pending, imported, updated) == SaveAll(old(db.products), products, storeId, category, now)
    ensures db.products == old(db.products) && db.stores == old(db.stores) && db.categories == old(db.categories)
  {
    imported, updated := 0, 0;
    var j := 0;
    while j < |products|
      invariant 0 <= j <= |products|
      invariant db.products == old(db.products) && db.stores == old(db.stores) && db.categories == old(db.categories)
      invariant Batch(db.pending, imported, updated) == SaveAll(db.products, products[..j], storeId, category, now)
    {
      SaveAllStep(db.products, products, storeId, category, now, j);
      imported, updated := SaveRecord(db, products[j], storeId, category, now, imported, updated);
      j := j + 1;
    }
    assert products[..j] == products;
  }

  /** One query of the loop: save the batch, then commit it and add its counts, or roll it back. */
  method RunQuery(db: Session, storeId: int, category: Option<int>, products: seq<Product>, commitOk: bool,
                  now: int, totalImported: nat, totalUpdated: nat)
    returns (newImported: nat, newUpdated: nat)
    requires db.Clean()
    modifies db
    ensures Totals(db.products, newImported, newUpdated)
      == QueryStep(Totals(old(db.products), totalImported, totalUpdated), products, category, commitOk, storeId, now)
    ensures db.Clean() && db.stores == old(db.stores) && db.categories == old(db.categories)
  {
    newImported, newUpdated := totalImported, totalUpdated;
    if products != [] {
      var imported, updated := SaveBatch(db, products, storeId, category, now);
      if commitOk {
        db.Commit();
        newImported := totalImported + imported;
        newUpdated := totalUpdated + updated;
      } else {
        db.Rollback();
      }
    }
  }

  /** The query loop of `import_from_mercadolibre`. */
  method ImportQueries(db: Session, storeId: int, ids: map<string, int>, queries: seq<string>,
                       fetched: seq<seq<Product>>, commits: seq<bool>, now: int)
    returns (totalImported: nat, totalUpdated: nat)
    requires |fetched| == |queries| && |commits| == |queries|
    requires db.Clean()
    modifies db
    ensures Totals(db.products, totalImported, totalUpdated)
      == ImportRun(Totals(old(db.products), 0, 0), storeId, ids, queries, fetched, commits, now)
    ensures db.Clean() && db.stores == old(db.stores) && db.categories == old(db.categories)
  {
    totalImported, totalUpdated := 0, 0;
    ghost var t0 := Totals(db.products, 0, 0);
    var q := 0;
    while q < |queries|
      invariant 0 <= q <= |queries|
      invariant db.Clean() && db.stores == old(db.stores) && db.categories == old(db.categories)
      invariant Totals(db.products, totalImported, totalUpdated)
        == ImportRun(t0, storeId, ids, queries[..q], fetched[..q], commits[..q], now)
    {
      ImportRunSnoc(t0, storeId, ids, queries, fetched, commits, now, q);
      totalImported, totalUpdated :=
        RunQuery(db, storeId, CategoryFor(ids, queries[q]), fetched[q], commits[q], now, totalImported, totalUpdated);
      q := q + 1;
    }
    assert queries[..q] == queries && fetched[..q] == fetched && commits[..q] == commits;
  }

  /** The run over the first `q + 1` queries is one more step after the run over the first `q`. */
  lemma ImportRunSnoc(t: Totals, storeId: int, ids: map<string, int>, queries: seq<string>,
                      fetched: seq<seq<Product>>, commits: seq<bool>, now: int, q: nat)
    requires |fetched| == |queries| && |commits| == |queries| && q < |queries|
    ensures ImportRun(t, storeId, ids, queries[..q + 1], fetched[..q + 1], commits[..q + 1], now)
      == QueryStep(ImportRun(t, storeId, ids, queries[..q], fetched[..q], commits[..q], now),
                   fetched[q], CategoryFor(ids, queries[q]), commits[q], storeId, now)
  {
    assert queries[..q + 1][..q] == queries[..q];
    assert fetched[..q + 1][..q] == fetched[..q];
    assert commits[..q + 1][..q] == commits[..q];
  }

  /**
   * `import_from_mercadolibre`: nothing when the connection check fails;
   * otherwise the store and the categories are got or created, and each
   * query's search result is saved as one batch. `fetched[k]` is what the
   * search for `queries[k]` returned and `commits[k]` whether its commit
   * succeeds. The totals are those of the committed batches. A category
   * commit that raises on a duplicate slug is not caught: `raised` is set,
   * no query runs and no product row changes.
   */
  method ImportFromMercadoLibre(db: Session, connected: bool, queries: seq<string>,
                                fetched: seq<seq<Product>>, commits: seq<bool>, now: int)
    returns (totalImported: nat, totalUpdated: nat, raised: bool)
    requires |fetched| == |queries| && |commits| == |queries|
    requires db.Clean()
    modifies db
    ensures raised <==> connected && !CategorySetup(old(db.categories), CategoryNames, CreateSlug).ok
    ensures !connected ==>
      db.stores == old(db.stores) && db.categories == old(db.categories)
      && db.products == old(db.products) && db.pending == old(db.pending)
      && totalImported == 0 && totalUpdated == 0
    ensures connected ==>
      db.stores == WithStore(old(db.stores), StoreName, StoreUrl)
      && db.categories == CategorySetup(old(db.categories), CategoryNames, CreateSlug).table
    ensures raised ==>
      db.products == old(db.products) && db.pending == old(db.pending) && totalImported == 0 && totalUpdated == 0
    ensures connected && !raised ==>
      var r := ImportRun(Totals(old(db.products), 0, 0), StoreId(db.stores, StoreName),
                         CategorySetup(old(db.categories), CategoryNames, CreateSlug).ids,
                         queries, fetched, commits, now);
      db.products == r.rows && db.pending == r.rows
      && totalImported == r.imported && totalUpdated == r.updated
  {
    if !connected {
      return 0, 0, false;
    }
    var storeId := db.GetOrCreateStore(StoreName, StoreUrl);
    var ids, ok := SetupCategories(db, CategoryNames, CreateSlug);
    if !ok {
      return 0, 0, true;
    }
    totalImported, totalUpdated := ImportQueries(db, storeId, ids, queries, fetched, commits, now);
    raised := false;
  }
}
