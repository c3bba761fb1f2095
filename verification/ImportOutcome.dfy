/** What an import leaves in the database however it ends: every row of the catalogue tables, after
    a success and after a refusal at the shop, at a category or at a good. */
module ImportOutcome {
  import opened Tables
  import opened Imports
  import opened ImportStages
  import opened ImportOffers
  import opened ImportTheorems

  // ---------- shop and categories ----------

  /** From `c` to `d` the shop of user `u` is found or added, and exactly the listed categories are
      added and linked to it. */
  ghost predicate HeadRows(c: Catalogue, d: Catalogue, u: Id, name: string, shop: Id, rows: seq<CategoryRow>) {
    && (forall a | a in c.shops :: a in d.shops && d.shops[a] == c.shops[a])
    && (forall a | a in d.shops :: a in c.shops || a == shop)
    && shop in d.shops && d.shops[shop] == Shop(name, u)
    && (forall id: Id :: id in d.categories <==> id in c.categories || ListsCategory(rows, id))
    && (forall id | id in c.categories :: id in d.categories && d.categories[id] == c.categories[id])
    && (forall k | 0 <= k < |rows| :: rows[k].id in d.categories && d.categories[rows[k].id] == rows[k].name)
    && (forall l :: l in d.links <==> l in c.links || (l.1 == shop && ListsCategory(rows, l.0)))
  }

  /** The list up to the `k`-th category is consistent, and with the next one it is not. */
  ghost predicate InconsistentAt(c: Catalogue, rows: seq<CategoryRow>, k: nat)
    requires k < |rows|
  {
    Consistent(c, rows[..k]) && !Consistent(c, rows[..k + 1])
  }

  lemma InconsistentAtStep(c: Catalogue, d: Catalogue, rows: seq<CategoryRow>, k: nat)
    requires rows != [] && (rows[0].id in c.categories ==> c.categories[rows[0].id] == rows[0].name)
    requires d.categories == c.categories[rows[0].id := rows[0].name]
    requires k < |rows[1..]| && InconsistentAt(d, rows[1..], k)
    ensures InconsistentAt(c, rows, k + 1)
  {
    assert rows[..k + 1][1..] == rows[1..][..k] && rows[..k + 2][1..] == rows[1..][..k + 1];
    ConsistentStep(c, d, rows[..k + 1]);
    ConsistentStep(c, d, rows[..k + 2]);
  }

  /** When the category stage stops early, exactly the rows before the refused one were written. */
  lemma {:induction false} CategoriesPrefix(c: Catalogue, shop: Id, rows: seq<CategoryRow>) returns (k: nat)
    requires !ImportCategories(c, shop, rows).1
    ensures k < |rows| && InconsistentAt(c, rows, k)
    ensures ImportCategories(c, shop, rows[..k]) == (ImportCategories(c, shop, rows).0, true)
    decreases rows
  {
    if OpenCategory(c, rows[0]).Some? {
      var e := OpenCategory(c, rows[0]).value;
      var d := e.(links := e.links + {(rows[0].id, shop)});
      k := CategoriesPrefix(d, shop, rows[1..]);
      InconsistentAtStep(c, d, rows, k);
      assert rows[..k + 1][0] == rows[0] && rows[..k + 1][1..] == rows[1..][..k];
      k := k + 1;
    } else {
      assert rows[..1][0] == rows[0];
      k := 0;
    }
  }

  /** The user has no shop under another name. */
  ghost predicate OneName(s: Store, u: Id, f: Feed) {
    forall a | a in s.cat.shops && s.cat.shops[a].owner == u :: s.cat.shops[a].name == f.shop
  }

  lemma CategoriesExtend(c: Catalogue, e: Catalogue, shop: Id, u: Id, name: string, rows: seq<CategoryRow>)
    requires CatalogueValid(c) && OpenShop(c, u, name) == Some((e, shop))
    ensures var d := ImportCategories(e, shop, rows).0;
            && Extends(c, d) && d.shops == e.shops
            && d == c.(shops := d.shops, nextShop := d.nextShop, categories := d.categories, links := d.links)
  {
    OpenShopKeeps(c, u, name);
    CategoriesKeep(e, shop, rows);
    ExtendsTransitive(c, e, ImportCategories(e, shop, rows).0);
  }

  lemma OpenShopRows(c: Catalogue, e: Catalogue, shop: Id, u: Id, name: string)
    requires CatalogueValid(c) && OpenShop(c, u, name) == Some((e, shop))
    ensures forall a | a in c.shops :: a in e.shops && e.shops[a] == c.shops[a]
    ensures forall a | a in e.shops :: a in c.shops || a == shop
    ensures shop in e.shops && e.shops[shop] == Shop(name, u) && e == c.(shops := e.shops, nextShop := e.nextShop)
  {
  }

  lemma CategoriesWrite(c: Catalogue, e: Catalogue, shop: Id, u: Id, name: string, rows: seq<CategoryRow>)
    requires CatalogueValid(c) && OpenShop(c, u, name) == Some((e, shop)) && ImportCategories(e, shop, rows).1
    ensures HeadRows(c, ImportCategories(e, shop, rows).0, u, name, shop, rows)
  {
    OpenShopRows(c, e, shop, u, name);
    CategoriesStage(e, shop, rows);
    CategoriesExtend(c, e, shop, u, name, rows);
  }

  /** An import refused at a category has written the shop, the categories before the refused one
      and their links, and nothing else. */
  lemma RefusedCategoryLeavesPrefix(s: Store, u: Id, f: Feed)
    requires Valid(s) && OneName(s, u, f) && !Consistent(s.cat, f.categories)
    ensures var (t, r) := Import(s, u, f);
            && r.Aborted?
            && t == s.(cat := s.cat.(shops := t.cat.shops, nextShop := t.cat.nextShop,
                                     categories := t.cat.categories, links := t.cat.links))
            && exists k :: 0 <= k < |f.categories| && InconsistentAt(s.cat, f.categories, k)
                 && HeadRows(s.cat, t.cat, u, f.shop, TargetShop(s, u, f), f.categories[..k])
  {
    OpenShopKeeps(s.cat, u, f.shop);
    var (c, shop) := OpenShop(s.cat, u, f.shop).value;
    CategoriesStage(c, shop, f.categories);
    var k := CategoriesPrefix(c, shop, f.categories);
    CategoriesWrite(s.cat, c, shop, u, f.shop, f.categories[..k]);
    CategoriesExtend(s.cat, c, shop, u, f.shop, f.categories);
    assert InconsistentAt(s.cat, f.categories, k);
  }

  // ---------- products and parameters ----------

  ghost predicate HasProduct(c: Catalogue, row: Product) {
    exists a :: a in c.products && c.products[a] == row
  }

  ghost predicate ListsProduct(gs: seq<Good>, row: Product) {
    exists g :: g in gs && row == Product(g.name, g.category)
  }

  ghost predicate HasKey(ps: seq<(string, string)>, name: string) {
    exists k :: 0 <= k < |ps| && ps[k].0 == name
  }

  ghost predicate ListsParameter(gs: seq<Good>, name: string) {
    exists g :: g in gs && HasKey(g.parameters, name)
  }

  /** From `c` to `d` exactly the products and the parameters of the goods are added. */
  ghost predicate GoodsRows(c: Catalogue, d: Catalogue, gs: seq<Good>) {
    && (forall row :: HasProduct(d, row) <==> HasProduct(c, row) || ListsProduct(gs, row))
    && (forall name :: Named(d, name) <==> Named(c, name) || ListsParameter(gs, name))
  }

  lemma OpenProductRows(c: Catalogue, row: Product, x: Product)
    requires CatalogueValid(c) && OpenProduct(c, row).Some?
    ensures HasProduct(OpenProduct(c, row).value.0, x) <==> HasProduct(c, x) || x == row
  {
    OpenProductKeeps(c, row);
    var (d, a) := OpenProduct(c, row).value;
    assert a in d.products && d.products[a] == row;
    if b :| b in c.products && c.products[b] == x {
      assert b in d.products && d.products[b] == x;
    }
  }

  lemma OpenParameterRows(c: Catalogue, name: string, x: string)
    requires CatalogueValid(c)
    ensures Named(OpenParameter(c, name).0, x) <==> Named(c, x) || x == name
  {
    OpenParameterKeeps(c, name);
    var (d, a) := OpenParameter(c, name);
    assert a in d.parameters && d.parameters[a] == name;
    if b :| b in c.parameters && c.parameters[b] == x {
      assert b in d.parameters && d.parameters[b] == x;
    }
  }

  lemma HasKeyStep(ps: seq<(string, string)>, name: string)
    requires ps != []
    ensures HasKey(ps, name) <==> ps[0].0 == name || HasKey(ps[1..], name)
  {
    assert forall k | 0 < k < |ps| :: ps[k] == ps[1..][k - 1];
    assert forall k | 0 <= k < |ps| - 1 :: ps[1..][k] == ps[k + 1];
  }

  lemma {:induction false} ValuesRows(s: Store, info: Id, ps: seq<(string, string)>, name: string)
    requires LoadValid(s) && info in s.infos && ImportValues(s, info, ps).ok
    ensures Named(ImportValues(s, info, ps).store.cat, name) <==> Named(s.cat, name) || HasKey(ps, name)
    decreases ps
  {
    if ps == [] {
    } else {
      AddValueStage(s, info, ps[0].0, ps[0].1);
      OpenParameterRows(s.cat, ps[0].0, name);
      ValuesRows(AddValue(s, info, ps[0].0, ps[0].1).store, info, ps[1..], name);
      HasKeyStep(ps, name);
    }
  }

  lemma OfferRows(s: Store, shop: Id, g: Good)
    requires LoadValid(s) && shop in s.cat.shops && OpenOffer(s, shop, g).ok
    ensures var c := OpenOffer(s, shop, g).store.cat;
            && (forall row :: HasProduct(c, row) <==> HasProduct(s.cat, row) || row == Product(g.name, g.category))
            && c.parameters == s.cat.parameters
  {
    OpenProductKeeps(s.cat, Product(g.name, g.category));
    forall row
      ensures HasProduct(OpenOffer(s, shop, g).store.cat, row) <==>
              HasProduct(s.cat, row) || row == Product(g.name, g.category)
    {
      OpenProductRows(s.cat, Product(g.name, g.category), row);
    }
  }

  lemma GoodAdds(s: Store, shop: Id, g: Good)
    requires LoadValid(s) && shop in s.cat.shops && ImportGood(s, shop, g).ok
    ensures var c := ImportGood(s, shop, g).store.cat;
            && (forall row :: HasProduct(c, row) <==> HasProduct(s.cat, row) || row == Product(g.name, g.category))
            && (forall name :: Named(c, name) <==> Named(s.cat, name) || HasKey(g.parameters, name))
  {
    var h := OpenOffer(s, shop, g).store;
    OfferRows(s, shop, g);
    OfferKeeps(s, shop, g);
    OfferOpens(s, shop, g);
    ValuesKeep(h, s.nextInfo, g.parameters);
    forall name
      ensures Named(ImportGood(s, shop, g).store.cat, name) <==> Named(h.cat, name) || HasKey(g.parameters, name)
    {
      ValuesRows(h, s.nextInfo, g.parameters, name);
    }
    assert forall name :: Named(h.cat, name) <==> Named(s.cat, name);
  }

  lemma GoodsRowsStep(c: Catalogue, d: Catalogue, e: Catalogue, gs: seq<Good>)
    requires gs != [] && GoodsRows(d, e, gs[1..])
    requires forall row :: HasProduct(d, row) <==> HasProduct(c, row) || row == Product(gs[0].name, gs[0].category)
    requires forall name :: Named(d, name) <==> Named(c, name) || HasKey(gs[0].parameters, name)
    ensures GoodsRows(c, e, gs)
  {
    assert gs == [gs[0]] + gs[1..];
    forall row
      ensures ListsProduct(gs, row) <==> row == Product(gs[0].name, gs[0].category) || ListsProduct(gs[1..], row)
    {
    }
    forall name ensures ListsParameter(gs, name) <==> HasKey(gs[0].parameters, name) || ListsParameter(gs[1..], name) {
    }
  }

  /** A goods stage that succeeds adds exactly the products and parameters of its goods. */
  lemma {:induction false} GoodsWrite(s: Store, shop: Id, gs: seq<Good>)
    requires LoadValid(s) && shop in s.cat.shops && ImportGoods(s, shop, gs).ok
    ensures GoodsRows(s.cat, ImportGoods(s, shop, gs).store.cat, gs)
    decreases gs
  {
    if gs == [] {
    } else {
      var h := ImportGood(s, shop, gs[0]).store;
      GoodAdds(s, shop, gs[0]);
      GoodKeeps(s, shop, gs[0]);
      GoodsWrite(h, shop, gs[1..]);
      GoodsRowsStep(s.cat, h.cat, ImportGoods(s, shop, gs).store.cat, gs);
    }
  }

  // ---------- the import as a whole ----------

  /** The feed with its first `k` goods only. */
  function Shortened(f: Feed, k: nat): Feed
    requires k <= |f.goods|
  {
    f.(goods := f.goods[..k])
  }

  /** A refusal at a good ends exactly like the import of the goods before it. */
  lemma RefusedGoodIsShorterImport(s: Store, u: Id, f: Feed)
    requires Valid(s) && HeadImportable(s, u, f) && !GoodsImportable(s, f, f.goods)
    requires forall g | g in f.goods :: Mapping(g.parameters)
    ensures Import(s, u, f).1.Aborted?
    ensures exists k :: 0 <= k < |f.goods|
              && GoodsImportable(s, f, f.goods[..k]) && !GoodsImportable(s, f, f.goods[..k + 1])
              && Import(s, u, Shortened(f, k)) == (Import(s, u, f).0, Imported(|f.categories|, k))
  {
    ImportSucceedsIff(s, u, f);
    HeadStage(s, u, f);
    HeadSucceedsIff(s, u, f);
    ImportUnfolds(s, u, f);
    var k := RefusedGood(s, Cleared(s, u, f).value, TargetShop(s, u, f), f);
    ShorterImport(s, u, f, k);
  }

  lemma ShorterImport(s: Store, u: Id, f: Feed, k: nat)
    requires Cleared(s, u, f).Some? && k <= |f.goods|
    requires var (c, shop) := (Cleared(s, u, f).value, TargetShop(s, u, f));
             ImportGoods(c, shop, f.goods[..k]) == Load(ImportGoods(c, shop, f.goods).store, true)
    ensures Import(s, u, Shortened(f, k)) == (Import(s, u, f).0, Imported(|f.categories|, k))
  {
    ImportUnfolds(s, u, f);
    ImportUnfolds(s, u, Shortened(f, k));
  }

  /** The feed is loaded with the goods `gs`: shop, categories, links, products and parameters are
      exactly the old ones and those of the feed, the shop's offers are the goods one to one, and
      nothing of other shops changes. */
  ghost predicate Loads(s: Store, u: Id, f: Feed, gs: seq<Good>, t: Store) {
    var shop := TargetShop(s, u, f);
    && HeadRows(s.cat, t.cat, u, f.shop, shop, f.categories) && GoodsRows(s.cat, t.cat, gs)
    && Extends(s.cat, t.cat)
    && Catalogued(t, shop, s.nextInfo, gs) && LeavesOthers(s, t, shop)
  }

  /** How an import ends: refused for the shop, with nothing written; refused at a category, with
      what comes before it written and no offer touched; refused at a good, with exactly the goods
      before it loaded; or done. */
  ghost predicate Ends(s: Store, u: Id, f: Feed, t: Store, r: Outcome) {
    if !OneName(s, u, f) then r.Aborted? && t == s
    else if !Consistent(s.cat, f.categories) then
      && r.Aborted?
      && t == s.(cat := s.cat.(shops := t.cat.shops, nextShop := t.cat.nextShop,
                               categories := t.cat.categories, links := t.cat.links))
      && exists k :: 0 <= k < |f.categories| && InconsistentAt(s.cat, f.categories, k)
           && HeadRows(s.cat, t.cat, u, f.shop, TargetShop(s, u, f), f.categories[..k])
    else if !GoodsImportable(s, f, f.goods) then
      && r.Aborted?
      && exists k :: 0 <= k < |f.goods|
           && GoodsImportable(s, f, f.goods[..k]) && !GoodsImportable(s, f, f.goods[..k + 1])
           && Loads(s, u, f, f.goods[..k], t)
    else r == Imported(|f.categories|, |f.goods|) && Loads(s, u, f, f.goods, t)
  }

  /** The catalogue rows after the stages before the goods. */
  lemma HeadWrites(s: Store, u: Id, f: Feed)
    requires Valid(s) && Cleared(s, u, f).Some?
    ensures var d := Cleared(s, u, f).value.cat;
            && HeadRows(s.cat, d, u, f.shop, TargetShop(s, u, f), f.categories)
            && d.products == s.cat.products && d.parameters == s.cat.parameters
  {
    var (c, shop) := OpenShop(s.cat, u, f.shop).value;
    CategoriesWrite(s.cat, c, shop, u, f.shop, f.categories);
    CategoriesExtend(s.cat, c, shop, u, f.shop, f.categories);
  }

  lemma GrownHead(c: Catalogue, d: Catalogue, e: Catalogue, u: Id, name: string, shop: Id, rows: seq<CategoryRow>)
    requires HeadRows(c, d, u, name, shop, rows)
    requires e.shops == d.shops && e.categories == d.categories && e.links == d.links
    ensures HeadRows(c, e, u, name, shop, rows)
  {
  }

  lemma GrownGoods(c: Catalogue, d: Catalogue, e: Catalogue, gs: seq<Good>)
    requires d.products == c.products && d.parameters == c.parameters && GoodsRows(d, e, gs)
    ensures GoodsRows(c, e, gs)
  {
    assert forall row :: HasProduct(d, row) <==> HasProduct(c, row);
    assert forall name :: Named(d, name) <==> Named(c, name);
  }

  lemma ImportedLoads(s: Store, u: Id, f: Feed)
    requires Valid(s) && Import(s, u, f).1.Imported?
    ensures Loads(s, u, f, f.goods, Import(s, u, f).0)
  {
    var t, shop := Import(s, u, f).0, TargetShop(s, u, f);
    ImportUnfolds(s, u, f);
    ImportReplacesCatalogue(s, u, f);
    ImportKeepsValid(s, u, f);
    HeadStage(s, u, f);
    HeadWrites(s, u, f);
    var c := Cleared(s, u, f).value;
    GoodsKeep(c, shop, f.goods);
    GoodsWrite(c, shop, f.goods);
    GrownHead(s.cat, c.cat, t.cat, u, f.shop, shop, f.categories);
    GrownGoods(s.cat, c.cat, t.cat, f.goods);
  }

  /** Every import of a feed whose parameters are mappings ends in one of the four ways. */
  lemma ImportIsExact(s: Store, u: Id, f: Feed)
    requires Valid(s) && forall g | g in f.goods :: Mapping(g.parameters)
    ensures Ends(s, u, f, Import(s, u, f).0, Import(s, u, f).1)
  {
    if !OneName(s, u, f) {
      OpenShopKeeps(s.cat, u, f.shop);
    } else if !Consistent(s.cat, f.categories) {
      RefusedCategoryLeavesPrefix(s, u, f);
    } else if !GoodsImportable(s, f, f.goods) {
      RefusedGoodIsShorterImport(s, u, f);
      var k :| 0 <= k < |f.goods|
        && GoodsImportable(s, f, f.goods[..k]) && !GoodsImportable(s, f, f.goods[..k + 1])
        && Import(s, u, Shortened(f, k)) == (Import(s, u, f).0, Imported(|f.categories|, k));
      ImportedLoads(s, u, Shortened(f, k));
    } else {
      ImportSucceedsIff(s, u, f);
      ImportUnfolds(s, u, f);
      ImportedLoads(s, u, f);
    }
  }
}
