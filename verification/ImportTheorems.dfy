/** The import as a whole: it keeps the database valid however it ends, succeeds on exactly the
    feeds described here, replaces the shop's catalogue, and is idempotent. */
module ImportTheorems {
  import opened Tables
  import opened Sums
  import opened Orders
  import opened Imports
  import opened ImportStages
  import opened ImportOffers

  lemma ClearKeepsSales(s: Store, shop: Id)
    requires SalesValid(s)
    ensures SalesValid(ClearShop(s, shop))
  {
  }

  lemma ClearKeepsLoad(s: Store, shop: Id)
    requires LoadValid(s)
    ensures LoadValid(ClearShop(s, shop))
  {
  }

  lemma GrownKeepsSales(s: Store, t: Store, shop: Id)
    requires SalesValid(s) && Grown(s, t, shop)
    ensures SalesValid(t)
  {
  }

  /** The shop that a feed of user `u` goes to, once it is open. */
  function TargetShop(s: Store, u: Id, f: Feed): Id {
    match OpenShop(s.cat, u, f.shop)
    case Some(found) => found.1
    case None => 0
  }

  /** The database when the offers start to be loaded, if the import gets that far. */
  function Cleared(s: Store, u: Id, f: Feed): Option<Store> {
    match OpenShop(s.cat, u, f.shop)
    case None => None
    case Some(found) =>
      var (d, ok) := ImportCategories(found.0, found.1, f.categories);
      if ok then Some(ClearShop(s.(cat := d), found.1)) else None
  }

  lemma ImportUnfolds(s: Store, u: Id, f: Feed)
    ensures var (t, r) := Import(s, u, f);
            match Cleared(s, u, f)
            case Some(c) =>
              var g := ImportGoods(c, TargetShop(s, u, f), f.goods);
              t == g.store && r == if g.ok then Imported(|f.categories|, |f.goods|) else Aborted
            case None => r == Aborted && t == s.(cat := t.cat)
  {
  }

  /** What the stages before the goods have done. */
  lemma HeadStage(s: Store, u: Id, f: Feed)
    requires Valid(s)
    ensures var t := Import(s, u, f).0;
            match Cleared(s, u, f)
            case Some(c) =>
              && Valid(c) && Extends(s.cat, c.cat) && c == ClearShop(s.(cat := c.cat), TargetShop(s, u, f))
              && TargetShop(s, u, f) in c.cat.shops && c.cat.shops[TargetShop(s, u, f)] == Shop(f.shop, u)
            case None => Valid(t) && Extends(s.cat, t.cat)
  {
    HeadCatalogue(s.cat, u, f);
    if OpenShop(s.cat, u, f.shop).Some? {
      var (c, shop) := OpenShop(s.cat, u, f.shop).value;
      var d := ImportCategories(c, shop, f.categories).0;
      WiderKeepsValid(s, d);
      ClearKeepsLoad(s.(cat := d), shop);
      ClearKeepsSales(s.(cat := d), shop);
    }
  }

  /** The catalogue after shop and categories. */
  lemma HeadCatalogue(c: Catalogue, u: Id, f: Feed)
    requires CatalogueValid(c)
    ensures OpenShop(c, u, f.shop).Some? ==>
              var (e, shop) := OpenShop(c, u, f.shop).value;
              var d := ImportCategories(e, shop, f.categories).0;
              CatalogueValid(d) && Extends(c, d) && shop in d.shops && d.shops[shop] == Shop(f.shop, u)
  {
    OpenShopKeeps(c, u, f.shop);
    if OpenShop(c, u, f.shop).Some? {
      var (e, shop) := OpenShop(c, u, f.shop).value;
      CategoriesKeep(e, shop, f.categories);
      ExtendsTransitive(c, e, ImportCategories(e, shop, f.categories).0);
    }
  }

  lemma WiderKeepsValid(s: Store, d: Catalogue)
    requires Valid(s) && CatalogueValid(d) && Extends(s.cat, d)
    ensures Valid(s.(cat := d))
  {
  }

  /** However the import ends, the database is valid: every item points to an existing order and
      offer, and all natural keys are unique. */
  lemma ImportKeepsValid(s: Store, u: Id, f: Feed)
    requires Valid(s)
    ensures Valid(Import(s, u, f).0) && Extends(s.cat, Import(s, u, f).0.cat)
  {
    HeadStage(s, u, f);
    ImportUnfolds(s, u, f);
    if Cleared(s, u, f).Some? {
      var c := Cleared(s, u, f).value;
      GoodsKeep(c, TargetShop(s, u, f), f.goods);
      GrownKeepsSales(c, Import(s, u, f).0, TargetShop(s, u, f));
      ExtendsTransitive(s.cat, c.cat, Import(s, u, f).0.cat);
    }
  }

  // ---------- when it succeeds ----------

  /** The user has no shop under another name, category ids and names are consistent, every good
      has a known category, parameters are mappings, and no two goods share name, category and id. */
  ghost predicate Importable(s: Store, u: Id, f: Feed) {
    HeadImportable(s, u, f) && GoodsImportable(s, f, f.goods)
  }

  ghost predicate HeadImportable(s: Store, u: Id, f: Feed) {
    && (forall a | a in s.cat.shops && s.cat.shops[a].owner == u :: s.cat.shops[a].name == f.shop)
    && Consistent(s.cat, f.categories)
  }

  ghost predicate GoodImportable(s: Store, f: Feed, g: Good) {
    (g.category in s.cat.categories || ListsCategory(f.categories, g.category)) && Mapping(g.parameters)
  }

  ghost predicate GoodsImportable(s: Store, f: Feed, gs: seq<Good>) {
    (forall k | 0 <= k < |gs| :: GoodImportable(s, f, gs[k])) && DistinctKeys(gs)
  }

  /** The stages before the goods succeed exactly when shop and categories are acceptable; the
      categories are then the old and the listed ones, the latter linked to the shop. */
  lemma HeadSucceedsIff(s: Store, u: Id, f: Feed)
    requires Valid(s)
    ensures Cleared(s, u, f).Some? <==> HeadImportable(s, u, f)
    ensures Cleared(s, u, f).Some? ==>
              var d := Cleared(s, u, f).value.cat;
              && (forall id: Id :: id in d.categories <==> id in s.cat.categories || ListsCategory(f.categories, id))
              && (forall k | 0 <= k < |f.categories| :: d.categories[f.categories[k].id] == f.categories[k].name)
              && (forall l :: l in d.links <==>
                    l in s.cat.links || (l.1 == TargetShop(s, u, f) && ListsCategory(f.categories, l.0)))
  {
    OpenShopKeeps(s.cat, u, f.shop);
    if OpenShop(s.cat, u, f.shop).Some? {
      var (c, shop) := OpenShop(s.cat, u, f.shop).value;
      CategoriesStage(c, shop, f.categories);
    }
  }

  lemma ClearedHasNoClash(s: Store, shop: Id, g: Good)
    ensures !Clash(ClearShop(s, shop), shop, g)
  {
  }

  lemma ImportSucceedsIff(s: Store, u: Id, f: Feed)
    requires Valid(s)
    ensures Import(s, u, f).1.Imported? <==> Importable(s, u, f)
  {
    HeadStage(s, u, f);
    HeadSucceedsIff(s, u, f);
    ImportUnfolds(s, u, f);
    if Cleared(s, u, f).Some? {
      var c, shop := Cleared(s, u, f).value, TargetShop(s, u, f);
      GoodsStage(c, shop, f.goods);
      LoadableIsImportable(s, c, shop, f, f.goods);
    }
  }

  /** Once the shop is cleared, what can be loaded is a matter of the feed. */
  lemma LoadableIsImportable(s: Store, c: Store, shop: Id, f: Feed, gs: seq<Good>)
    requires c == ClearShop(s.(cat := c.cat), shop)
    requires forall id: Id :: id in c.cat.categories <==> id in s.cat.categories || ListsCategory(f.categories, id)
    ensures AllLoadable(c, shop, gs) <==> GoodsImportable(s, f, gs)
  {
    forall k | 0 <= k < |gs| ensures Loadable(c, shop, gs[k]) <==> GoodImportable(s, f, gs[k]) {
      ClearedHasNoClash(s.(cat := c.cat), shop, gs[k]);
    }
  }

  // ---------- what it does ----------

  /** The items that point at offers of other shops. */
  function ItemsElsewhere(s: Store, shop: Id): map<Id, Item> {
    map i | i in s.items && s.items[i].info in s.infos && s.infos[s.items[i].info].shop != shop :: s.items[i]
  }

  /** Offers of other shops, their parameters, and the order items that point at them are what
      they were; every other item that was there is gone, and no item is new. */
  ghost predicate LeavesOthers(s: Store, t: Store, shop: Id) {
    && (forall p | p in s.infos && s.infos[p].shop != shop :: p in t.infos && t.infos[p] == s.infos[p])
    && (forall p | p in t.infos && p < s.nextInfo :: p in s.infos && s.infos[p].shop != shop)
    && (forall v | v in s.values && v.0 in s.infos && s.infos[v.0].shop != shop ::
          v in t.values && t.values[v] == s.values[v])
    && t.items == ItemsElsewhere(s, shop)
    && t.orders == s.orders && t.contacts == s.contacts && s.nextInfo <= t.nextInfo
    && t.nextItem == s.nextItem && t.nextOrder == s.nextOrder && t.nextContact == s.nextContact
  }

  lemma ClearAndGrowLeaveOthers(s: Store, c: Store, t: Store, shop: Id)
    requires Valid(s) && c == ClearShop(s.(cat := c.cat), shop) && Grown(c, t, shop)
    ensures LeavesOthers(s, t, shop)
  {
    assert c.items == ItemsElsewhere(s, shop);
    forall p | p in t.infos && p < s.nextInfo ensures p in s.infos && s.infos[p].shop != shop {
      assert p in c.infos;
    }
  }

  /** Whenever the old offers were cleared, whether or not the new ones could all be loaded,
      nothing of other shops is touched; otherwise no offer or item is touched at all. */
  lemma ImportLeavesOthers(s: Store, u: Id, f: Feed)
    requires Valid(s)
    ensures var t := Import(s, u, f).0;
            if Cleared(s, u, f).Some? then LeavesOthers(s, t, TargetShop(s, u, f)) else t == s.(cat := t.cat)
  {
    HeadStage(s, u, f);
    ImportUnfolds(s, u, f);
    if Cleared(s, u, f).Some? {
      var c := Cleared(s, u, f).value;
      GoodsKeep(c, TargetShop(s, u, f), f.goods);
      ClearAndGrowLeaveOthers(s, c, ImportGoods(c, TargetShop(s, u, f), f.goods).store, TargetShop(s, u, f));
    }
  }

  /** The shop's offers in `t` are the goods, one to one: the k-th id from `first` on describes
      the k-th good, and the shop has no other offer. */
  ghost predicate Catalogued(t: Store, shop: Id, first: Id, goods: seq<Good>) {
    && t.nextInfo == first + |goods|
    && (forall k | 0 <= k < |goods| :: Describes(t, first + k, shop, goods[k]))
    && (forall p: Id :: p in t.infos && t.infos[p].shop == shop <==> first <= p < t.nextInfo)
  }

  lemma LinedIsCatalogued(s: Store, c: Store, t: Store, shop: Id, goods: seq<Good>)
    requires LeavesOthers(s, t, shop) && Lined(c, t, shop, goods) && c.nextInfo == s.nextInfo
    requires forall p | p in c.infos :: p < c.nextInfo
    ensures Catalogued(t, shop, s.nextInfo, goods)
  {
    forall p: Id ensures p in t.infos && t.infos[p].shop == shop <==> s.nextInfo <= p < t.nextInfo {
      if s.nextInfo <= p < t.nextInfo {
        assert Describes(t, c.nextInfo + (p - s.nextInfo), shop, goods[p - s.nextInfo]);
      }
    }
  }

  /** A successful import replaces the shop's catalogue by the feed and nothing else, and reports
      the lengths of its two lists. */
  lemma ImportReplacesCatalogue(s: Store, u: Id, f: Feed)
    requires Valid(s) && Import(s, u, f).1.Imported?
    ensures var (t, r) := Import(s, u, f);
            var shop := TargetShop(s, u, f);
            && r == Imported(|f.categories|, |f.goods|)
            && shop in t.cat.shops && t.cat.shops[shop] == Shop(f.shop, u)
            && Catalogued(t, shop, s.nextInfo, f.goods)
            && LeavesOthers(s, t, shop)
  {
    HeadStage(s, u, f);
    ImportUnfolds(s, u, f);
    ImportLeavesOthers(s, u, f);
    var c, shop := Cleared(s, u, f).value, TargetShop(s, u, f);
    GoodsStage(c, shop, f.goods);
    GoodsKeep(c, shop, f.goods);
    LinedIsCatalogued(s, c, ImportGoods(c, shop, f.goods).store, shop, f.goods);
  }

  /** An import that gets to the goods and is refused there leaves the shop with exactly the goods
      before the refused one: they are importable, and together with the next one they are not. */
  lemma AbortedImportLeavesPrefix(s: Store, u: Id, f: Feed)
    requires Valid(s) && HeadImportable(s, u, f) && !GoodsImportable(s, f, f.goods)
    requires forall g | g in f.goods :: Mapping(g.parameters)
    ensures Import(s, u, f).1.Aborted?
    ensures exists k :: 0 <= k < |f.goods|
              && GoodsImportable(s, f, f.goods[..k]) && !GoodsImportable(s, f, f.goods[..k + 1])
              && Catalogued(Import(s, u, f).0, TargetShop(s, u, f), s.nextInfo, f.goods[..k])
  {
    ImportSucceedsIff(s, u, f);
    HeadStage(s, u, f);
    HeadSucceedsIff(s, u, f);
    ImportUnfolds(s, u, f);
    ImportLeavesOthers(s, u, f);
    var k := RefusedGood(s, Cleared(s, u, f).value, TargetShop(s, u, f), f);
    LinedIsCatalogued(s, Cleared(s, u, f).value, Import(s, u, f).0, TargetShop(s, u, f), f.goods[..k]);
  }

  lemma RefusedGood(s: Store, c: Store, shop: Id, f: Feed) returns (k: nat)
    requires LoadValid(c) && shop in c.cat.shops && c == ClearShop(s.(cat := c.cat), shop)
    requires forall id: Id :: id in c.cat.categories <==> id in s.cat.categories || ListsCategory(f.categories, id)
    requires !ImportGoods(c, shop, f.goods).ok && forall g | g in f.goods :: Mapping(g.parameters)
    ensures k < |f.goods| && GoodsImportable(s, f, f.goods[..k]) && !GoodsImportable(s, f, f.goods[..k + 1])
    ensures ImportGoods(c, shop, f.goods[..k]) == Load(ImportGoods(c, shop, f.goods).store, true)
    ensures Lined(c, ImportGoods(c, shop, f.goods).store, shop, f.goods[..k])
  {
    k := GoodsPrefix(c, shop, f.goods);
    GoodsStage(c, shop, f.goods[..k]);
    LoadableIsImportable(s, c, shop, f, f.goods[..k]);
    LoadableIsImportable(s, c, shop, f, f.goods[..k + 1]);
  }

  /** Offer `p` belongs to the shop of user `u`. */
  predicate Sells(s: Store, u: Id, p: Id) {
    p in s.infos && s.infos[p].shop in s.cat.shops && s.cat.shops[s.infos[p].shop].owner == u
  }

  /** The feed of a user goes to the one shop that user owns. */
  lemma TargetIsOwned(s: Store, u: Id, f: Feed)
    requires CatalogueValid(s.cat) && OpenShop(s.cat, u, f.shop).Some?
    ensures forall a | a in s.cat.shops :: s.cat.shops[a].owner == u <==> a == TargetShop(s, u, f)
  {
    OpenShopKeeps(s.cat, u, f.shop);
  }

  /** An import keeps every old offer exactly when shop or categories are refused, before anything
      is dropped, or the user had no offer; whether it succeeds makes no difference. Otherwise it
      drops exactly the user's own offers and the items on them. */
  lemma ImportKeepsOffersIff(s: Store, u: Id, f: Feed)
    requires Valid(s)
    ensures var t := Import(s, u, f).0;
            && ((forall p | p in s.infos :: p in t.infos) <==>
                  !HeadImportable(s, u, f) || forall p | p in s.infos :: !Sells(s, u, p))
            && (!HeadImportable(s, u, f) ==> t == s.(cat := t.cat))
            && (HeadImportable(s, u, f) ==>
                  && (forall p | p in s.infos :: p in t.infos <==> !Sells(s, u, p))
                  && (forall i | i in s.items :: i in t.items <==> !Sells(s, u, s.items[i].info)))
  {
    HeadSucceedsIff(s, u, f);
    ImportLeavesOthers(s, u, f);
    if HeadImportable(s, u, f) {
      TargetIsOwned(s, u, f);
      DroppedAreOwned(s, Import(s, u, f).0, u, TargetShop(s, u, f));
    }
  }

  lemma DroppedAreOwned(s: Store, t: Store, u: Id, shop: Id)
    requires Valid(s) && LeavesOthers(s, t, shop)
    requires forall a | a in s.cat.shops :: s.cat.shops[a].owner == u <==> a == shop
    ensures forall p | p in s.infos :: p in t.infos <==> !Sells(s, u, p)
    ensures forall i | i in s.items :: i in t.items <==> !Sells(s, u, s.items[i].info)
  {
    assert forall i :: i in t.items <==> i in ItemsElsewhere(s, shop);
  }

  ghost predicate CategoriesPresent(c: Catalogue, shop: Id, rows: seq<CategoryRow>) {
    forall k | 0 <= k < |rows| ::
      rows[k].id in c.categories && c.categories[rows[k].id] == rows[k].name && (rows[k].id, shop) in c.links
  }

  /** After a successful import the listed categories exist under their names and are linked. */
  lemma ImportedCategories(s: Store, u: Id, f: Feed)
    requires Valid(s) && Import(s, u, f).1.Imported?
    ensures CategoriesPresent(Import(s, u, f).0.cat, TargetShop(s, u, f), f.categories)
  {
    HeadStage(s, u, f);
    HeadSucceedsIff(s, u, f);
    ImportUnfolds(s, u, f);
    var c := Cleared(s, u, f).value;
    assert CategoriesPresent(c.cat, TargetShop(s, u, f), f.categories) by {
      forall k | 0 <= k < |f.categories| ensures ListsCategory(f.categories, f.categories[k].id) {
      }
    }
    GoodsKeep(c, TargetShop(s, u, f), f.goods);
  }

  // ---------- importing the same feed again ----------

  ghost predicate ProductPresent(c: Catalogue, g: Good) {
    exists a :: IsProduct(c, a, g)
  }

  ghost predicate Present(c: Catalogue, g: Good) {
    g.category in c.categories && ProductPresent(c, g) && ParametersPresent(c, g.parameters)
  }

  lemma GoodIdle(s: Store, shop: Id, g: Good)
    requires LoadValid(s) && shop in s.cat.shops && Present(s.cat, g)
    ensures ImportGood(s, shop, g).store.cat == s.cat
  {
    OpenProductKeeps(s.cat, Product(g.name, g.category));
    var a :| IsProduct(s.cat, a, g);
    assert a in s.cat.products && s.cat.products[a] == Product(g.name, g.category);
    OfferKeeps(s, shop, g);
    var h := OpenOffer(s, shop, g);
    assert h.store.cat == s.cat;
    if h.ok {
      OfferOpens(s, shop, g);
      ValuesIdle(h.store, s.nextInfo, g.parameters);
    }
  }

  lemma {:induction false} GoodsIdle(s: Store, shop: Id, gs: seq<Good>)
    requires LoadValid(s) && shop in s.cat.shops && forall k | 0 <= k < |gs| :: Present(s.cat, gs[k])
    ensures ImportGoods(s, shop, gs).store.cat == s.cat
    decreases gs
  {
    if gs == [] {
    } else {
      GoodIdle(s, shop, gs[0]);
      GoodKeeps(s, shop, gs[0]);
      var h := ImportGood(s, shop, gs[0]);
      assert forall k | 0 <= k < |gs| - 1 :: gs[1..][k] == gs[k + 1];
      if h.ok {
        GoodsIdle(h.store, shop, gs[1..]);
      }
    }
  }

  lemma DescribedIsPresent(s: Store, p: Id, shop: Id, g: Good)
    requires LoadValid(s) && Describes(s, p, shop, g)
    ensures Present(s.cat, g)
  {
    assert IsProduct(s.cat, s.infos[p].product, g);
    forall k | 0 <= k < |g.parameters| ensures Named(s.cat, g.parameters[k].0) {
      assert g.parameters[k] in g.parameters;
      assert HasValue(s, p, g.parameters[k].0, g.parameters[k].1);
    }
  }

  /** A store in which the feed has just been loaded. */
  ghost predicate Loaded(t: Store, u: Id, f: Feed, shop: Id, first: Id) {
    && Valid(t) && shop in t.cat.shops && t.cat.shops[shop] == Shop(f.shop, u)
    && CategoriesPresent(t.cat, shop, f.categories) && Catalogued(t, shop, first, f.goods)
  }

  lemma ImportLoads(s: Store, u: Id, f: Feed)
    requires Valid(s) && Import(s, u, f).1.Imported?
    ensures Loaded(Import(s, u, f).0, u, f, TargetShop(s, u, f), s.nextInfo)
  {
    ImportKeepsValid(s, u, f);
    ImportReplacesCatalogue(s, u, f);
    ImportedCategories(s, u, f);
  }

  lemma LoadedGoodsPresent(t: Store, u: Id, f: Feed, shop: Id, first: Id)
    requires Loaded(t, u, f, shop, first)
    ensures forall k | 0 <= k < |f.goods| :: Present(t.cat, f.goods[k])
  {
    forall k | 0 <= k < |f.goods| ensures Present(t.cat, f.goods[k]) {
      DescribedIsPresent(t, first + k, shop, f.goods[k]);
    }
  }

  lemma LoadedHeadIdle(t: Store, u: Id, f: Feed, shop: Id, first: Id)
    requires Loaded(t, u, f, shop, first)
    ensures TargetShop(t, u, f) == shop && Cleared(t, u, f) == Some(ClearShop(t, shop))
  {
    assert OpenShop(t.cat, u, f.shop) == Some((t.cat, shop));
    CategoriesIdle(t.cat, shop, f.categories);
    assert t.(cat := t.cat) == t;
  }

  lemma LoadedIsIdle(t: Store, u: Id, f: Feed, shop: Id, first: Id)
    requires Loaded(t, u, f, shop, first)
    ensures TargetShop(t, u, f) == shop && Import(t, u, f).0.cat == t.cat
  {
    LoadedHeadIdle(t, u, f, shop, first);
    LoadedGoodsPresent(t, u, f, shop, first);
    ClearKeepsLoad(t, shop);
    GoodsIdle(ClearShop(t, shop), shop, f.goods);
    ImportUnfolds(t, u, f);
  }

  lemma LoadedIsImportable(s: Store, t: Store, u: Id, f: Feed, shop: Id, first: Id)
    requires Loaded(t, u, f, shop, first) && Importable(s, u, f)
    ensures Importable(t, u, f)
  {
    LoadedGoodsPresent(t, u, f, shop, first);
    assert HeadImportable(t, u, f);
    forall k | 0 <= k < |f.goods| ensures GoodImportable(t, f, f.goods[k]) {
      assert GoodImportable(s, f, f.goods[k]) && Present(t.cat, f.goods[k]);
    }
  }

  /** The parameter rows of an offer: parameter id to value. */
  ghost function ValuesOf(s: Store, p: Id): map<Id, string> {
    map v | v in s.values && v.0 == p :: v.1 := s.values[v]
  }

  /** Parameter rows name existing parameters, products and parameters are unique. */
  ghost predicate KeysSound(s: Store) {
    (forall v | v in s.values :: v.1 in s.cat.parameters) && UniqueProducts(s.cat) && UniqueParameters(s.cat)
  }

  lemma SameValue(s: Store, t: Store, p: Id, r: Id, q: Id, shop: Id, g: Good)
    requires KeysSound(s) && KeysSound(t) && s.cat == t.cat
    requires Describes(s, p, shop, g) && Describes(t, r, shop, g) && (p, q) in s.values
    ensures (r, q) in t.values && s.values[(p, q)] == t.values[(r, q)]
  {
    var name, value := s.cat.parameters[q], s.values[(p, q)];
    assert HasValue(s, p, name, value);
    assert HasValue(t, r, name, value);
  }

  /** Two offers that describe the same good over the same catalogue have the same row and the
      same parameter rows. */
  lemma DescriptionsAgree(s: Store, t: Store, p: Id, r: Id, shop: Id, g: Good)
    requires KeysSound(s) && KeysSound(t) && s.cat == t.cat
    requires Describes(s, p, shop, g) && Describes(t, r, shop, g)
    ensures s.infos[p] == t.infos[r] && ValuesOf(s, p) == ValuesOf(t, r)
  {
    forall q: Id | q in ValuesOf(s, p) ensures q in ValuesOf(t, r) && ValuesOf(s, p)[q] == ValuesOf(t, r)[q] {
      SameValue(s, t, p, r, q, shop, g);
      assert (r, q) in t.values;
    }
    forall q: Id | q in ValuesOf(t, r) ensures q in ValuesOf(s, p) {
      SameValue(t, s, r, p, q, shop, g);
      assert (p, q) in s.values;
    }
  }

  /** `w` offers the same as `t`: the same rows with the same parameter values, from `second` on
      instead of from `first` on. */
  ghost predicate SameOffers(t: Store, first: Id, w: Store, second: Id, n: nat) {
    forall p: Id | first <= p < first + n :: p in t.infos && p - first + second in w.infos
      && w.infos[p - first + second] == t.infos[p] && ValuesOf(w, p - first + second) == ValuesOf(t, p)
  }

  lemma CataloguesAgree(t: Store, first: Id, w: Store, second: Id, shop: Id, goods: seq<Good>)
    requires KeysSound(t) && KeysSound(w) && t.cat == w.cat
    requires Catalogued(t, shop, first, goods) && Catalogued(w, shop, second, goods)
    ensures SameOffers(t, first, w, second, |goods|)
  {
    forall p: Id | first <= p < first + |goods|
      ensures p in t.infos && p - first + second in w.infos
      ensures w.infos[p - first + second] == t.infos[p] && ValuesOf(w, p - first + second) == ValuesOf(t, p)
    {
      var k := p - first;
      assert Describes(t, first + k, shop, goods[k]) && Describes(w, second + k, shop, goods[k]);
      DescriptionsAgree(t, w, first + k, second + k, shop, goods[k]);
    }
  }

  /** Importing a feed again after a success also succeeds, leaves the shop, category, link,
      product and parameter tables as they are, and yields the same offers and parameter values
      under fresh offer ids. */
  lemma ImportIsIdempotent(s: Store, u: Id, f: Feed)
    requires Valid(s) && Import(s, u, f).1.Imported?
    ensures var t := Import(s, u, f).0;
            var (w, r) := Import(t, u, f);
            && r == Imported(|f.categories|, |f.goods|)
            && w.cat == t.cat
            && SameOffers(t, s.nextInfo, w, t.nextInfo, |f.goods|)
            && LeavesOthers(t, w, TargetShop(s, u, f))
  {
    var t, shop := Import(s, u, f).0, TargetShop(s, u, f);
    ImportLoads(s, u, f);
    ImportSucceedsIff(s, u, f);
    LoadedIsImportable(s, t, u, f, shop, s.nextInfo);
    LoadedIsIdle(t, u, f, shop, s.nextInfo);
    ImportSucceedsIff(t, u, f);
    ImportReplacesCatalogue(t, u, f);
    ImportKeepsValid(t, u, f);
    CataloguesAgree(t, s.nextInfo, Import(t, u, f).0, t.nextInfo, shop, f.goods);
  }

  lemma LeavesOthersKeepsLedger(s: Store, t: Store, shop: Id, p: Id)
    requires Numbered(s) && LeavesOthers(s, t, shop) && p in s.infos && p in t.infos && p < s.nextInfo
    ensures Ledger(t, p) == Ledger(s, p)
  {
    assert s.infos[p].shop != shop;
    forall i: Id ensures Weight(s, Committed(p), i) == Weight(t, Committed(p), i) {
      assert i in s.items && s.items[i].info == p ==> i in ItemsElsewhere(s, shop);
    }
    TotalSame(s, Committed(p), t, Committed(p));
  }

  lemma CatalogueKeepsLedger(s: Store, t: Store, p: Id)
    requires Numbered(s) && t == s.(cat := t.cat)
    ensures Ledger(t, p) == Ledger(s, p)
  {
    TotalSame(s, Committed(p), t, Committed(p));
  }

  /** An offer that survives an import keeps its ledger. */
  lemma ImportKeepsLedger(s: Store, u: Id, f: Feed, p: Id)
    requires Valid(s) && p in s.infos && p in Import(s, u, f).0.infos
    ensures Ledger(Import(s, u, f).0, p) == Ledger(s, p)
  {
    var t := Import(s, u, f).0;
    ImportLeavesOthers(s, u, f);
    if Cleared(s, u, f).Some? {
      LeavesOthersKeepsLedger(s, t, TargetShop(s, u, f), p);
    } else {
      CatalogueKeepsLedger(s, t, p);
    }
  }
}
