/** The goods stage of the import: one offer for each good, in the order of the feed. */
module ImportOffers {
  import opened Tables
  import opened Imports
  import opened ImportStages

  ghost predicate SameKey(g: Good, h: Good) {
    g.name == h.name && g.category == h.category && g.id == h.id
  }

  ghost predicate IsProduct(c: Catalogue, a: Id, g: Good) {
    a in c.products && c.products[a] == Product(g.name, g.category)
  }

  /** The shop already offers this product under this external id. */
  ghost predicate Clash(s: Store, shop: Id, g: Good) {
    exists p :: p in s.infos && s.infos[p].shop == shop && s.infos[p].externalId == g.id
      && IsProduct(s.cat, s.infos[p].product, g)
  }

  /** Offer `p` is the good `g` of the feed: product, shop, external id, model, both prices and
      stock, and as parameters exactly the pairs of the mapping. */
  ghost predicate Describes(s: Store, p: Id, shop: Id, g: Good) {
    && p in s.infos && IsProduct(s.cat, s.infos[p].product, g)
    && s.infos[p] == Info(s.infos[p].product, shop, g.id, g.model, g.price, g.rrc, g.quantity)
    && forall n, v :: HasValue(s, p, n, v) <==> (n, v) in g.parameters
  }

  lemma GrownCompose(s: Store, t: Store, u: Store, shop: Id)
    requires Grown(s, t, shop) && Grown(t, u, shop)
    ensures Grown(s, u, shop)
  {
    ExtendsTransitive(s.cat, t.cat, u.cat);
  }

  lemma DescribesStays(s: Store, t: Store, p: Id, shop: Id, g: Good)
    requires LoadValid(s) && LoadValid(t) && Grown(s, t, shop) && Describes(s, p, shop, g)
    ensures Describes(t, p, shop, g)
  {
    forall n, v ensures HasValue(t, p, n, v) <==> HasValue(s, p, n, v) {
      ValuesStay(s, t, p, n, v);
    }
  }

  // ---------- one good ----------

  lemma AddOfferGrows(s: Store, product: Id, shop: Id, g: Good)
    requires forall p | p in s.infos :: p < s.nextInfo
    ensures Grown(s, AddOffer(s, product, shop, g).store, shop)
  {
  }

  lemma InsertKeepsUniqueInfos(infos: map<Id, Info>, id: Id, row: Info)
    requires UniqueInfos(infos) && id !in infos && !Taken(infos, row.product, row.shop, row.externalId)
    ensures UniqueInfos(infos[id := row])
  {
  }

  lemma AddOfferStage(s: Store, product: Id, shop: Id, g: Good)
    requires LoadValid(s) && product in s.cat.products && shop in s.cat.shops
    ensures var r := AddOffer(s, product, shop, g);
            && (r.ok <==> !Taken(s.infos, product, shop, g.id))
            && LoadValid(r.store) && Grown(s, r.store, shop)
  {
    AddOfferGrows(s, product, shop, g);
    if !Taken(s.infos, product, shop, g.id) {
      InsertKeepsUniqueInfos(s.infos, s.nextInfo, OfferRow(product, shop, g));
    }
  }

  /** With products unique by (name, category), the database's check is the clash check. */
  lemma TakenIsClash(s: Store, product: Id, shop: Id, g: Good)
    requires LoadValid(s) && IsProduct(s.cat, product, g)
    ensures Taken(s.infos, product, shop, g.id) <==> Clash(s, shop, g)
  {
    if Clash(s, shop, g) {
      var p :| p in s.infos && s.infos[p].shop == shop && s.infos[p].externalId == g.id
        && IsProduct(s.cat, s.infos[p].product, g);
      assert s.infos[p].product == product;
    }
  }

  lemma ClashStays(s: Store, t: Store, shop: Id, g: Good)
    requires LoadValid(s) && LoadValid(t) && Extends(s.cat, t.cat) && t.infos == s.infos
    ensures Clash(t, shop, g) <==> Clash(s, shop, g)
  {
    if Clash(s, shop, g) {
      var p :| p in s.infos && s.infos[p].shop == shop && s.infos[p].externalId == g.id
        && IsProduct(s.cat, s.infos[p].product, g);
      assert IsProduct(t.cat, t.infos[p].product, g);
    }
    if Clash(t, shop, g) {
      var p :| p in t.infos && t.infos[p].shop == shop && t.infos[p].externalId == g.id
        && IsProduct(t.cat, t.infos[p].product, g);
      assert IsProduct(s.cat, s.infos[p].product, g);
    }
  }

  ghost predicate Loadable(s: Store, shop: Id, g: Good) {
    g.category in s.cat.categories && !Clash(s, shop, g) && Mapping(g.parameters)
  }

  /** The database after the product lookup, when that succeeds. */
  function WithProduct(s: Store, g: Good): (Store, Id) {
    match OpenProduct(s.cat, Product(g.name, g.category))
    case Some(found) => (s.(cat := found.0), found.1)
    case None => (s, 0)
  }

  lemma ProductStage(s: Store, shop: Id, g: Good)
    requires LoadValid(s) && shop in s.cat.shops
    ensures OpenProduct(s.cat, Product(g.name, g.category)).Some? <==> g.category in s.cat.categories
    ensures g.category in s.cat.categories ==>
              var (t, a) := WithProduct(s, g);
              && LoadValid(t) && Grown(s, t, shop) && t == s.(cat := t.cat) && IsProduct(t.cat, a, g)
              && (Taken(t.infos, a, shop, g.id) <==> Clash(s, shop, g))
  {
    OpenProductKeeps(s.cat, Product(g.name, g.category));
    if g.category in s.cat.categories {
      var (t, a) := WithProduct(s, g);
      TakenIsClash(t, a, shop, g);
      ClashStays(s, t, shop, g);
    }
  }

  lemma ValuesGrow(s: Store, t: Store, u: Store, shop: Id)
    requires Grown(s, t, shop) && AddsValues(t, u, s.nextInfo)
    ensures Grown(s, u, shop)
  {
    ExtendsTransitive(s.cat, t.cat, u.cat);
  }

  lemma OfferKeeps(s: Store, shop: Id, g: Good)
    requires LoadValid(s) && shop in s.cat.shops
    ensures var h := OpenOffer(s, shop, g);
            && LoadValid(h.store) && Grown(s, h.store, shop)
            && (h.ok <==> g.category in s.cat.categories && !Clash(s, shop, g))
  {
    ProductStage(s, shop, g);
    if g.category in s.cat.categories {
      var (t, a) := WithProduct(s, g);
      AddOfferStage(t, a, shop, g);
      GrownCompose(s, t, OpenOffer(s, shop, g).store, shop);
    }
  }

  /** The new offer before its parameters are written. */
  ghost predicate Opened(s: Store, t: Store, shop: Id, g: Good) {
    && t.nextInfo == s.nextInfo + 1 && t.infos.Keys == s.infos.Keys + {s.nextInfo}
    && IsProduct(t.cat, t.infos[s.nextInfo].product, g)
    && t.infos[s.nextInfo] == OfferRow(t.infos[s.nextInfo].product, shop, g)
    && t.values == s.values
  }

  lemma OfferOpens(s: Store, shop: Id, g: Good)
    requires LoadValid(s) && shop in s.cat.shops && OpenOffer(s, shop, g).ok
    ensures Opened(s, OpenOffer(s, shop, g).store, shop, g)
  {
    ProductStage(s, shop, g);
  }

  lemma GoodKeeps(s: Store, shop: Id, g: Good)
    requires LoadValid(s) && shop in s.cat.shops
    ensures var t := ImportGood(s, shop, g).store;
            LoadValid(t) && Grown(s, t, shop)
  {
    OfferKeeps(s, shop, g);
    var h := OpenOffer(s, shop, g);
    if h.ok {
      OfferOpens(s, shop, g);
      ValuesKeep(h.store, s.nextInfo, g.parameters);
      ValuesGrow(s, h.store, ImportGood(s, shop, g).store, shop);
    }
  }

  /** A good is imported exactly when its category exists, the shop has no such offer yet and
      its parameters are a mapping; it then becomes one new offer that describes it. */
  lemma GoodStage(s: Store, shop: Id, g: Good)
    requires LoadValid(s) && shop in s.cat.shops
    ensures var r := ImportGood(s, shop, g);
            && (r.ok <==> Loadable(s, shop, g))
            && (r.ok ==>
                  && r.store.nextInfo == s.nextInfo + 1
                  && r.store.infos.Keys == s.infos.Keys + {s.nextInfo}
                  && Describes(r.store, s.nextInfo, shop, g))
  {
    OfferKeeps(s, shop, g);
    var h := OpenOffer(s, shop, g);
    if h.ok {
      OfferOpens(s, shop, g);
      FreshHasNoValues(s, h.store, s.nextInfo);
      ValuesKeep(h.store, s.nextInfo, g.parameters);
      ValuesStage(h.store, s.nextInfo, g.parameters);
    }
  }

  lemma FreshHasNoValues(s: Store, t: Store, p: Id)
    requires LoadValid(s) && p !in s.infos && t.values == s.values
    ensures forall n, v :: !HasValue(t, p, n, v)
    ensures forall n :: !Knows(t, p, n)
  {
  }

  /** A new offer for `g` clashes with exactly the goods that share its key. */
  lemma OfferClashes(s: Store, t: Store, shop: Id, g: Good, h: Good)
    requires LoadValid(s) && Grown(s, t, shop) && t.infos.Keys == s.infos.Keys + {s.nextInfo}
    requires Describes(t, s.nextInfo, shop, g)
    ensures Clash(t, shop, h) <==> Clash(s, shop, h) || SameKey(g, h)
  {
    if Clash(s, shop, h) {
      var p :| p in s.infos && s.infos[p].shop == shop && s.infos[p].externalId == h.id
        && IsProduct(s.cat, s.infos[p].product, h);
      assert p in t.infos && IsProduct(t.cat, t.infos[p].product, h);
    }
    if SameKey(g, h) {
      assert s.nextInfo in t.infos && IsProduct(t.cat, t.infos[s.nextInfo].product, h);
    }
    if Clash(t, shop, h) {
      var p :| p in t.infos && t.infos[p].shop == shop && t.infos[p].externalId == h.id
        && IsProduct(t.cat, t.infos[p].product, h);
      if p in s.infos {
        assert IsProduct(s.cat, s.infos[p].product, h);
      } else {
        assert p == s.nextInfo;
      }
    }
  }

  lemma GoodClashes(s: Store, shop: Id, g: Good)
    requires LoadValid(s) && shop in s.cat.shops && ImportGood(s, shop, g).ok
    ensures forall h :: Clash(ImportGood(s, shop, g).store, shop, h) <==> Clash(s, shop, h) || SameKey(g, h)
  {
    GoodKeeps(s, shop, g);
    GoodStage(s, shop, g);
    forall h ensures Clash(ImportGood(s, shop, g).store, shop, h) <==> Clash(s, shop, h) || SameKey(g, h) {
      OfferClashes(s, ImportGood(s, shop, g).store, shop, g, h);
    }
  }

  /** A refused good with a proper mapping leaves nothing behind: its category is unknown, or the
      product is there already because the shop offers it. */
  lemma RefusedGoodLeavesNothing(s: Store, shop: Id, g: Good)
    requires LoadValid(s) && shop in s.cat.shops && Mapping(g.parameters) && !ImportGood(s, shop, g).ok
    ensures ImportGood(s, shop, g).store == s
  {
    GoodStage(s, shop, g);
    OfferKeeps(s, shop, g);
    OpenProductKeeps(s.cat, Product(g.name, g.category));
    if g.category in s.cat.categories {
      var p :| p in s.infos && s.infos[p].shop == shop && s.infos[p].externalId == g.id
        && IsProduct(s.cat, s.infos[p].product, g);
      assert s.cat.products[s.infos[p].product] == Product(g.name, g.category);
      assert s.(cat := s.cat) == s;
    }
  }

  // ---------- all goods ----------

  ghost predicate DistinctKeys(gs: seq<Good>) {
    forall j, k | 0 <= j < k < |gs| :: !SameKey(gs[j], gs[k])
  }

  ghost predicate AllLoadable(s: Store, shop: Id, gs: seq<Good>) {
    (forall k | 0 <= k < |gs| :: Loadable(s, shop, gs[k])) && DistinctKeys(gs)
  }

  lemma {:induction false} GoodsKeep(s: Store, shop: Id, gs: seq<Good>)
    requires LoadValid(s) && shop in s.cat.shops
    ensures var t := ImportGoods(s, shop, gs).store;
            LoadValid(t) && Grown(s, t, shop)
    decreases gs
  {
    if gs == [] {
    } else {
      GoodKeeps(s, shop, gs[0]);
      var h := ImportGood(s, shop, gs[0]);
      if h.ok {
        GoodsKeep(h.store, shop, gs[1..]);
        GrownCompose(s, h.store, ImportGoods(s, shop, gs).store, shop);
      }
    }
  }

  lemma LoadableStep(s: Store, t: Store, shop: Id, gs: seq<Good>)
    requires gs != [] && Loadable(s, shop, gs[0]) && t.cat.categories == s.cat.categories
    requires forall h :: Clash(t, shop, h) <==> Clash(s, shop, h) || SameKey(gs[0], h)
    ensures AllLoadable(s, shop, gs) <==> AllLoadable(t, shop, gs[1..])
  {
    if AllLoadable(s, shop, gs) {
      forall k | 0 <= k < |gs| - 1 ensures Loadable(t, shop, gs[1..][k]) {
        assert gs[1..][k] == gs[k + 1] && Loadable(s, shop, gs[k + 1]) && !SameKey(gs[0], gs[k + 1]);
      }
      forall j, k | 0 <= j < k < |gs| - 1 ensures !SameKey(gs[1..][j], gs[1..][k]) {
        assert gs[1..][j] == gs[j + 1] && gs[1..][k] == gs[k + 1];
      }
    }
    if AllLoadable(t, shop, gs[1..]) {
      forall k | 1 <= k < |gs| ensures Loadable(s, shop, gs[k]) && !SameKey(gs[0], gs[k]) {
        assert gs[k] == gs[1..][k - 1] && Loadable(t, shop, gs[1..][k - 1]);
      }
      forall j, k | 0 <= j < k < |gs| ensures !SameKey(gs[j], gs[k]) {
        if j > 0 {
          assert gs[j] == gs[1..][j - 1] && gs[k] == gs[1..][k - 1];
        }
      }
    }
  }

  /** The new offers are exactly the ids from the old counter on, the k-th one describing the
      k-th good. */
  ghost predicate Lined(s: Store, t: Store, shop: Id, gs: seq<Good>) {
    && t.nextInfo == s.nextInfo + |gs|
    && (forall p: Id :: p in t.infos <==> p in s.infos || s.nextInfo <= p < t.nextInfo)
    && (forall k | 0 <= k < |gs| :: Describes(t, s.nextInfo + k, shop, gs[k]))
  }

  lemma LinedStep(s: Store, t: Store, u: Store, shop: Id, gs: seq<Good>)
    requires gs != []
    requires t.nextInfo == s.nextInfo + 1 && t.infos.Keys == s.infos.Keys + {s.nextInfo}
    requires Describes(u, s.nextInfo, shop, gs[0]) && Lined(t, u, shop, gs[1..])
    ensures Lined(s, u, shop, gs)
  {
    forall k | 0 <= k < |gs| ensures Describes(u, s.nextInfo + k, shop, gs[k]) {
      if k > 0 {
        assert gs[k] == gs[1..][k - 1] && Describes(u, t.nextInfo + (k - 1), shop, gs[1..][k - 1]);
      }
    }
  }

  /** The goods up to the `k`-th can be loaded, and with the next one they cannot. */
  ghost predicate RefusedAt(s: Store, shop: Id, gs: seq<Good>, k: nat)
    requires k < |gs|
  {
    AllLoadable(s, shop, gs[..k]) && !AllLoadable(s, shop, gs[..k + 1])
  }

  lemma RefusedAtStep(s: Store, t: Store, shop: Id, gs: seq<Good>, k: nat)
    requires gs != [] && k < |gs[1..]| && RefusedAt(t, shop, gs[1..], k)
    requires Loadable(s, shop, gs[0]) && t.cat.categories == s.cat.categories
    requires forall h :: Clash(t, shop, h) <==> Clash(s, shop, h) || SameKey(gs[0], h)
    ensures RefusedAt(s, shop, gs, k + 1)
  {
    assert gs[..k + 1][1..] == gs[1..][..k] && gs[..k + 2][1..] == gs[1..][..k + 1];
    LoadableStep(s, t, shop, gs[..k + 1]);
    LoadableStep(s, t, shop, gs[..k + 2]);
  }

  lemma RefusedAtOnce(s: Store, shop: Id, gs: seq<Good>)
    requires gs != [] && !Loadable(s, shop, gs[0])
    ensures RefusedAt(s, shop, gs, 0)
  {
    assert gs[..1][0] == gs[0];
  }

  lemma ShorterStep(s: Store, shop: Id, gs: seq<Good>, k: nat)
    requires gs != [] && ImportGood(s, shop, gs[0]).ok && k < |gs|
    ensures ImportGoods(s, shop, gs[..k + 1]) == ImportGoods(ImportGood(s, shop, gs[0]).store, shop, gs[1..][..k])
  {
    assert gs[..k + 1][0] == gs[0] && gs[..k + 1][1..] == gs[1..][..k];
  }

  /** When the goods stage stops early, it ends as the stage over the goods before the refused one. */
  lemma {:induction false} GoodsPrefix(s: Store, shop: Id, gs: seq<Good>) returns (k: nat)
    requires LoadValid(s) && shop in s.cat.shops && !ImportGoods(s, shop, gs).ok
    requires forall g | g in gs :: Mapping(g.parameters)
    ensures k < |gs| && RefusedAt(s, shop, gs, k)
    ensures ImportGoods(s, shop, gs[..k]) == Load(ImportGoods(s, shop, gs).store, true)
    decreases gs
  {
    var h := ImportGood(s, shop, gs[0]);
    GoodStage(s, shop, gs[0]);
    if h.ok {
      GoodKeeps(s, shop, gs[0]);
      GoodClashes(s, shop, gs[0]);
      k := GoodsPrefix(h.store, shop, gs[1..]);
      RefusedAtStep(s, h.store, shop, gs, k);
      ShorterStep(s, shop, gs, k);
      k := k + 1;
    } else {
      RefusedGoodLeavesNothing(s, shop, gs[0]);
      RefusedAtOnce(s, shop, gs);
      k := 0;
    }
  }

  /** The goods stage succeeds exactly when every good is loadable and no two share a key. */
  lemma {:induction false} GoodsStage(s: Store, shop: Id, gs: seq<Good>)
    requires LoadValid(s) && shop in s.cat.shops
    ensures var r := ImportGoods(s, shop, gs);
            && (r.ok <==> AllLoadable(s, shop, gs))
            && (r.ok ==> Lined(s, r.store, shop, gs))
    decreases gs
  {
    if gs == [] {
    } else {
      GoodStage(s, shop, gs[0]);
      GoodKeeps(s, shop, gs[0]);
      var h := ImportGood(s, shop, gs[0]);
      if h.ok {
        GoodClashes(s, shop, gs[0]);
        LoadableStep(s, h.store, shop, gs);
        GoodsStage(h.store, shop, gs[1..]);
        GoodsKeep(h.store, shop, gs[1..]);
        if ImportGoods(s, shop, gs).ok {
          DescribesStays(h.store, ImportGoods(s, shop, gs).store, s.nextInfo, shop, gs[0]);
          LinedStep(s, h.store, ImportGoods(s, shop, gs).store, shop, gs);
        }
      }
    }
  }
}
