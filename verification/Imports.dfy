/** The price-list import: get-or-create of shop, categories, products and parameters, and the
    wholesale replacement of the shop's offers. */
module Imports {
  import opened Tables

  datatype CategoryRow = CategoryRow(id: Id, name: string)

  datatype Good = Good(id: nat, category: Id, model: string, name: string,
                       price: nat, rrc: nat, quantity: nat, parameters: seq<(string, string)>)

  datatype Feed = Feed(shop: string, categories: seq<CategoryRow>, goods: seq<Good>)

  /** The database after a stage of the import, and whether the stage ran to its end. */
  datatype Load = Load(store: Store, ok: bool)

  datatype Outcome = Aborted | Imported(categories: nat, products: nat)

  // ---------- get-or-create ----------

  function FindShop(c: Catalogue, u: Id, name: string, n: nat): (r: Option<Id>)
    ensures r.Some? ==> r.value < n && r.value in c.shops && c.shops[r.value] == Shop(name, u)
    ensures r.None? ==> forall a | 0 <= a < n && a in c.shops :: c.shops[a] != Shop(name, u)
  {
    if n == 0 then None else
      var r := FindShop(c, u, name, n - 1);
      if r.Some? then r else if n - 1 in c.shops && c.shops[n - 1] == Shop(name, u) then Some(n - 1) else None
  }

  function FindProduct(c: Catalogue, row: Product, n: nat): (r: Option<Id>)
    ensures r.Some? ==> r.value < n && r.value in c.products && c.products[r.value] == row
    ensures r.None? ==> forall a | 0 <= a < n && a in c.products :: c.products[a] != row
  {
    if n == 0 then None else
      var r := FindProduct(c, row, n - 1);
      if r.Some? then r else if n - 1 in c.products && c.products[n - 1] == row then Some(n - 1) else None
  }

  function FindParameter(c: Catalogue, name: string, n: nat): (r: Option<Id>)
    ensures r.Some? ==> r.value < n && r.value in c.parameters && c.parameters[r.value] == name
    ensures r.None? ==> forall a | 0 <= a < n && a in c.parameters :: c.parameters[a] != name
  {
    if n == 0 then None else
      var r := FindParameter(c, name, n - 1);
      if r.Some? then r else if n - 1 in c.parameters && c.parameters[n - 1] == name then Some(n - 1) else None
  }

  /** A user has at most one shop: creating a second one is refused by the database. */
  function OpenShop(c: Catalogue, u: Id, name: string): Option<(Catalogue, Id)> {
    match FindShop(c, u, name, c.nextShop)
    case Some(a) => Some((c, a))
    case None =>
      if exists a :: a in c.shops && c.shops[a].owner == u then None
      else Some((c.(shops := c.shops[c.nextShop := Shop(name, u)], nextShop := c.nextShop + 1), c.nextShop))
  }

  /** Category ids come from the feed; an id that is taken by another name is refused. */
  function OpenCategory(c: Catalogue, row: CategoryRow): Option<Catalogue> {
    if row.id !in c.categories then Some(c.(categories := c.categories[row.id := row.name]))
    else if c.categories[row.id] == row.name then Some(c)
    else None
  }

  /** A new product needs an existing category. */
  function OpenProduct(c: Catalogue, row: Product): Option<(Catalogue, Id)> {
    match FindProduct(c, row, c.nextProduct)
    case Some(a) => Some((c, a))
    case None =>
      if row.category !in c.categories then None
      else Some((c.(products := c.products[c.nextProduct := row], nextProduct := c.nextProduct + 1), c.nextProduct))
  }

  function OpenParameter(c: Catalogue, name: string): (Catalogue, Id) {
    match FindParameter(c, name, c.nextParameter)
    case Some(a) => (c, a)
    case None =>
      (c.(parameters := c.parameters[c.nextParameter := name], nextParameter := c.nextParameter + 1), c.nextParameter)
  }

  // ---------- the stages ----------

  function ImportCategories(c: Catalogue, shop: Id, rows: seq<CategoryRow>): (Catalogue, bool)
    decreases rows
  {
    if rows == [] then (c, true) else
      match OpenCategory(c, rows[0])
      case None => (c, false)
      case Some(d) => ImportCategories(d.(links := d.links + {(rows[0].id, shop)}), shop, rows[1..])
  }

  /** `ProductInfo.objects.filter(shop_id=shop).delete()`, with the parameters and the order
      items that hang on the deleted offers. */
  function ClearShop(s: Store, shop: Id): Store {
    var kept := map p | p in s.infos && s.infos[p].shop != shop :: s.infos[p];
    s.(infos := kept,
       values := map v | v in s.values && v.0 in kept :: s.values[v],
       items := map i | i in s.items && s.items[i].info in kept :: s.items[i])
  }

  function AddValue(s: Store, info: Id, name: string, value: string): Load {
    var (c, q) := OpenParameter(s.cat, name);
    if (info, q) in s.values then Load(s.(cat := c), false)
    else Load(s.(cat := c, values := s.values[(info, q) := value]), true)
  }

  function ImportValues(s: Store, info: Id, ps: seq<(string, string)>): Load
    decreases ps
  {
    if ps == [] then Load(s, true) else
      var h := AddValue(s, info, ps[0].0, ps[0].1);
      if !h.ok then h else ImportValues(h.store, info, ps[1..])
  }

  /** The database refuses a second offer for one (product, shop, external id). */
  predicate Taken(infos: map<Id, Info>, product: Id, shop: Id, externalId: nat) {
    exists p :: p in infos && infos[p].product == product && infos[p].shop == shop && infos[p].externalId == externalId
  }

  function OfferRow(product: Id, shop: Id, g: Good): Info {
    Info(product, shop, g.id, g.model, g.price, g.rrc, g.quantity)
  }

  function AddOffer(s: Store, product: Id, shop: Id, g: Good): Load {
    if Taken(s.infos, product, shop, g.id) then Load(s, false)
    else Load(s.(infos := s.infos[s.nextInfo := OfferRow(product, shop, g)], nextInfo := s.nextInfo + 1), true)
  }

  /** The product lookup and the new offer. */
  function OpenOffer(s: Store, shop: Id, g: Good): Load {
    match OpenProduct(s.cat, Product(g.name, g.category))
    case None => Load(s, false)
    case Some(found) => AddOffer(s.(cat := found.0), found.1, shop, g)
  }

  function ImportGood(s: Store, shop: Id, g: Good): Load {
    var h := OpenOffer(s, shop, g);
    if !h.ok then h else ImportValues(h.store, s.nextInfo, g.parameters)
  }

  function ImportGoods(s: Store, shop: Id, gs: seq<Good>): Load
    decreases gs
  {
    if gs == [] then Load(s, true) else
      var h := ImportGood(s, shop, gs[0]);
      if !h.ok then h else ImportGoods(h.store, shop, gs[1..])
  }

  /** `import_data`, and with it both synchronous copies. There is no transaction: what was
      written before a refused row stays. */
  function Import(s: Store, u: Id, f: Feed): (Store, Outcome) {
    match OpenShop(s.cat, u, f.shop)
    case None => (s, Aborted)
    case Some((c, shop)) =>
      var (d, ok) := ImportCategories(c, shop, f.categories);
      if !ok then (s.(cat := d), Aborted) else
        var r := ImportGoods(ClearShop(s.(cat := d), shop), shop, f.goods);
        (r.store, if r.ok then Imported(|f.categories|, |f.goods|) else Aborted)
  }

  // ---------- how the tables grow ----------

  /** Rows are only added to the catalogue tables. */
  ghost predicate Extends(c: Catalogue, d: Catalogue) {
    && c.nextShop <= d.nextShop && c.nextProduct <= d.nextProduct && c.nextParameter <= d.nextParameter
    && c.links <= d.links
    && (forall a | a in c.shops :: a in d.shops && d.shops[a] == c.shops[a])
    && (forall a | a in c.categories :: a in d.categories && d.categories[a] == c.categories[a])
    && (forall a | a in c.products :: a in d.products && d.products[a] == c.products[a])
    && (forall a | a in c.parameters :: a in d.parameters && d.parameters[a] == c.parameters[a])
  }

  /** `t` is `s` with offers of `shop` added under new ids, together with their parameters. */
  ghost predicate Grown(s: Store, t: Store, shop: Id) {
    && Extends(s.cat, t.cat)
    && t.cat.categories == s.cat.categories && t.cat.links == s.cat.links && t.cat.shops == s.cat.shops
    && t.cat.nextShop == s.cat.nextShop
    && t == s.(cat := t.cat, infos := t.infos, nextInfo := t.nextInfo, values := t.values)
    && s.nextInfo <= t.nextInfo
    && (forall p | p in s.infos :: p in t.infos && t.infos[p] == s.infos[p])
    && (forall p | p in t.infos && p !in s.infos :: s.nextInfo <= p < t.nextInfo && t.infos[p].shop == shop)
    && (forall v | v in s.values :: v in t.values && t.values[v] == s.values[v])
    && (forall v | v in t.values && v !in s.values :: s.nextInfo <= v.0)
  }

  ghost predicate LoadValid(s: Store) {
    CatalogueValid(s.cat) && OffersValid(s.cat, s.infos, s.nextInfo, s.values)
  }

  lemma OpenShopKeeps(c: Catalogue, u: Id, name: string)
    requires CatalogueValid(c)
    ensures OpenShop(c, u, name).None? <==> exists a :: a in c.shops && c.shops[a].owner == u && c.shops[a].name != name
    ensures OpenShop(c, u, name).Some? ==>
              var (d, a) := OpenShop(c, u, name).value;
              && CatalogueValid(d) && Extends(c, d)
              && d == c.(shops := d.shops, nextShop := d.nextShop)
              && a in d.shops && d.shops[a] == Shop(name, u)
  {
  }

  lemma OpenProductKeeps(c: Catalogue, row: Product)
    requires CatalogueValid(c)
    ensures OpenProduct(c, row).Some? <==> row.category in c.categories
    ensures OpenProduct(c, row).Some? ==>
              var (d, a) := OpenProduct(c, row).value;
              && CatalogueValid(d) && Extends(c, d)
              && d == c.(products := d.products, nextProduct := d.nextProduct)
              && a in d.products && d.products[a] == row
              && ((exists p :: p in c.products && c.products[p] == row) ==> d == c)
  {
  }

  lemma OpenParameterKeeps(c: Catalogue, name: string)
    requires CatalogueValid(c)
    ensures var (d, a) := OpenParameter(c, name);
            && CatalogueValid(d) && Extends(c, d)
            && d == c.(parameters := d.parameters, nextParameter := d.nextParameter)
            && a in d.parameters && d.parameters[a] == name
            && ((exists q :: q in c.parameters && c.parameters[q] == name) ==> d == c)
  {
  }

  lemma ExtendsTransitive(c: Catalogue, d: Catalogue, e: Catalogue)
    requires Extends(c, d) && Extends(d, e)
    ensures Extends(c, e)
  {
  }
}
