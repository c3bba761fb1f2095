/** The database tables of the shop as values: one row datatype per model class,
    one finite map per table, and one counter per automatically numbered table.
    Row ids are natural numbers handed out in increasing order and never reused. */
module Tables {

  type Id = nat

  datatype Option<+T> = None | Some(value: T)

  /** The states an order can be in. */
  datatype Phase = Basket | New | Confirmed | Assembled | Sent | Delivered | Canceled

  datatype Shop = Shop(name: string, owner: Id)
  datatype Product = Product(name: string, category: Id)

  /** A product as one shop sells it. The column `stock` carries a `>= 0` check in the
      database; the model lets it be any integer and proves that it never goes below 0. */
  datatype Info = Info(product: Id, shop: Id, externalId: nat, model: string,
                       price: nat, rrc: nat, stock: int)
  datatype Contact = Contact(user: Id, city: string, street: string, house: string, structure: string,
                             building: string, apartment: string, phone: string)
  datatype Order = Order(user: Id, phase: Phase, contact: Option<Id>, total: int)
  datatype Item = Item(order: Id, info: Id, quantity: nat)

  /** The tables that only the price-list import writes. */
  datatype Catalogue = Catalogue(
    shops: map<Id, Shop>, nextShop: Id,
    categories: map<Id, string>, links: set<(Id, Id)>,
    products: map<Id, Product>, nextProduct: Id,
    parameters: map<Id, string>, nextParameter: Id)

  /** The whole database. `values` holds the product parameters, keyed by
      (product info, parameter); `links` in the catalogue holds (category, shop). */
  datatype Store = Store(
    cat: Catalogue,
    infos: map<Id, Info>, nextInfo: Id,
    values: map<(Id, Id), string>,
    contacts: map<Id, Contact>, nextContact: Id,
    orders: map<Id, Order>, nextOrder: Id,
    items: map<Id, Item>, nextItem: Id)

  // ---------- what is true of every reachable database ----------

  ghost predicate UniqueItems(items: map<Id, Item>) {
    forall i, j | i in items && j in items
      && items[i].order == items[j].order && items[i].info == items[j].info :: i == j
  }

  ghost predicate OneBasket(orders: map<Id, Order>) {
    forall a, b | a in orders && b in orders && orders[a].phase.Basket? && orders[b].phase.Basket?
      && orders[a].user == orders[b].user :: a == b
  }

  /** Item ids stay below their counter. */
  ghost predicate Numbered(s: Store) {
    forall i | i in s.items :: i < s.nextItem
  }

  ghost predicate OrdersNumbered(s: Store) {
    forall o | o in s.orders :: o < s.nextOrder
  }

  /** Every item belongs to an existing order and points to an existing offer. */
  ghost predicate ItemsLinked(s: Store) {
    forall i | i in s.items :: s.items[i].order in s.orders && s.items[i].info in s.infos
  }

  /** Numbering, foreign keys, and both uniqueness rules of the sales tables. Exactly the baskets
      have no delivery contact; the contact of an order belongs to the user who placed it. */
  ghost predicate SalesValid(s: Store) {
    && OrdersNumbered(s) && Numbered(s)
    && (forall c | c in s.contacts :: c < s.nextContact)
    && ItemsLinked(s)
    && (forall o | o in s.orders && s.orders[o].contact.Some? ::
          s.orders[o].contact.value in s.contacts
          && s.contacts[s.orders[o].contact.value].user == s.orders[o].user)
    && (forall o | o in s.orders :: s.orders[o].phase.Basket? <==> s.orders[o].contact.None?)
    && UniqueItems(s.items)
    && OneBasket(s.orders)
  }

  ghost predicate UniqueShops(c: Catalogue) {
    forall a, b | a in c.shops && b in c.shops && c.shops[a].owner == c.shops[b].owner :: a == b
  }

  ghost predicate UniqueProducts(c: Catalogue) {
    forall a, b | a in c.products && b in c.products && c.products[a] == c.products[b] :: a == b
  }

  ghost predicate UniqueParameters(c: Catalogue) {
    forall a, b | a in c.parameters && b in c.parameters && c.parameters[a] == c.parameters[b] :: a == b
  }

  /** Numbering, foreign keys and natural keys of the catalogue tables. */
  ghost predicate CatalogueValid(c: Catalogue) {
    && (forall a | a in c.shops :: a < c.nextShop)
    && (forall a | a in c.products :: a < c.nextProduct && c.products[a].category in c.categories)
    && (forall a | a in c.parameters :: a < c.nextParameter)
    && (forall l | l in c.links :: l.0 in c.categories && l.1 in c.shops)
    && UniqueShops(c) && UniqueProducts(c) && UniqueParameters(c)
  }

  ghost predicate UniqueInfos(infos: map<Id, Info>) {
    forall a, b | a in infos && b in infos && infos[a].product == infos[b].product
      && infos[a].shop == infos[b].shop && infos[a].externalId == infos[b].externalId :: a == b
  }

  ghost predicate NoneNegative(infos: map<Id, Info>) {
    forall p | p in infos :: 0 <= infos[p].stock
  }

  /** The offers: numbering, foreign keys, the unique (product, shop, external id) triple,
      and stock that is never negative. */
  ghost predicate OffersValid(c: Catalogue, infos: map<Id, Info>, nextInfo: Id, values: map<(Id, Id), string>) {
    && (forall p | p in infos :: p < nextInfo && infos[p].product in c.products && infos[p].shop in c.shops)
    && NoneNegative(infos)
    && (forall v | v in values :: v.0 in infos && v.1 in c.parameters)
    && UniqueInfos(infos)
  }

  ghost predicate Valid(s: Store) {
    SalesValid(s) && CatalogueValid(s.cat) && OffersValid(s.cat, s.infos, s.nextInfo, s.values)
  }

  // ---------- queries by natural key: the row with the least id ----------

  /** `OrderItem.objects.filter(order=o, product_info=p).first()` */
  function FirstItem(items: map<Id, Item>, o: Id, p: Id, n: nat): (r: Option<Id>)
    ensures r.Some? ==> r.value < n && r.value in items && items[r.value].order == o && items[r.value].info == p
    ensures r.None? ==> forall i | 0 <= i < n && i in items :: items[i].order != o || items[i].info != p
  {
    if n == 0 then None else
      var r := FirstItem(items, o, p, n - 1);
      if r.Some? then r
      else if n - 1 in items && items[n - 1].order == o && items[n - 1].info == p then Some(n - 1)
      else None
  }

  /** `Order.objects.filter(user_id=u, state='basket')` */
  function FirstBasket(orders: map<Id, Order>, u: Id, n: nat): (r: Option<Id>)
    ensures r.Some? ==> r.value < n && r.value in orders && orders[r.value].user == u && orders[r.value].phase.Basket?
    ensures r.None? ==> forall o | 0 <= o < n && o in orders :: orders[o].user != u || !orders[o].phase.Basket?
  {
    if n == 0 then None else
      var r := FirstBasket(orders, u, n - 1);
      if r.Some? then r
      else if n - 1 in orders && orders[n - 1].user == u && orders[n - 1].phase.Basket? then Some(n - 1)
      else None
  }
}
