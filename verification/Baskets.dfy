/** Basket editing: what one request of BasketView does to the database, entry by entry. */
module Baskets {
  import opened Tables
  import opened Sums
  import opened Queries

  datatype AddEntry = AddEntry(info: Id, quantity: int)

  /** One entry of an update request; entries whose id or quantity is not an integer are skipped. */
  datatype UpdateEntry = Set(id: int, quantity: int) | Untyped

  /** The `items` field of a request. A list that arrives parsed counts as absent when it is
      empty; JSON text does not, whatever list it holds. */
  datatype Payload<T> = Parsed(entries: seq<T>) | Text(entries: seq<T>)

  predicate Absent<T>(p: Payload<T>) {
    p.Parsed? && |p.entries| == 0
  }

  datatype Error =
    | Rejected(field: string)                   // the serializer refused this field
    | NotEnough(info: Id, available: int)
    | NotEnoughMerged(info: Id, available: int, requested: int)
    | NotInBasket(id: int)

  datatype Reply = Missing | Failed(errors: seq<Error>) | Done(count: nat)

  /** The effect of a batch: the database after it, the errors met, the rows saved. */
  datatype Batch = Batch(store: Store, errors: seq<Error>, count: nat)

  function Stock(s: Store, p: Id): int {
    if p in s.infos then s.infos[p].stock else 0
  }

  /** `Order.calculate_total_price` and `_update_basket_total`: store the sum of the items. */
  function RefreshTotal(s: Store, o: Id): Store {
    if o in s.orders then s.(orders := s.orders[o := s.orders[o].(total := Total(s, Value(o)))]) else s
  }

  function PutItem(s: Store, i: Id, item: Item): Store {
    s.(items := s.items[i := item], nextItem := if i < s.nextItem then s.nextItem else i + 1)
  }

  /** `OrderItem.save`: write the row, then refresh the total of its order. */
  function SaveItem(s: Store, i: Id, item: Item): Store {
    RefreshTotal(PutItem(s, i, item), item.order)
  }

  /** `Order.objects.get_or_create(user_id=u, state='basket')` */
  function OpenBasket(s: Store, u: Id): (Store, Id) {
    match FirstBasket(s.orders, u, s.nextOrder)
    case Some(b) => (s, b)
    case None =>
      (s.(orders := s.orders[s.nextOrder := Order(u, Basket, None, 0)], nextOrder := s.nextOrder + 1), s.nextOrder)
  }

  predicate OwnsBasket(s: Store, u: Id, b: Id) {
    b in s.orders && s.orders[b].user == u && s.orders[b].phase.Basket?
  }

  /** The fields the serializer refuses. */
  function Refused(s: Store, e: AddEntry): seq<Error> {
    (if e.info in s.infos then [] else [Rejected("product_info")]) +
    (if e.quantity < 0 then [Rejected("quantity")] else [])
  }

  function AddOne(s: Store, b: Id, e: AddEntry): Batch {
    if Refused(s, e) != [] then Batch(s, Refused(s, e), 0)
    else if e.quantity > Stock(s, e.info) then Batch(s, [NotEnough(e.info, Stock(s, e.info))], 0)
    else match FirstItem(s.items, b, e.info, s.nextItem)
      case Some(i) =>
        var q := s.items[i].quantity + e.quantity;
        if q > Stock(s, e.info) then Batch(s, [NotEnoughMerged(e.info, Stock(s, e.info), q)], 0)
        else Batch(SaveItem(s, i, s.items[i].(quantity := q)), [], 1)
      case None =>
        Batch(SaveItem(s, s.nextItem, Item(b, e.info, e.quantity)), [], 1)
  }

  function AddAll(s: Store, b: Id, es: seq<AddEntry>): Batch
    decreases es
  {
    if es == [] then Batch(s, [], 0) else
      var h := AddOne(s, b, es[0]);
      var r := AddAll(h.store, b, es[1..]);
      Batch(r.store, h.errors + r.errors, h.count + r.count)
  }

  function Settle(r: Batch, b: Id): (Store, Reply) {
    if r.errors != [] then (r.store, Failed(r.errors)) else (RefreshTotal(r.store, b), Done(r.count))
  }

  /** BasketView.post */
  function Post(s: Store, u: Id, p: Payload<AddEntry>): (Store, Reply) {
    if Absent(p) then (s, Missing) else
      var (s1, b) := OpenBasket(s, u);
      Settle(AddAll(s1, b, p.entries), b)
  }

  predicate InBasket(s: Store, b: Id, id: int) {
    0 <= id && id in s.items && s.items[id].order == b
  }

  function DeleteItem(s: Store, i: Id): Store {
    s.(items := s.items - {i})
  }

  function UpdateOne(s: Store, b: Id, e: UpdateEntry): Batch {
    if e.Untyped? then Batch(s, [], 0)
    else if !InBasket(s, b, e.id) then Batch(s, [NotInBasket(e.id)], 0)
    else
      var item := s.items[e.id];
      if e.quantity > Stock(s, item.info) then Batch(s, [NotEnough(item.info, Stock(s, item.info))], 0)
      else if e.quantity <= 0 then Batch(DeleteItem(s, e.id), [], 0)
      else Batch(SaveItem(s, e.id, item.(quantity := e.quantity)), [], 1)
  }

  function UpdateAll(s: Store, b: Id, es: seq<UpdateEntry>): Batch
    decreases es
  {
    if es == [] then Batch(s, [], 0) else
      var h := UpdateOne(s, b, es[0]);
      var r := UpdateAll(h.store, b, es[1..]);
      Batch(r.store, h.errors + r.errors, h.count + r.count)
  }

  /** BasketView.put */
  function Put(s: Store, u: Id, p: Payload<UpdateEntry>): (Store, Reply) {
    if Absent(p) then (s, Missing) else
      var (s1, b) := OpenBasket(s, u);
      Settle(UpdateAll(s1, b, p.entries), b)
  }

  /** `OrderItem.objects.filter(q).delete()` */
  function DeleteMatching(s: Store, q: Query): Store {
    s.(items := map i | i in s.items && !Matches(q, s.items[i].order, i) :: s.items[i])
  }

  /** BasketView.delete */
  function Delete(s: Store, u: Id, tokens: seq<string>): (Store, Reply) {
    if tokens == [] then (s, Missing) else
      var (s1, b) := OpenBasket(s, u);
      var (q, found) := Fold(Empty, false, b, tokens);
      if !found then (s1, Missing) else
        var t := DeleteMatching(s1, q);
        (RefreshTotal(t, b), Done(|s1.items.Keys - t.items.Keys|))
  }

  // ---------- what every basket edit leaves alone ----------

  ghost predicate IsBasket(s: Store, b: Id) {
    b in s.orders && s.orders[b].phase.Basket?
  }

  /** `t` differs from `s` only in the items of basket `b` and in its cached total; items are
      never moved to another order or product. */
  ghost predicate Edits(s: Store, t: Store, b: Id) {
    && b in s.orders && b in t.orders
    && t == s.(orders := s.orders[b := s.orders[b].(total := t.orders[b].total)],
               items := t.items, nextItem := t.nextItem)
    && s.nextItem <= t.nextItem
    && (forall i | i in s.items && s.items[i].order != b :: i in t.items)
    && (forall i | i in t.items ::
          if i in s.items then
            && t.items[i] == s.items[i].(quantity := t.items[i].quantity)
            && (s.items[i].order != b ==> t.items[i] == s.items[i])
          else s.nextItem <= i && t.items[i].order == b)
  }

  lemma EditsCompose(s: Store, t: Store, u: Store, b: Id)
    requires Edits(s, t, b) && Edits(t, u, b) && Numbered(s)
    ensures Edits(s, u, b)
  {
  }

  /** Items and offers are the same. */
  predicate SameItems(s: Store, t: Store) {
    t.items == s.items && t.nextItem == s.nextItem && t.infos == s.infos
  }

  /** The caller's basket, or the id that it gets when it is opened. */
  function BasketOf(s: Store, u: Id): Id {
    match FirstBasket(s.orders, u, s.nextOrder)
    case Some(b) => b
    case None => s.nextOrder
  }

  /** The cached total of the caller's basket; nothing for a basket yet to be opened. */
  function CachedTotal(s: Store, b: Id): int {
    if b in s.orders then s.orders[b].total else 0
  }

  /** The order rows of `t` are those of `s`, but for the cached total of the caller's basket `b`,
      which is opened under the next unused id if the caller had none. */
  ghost predicate SameOrdersBut(s: Store, t: Store, u: Id, b: Id) {
    && (forall o: Id | OwnsBasket(s, u, o) :: o == b)
    && t.orders == s.orders[b := Order(u, Basket, None, CachedTotal(t, b))]
    && (if OwnsBasket(s, u, b) then t.nextOrder == s.nextOrder
        else b !in s.orders && b == s.nextOrder && t.nextOrder == s.nextOrder + 1)
  }

  /** Between `s` and `t` only the caller's basket `b` changes: every other order keeps its row and
      its items, and so does everything that is neither an order nor an item. */
  ghost predicate OnlyBasket(s: Store, t: Store, u: Id, b: Id) {
    && t == s.(orders := t.orders, nextOrder := t.nextOrder, items := t.items, nextItem := t.nextItem)
    && SameOrdersBut(s, t, u, b)
    && (forall i | i in s.items && s.items[i].order != b :: i in t.items && t.items[i] == s.items[i])
    && (forall i | i in t.items && t.items[i].order != b :: i in s.items && t.items[i] == s.items[i])
  }

  /** From `s` to `t` the caller's one basket `b` is found and nothing changes, or exactly one empty
      basket row is added under an unused id. */
  ghost predicate Opened(s: Store, t: Store, u: Id, b: Id) {
    && (forall o: Id | OwnsBasket(s, u, o) :: o == b)
    && b in t.orders && t.orders[b] == Order(u, Basket, None, CachedTotal(s, b))
    && (if OwnsBasket(s, u, b) then t == s else
          && b == s.nextOrder && b !in s.orders
          && t == s.(orders := s.orders[b := Order(u, Basket, None, 0)], nextOrder := b + 1)
          && forall i | i in s.items :: s.items[i].order != b)
  }

  lemma OpenBasketIsExact(s: Store, u: Id)
    requires SalesValid(s)
    ensures OpenBasket(s, u).1 == BasketOf(s, u) && Opened(s, OpenBasket(s, u).0, u, OpenBasket(s, u).1)
  {
  }

  /** An edit of the opened basket, seen from before it was opened. */
  lemma EditsFromOpen(s: Store, s1: Store, t: Store, u: Id, b: Id)
    requires Opened(s, s1, u, b) && Edits(s1, t, b)
    ensures OnlyBasket(s, t, u, b)
  {
  }

  lemma OpenBasketKeepsValid(s: Store, u: Id)
    requires Valid(s)
    ensures var (t, b) := OpenBasket(s, u);
            Valid(t) && IsBasket(t, b) && t.orders[b].user == u
  {
  }

  lemma RefreshKeepsValid(s: Store, b: Id)
    requires Valid(s) && IsBasket(s, b)
    ensures var t := RefreshTotal(s, b);
            Valid(t) && IsBasket(t, b) && Edits(s, t, b)
  {
  }

  /** The row a save writes: an existing item with a new quantity, or a new item for a
      product that the order does not hold yet. */
  ghost predicate Writes(s: Store, i: Id, item: Item) {
    if i in s.items then item == s.items[i].(quantity := item.quantity)
    else i == s.nextItem && FirstItem(s.items, item.order, item.info, s.nextItem).None?
  }

  lemma PutKeepsUnique(s: Store, i: Id, item: Item)
    requires Numbered(s) && UniqueItems(s.items) && Writes(s, i, item)
    ensures UniqueItems(PutItem(s, i, item).items)
  {
  }

  lemma PutEdits(s: Store, i: Id, item: Item)
    requires Numbered(s) && IsBasket(s, item.order) && Writes(s, i, item)
    ensures Edits(s, PutItem(s, i, item), item.order)
  {
  }

  lemma PutKeepsValid(s: Store, i: Id, item: Item)
    requires Valid(s) && IsBasket(s, item.order) && item.info in s.infos && Writes(s, i, item)
    ensures Valid(PutItem(s, i, item))
  {
    PutKeepsUnique(s, i, item);
  }

  lemma SaveKeepsValid(s: Store, i: Id, item: Item)
    requires Valid(s) && IsBasket(s, item.order) && item.info in s.infos && Writes(s, i, item)
    ensures var t := SaveItem(s, i, item);
            Valid(t) && IsBasket(t, item.order) && Edits(s, t, item.order)
  {
    PutKeepsValid(s, i, item);
    PutEdits(s, i, item);
    RefreshKeepsValid(PutItem(s, i, item), item.order);
    EditsCompose(s, PutItem(s, i, item), SaveItem(s, i, item), item.order);
  }

  lemma DropKeepsValid(s: Store, t: Store, b: Id)
    requires Valid(s) && IsBasket(s, b)
    requires t == s.(items := t.items)
    requires forall i | i in t.items :: i in s.items && t.items[i] == s.items[i]
    requires forall i | i in s.items && s.items[i].order != b :: i in t.items
    ensures Valid(t) && IsBasket(t, b) && Edits(s, t, b)
  {
  }
}
