/** Placing, re-addressing and cancelling orders. */
module Orders {
  import opened Tables
  import opened Sums
  import opened Queries
  import opened Baskets

  datatype Shortage = Shortage(info: Id, requested: nat, available: int)

  datatype Reply =
    | MissingArguments
    | BasketNotFound
    | BasketIsEmpty
    | ContactNotFound
    | Unavailable(short: seq<Shortage>)
    | Placed(order: Id, total: int)
    | OrderNotFound
    | ContactChanged
    | Cancelled
    | Raised                                   // an exception left the atomic block

  predicate HasItems(s: Store, o: Id) {
    exists i :: i in s.items && s.items[i].order == o
  }

  predicate OwnsContact(s: Store, u: Id, c: Id) {
    c in s.contacts && s.contacts[c].user == u
  }

  /** The items of an order, among ids below `n`, that ask for more than is in stock. */
  function Shortages(s: Store, o: Id, n: nat): seq<Shortage> {
    if n == 0 then [] else
      Shortages(s, o, n - 1) +
      if n - 1 in s.items && s.items[n - 1].order == o && s.items[n - 1].quantity > Stock(s, s.items[n - 1].info)
      then [Shortage(s.items[n - 1].info, s.items[n - 1].quantity, Stock(s, s.items[n - 1].info))]
      else []
  }

  function Directed(up: bool, x: int): int {
    if up then x else -x
  }

  /** All offers, each with its stock moved up or down by what the order's items with an id below
      `n` hold of it. */
  function Moved(s: Store, o: Id, up: bool, n: nat): map<Id, Info> {
    map p | p in s.infos :: s.infos[p].(stock := s.infos[p].stock + Directed(up, Sum(s, Held(o, p), n)))
  }

  /** All offers at once, each with its stock reduced by what the order holds of it. */
  function Deducted(s: Store, o: Id): map<Id, Info> {
    map p | p in s.infos :: s.infos[p].(stock := s.infos[p].stock - Total(s, Held(o, p)))
  }

  /** All offers at once, each with its stock increased by what the order holds of it. */
  function Restocked(s: Store, o: Id): map<Id, Info> {
    map p | p in s.infos :: s.infos[p].(stock := s.infos[p].stock + Total(s, Held(o, p)))
  }

  lemma MovedIsAll(s: Store, o: Id)
    ensures Moved(s, o, false, s.nextItem) == Deducted(s, o) && Moved(s, o, true, s.nextItem) == Restocked(s, o)
    ensures Moved(s, o, false, 0) == s.infos && Moved(s, o, true, 0) == s.infos
  {
  }

  /** Reading, changing and saving the offer of item `i` takes the stock map one item on. */
  lemma MovedStep(s: Store, o: Id, up: bool, i: Id, m: map<Id, Info>)
    requires i in s.items && s.items[i].order == o && s.items[i].info in s.infos && m == Moved(s, o, up, i)
    ensures var p := s.items[i].info;
            && p in m && m[p].stock == s.infos[p].stock + Directed(up, Sum(s, Held(o, p), i))
            && Moved(s, o, up, i + 1) == m[p := m[p].(stock := m[p].stock + Directed(up, s.items[i].quantity))]
  {
  }

  lemma MovedStays(s: Store, o: Id, up: bool, i: Id)
    requires i in s.items ==> s.items[i].order != o
    ensures Moved(s, o, up, i + 1) == Moved(s, o, up, i) && ItemCount(s, o, i + 1) == ItemCount(s, o, i)
  {
  }

  function ItemCount(s: Store, o: Id, n: nat): nat {
    if n == 0 then 0 else ItemCount(s, o, n - 1) + if n - 1 in s.items && s.items[n - 1].order == o then 1 else 0
  }

  lemma {:induction false} ItemCountMonotone(s: Store, o: Id, n: nat, k: nat)
    requires n <= k
    ensures ItemCount(s, o, n) <= ItemCount(s, o, k)
    decreases k
  {
    if n == k {
    } else {
      ItemCountMonotone(s, o, n, k - 1);
    }
  }

  lemma ItemCounts(s: Store, o: Id, i: Id)
    requires i in s.items && s.items[i].order == o && i < s.nextItem
    ensures ItemCount(s, o, i) + 1 == ItemCount(s, o, i + 1) <= ItemCount(s, o, s.nextItem)
  {
    ItemCountMonotone(s, o, i + 1, s.nextItem);
  }

  /** A fault hits the atomic block of an order: there is one point for each save of an offer and
      `tail` points after them. */
  predicate Interrupts(s: Store, o: Id, fault: Option<nat>, tail: nat) {
    fault.Some? && fault.value < ItemCount(s, o, s.nextItem) + tail
  }

  /** In a placement: the save of the order, the notification, and the aggregate for the reply. */
  const PLACEMENT_TAIL: nat := 3

  /** In a cancellation: the save of the order and the notification. */
  const CANCELLATION_TAIL: nat := 2

  /** Where a loop over the items of an order stands before item `i`: the stocks moved so far, the
      saves made so far, and no fault met yet. */
  ghost predicate Progress(s: Store, o: Id, up: bool, i: nat, m: map<Id, Info>, writes: nat, fault: Option<nat>) {
    && m == Moved(s, o, up, i) && writes == ItemCount(s, o, i)
    && (fault.Some? ==> writes <= fault.value)
  }

  lemma ProgressStarts(s: Store, o: Id, up: bool, fault: Option<nat>)
    ensures Progress(s, o, up, 0, s.infos, 0, fault)
  {
    MovedIsAll(s, o);
  }

  lemma ProgressSkips(s: Store, o: Id, up: bool, i: Id, m: map<Id, Info>, writes: nat, fault: Option<nat>)
    requires Progress(s, o, up, i, m, writes, fault) && (i in s.items ==> s.items[i].order != o)
    ensures Progress(s, o, up, i + 1, m, writes, fault)
  {
    MovedStays(s, o, up, i);
  }

  lemma ProgressEnds(s: Store, o: Id, up: bool, m: map<Id, Info>, writes: nat, fault: Option<nat>)
    requires Progress(s, o, up, s.nextItem, m, writes, fault)
    ensures m == if up then Restocked(s, o) else Deducted(s, o)
    ensures writes == ItemCount(s, o, s.nextItem) && !(fault.Some? && fault.value < writes)
  {
    MovedIsAll(s, o);
  }

  /** All or nothing: a request specified to end in `spec` either is hit by a fault and leaves the
      database as it was, or ends exactly as specified. */
  ghost predicate AllOrNothing(before: Store, spec: (Store, Reply), fault: Option<nat>, after: Store, r: Reply) {
    if spec.1.Placed? && Interrupts(before, spec.1.order, fault, PLACEMENT_TAIL) then r.Raised? && after == before
    else r == spec.1 && after == spec.0
  }

  /** The stocks that a check over the items of an order has read, item by item. */
  function Seen(s: Store, o: Id): map<Id, int> {
    map i | i in s.items && s.items[i].order == o :: Stock(s, s.items[i].info)
  }

  /** Enough of every offer for the whole order. */
  ghost predicate InStock(s: Store, o: Id) {
    forall p | p in s.infos :: Total(s, Held(o, p)) <= s.infos[p].stock
  }

  /** With enough in stock, no step of the deduction goes below zero. */
  lemma DeductionStep(s: Store, o: Id, i: Id, m: map<Id, Info>)
    requires i in s.items && s.items[i].order == o && s.items[i].info in s.infos && i < s.nextItem
    requires m == Moved(s, o, false, i) && InStock(s, o)
    ensures var p := s.items[i].info;
            && p in m && s.items[i].quantity <= m[p].stock
            && Moved(s, o, false, i + 1) == m[p := m[p].(stock := m[p].stock - s.items[i].quantity)]
  {
    var p := s.items[i].info;
    MovedStep(s, o, false, i, m);
    SumMonotone(s, Held(o, p), i + 1, s.nextItem);
  }

  /** With (order, offer) unique, the stock seen by the check is still the current one when the
      deduction reaches the item. */
  lemma SeenIsCurrent(s: Store, o: Id, i: Id, m: map<Id, Info>)
    requires i in s.items && s.items[i].order == o && s.items[i].info in s.infos
    requires m == Moved(s, o, false, i) && UniqueItems(s.items)
    ensures s.items[i].info in m && i in Seen(s, o) && m[s.items[i].info].stock == Seen(s, o)[i]
  {
    SumSingle(s, Held(o, s.items[i].info), i, i);
  }

  function Signed(s: Store, b: Id, c: Id): map<Id, Order>
    requires b in s.orders
  {
    s.orders[b := s.orders[b].(contact := Some(c), phase := New)]
  }

  /** The atomic block of OrderView.post, once the basket has been found. */
  function Checkout(s: Store, u: Id, b: Id, c: Id): (Store, Reply)
    requires b in s.orders
  {
    if !HasItems(s, b) then (s, BasketIsEmpty)
    else if !OwnsContact(s, u, c) then (s, ContactNotFound)
    else if Shortages(s, b, s.nextItem) != [] then (s, Unavailable(Shortages(s, b, s.nextItem)))
    else (s.(infos := Deducted(s, b), orders := Signed(s, b, c)), Placed(b, Total(s, Value(b))))
  }

  function PlaceBasket(s: Store, u: Id, b: Id, c: Id): (Store, Reply) {
    if OwnsBasket(s, u, b) then Checkout(s, u, b, c) else (s, BasketNotFound)
  }

  /** OrderView.post with an order id and a contact. */
  function PlaceById(s: Store, u: Id, id: string, c: Id): (Store, Reply) {
    if IsDigits(id) then PlaceBasket(s, u, Number(id), c) else (s, MissingArguments)
  }

  /** OrderView.post with a contact alone. */
  function PlaceCurrent(s: Store, u: Id, c: Id): (Store, Reply) {
    match FirstBasket(s.orders, u, s.nextOrder)
    case Some(b) => Checkout(s, u, b, c)
    case None => (s, BasketIsEmpty)
  }

  predicate OwnsNew(s: Store, u: Id, o: Id) {
    o in s.orders && s.orders[o].user == u && s.orders[o].phase.New?
  }

  /** OrderView.put; the ids 0 count as absent. */
  function ChangeContact(s: Store, u: Id, o: Id, c: Id): (Store, Reply) {
    if o == 0 || c == 0 then (s, MissingArguments)
    else if !OwnsNew(s, u, o) then (s, OrderNotFound)
    else if !OwnsContact(s, u, c) then (s, ContactNotFound)
    else (s.(orders := s.orders[o := s.orders[o].(contact := Some(c))]), ContactChanged)
  }

  /** OrderView.delete; the id 0 counts as absent. */
  function Cancel(s: Store, u: Id, o: Id): (Store, Reply) {
    if o == 0 then (s, MissingArguments)
    else if !OwnsNew(s, u, o) then (s, OrderNotFound)
    else (s.(infos := Restocked(s, o), orders := s.orders[o := s.orders[o].(phase := Canceled)]), Cancelled)
  }

  // ---------- the availability check ----------

  lemma {:induction false} NoShortage(s: Store, o: Id, n: nat)
    ensures Shortages(s, o, n) == [] <==>
            forall i | 0 <= i < n && i in s.items && s.items[i].order == o ::
              s.items[i].quantity <= Stock(s, s.items[i].info)
  {
    if n == 0 {
    } else {
      NoShortage(s, o, n - 1);
    }
  }

  /** The per-item check passes exactly when, for every offer, the whole order's quantity is in
      stock; this is where uniqueness of (order, product) is used. */
  lemma CheckIsExact(s: Store, o: Id)
    requires Numbered(s) && UniqueItems(s.items) && ItemsLinked(s) && NoneNegative(s.infos)
    ensures Shortages(s, o, s.nextItem) == [] <==>
            forall p | p in s.infos :: Total(s, Held(o, p)) <= s.infos[p].stock
  {
    NoShortage(s, o, s.nextItem);
    forall i | i in s.items && s.items[i].order == o
      ensures Total(s, Held(o, s.items[i].info)) == s.items[i].quantity
    {
      HeldIsOneItem(s, i);
    }
    forall p | p in s.infos && forall i | i in s.items :: s.items[i].order != o || s.items[i].info != p
      ensures Total(s, Held(o, p)) == 0
    {
      HeldIsZero(s, o, p);
    }
  }

  lemma {:induction false} ShortageListed(s: Store, o: Id, n: nat, h: Shortage)
    ensures h in Shortages(s, o, n) <==>
            exists i :: 0 <= i < n && i in s.items && s.items[i].order == o && h.available < h.requested
              && h == Shortage(s.items[i].info, s.items[i].quantity, Stock(s, s.items[i].info))
  {
    if n == 0 {
    } else {
      ShortageListed(s, o, n - 1, h);
    }
  }

  /** A refusal for lack of stock names exactly the items that ask for more than there is. */
  lemma ShortagesAreExact(s: Store, o: Id, h: Shortage)
    requires Numbered(s)
    ensures h in Shortages(s, o, s.nextItem) <==>
            exists i :: i in s.items && s.items[i].order == o && h.available < h.requested
              && h == Shortage(s.items[i].info, s.items[i].quantity, Stock(s, s.items[i].info))
  {
    ShortageListed(s, o, s.nextItem, h);
  }

  /** Without that uniqueness the check proves nothing: two rows for one product, each within
      stock, pass it and the deduction goes below zero. */
  lemma CheckNeedsUniqueItems()
    ensures exists s: Store, o: Id, p: Id ::
              && CatalogueValid(s.cat) && OffersValid(s.cat, s.infos, s.nextInfo, s.values)
              && Shortages(s, o, s.nextItem) == []
              && p in s.infos && Deducted(s, o)[p].stock < 0
  {
    var cat := Catalogue(map[0 := Shop("shop", 7)], 1, map[1 := "tools"], {}, map[0 := Product("saw", 1)], 1, map[], 0);
    var s := Store(cat, map[0 := Info(0, 0, 5, "m", 10, 12, 3)], 1, map[], map[], 0,
                   map[0 := Order(9, Basket, None, 0)], 1, map[0 := Item(0, 0, 2), 1 := Item(0, 0, 2)], 2);
    NoShortage(s, 0, 2);
    assert Sum(s, Held(0, 0), 0) == 0 && Sum(s, Held(0, 0), 1) == 2 && Sum(s, Held(0, 0), 2) == 4;
    assert Deducted(s, 0)[0].stock == -1;
  }

  // ---------- validity ----------

  ghost predicate SameButStock(a: map<Id, Info>, b: map<Id, Info>) {
    a.Keys == b.Keys && forall p | p in a :: b[p] == a[p].(stock := b[p].stock)
  }

  lemma RestockKeepsOffers(s: Store, t: Store)
    requires OffersValid(s.cat, s.infos, s.nextInfo, s.values) && SameButStock(s.infos, t.infos)
    requires forall p | p in t.infos :: 0 <= t.infos[p].stock
    ensures OffersValid(s.cat, t.infos, s.nextInfo, s.values)
  {
  }

  /** Replacing one order row by one of the same user that is no basket and has a contact that the
      user owns keeps the sales tables valid. */
  lemma AdvanceKeepsSales(s: Store, t: Store, o: Id, row: Order)
    requires SalesValid(s) && o in s.orders && t.infos.Keys == s.infos.Keys
    requires t == s.(infos := t.infos, orders := s.orders[o := row])
    requires row.user == s.orders[o].user && !row.phase.Basket?
    requires row.contact.Some? && OwnsContact(s, row.user, row.contact.value)
    ensures SalesValid(t)
  {
  }

  lemma CheckoutKeepsValid(s: Store, u: Id, b: Id, c: Id)
    requires Valid(s) && OwnsBasket(s, u, b)
    ensures Valid(Checkout(s, u, b, c).0)
  {
    var (t, r) := Checkout(s, u, b, c);
    if r.Placed? {
      CheckIsExact(s, b);
      RestockKeepsOffers(s, t);
      AdvanceKeepsSales(s, t, b, t.orders[b]);
    }
  }

  lemma PlacementKeepsValid(s: Store, u: Id, id: string, c: Id)
    requires Valid(s)
    ensures Valid(PlaceById(s, u, id, c).0) && Valid(PlaceCurrent(s, u, c).0)
  {
    if IsDigits(id) && OwnsBasket(s, u, Number(id)) {
      CheckoutKeepsValid(s, u, Number(id), c);
    }
    match FirstBasket(s.orders, u, s.nextOrder)
    case Some(b) => CheckoutKeepsValid(s, u, b, c);
    case None =>
  }

  lemma CancelKeepsValid(s: Store, u: Id, o: Id)
    requires Valid(s)
    ensures Valid(Cancel(s, u, o).0)
  {
    var (t, r) := Cancel(s, u, o);
    if r.Cancelled? {
      forall p | p in s.infos ensures 0 <= Total(s, Held(o, p)) {
        TotalBounds(s, Held(o, p), 0);
      }
      RestockKeepsOffers(s, t);
      AdvanceKeepsSales(s, t, o, t.orders[o]);
    }
  }

  lemma ChangeContactKeepsValid(s: Store, u: Id, o: Id, c: Id)
    requires Valid(s)
    ensures Valid(ChangeContact(s, u, o, c).0)
  {
    var (t, r) := ChangeContact(s, u, o, c);
    if r.ContactChanged? {
      AdvanceKeepsSales(s, t, o, t.orders[o]);
    }
  }

  // ---------- what each request does ----------

  /** One order row is replaced, stocks are moved, and nothing else in the database changes. */
  ghost predicate OnlyOrder(s: Store, t: Store, o: Id, row: Order) {
    && t == s.(infos := t.infos, orders := t.orders) && SameButStock(s.infos, t.infos)
    && t.orders.Keys == s.orders.Keys && o in t.orders && t.orders[o] == row
    && forall x | x in s.orders && x != o :: t.orders[x] == s.orders[x]
  }

  /** The list names exactly the items of the order that ask for more than their offer has, with
      what they ask for and what there is, and no offer twice. */
  ghost predicate NamesShortages(s: Store, o: Id, short: seq<Shortage>) {
    && (forall h :: h in short <==> exists i :: Lacks(s, o, i) && h == ShortageOf(s, i))
    && (forall j, k | 0 <= j < k < |short| :: short[j].info != short[k].info)
  }

  /** Item `i` of the order asks for more than its offer has. */
  predicate Lacks(s: Store, o: Id, i: Id) {
    && i in s.items && s.items[i].order == o && s.items[i].info in s.infos
    && s.infos[s.items[i].info].stock < s.items[i].quantity
  }

  function ShortageOf(s: Store, i: Id): Shortage
    requires i in s.items && s.items[i].info in s.infos
  {
    Shortage(s.items[i].info, s.items[i].quantity, s.infos[s.items[i].info].stock)
  }

  /** How a request to place the caller's basket `b` ends: refused for no items, for a contact that
      is not the caller's, for lack of stock with the list of what lacks, in this order and with
      nothing changed; or placed, with every stock down by what the basket holds, contact and state
      set, and the sum reported. */
  ghost predicate Answers(s: Store, u: Id, b: Id, c: Id, t: Store, r: Reply)
    requires b in s.orders
  {
    if !HasItems(s, b) then r.BasketIsEmpty? && t == s
    else if !OwnsContact(s, u, c) then r.ContactNotFound? && t == s
    else if !InStock(s, b) then r.Unavailable? && NamesShortages(s, b, r.short) && t == s
    else
      && OnlyOrder(s, t, b, Order(u, New, Some(c), s.orders[b].total))
      && (forall p | p in s.infos :: t.infos[p].stock == s.infos[p].stock - Total(s, Held(b, p)))
      && r == Placed(b, Total(s, Value(b)))
  }

  /** How a request that names a basket ends. */
  ghost predicate AnswersNamed(s: Store, u: Id, id: string, c: Id, t: Store, r: Reply) {
    if !IsDigits(id) then r.MissingArguments? && t == s
    else if !OwnsBasket(s, u, Number(id)) then r.BasketNotFound? && t == s
    else Answers(s, u, Number(id), c, t, r)
  }

  /** How a request that names no basket ends. */
  ghost predicate AnswersOwn(s: Store, u: Id, c: Id, t: Store, r: Reply) {
    && ((forall b: Id :: !OwnsBasket(s, u, b)) ==> r.BasketIsEmpty? && t == s)
    && (forall b: Id | OwnsBasket(s, u, b) :: Answers(s, u, b, c, t, r))
  }

  /** An item of the order with an id below `n` is for offer `p`. */
  ghost predicate HoldsBelow(s: Store, o: Id, p: Id, n: nat) {
    exists i :: 0 <= i < n && i in s.items && s.items[i].order == o && s.items[i].info == p
  }

  lemma {:induction false} ShortagesDistinct(s: Store, o: Id, n: nat)
    requires UniqueItems(s.items)
    ensures forall h | h in Shortages(s, o, n) :: HoldsBelow(s, o, h.info, n)
    ensures forall j, k | 0 <= j < k < |Shortages(s, o, n)| :: Shortages(s, o, n)[j].info != Shortages(s, o, n)[k].info
  {
    if n == 0 {
    } else {
      ShortagesDistinct(s, o, n - 1);
      var before, short := Shortages(s, o, n - 1), Shortages(s, o, n);
      assert forall k | 0 <= k < |before| :: before[k] in before && short[k] == before[k];
      assert forall p | HoldsBelow(s, o, p, n - 1) :: HoldsBelow(s, o, p, n);
    }
  }

  lemma ShortagesAreNamed(s: Store, o: Id)
    requires Numbered(s) && ItemsLinked(s) && UniqueItems(s.items)
    ensures NamesShortages(s, o, Shortages(s, o, s.nextItem))
  {
    ShortagesDistinct(s, o, s.nextItem);
    forall h
      ensures h in Shortages(s, o, s.nextItem) <==> exists i :: Lacks(s, o, i) && h == ShortageOf(s, i)
    {
      ShortagesAreExact(s, o, h);
      if i :| Lacks(s, o, i) && h == ShortageOf(s, i) {
        assert h.available < h.requested;
      }
      if i :| i in s.items && s.items[i].order == o && h.available < h.requested
              && h == Shortage(s.items[i].info, s.items[i].quantity, Stock(s, s.items[i].info))
      {
        assert Lacks(s, o, i) && h == ShortageOf(s, i);
      }
    }
  }

  /** What the atomic block of a placement does to the caller's basket and answers. */
  lemma CheckoutAnswers(s: Store, u: Id, b: Id, c: Id)
    requires Valid(s) && OwnsBasket(s, u, b)
    ensures Answers(s, u, b, c, Checkout(s, u, b, c).0, Checkout(s, u, b, c).1)
  {
    CheckIsExact(s, b);
    ShortagesAreNamed(s, b);
  }

  /** A basket is placed exactly when it is the caller's, is not empty, the contact is the
      caller's, and every offer has the whole quantity; then every stock goes down by what the
      basket holds, contact and state are set, and the sum is reported. A refusal changes nothing. */
  lemma PlacementIsExact(s: Store, u: Id, b: Id, c: Id)
    requires Valid(s)
    ensures var (t, r) := PlaceBasket(s, u, b, c);
            && (r.Placed? <==> OwnsBasket(s, u, b) && HasItems(s, b) && OwnsContact(s, u, c) && InStock(s, b))
            && (!r.Placed? ==> t == s)
            && (r.Placed? ==>
                  && OnlyOrder(s, t, b, Order(u, New, Some(c), s.orders[b].total))
                  && (forall p | p in s.infos :: t.infos[p].stock == s.infos[p].stock - Total(s, Held(b, p)))
                  && r.order == b && r.total == Total(t, Value(b)))
            && (if OwnsBasket(s, u, b) then Answers(s, u, b, c, t, r) else r.BasketNotFound?)
  {
    if OwnsBasket(s, u, b) {
      CheckoutAnswers(s, u, b, c);
      var (t, r) := PlaceBasket(s, u, b, c);
      if r.Placed? {
        SameValues(s, t, b);
      }
    }
  }

  /** The request that names a basket answers as described. */
  lemma NamedPlacementAnswers(s: Store, u: Id, id: string, c: Id)
    requires Valid(s)
    ensures AnswersNamed(s, u, id, c, PlaceById(s, u, id, c).0, PlaceById(s, u, id, c).1)
  {
    if IsDigits(id) && OwnsBasket(s, u, Number(id)) {
      CheckoutAnswers(s, u, Number(id), c);
    }
  }

  /** The request that names no basket answers as described, for the one basket of the caller. */
  lemma OwnPlacementAnswers(s: Store, u: Id, c: Id)
    requires Valid(s)
    ensures AnswersOwn(s, u, c, PlaceCurrent(s, u, c).0, PlaceCurrent(s, u, c).1)
  {
    if FirstBasket(s.orders, u, s.nextOrder).Some? {
      assert OwnsBasket(s, u, FirstBasket(s.orders, u, s.nextOrder).value);
    }
    forall b: Id | OwnsBasket(s, u, b)
      ensures Answers(s, u, b, c, PlaceCurrent(s, u, c).0, PlaceCurrent(s, u, c).1)
    {
      assert FirstBasket(s.orders, u, s.nextOrder) == Some(b);
      CheckoutAnswers(s, u, b, c);
    }
  }

  /** An order is cancelled exactly when it is the caller's and new; then every stock goes up by
      what the order holds. A refusal changes nothing and says what was missing. */
  lemma CancellationIsExact(s: Store, u: Id, o: Id)
    ensures var (t, r) := Cancel(s, u, o);
            && (r.Cancelled? <==> o != 0 && OwnsNew(s, u, o))
            && (!r.Cancelled? ==> t == s && r == if o == 0 then MissingArguments else OrderNotFound)
            && (r.Cancelled? ==>
                  && OnlyOrder(s, t, o, s.orders[o].(phase := Canceled))
                  && forall p | p in s.infos :: t.infos[p].stock == s.infos[p].stock + Total(s, Held(o, p)))
  {
  }

  lemma RestockUndoesDeduction(s: Store, t: Store, o: Id)
    requires Numbered(s) && t == s.(infos := Deducted(s, o), orders := t.orders)
    ensures Restocked(t, o) == s.infos
  {
    forall p: Id ensures Total(t, Held(o, p)) == Total(s, Held(o, p)) {
      TotalSame(s, Held(o, p), t, Held(o, p));
    }
  }

  /** An order is re-addressed exactly when it is the caller's and new and the contact is the
      caller's; nothing but its contact changes. */
  lemma ReaddressingIsExact(s: Store, u: Id, o: Id, c: Id)
    ensures var (t, r) := ChangeContact(s, u, o, c);
            && (r.ContactChanged? <==> o != 0 && c != 0 && OwnsNew(s, u, o) && OwnsContact(s, u, c))
            && (!r.ContactChanged? ==>
                  t == s && r == if o == 0 || c == 0 then MissingArguments
                                 else if OwnsNew(s, u, o) then ContactNotFound else OrderNotFound)
            && (r.ContactChanged? ==> t.infos == s.infos && OnlyOrder(s, t, o, s.orders[o].(contact := Some(c))))
  {
  }

  /** Placing and then cancelling gives back the database as it was, but for the order's contact
      and state. */
  lemma CancelUndoesPlacement(s: Store, u: Id, b: Id, c: Id)
    requires Numbered(s) && b != 0 && PlaceBasket(s, u, b, c).1.Placed?
    ensures var t := PlaceBasket(s, u, b, c).0;
            Cancel(t, u, b).0 == s.(orders := s.orders[b := s.orders[b].(contact := Some(c), phase := Canceled)])
  {
    RestockUndoesDeduction(s, PlaceBasket(s, u, b, c).0, b);
  }

  // ---------- the stock ledger ----------

  /** What is in stock plus what the orders in state `new` have taken. */
  function Ledger(s: Store, p: Id): int {
    Stock(s, p) + Total(s, Committed(p))
  }

  lemma CheckoutKeepsLedger(s: Store, u: Id, b: Id, c: Id, p: Id)
    requires Numbered(s) && OwnsBasket(s, u, b) && p in s.infos
    ensures Ledger(Checkout(s, u, b, c).0, p) == Ledger(s, p)
  {
    var (t, r) := Checkout(s, u, b, c);
    if r.Placed? {
      TotalSplits(t, Committed(p), s, Committed(p), s, Held(b, p));
    }
  }

  lemma CancelKeepsLedger(s: Store, u: Id, o: Id, p: Id)
    requires Numbered(s) && p in s.infos
    ensures Ledger(Cancel(s, u, o).0, p) == Ledger(s, p)
  {
    var (t, r) := Cancel(s, u, o);
    if r.Cancelled? {
      TotalSplits(s, Committed(p), t, Committed(p), s, Held(o, p));
    }
  }

  lemma ChangeContactKeepsLedger(s: Store, u: Id, o: Id, c: Id, p: Id)
    requires Numbered(s)
    ensures Ledger(ChangeContact(s, u, o, c).0, p) == Ledger(s, p)
  {
    TotalSame(s, Committed(p), ChangeContact(s, u, o, c).0, Committed(p));
  }

  // ---------- the cached total ----------

  /** Neither stocks nor order rows enter an order's sum. */
  lemma SameValues(s: Store, t: Store, o: Id)
    requires t == s.(infos := t.infos, orders := t.orders) && SameButStock(s.infos, t.infos)
    ensures Total(t, Value(o)) == Total(s, Value(o))
  {
    SumsSame(s, t, Value(o), s.nextItem);
  }

  // ---------- the two forms of the request ----------

  /** Naming the basket and leaving it out are the same request: with the id of the user's
      basket (and with no other id) both are accepted together, end in the same database and
      report the same total. */
  lemma BothFormsAgree(s: Store, u: Id, id: string, c: Id)
    requires Valid(s)
    ensures PlaceById(s, u, id, c).1.Placed? <==>
            IsDigits(id) && PlaceCurrent(s, u, c).1.Placed? && PlaceCurrent(s, u, c).1.order == Number(id)
    ensures PlaceById(s, u, id, c).1.Placed? ==> PlaceById(s, u, id, c) == PlaceCurrent(s, u, c)
    ensures IsDigits(id) && OwnsBasket(s, u, Number(id)) ==> PlaceById(s, u, id, c) == PlaceCurrent(s, u, c)
  {
    if IsDigits(id) && OwnsBasket(s, u, Number(id)) {
      var b := Number(id);
      assert FirstBasket(s.orders, u, s.nextOrder) == Some(b);
    }
  }
}
