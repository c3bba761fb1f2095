/** The tables as mutable state, and the view methods and the import task that change them, loop
    by loop. Each method is tied to the function that specifies it; the functions carry the
    theorems. Rows of one table are visited in id order. */
module Databases {
  import opened Tables
  import opened Sums
  import opened Queries
  import B = Baskets
  import opened BatchAdd
  import opened BatchUpdate
  import opened Requests
  import O = Orders
  import C = Contacts
  import opened Imports
  import opened ImportStages
  import opened ImportTheorems
  import I = ImportOutcome
  import opened Totals
  import opened Runs

  class Database {
    var shops: map<Id, Shop>
    var nextShop: Id
    var categories: map<Id, string>
    var links: set<(Id, Id)>
    var products: map<Id, Product>
    var nextProduct: Id
    var parameters: map<Id, string>
    var nextParameter: Id
    var infos: map<Id, Info>
    var nextInfo: Id
    var values: map<(Id, Id), string>
    var contacts: map<Id, Contact>
    var nextContact: Id
    var orders: map<Id, Order>
    var nextOrder: Id
    var items: map<Id, Item>
    var nextItem: Id

    function Cat(): Catalogue reads this {
      Catalogue(shops, nextShop, categories, links, products, nextProduct, parameters, nextParameter)
    }

    function State(): Store reads this {
      Store(Cat(), infos, nextInfo, values, contacts, nextContact, orders, nextOrder, items, nextItem)
    }

    /** Every item points to an existing offer. */
    ghost predicate Linked() reads this {
      forall i | i in items :: items[i].info in infos
    }

    /** The part of the invariant that the order methods rest on. */
    ghost predicate Sound() reads this {
      && Numbered(State()) && ItemsLinked(State()) && UniqueItems(items) && NoneNegative(infos)
    }

    constructor ()
      ensures State() == FRESH && Valid(State())
    {
      shops, nextShop, categories, links := map[], 1, map[], {};
      products, nextProduct, parameters, nextParameter := map[], 1, map[], 1;
      infos, nextInfo, values := map[], 1, map[];
      contacts, nextContact, orders, nextOrder, items, nextItem := map[], 1, map[], 1, map[], 1;
    }

    // ---------- cached totals ----------

    /** `Order.calculate_total_price` */
    method CalculateTotalPrice(o: Id) returns (total: int)
      requires o in orders && Linked()
      modifies this`orders
      ensures State() == B.RefreshTotal(old(State()), o) && total == Total(old(State()), Value(o))
    {
      total := 0;
      for i := 0 to nextItem
        invariant total == Sum(State(), Value(o), i)
      {
        if i in items && items[i].order == o {
          total := total + items[i].quantity * infos[items[i].info].price;
        }
      }
      orders := orders[o := orders[o].(total := total)];
    }

    /** `OrderItem.save`. The database refuses a second row for one (order, product); that no
        caller runs into this is the first precondition. */
    method SaveItem(i: Id, item: Item)
      requires forall j | j in items && j != i :: items[j].order != item.order || items[j].info != item.info
      requires item.order in orders && item.info in infos && Linked()
      modifies this`orders, this`items, this`nextItem
      ensures State() == B.SaveItem(old(State()), i, item)
    {
      items := items[i := item];
      nextItem := if i < nextItem then nextItem else i + 1;
      var _ := CalculateTotalPrice(item.order);
    }

    /** The SQL aggregate over the items of an order. */
    method AggregateTotal(o: Id) returns (total: Option<int>)
      requires Linked()
      ensures total == SqlSum(State(), o, nextItem)
    {
      total := None;
      for i := 0 to nextItem
        invariant total == SqlSum(State(), o, i)
      {
        if i in items && items[i].order == o {
          total := Some(OrZero(total) + items[i].quantity * infos[items[i].info].price);
        }
      }
    }

    /** BasketView._update_basket_total; a missing order is ignored. */
    method UpdateBasketTotal(b: Id)
      requires Linked()
      modifies this`orders
      ensures State() == B.RefreshTotal(old(State()), b)
    {
      if b in orders {
        var total := AggregateTotal(b);
        SqlSumIsSum(State(), b, nextItem);
        orders := orders[b := orders[b].(total := OrZero(total))];
      }
    }

    /** The loop of both e-mail tasks. */
    method EmailTotal(o: Id) returns (lines: seq<(nat, nat, int)>, total: int)
      requires Linked()
      ensures lines == EmailLines(State(), o, nextItem)
      ensures total == Total(State(), Value(o)) == Amounts(lines)
      ensures exists ids :: ItemIds(State(), o, nextItem, ids) && LinesSay(State(), ids, lines)
    {
      lines, total := [], 0;
      for i := 0 to nextItem
        invariant total == Sum(State(), Value(o), i) && lines == EmailLines(State(), o, i)
      {
        if i in items && items[i].order == o {
          var amount := items[i].quantity * infos[items[i].info].price;
          total := total + amount;
          lines := lines + [(items[i].quantity, infos[items[i].info].price, amount)];
        }
      }
      EmailLinesAddUp(State(), o, nextItem);
      var _ := EmailHasEveryLine(State(), o, nextItem);
    }

    /** The aggregate of PartnerOrders.get for one order: the items of this supplier only. */
    method SupplierTotal(o: Id, supplier: Id) returns (total: int)
      requires Valid(State())
      ensures total == Total(State(), Supplied(o, supplier))
    {
      total := 0;
      for i := 0 to nextItem
        invariant total == Sum(State(), Supplied(o, supplier), i)
      {
        if i in items && items[i].order == o && shops[infos[items[i].info].shop].owner == supplier {
          total := total + items[i].quantity * infos[items[i].info].price;
        }
      }
    }

    // ---------- the basket ----------

    method GetOrCreateBasket(u: Id) returns (b: Id)
      modifies this`orders, this`nextOrder
      ensures (State(), b) == B.OpenBasket(old(State()), u)
    {
      match FirstBasket(orders, u, nextOrder)
      case Some(found) =>
        b := found;
      case None =>
        b := nextOrder;
        orders := orders[b := Order(u, Basket, None, 0)];
        nextOrder := nextOrder + 1;
    }

    /** The body of the loop of BasketView.post. */
    method PostEntry(b: Id, e: B.AddEntry) returns (errors: seq<B.Error>, count: nat)
      requires Linked() && UniqueItems(items) && Numbered(State()) && b in orders
      modifies this`orders, this`items, this`nextItem
      ensures B.Batch(State(), errors, count) == B.AddOne(old(State()), b, e)
    {
      errors, count := B.Refused(State(), e), 0;
      if errors != [] {
        return;
      }
      var available := infos[e.info].stock;
      if e.quantity > available {
        errors := [B.NotEnough(e.info, available)];
        return;
      }
      match FirstItem(items, b, e.info, nextItem)
      case Some(i) =>
        var quantity := items[i].quantity + e.quantity;
        if quantity > available {
          errors := [B.NotEnoughMerged(e.info, available, quantity)];
          return;
        }
        SaveItem(i, items[i].(quantity := quantity));
        count := 1;
      case None =>
        SaveItem(nextItem, Item(b, e.info, e.quantity));
        count := 1;
    }

    method PostEntries(b: Id, entries: seq<B.AddEntry>) returns (errors: seq<B.Error>, created: nat)
      requires Valid(State()) && B.IsBasket(State(), b)
      modifies this`orders, this`items, this`nextItem
      ensures B.Batch(State(), errors, created) == B.AddAll(old(State()), b, entries)
      ensures Valid(State())
    {
      ghost var whole := B.AddAll(State(), b, entries);
      errors, created := [], 0;
      for k := 0 to |entries|
        invariant Valid(State()) && B.IsBasket(State(), b)
        invariant whole == Onto(errors, created, B.AddAll(State(), b, entries[k..]))
      {
        AddAllStep(State(), b, entries, k, errors, created);
        AddOneValid(State(), b, entries[k]);
        ghost var before := State();
        var failed, count := PostEntry(b, entries[k]);
        assert State() == B.AddOne(before, b, entries[k]).store;
        errors := errors + failed;
        created := created + count;
      }
    }

    /** The end of both batch requests: errors are reported, or else the total is refreshed. */
    method SettleBatch(b: Id, errors: seq<B.Error>, count: nat) returns (reply: B.Reply)
      requires Linked()
      modifies this`orders
      ensures (State(), reply) == B.Settle(B.Batch(old(State()), errors, count), b)
    {
      if errors != [] {
        return B.Failed(errors);
      }
      UpdateBasketTotal(b);
      return B.Done(count);
    }

    method PostList(u: Id, entries: seq<B.AddEntry>) returns (reply: B.Reply)
      requires Valid(State())
      modifies this`orders, this`nextOrder, this`items, this`nextItem
      ensures var (s, b) := B.OpenBasket(old(State()), u);
              (State(), reply) == B.Settle(B.AddAll(s, b, entries), b)
    {
      B.OpenBasketKeepsValid(State(), u);
      var b := GetOrCreateBasket(u);
      var errors, created := PostEntries(b, entries);
      reply := SettleBatch(b, errors, created);
    }

    /** BasketView.post */
    method BasketPost(u: Id, payload: B.Payload<B.AddEntry>) returns (reply: B.Reply)
      requires Valid(State())
      modifies this`orders, this`nextOrder, this`items, this`nextItem
      ensures (State(), reply) == B.Post(old(State()), u, payload)
      ensures Valid(State()) && Posts(old(State()), u, payload, State(), reply)
    {
      PostIsExact(State(), u, payload);
      if B.Absent(payload) {
        return B.Missing;
      }
      reply := PostList(u, payload.entries);
    }

    /** The body of the loop of BasketView.put. */
    method PutEntry(b: Id, e: B.UpdateEntry) returns (errors: seq<B.Error>, count: nat)
      requires Linked() && UniqueItems(items) && Numbered(State()) && b in orders
      modifies this`orders, this`items, this`nextItem
      ensures B.Batch(State(), errors, count) == B.UpdateOne(old(State()), b, e)
    {
      errors, count := [], 0;
      match e
      case Untyped =>
      case Set(id, quantity) =>
        if !B.InBasket(State(), b, id) {
          errors := [B.NotInBasket(id)];
          return;
        }
        var offer := items[id].info;
        if quantity > infos[offer].stock {
          errors := [B.NotEnough(offer, infos[offer].stock)];
        } else if quantity <= 0 {
          items := items - {id};
        } else {
          SaveItem(id, items[id].(quantity := quantity));
          count := 1;
        }
    }

    method PutEntries(b: Id, entries: seq<B.UpdateEntry>) returns (errors: seq<B.Error>, updated: nat)
      requires Valid(State()) && B.IsBasket(State(), b)
      modifies this`orders, this`items, this`nextItem
      ensures B.Batch(State(), errors, updated) == B.UpdateAll(old(State()), b, entries)
      ensures Valid(State())
    {
      ghost var whole := B.UpdateAll(State(), b, entries);
      errors, updated := [], 0;
      for k := 0 to |entries|
        invariant Valid(State()) && B.IsBasket(State(), b)
        invariant whole == Onto(errors, updated, B.UpdateAll(State(), b, entries[k..]))
      {
        UpdateAllStep(State(), b, entries, k, errors, updated);
        UpdateOneValid(State(), b, entries[k]);
        ghost var before := State();
        var failed, count := PutEntry(b, entries[k]);
        assert State() == B.UpdateOne(before, b, entries[k]).store;
        errors := errors + failed;
        updated := updated + count;
      }
    }

    method PutList(u: Id, entries: seq<B.UpdateEntry>) returns (reply: B.Reply)
      requires Valid(State())
      modifies this`orders, this`nextOrder, this`items, this`nextItem
      ensures var (s, b) := B.OpenBasket(old(State()), u);
              (State(), reply) == B.Settle(B.UpdateAll(s, b, entries), b)
    {
      B.OpenBasketKeepsValid(State(), u);
      var b := GetOrCreateBasket(u);
      var errors, updated := PutEntries(b, entries);
      reply := SettleBatch(b, errors, updated);
    }

    /** BasketView.put */
    method BasketPut(u: Id, payload: B.Payload<B.UpdateEntry>) returns (reply: B.Reply)
      requires Valid(State())
      modifies this`orders, this`nextOrder, this`items, this`nextItem
      ensures (State(), reply) == B.Put(old(State()), u, payload)
      ensures Valid(State()) && Puts(old(State()), u, payload, State(), reply)
    {
      PutIsExact(State(), u, payload);
      if B.Absent(payload) {
        return B.Missing;
      }
      reply := PutList(u, payload.entries);
    }

    /** The loop that folds an id list into a filter. */
    method FoldIds(owner: Id, tokens: seq<string>) returns (query: Query, found: bool)
      ensures (query, found) == Fold(Empty, false, owner, tokens)
    {
      query, found := Empty, false;
      for k := 0 to |tokens|
        invariant Fold(query, found, owner, tokens[k..]) == Fold(Empty, false, owner, tokens)
      {
        assert tokens[k..][0] == tokens[k] && tokens[k..][1..] == tokens[k + 1..];
        if IsDigits(tokens[k]) {
          query := Combine(query, Row(owner, Number(tokens[k])));
          found := true;
        }
      }
    }

    method DeleteItems(query: Query) returns (count: nat)
      modifies this`items
      ensures State() == B.DeleteMatching(old(State()), query) && count == |old(items).Keys - items.Keys|
    {
      var kept := map i | i in items && !Matches(query, items[i].order, i) :: items[i];
      count := |items.Keys - kept.Keys|;
      items := kept;
    }

    /** BasketView.delete */
    method BasketDelete(u: Id, tokens: seq<string>) returns (reply: B.Reply)
      requires Valid(State())
      modifies this`orders, this`nextOrder, this`items
      ensures (State(), reply) == B.Delete(old(State()), u, tokens)
      ensures Valid(State()) && RemovesListed(old(State()), u, tokens, State(), reply)
      ensures tokens == [] ==> State() == old(State()) && reply.Missing?
    {
      DeleteIsExact(State(), u, tokens);
      if tokens == [] {
        return B.Missing;
      }
      B.OpenBasketKeepsValid(State(), u);
      var b := GetOrCreateBasket(u);
      var query, found := FoldIds(b, tokens);
      if found {
        var count := DeleteItems(query);
        UpdateBasketTotal(b);
        return B.Done(count);
      }
      return B.Missing;
    }

    // ---------- orders ----------

    /** `ProductInfo.save` of a changed stock. The database refuses a negative one; that no caller
        runs into this is the second precondition. */
    method SaveStock(p: Id, stock: int)
      requires p in infos
      requires 0 <= stock
      modifies this`infos
      ensures infos == old(infos)[p := old(infos)[p].(stock := stock)]
    {
      infos := infos[p := infos[p].(stock := stock)];
    }

    /** The checks before an order is placed, common to both forms. */
    method Refusal(u: Id, b: Id, c: Id) returns (refusal: Option<O.Reply>)
      requires Linked() && b in orders
      ensures var (t, r) := O.Checkout(State(), u, b, c);
              if refusal.Some? then t == State() && r == refusal.value && !r.Raised? && !r.Placed?
              else r.Placed? && t.infos == O.Deducted(State(), b)
    {
      if !exists i :: i in items && items[i].order == b {
        return Some(O.BasketIsEmpty);
      }
      if !(c in contacts && contacts[c].user == u) {
        return Some(O.ContactNotFound);
      }
      var short := [];
      for i := 0 to nextItem
        invariant short == O.Shortages(State(), b, i)
      {
        if i in items && items[i].order == b && items[i].quantity > infos[items[i].info].stock {
          short := short + [O.Shortage(items[i].info, items[i].quantity, infos[items[i].info].stock)];
        }
      }
      if short != [] {
        return Some(O.Unavailable(short));
      }
      return None;
    }

    /** Both forms end alike: contact and state together, the notification, and the aggregate for
        the reply. */
    method Sign(b: Id, c: Id, fault: Option<nat>, writes: nat) returns (r: O.Reply)
      requires b in orders && Linked()
      modifies this`orders
      ensures r.Raised? <==> fault.Some? && writes <= fault.value < writes + O.PLACEMENT_TAIL
      ensures !r.Raised? ==> orders == O.Signed(old(State()), b, c) && r == O.Placed(b, Total(old(State()), Value(b)))
    {
      if fault == Some(writes) {
        return O.Raised;
      }
      ghost var s := State();
      orders := orders[b := orders[b].(contact := Some(c), phase := New)];
      if fault == Some(writes + 1) || fault == Some(writes + 2) {
        return O.Raised;
      }
      var total := AggregateTotal(b);
      SqlSumIsSum(State(), b, nextItem);
      O.SameValues(s, State(), b);
      return O.Placed(b, OrZero(total));
    }

    /** One turn of the deduction loop, writing a stock computed from `read`. With
        `fault == Some(k)` an exception takes the place of save number `k`. */
    method DeductItem(ghost s: Store, b: Id, i: Id, read: int, fault: Option<nat>, writes: nat) returns (raised: bool)
      requires i in s.items && s.items[i].order == b && i < s.nextItem && s.items[i].info in s.infos
      requires O.InStock(s, b) && O.Progress(s, b, false, i, infos, writes, fault) && items == s.items
      requires s.items[i].info in infos && read == infos[s.items[i].info].stock
      modifies this`infos
      ensures raised ==> fault.Some? && fault.value < O.ItemCount(s, b, s.nextItem)
      ensures !raised ==> O.Progress(s, b, false, i + 1, infos, writes + 1, fault)
    {
      O.ItemCounts(s, b, i);
      if fault == Some(writes) {
        return true;
      }
      O.DeductionStep(s, b, i, infos);
      SaveStock(items[i].info, read - items[i].quantity);
      return false;
    }

    /** The deduction loop of OrderView.post with an id: each offer is read anew, changed and
        saved. */
    method DeductFresh(b: Id, fault: Option<nat>) returns (raised: bool, writes: nat)
      requires Linked() && O.InStock(State(), b)
      modifies this`infos
      ensures raised <==> fault.Some? && fault.value < O.ItemCount(old(State()), b, nextItem)
      ensures !raised ==> infos == O.Deducted(old(State()), b) && writes == O.ItemCount(old(State()), b, nextItem)
    {
      ghost var s := State();
      O.ProgressStarts(s, b, false, fault);
      raised, writes := false, 0;
      for i := 0 to nextItem
        invariant !raised && O.Progress(s, b, false, i, infos, writes, fault)
      {
        if i in items && items[i].order == b {
          raised := DeductItem(s, b, i, infos[items[i].info].stock, fault, writes);
          if raised {
            return;
          }
          writes := writes + 1;
        } else {
          O.ProgressSkips(s, b, false, i, infos, writes, fault);
        }
      }
      O.ProgressEnds(s, b, false, infos, writes, fault);
    }

    /** The same loop of OrderView.post without an id: the items and their offers were read by the
        availability check and are not read again, so the loop writes stocks computed from what it
        saw then. That this makes no difference rests on the uniqueness of (order, offer). */
    method DeductCached(b: Id, fault: Option<nat>) returns (raised: bool, writes: nat)
      requires Linked() && O.InStock(State(), b) && UniqueItems(items)
      modifies this`infos
      ensures raised <==> fault.Some? && fault.value < O.ItemCount(old(State()), b, nextItem)
      ensures !raised ==> infos == O.Deducted(old(State()), b) && writes == O.ItemCount(old(State()), b, nextItem)
    {
      ghost var s := State();
      O.ProgressStarts(s, b, false, fault);
      var seen := O.Seen(State(), b);
      raised, writes := false, 0;
      for i := 0 to nextItem
        invariant !raised && O.Progress(s, b, false, i, infos, writes, fault)
      {
        if i in items && items[i].order == b {
          O.SeenIsCurrent(s, b, i, infos);
          raised := DeductItem(s, b, i, seen[i], fault, writes);
          if raised {
            return;
          }
          writes := writes + 1;
        } else {
          O.ProgressSkips(s, b, false, i, infos, writes, fault);
        }
      }
      O.ProgressEnds(s, b, false, infos, writes, fault);
    }

    /** The atomic block of OrderView.post with an id. A fault can also take the place of the save
        of the order, of the notification and of the aggregate; what was written before it stays. */
    method CheckoutFresh(u: Id, b: Id, c: Id, fault: Option<nat>) returns (r: O.Reply)
      requires Sound() && b in orders
      modifies this`infos, this`orders
      ensures r.Raised? <==>
              O.Checkout(old(State()), u, b, c).1.Placed? && O.Interrupts(old(State()), b, fault, O.PLACEMENT_TAIL)
      ensures !r.Raised? ==> (State(), r) == O.Checkout(old(State()), u, b, c)
    {
      var refusal := Refusal(u, b, c);
      if refusal.Some? {
        return refusal.value;
      }
      ghost var s := State();
      AcceptedIsInStock(s, u, b, c);
      var raised, writes := DeductFresh(b, fault);
      if raised {
        return O.Raised;
      }
      O.SameValues(s, State(), b);
      r := Sign(b, c, fault, writes);
    }

    /** The atomic block of OrderView.post without an id. */
    method CheckoutCached(u: Id, b: Id, c: Id, fault: Option<nat>) returns (r: O.Reply)
      requires Sound() && b in orders
      modifies this`infos, this`orders
      ensures r.Raised? <==>
              O.Checkout(old(State()), u, b, c).1.Placed? && O.Interrupts(old(State()), b, fault, O.PLACEMENT_TAIL)
      ensures !r.Raised? ==> (State(), r) == O.Checkout(old(State()), u, b, c)
    {
      var refusal := Refusal(u, b, c);
      if refusal.Some? {
        return refusal.value;
      }
      ghost var s := State();
      AcceptedIsInStock(s, u, b, c);
      var raised, writes := DeductCached(b, fault);
      if raised {
        return O.Raised;
      }
      O.SameValues(s, State(), b);
      r := Sign(b, c, fault, writes);
    }

    /** The first form with its roll-back. */
    method AtomicFresh(u: Id, b: Id, c: Id, fault: Option<nat>) returns (r: O.Reply)
      requires Sound() && b in orders
      modifies this`infos, this`orders
      ensures O.AllOrNothing(old(State()), O.Checkout(old(State()), u, b, c), fault, State(), r)
    {
      var savedInfos, savedOrders := infos, orders;
      r := CheckoutFresh(u, b, c, fault);
      if r.Raised? {
        infos, orders := savedInfos, savedOrders;
      }
    }

    /** The second form with its roll-back. */
    method AtomicCached(u: Id, b: Id, c: Id, fault: Option<nat>) returns (r: O.Reply)
      requires Sound() && b in orders
      modifies this`infos, this`orders
      ensures O.AllOrNothing(old(State()), O.Checkout(old(State()), u, b, c), fault, State(), r)
    {
      var savedInfos, savedOrders := infos, orders;
      r := CheckoutCached(u, b, c, fault);
      if r.Raised? {
        infos, orders := savedInfos, savedOrders;
      }
    }

    method CheckoutNamed(u: Id, id: string, c: Id, fault: Option<nat>) returns (r: O.Reply)
      requires Sound()
      modifies this`infos, this`orders
      ensures O.AllOrNothing(old(State()), O.PlaceById(old(State()), u, id, c), fault, State(), r)
    {
      if !IsDigits(id) {
        return O.MissingArguments;
      }
      var b := Number(id);
      if !(b in orders && orders[b].user == u && orders[b].phase.Basket?) {
        return O.BasketNotFound;
      }
      assert O.PlaceById(State(), u, id, c) == O.Checkout(State(), u, b, c);
      r := AtomicFresh(u, b, c, fault);
    }

    /** OrderView.post with an order id and a contact: an exception anywhere in the atomic block
        leaves the database as it was; without one the request does what is specified. */
    method OrderPostById(u: Id, id: string, c: Id, fault: Option<nat>) returns (r: O.Reply)
      requires Valid(State())
      modifies this`infos, this`orders
      ensures Valid(State())
      ensures O.AllOrNothing(old(State()), O.PlaceById(old(State()), u, id, c), fault, State(), r)
      ensures if r.Raised? then State() == old(State()) else O.AnswersNamed(old(State()), u, id, c, State(), r)
    {
      O.PlacementKeepsValid(State(), u, id, c);
      O.NamedPlacementAnswers(State(), u, id, c);
      r := CheckoutNamed(u, id, c, fault);
    }

    method CheckoutOwn(u: Id, c: Id, fault: Option<nat>) returns (r: O.Reply)
      requires Sound()
      modifies this`infos, this`orders
      ensures O.AllOrNothing(old(State()), O.PlaceCurrent(old(State()), u, c), fault, State(), r)
    {
      match FirstBasket(orders, u, nextOrder)
      case None =>
        return O.BasketIsEmpty;
      case Some(b) =>
        r := AtomicCached(u, b, c, fault);
    }

    /** OrderView.post with a contact alone. */
    method OrderPostCurrent(u: Id, c: Id, fault: Option<nat>) returns (r: O.Reply)
      requires Valid(State())
      modifies this`infos, this`orders
      ensures Valid(State())
      ensures O.AllOrNothing(old(State()), O.PlaceCurrent(old(State()), u, c), fault, State(), r)
      ensures if r.Raised? then State() == old(State()) else O.AnswersOwn(old(State()), u, c, State(), r)
    {
      O.PlacementKeepsValid(State(), u, [], c);
      O.OwnPlacementAnswers(State(), u, c);
      r := CheckoutOwn(u, c, fault);
    }

    /** OrderView.put: an order is re-addressed exactly when it is the caller's and new and the
        contact is the caller's; nothing but its contact changes. */
    method OrderPut(u: Id, o: Id, c: Id) returns (r: O.Reply)
      requires Valid(State())
      modifies this`orders
      ensures Valid(State()) && (State(), r) == O.ChangeContact(old(State()), u, o, c)
      ensures r.ContactChanged? <==>
              o != 0 && c != 0 && O.OwnsNew(old(State()), u, o) && O.OwnsContact(old(State()), u, c)
      ensures !r.ContactChanged? ==> State() == old(State())
      ensures !r.ContactChanged? ==>
                r == if o == 0 || c == 0 then O.MissingArguments
                     else if O.OwnsNew(old(State()), u, o) then O.ContactNotFound else O.OrderNotFound
      ensures r.ContactChanged? ==>
                O.OnlyOrder(old(State()), State(), o, old(orders)[o].(contact := Some(c))) && infos == old(infos)
    {
      O.ChangeContactKeepsValid(State(), u, o, c);
      O.ReaddressingIsExact(State(), u, o, c);
      if o == 0 || c == 0 {
        return O.MissingArguments;
      }
      if !(o in orders && orders[o].user == u && orders[o].phase.New?) {
        return O.OrderNotFound;
      }
      if !(c in contacts && contacts[c].user == u) {
        return O.ContactNotFound;
      }
      orders := orders[o := orders[o].(contact := Some(c))];
      return O.ContactChanged;
    }

    /** One turn of the restocking loop. */
    method RestockItem(ghost s: Store, o: Id, i: Id, fault: Option<nat>, writes: nat) returns (raised: bool)
      requires i in s.items && s.items[i].order == o && i < s.nextItem && s.items[i].info in s.infos
      requires NoneNegative(s.infos) && O.Progress(s, o, true, i, infos, writes, fault) && items == s.items
      modifies this`infos
      ensures raised ==> fault.Some? && fault.value < O.ItemCount(s, o, s.nextItem)
      ensures !raised ==> O.Progress(s, o, true, i + 1, infos, writes + 1, fault)
    {
      O.ItemCounts(s, o, i);
      if fault == Some(writes) {
        return true;
      }
      var p := items[i].info;
      O.MovedStep(s, o, true, i, infos);
      SumBounds(s, Held(o, p), i, i);
      SaveStock(p, infos[p].stock + items[i].quantity);
      return false;
    }

    /** The restocking loop of OrderView.delete. */
    method Restock(o: Id, fault: Option<nat>) returns (raised: bool, writes: nat)
      requires Linked() && NoneNegative(infos)
      modifies this`infos
      ensures raised <==> fault.Some? && fault.value < O.ItemCount(old(State()), o, nextItem)
      ensures !raised ==> infos == O.Restocked(old(State()), o) && writes == O.ItemCount(old(State()), o, nextItem)
    {
      ghost var s := State();
      O.ProgressStarts(s, o, true, fault);
      raised, writes := false, 0;
      for i := 0 to nextItem
        invariant !raised && O.Progress(s, o, true, i, infos, writes, fault)
      {
        if i in items && items[i].order == o {
          raised := RestockItem(s, o, i, fault, writes);
          if raised {
            return;
          }
          writes := writes + 1;
        } else {
          O.ProgressSkips(s, o, true, i, infos, writes, fault);
        }
      }
      O.ProgressEnds(s, o, true, infos, writes, fault);
    }

    /** The writes of OrderView.delete, once the order has been found. */
    method CancelBody(o: Id, fault: Option<nat>) returns (raised: bool)
      requires Linked() && o in orders && NoneNegative(infos)
      modifies this`infos, this`orders
      ensures raised <==> O.Interrupts(old(State()), o, fault, O.CANCELLATION_TAIL)
      ensures !raised ==> infos == O.Restocked(old(State()), o)
      ensures !raised ==> orders == old(orders)[o := old(orders)[o].(phase := Canceled)]
    {
      var writes;
      raised, writes := Restock(o, fault);
      if raised || fault == Some(writes) {
        return true;
      }
      orders := orders[o := orders[o].(phase := Canceled)];
      return fault == Some(writes + 1);
    }

    /** The atomic block of OrderView.delete: an exception rolls both tables back. */
    method CancelAtomic(o: Id, fault: Option<nat>) returns (raised: bool)
      requires Linked() && o in orders && NoneNegative(infos)
      modifies this`infos, this`orders
      ensures raised <==> O.Interrupts(old(State()), o, fault, O.CANCELLATION_TAIL)
      ensures raised ==> infos == old(infos) && orders == old(orders)
      ensures !raised ==> infos == O.Restocked(old(State()), o)
      ensures !raised ==> orders == old(orders)[o := old(orders)[o].(phase := Canceled)]
    {
      var savedInfos, savedOrders := infos, orders;
      raised := CancelBody(o, fault);
      if raised {
        infos, orders := savedInfos, savedOrders;
      }
    }

    method CancelFound(u: Id, o: Id, fault: Option<nat>) returns (r: O.Reply)
      requires Linked() && NoneNegative(infos)
      modifies this`infos, this`orders
      ensures var (t, reply) := O.Cancel(old(State()), u, o);
              if reply.Cancelled? && O.Interrupts(old(State()), o, fault, O.CANCELLATION_TAIL)
              then r.Raised? && State() == old(State())
              else r == reply && State() == t
    {
      if o == 0 {
        return O.MissingArguments;
      }
      if !(o in orders && orders[o].user == u && orders[o].phase.New?) {
        return O.OrderNotFound;
      }
      var raised := CancelAtomic(o, fault);
      return if raised then O.Raised else O.Cancelled;
    }

    /** OrderView.delete: an order is cancelled exactly when it is the caller's and new and no
        exception is raised; then the stock of every offer goes up by what the order holds and
        its state is set. Otherwise the database is as it was. */
    method OrderDelete(u: Id, o: Id, fault: Option<nat>) returns (r: O.Reply)
      requires Valid(State())
      modifies this`infos, this`orders
      ensures Valid(State())
      ensures var (t, reply) := O.Cancel(old(State()), u, o);
              if reply.Cancelled? && O.Interrupts(old(State()), o, fault, O.CANCELLATION_TAIL)
              then r.Raised? && State() == old(State())
              else r == reply && State() == t
      ensures r.Cancelled? <==>
              o != 0 && O.OwnsNew(old(State()), u, o) && !O.Interrupts(old(State()), o, fault, O.CANCELLATION_TAIL)
      ensures !r.Cancelled? ==> State() == old(State())
      ensures !r.Cancelled? ==>
                r == if o == 0 then O.MissingArguments
                     else if O.OwnsNew(old(State()), u, o) then O.Raised else O.OrderNotFound
      ensures r.Cancelled? ==>
                && O.OnlyOrder(old(State()), State(), o, old(orders)[o].(phase := Canceled))
                && forall p | p in old(infos) ::
                     infos[p].stock == old(infos)[p].stock + Total(old(State()), Held(o, p))
    {
      O.CancelKeepsValid(State(), u, o);
      O.CancellationIsExact(State(), u, o);
      r := CancelFound(u, o, fault);
    }

    // ---------- contacts ----------

    /** ContactView.post: an acceptable form becomes the caller's contact under an unused id, any
        other is refused and changes nothing. */
    method ContactPost(u: Id, form: C.ContactForm) returns (reply: C.ContactReply)
      requires Valid(State())
      modifies this`contacts, this`nextContact
      ensures Valid(State()) && (State(), reply) == C.AddContact(old(State()), u, form)
      ensures reply.NoArguments? <==> !C.Complete(form)
      ensures reply.Created? <==> C.Complete(form) && forall field :: !C.Breaks(form, field)
      ensures reply.Created? || reply.NoArguments? || reply.Invalid?
      ensures reply.Invalid? ==> forall field :: field in reply.fields <==> C.Breaks(form, field)
      ensures !reply.Created? ==> State() == old(State())
      ensures reply.Created? ==> old(nextContact) !in old(contacts)
      ensures reply.Created? ==>
                contacts == old(contacts)[old(nextContact) :=
                  Contact(u, form.city.value, form.street.value, form.house, form.structure, form.building,
                          form.apartment, form.phone.value)]
    {
      C.AddContactKeepsValid(State(), u, form);
      if !C.Complete(form) {
        return C.NoArguments;
      }
      C.FaultsAreExact(form);
      if C.Faults(form) != [] {
        return C.Invalid(C.Faults(form));
      }
      contacts := contacts[nextContact := C.ContactRow(u, form)];
      nextContact := nextContact + 1;
      return C.Created;
    }

    /** The cascade of the foreign keys: contacts, the orders on them, and the items of those. */
    method DeleteCascade(gone: set<Id>) returns (count: nat)
      modifies this`contacts, this`orders, this`items
      ensures State() == C.Cascade(old(State()), gone) && count == C.Removed(old(State()), State())
    {
      var before := State();
      var after := C.Cascade(before, gone);
      contacts, orders, items := after.contacts, after.orders, after.items;
      count := C.Removed(before, after);
    }

    /** ContactView.delete */
    method ContactDelete(u: Id, tokens: seq<string>) returns (reply: C.ContactReply)
      requires Valid(State())
      modifies this`contacts, this`orders, this`items
      ensures Valid(State()) && (State(), reply) == C.DeleteContacts(old(State()), u, tokens)
      ensures State() == C.Cascade(old(State()), C.Gone(old(State()), u, tokens))
      ensures reply == if ListsSomething(tokens) then C.Deleted(C.RowsOn(old(State()), C.Gone(old(State()), u, tokens)))
                       else C.NoArguments
    {
      ContactDeleteAnswers(State(), u, tokens);
      var query, found := FoldIds(u, tokens);
      if !found {
        return C.NoArguments;
      }
      var gone := set c | c in contacts && Matches(query, contacts[c].user, c);
      assert gone == C.Selected(State(), query);
      var count := DeleteCascade(gone);
      return C.Deleted(count);
    }

    // ---------- the price-list import ----------

    method GetOrCreateShop(u: Id, name: string) returns (shop: Option<Id>)
      modifies this`shops, this`nextShop
      ensures match OpenShop(old(Cat()), u, name)
              case Some(found) => State() == old(State()).(cat := found.0) && shop == Some(found.1)
              case None => State() == old(State()) && shop == None
    {
      shop := FindShop(Cat(), u, name, nextShop);
      if shop.None? && !exists a :: a in shops && shops[a].owner == u {
        shop := Some(nextShop);
        shops := shops[nextShop := Shop(name, u)];
        nextShop := nextShop + 1;
      }
    }

    /** The loop over the categories; false when a row is refused. */
    method LoadCategories(shop: Id, rows: seq<CategoryRow>) returns (ok: bool)
      modifies this`categories, this`links
      ensures var (c, done) := ImportCategories(old(Cat()), shop, rows);
              State() == old(State()).(cat := c) && ok == done
    {
      ghost var s := State();
      for k := 0 to |rows|
        invariant State() == s.(cat := Cat())
        invariant ImportCategories(s.cat, shop, rows) == ImportCategories(Cat(), shop, rows[k..])
      {
        assert rows[k..][0] == rows[k] && rows[k..][1..] == rows[k + 1..];
        if rows[k].id !in categories {
          categories := categories[rows[k].id := rows[k].name];
        } else if categories[rows[k].id] != rows[k].name {
          return false;
        }
        links := links + {(rows[k].id, shop)};
      }
      return true;
    }

    method DeleteOffers(shop: Id)
      modifies this`infos, this`values, this`items
      ensures State() == ClearShop(old(State()), shop)
    {
      infos := map p | p in infos && infos[p].shop != shop :: infos[p];
      values := map v | v in values && v.0 in infos :: values[v];
      items := map i | i in items && items[i].info in infos :: items[i];
    }

    method GetOrCreateProduct(row: Product) returns (product: Option<Id>)
      modifies this`products, this`nextProduct
      ensures match OpenProduct(old(Cat()), row)
              case Some(found) => State() == old(State()).(cat := found.0) && product == Some(found.1)
              case None => State() == old(State()) && product == None
    {
      product := FindProduct(Cat(), row, nextProduct);
      if product.None? && row.category in categories {
        product := Some(nextProduct);
        products := products[nextProduct := row];
        nextProduct := nextProduct + 1;
      }
    }

    /** The product lookup and `ProductInfo.objects.create`; false when either is refused. */
    method CreateOffer(shop: Id, g: Good) returns (ok: bool)
      modifies this`products, this`nextProduct, this`infos, this`nextInfo
      ensures Load(State(), ok) == OpenOffer(old(State()), shop, g)
    {
      var product := GetOrCreateProduct(Product(g.name, g.category));
      if product.None? || Taken(infos, product.value, shop, g.id) {
        return false;
      }
      infos := infos[nextInfo := OfferRow(product.value, shop, g)];
      nextInfo := nextInfo + 1;
      return true;
    }

    method GetOrCreateParameter(name: string) returns (parameter: Id)
      modifies this`parameters, this`nextParameter
      ensures (Cat(), parameter) == OpenParameter(old(Cat()), name)
    {
      match FindParameter(Cat(), name, nextParameter)
      case Some(found) =>
        parameter := found;
      case None =>
        parameter := nextParameter;
        parameters := parameters[nextParameter := name];
        nextParameter := nextParameter + 1;
    }

    /** `Parameter.objects.get_or_create` and `ProductParameter.objects.create`. */
    method CreateValue(info: Id, name: string, value: string) returns (ok: bool)
      modifies this`parameters, this`nextParameter, this`values
      ensures Load(State(), ok) == AddValue(old(State()), info, name, value)
    {
      var parameter := GetOrCreateParameter(name);
      if (info, parameter) in values {
        return false;
      }
      values := values[(info, parameter) := value];
      return true;
    }

    /** The inner loop over the parameters of one good. */
    method LoadValues(info: Id, ps: seq<(string, string)>) returns (ok: bool)
      modifies this`parameters, this`nextParameter, this`values
      ensures Load(State(), ok) == ImportValues(old(State()), info, ps)
    {
      ghost var whole := ImportValues(State(), info, ps);
      for k := 0 to |ps|
        invariant whole == ImportValues(State(), info, ps[k..])
      {
        assert ps[k..][0] == ps[k] && ps[k..][1..] == ps[k + 1..];
        ok := CreateValue(info, ps[k].0, ps[k].1);
        if !ok {
          return;
        }
      }
      return true;
    }

    /** The loop over the goods, counting the offers it creates. */
    method LoadGoods(shop: Id, goods: seq<Good>) returns (ok: bool, imported: nat)
      modifies this`products, this`nextProduct, this`infos, this`nextInfo
      modifies this`parameters, this`nextParameter, this`values
      ensures Load(State(), ok) == ImportGoods(old(State()), shop, goods)
      ensures ok ==> imported == |goods|
    {
      ghost var whole := ImportGoods(State(), shop, goods);
      imported := 0;
      for k := 0 to |goods|
        invariant whole == ImportGoods(State(), shop, goods[k..]) && imported == k
      {
        assert goods[k..][0] == goods[k] && goods[k..][1..] == goods[k + 1..];
        var info := nextInfo;
        ok := CreateOffer(shop, goods[k]);
        if !ok {
          return;
        }
        imported := imported + 1;
        ok := LoadValues(info, goods[k].parameters);
        if !ok {
          return;
        }
      }
      ok := true;
    }

    /** The stages of the import, one after the other. */
    method RunStages(u: Id, feed: Feed) returns (outcome: Outcome)
      modifies this
      ensures (State(), outcome) == Import(old(State()), u, feed)
    {
      var shop := GetOrCreateShop(u, feed.shop);
      if shop.None? {
        return Aborted;
      }
      var ok := LoadCategories(shop.value, feed.categories);
      if !ok {
        return Aborted;
      }
      DeleteOffers(shop.value);
      var imported;
      ok, imported := LoadGoods(shop.value, feed.goods);
      if !ok {
        return Aborted;
      }
      return Imported(|feed.categories|, imported);
    }

    /** `import_data`; the two synchronous copies in PartnerUpdate write the same. What is written
        before a refusal stays. */
    method ImportData(u: Id, feed: Feed) returns (outcome: Outcome)
      requires Valid(State())
      modifies this
      ensures Valid(State()) && (State(), outcome) == Import(old(State()), u, feed)
      ensures (forall g | g in feed.goods :: Mapping(g.parameters)) ==> I.Ends(old(State()), u, feed, State(), outcome)
    {
      ImportKeepsValid(State(), u, feed);
      if forall g | g in feed.goods :: Mapping(g.parameters) {
        I.ImportIsExact(State(), u, feed);
      }
      outcome := RunStages(u, feed);
    }

    /** Any one request, without a fault: what the theorems about runs say of `Apply` holds of
        these methods. */
    method Handle(step: Step)
      requires Valid(State())
      modifies this
      ensures State() == Apply(old(State()), step) && Valid(State())
    {
      match step
      case AddToBasket(u, p) => var _ := BasketPost(u, p);
      case UpdateBasket(u, p) => var _ := BasketPut(u, p);
      case RemoveFromBasket(u, tokens) => var _ := BasketDelete(u, tokens);
      case PlaceNamed(u, id, c) => var _ := OrderPostById(u, id, c, None);
      case PlaceOwn(u, c) => var _ := OrderPostCurrent(u, c, None);
      case Readdress(u, o, c) => var _ := OrderPut(u, o, c);
      case CancelOrder(u, o) => var _ := OrderDelete(u, o, None);
      case NewContact(u, f) => var _ := ContactPost(u, f);
      case DropContacts(u, tokens) => var _ := ContactDelete(u, tokens);
      case LoadFeed(u, f) => var _ := ImportData(u, f);
    }
  }

  // ---------- the loops over a list of entries ----------

  /** The outcome of the rest of a batch, put after what was collected so far. */
  function Onto(errors: seq<B.Error>, count: nat, rest: B.Batch): B.Batch {
    B.Batch(rest.store, errors + rest.errors, count + rest.count)
  }

  lemma AddAllStep(s: Store, b: Id, es: seq<B.AddEntry>, k: nat, errors: seq<B.Error>, count: nat)
    requires k < |es|
    ensures var h := B.AddOne(s, b, es[k]);
            Onto(errors, count, B.AddAll(s, b, es[k..])) ==
            Onto(errors + h.errors, count + h.count, B.AddAll(h.store, b, es[k + 1..]))
  {
    assert es[k..][0] == es[k] && es[k..][1..] == es[k + 1..];
    var h := B.AddOne(s, b, es[k]);
    var r := B.AddAll(h.store, b, es[k + 1..]);
    assert errors + (h.errors + r.errors) == errors + h.errors + r.errors;
  }

  lemma UpdateAllStep(s: Store, b: Id, es: seq<B.UpdateEntry>, k: nat, errors: seq<B.Error>, count: nat)
    requires k < |es|
    ensures var h := B.UpdateOne(s, b, es[k]);
            Onto(errors, count, B.UpdateAll(s, b, es[k..])) ==
            Onto(errors + h.errors, count + h.count, B.UpdateAll(h.store, b, es[k + 1..]))
  {
    assert es[k..][0] == es[k] && es[k..][1..] == es[k + 1..];
    var h := B.UpdateOne(s, b, es[k]);
    var r := B.UpdateAll(h.store, b, es[k + 1..]);
    assert errors + (h.errors + r.errors) == errors + h.errors + r.errors;
  }

  // ---------- validity, request by request ----------

  lemma AddOneValid(s: Store, b: Id, e: B.AddEntry)
    requires Valid(s) && B.IsBasket(s, b)
    ensures Valid(B.AddOne(s, b, e).store) && B.IsBasket(B.AddOne(s, b, e).store, b)
  {
    AddOneEffect(s, b, e);
  }

  lemma UpdateOneValid(s: Store, b: Id, e: B.UpdateEntry)
    requires Valid(s) && B.IsBasket(s, b)
    ensures Valid(B.UpdateOne(s, b, e).store) && B.IsBasket(B.UpdateOne(s, b, e).store, b)
  {
    UpdateOneEffect(s, b, e);
  }

  lemma ContactDeleteAnswers(s: Store, u: Id, tokens: seq<string>)
    requires Valid(s)
    ensures var (t, reply) := C.DeleteContacts(s, u, tokens);
            && Valid(t) && t == C.Cascade(s, C.Gone(s, u, tokens))
            && reply == if ListsSomething(tokens) then C.Deleted(C.RowsOn(s, C.Gone(s, u, tokens))) else C.NoArguments
  {
    C.ContactDeletionIsExact(s, u, tokens);
    C.CascadeKeepsValid(s, C.Gone(s, u, tokens));
    if ListsSomething(tokens) {
      C.DeletionCount(s, u, tokens);
    }
  }

  lemma AcceptedIsInStock(s: Store, u: Id, b: Id, c: Id)
    requires Numbered(s) && ItemsLinked(s) && UniqueItems(s.items) && NoneNegative(s.infos)
    requires b in s.orders && O.Checkout(s, u, b, c).1.Placed?
    ensures O.InStock(s, b)
  {
    O.CheckIsExact(s, b);
  }
}
