/** Inputs at which a plain statement about the shop fails, each the end of a run from the empty
    database: one supplier, one buyer, one offer. */
module Witnesses {
  import opened Tables
  import opened Sums
  import opened Baskets
  import opened BatchAdd
  import opened BatchUpdate
  import opened Requests
  import opened Orders
  import opened Contacts
  import opened Imports
  import opened ImportStages
  import opened ImportOffers
  import opened ImportTheorems
  import opened Runs
  import opened Totals
  import opened Queries

  const SUPPLIER: Id := 7
  const BUYER: Id := 9

  const SAW := Good(5, 1, "m", "saw", 10, 12, 3, [])
  const PRICE_LIST := Feed("shop", [CategoryRow(1, "tools")], [SAW])

  /** The same shop with nothing to sell. */
  const EMPTY_LIST := Feed("shop", [], [])

  /** A list with one good twice. */
  const DOUBLE_LIST := Feed("shop", [CategoryRow(1, "tools")], [SAW, SAW])

  const ADDRESS := ContactForm(Some("city"), Some("street"), Some("1"), "", "", "", "")

  /** The supplier loads the price list, and the buyer puts two saws in the basket. */
  const SHOPPING: seq<Step> := [LoadFeed(SUPPLIER, PRICE_LIST), AddToBasket(BUYER, Parsed([AddEntry(1, 2)]))]

  /** The buyer goes on to order them. */
  const ORDERING: seq<Step> := [NewContact(BUYER, ADDRESS), PlaceOwn(BUYER, 1)]

  /** Take the saws out again, and ask for an item that is not in the basket. */
  const REMOVE_AND_FAIL: Payload<UpdateEntry> := Parsed([Set(1, 0), Set(5, 1)])

  // ---------- the databases of these runs ----------

  /** The supplier's one offer, number 1: three saws at 10. */
  ghost predicate Offering(s: Store, stock: int) {
    && Valid(s) && s.infos.Keys == {1} && s.infos[1].price == 10 && s.infos[1].stock == stock
    && s.infos[1].shop in s.cat.shops && s.cat.shops[s.infos[1].shop] == Shop("shop", SUPPLIER)
    && 1 in s.cat.categories && s.cat.categories[1] == "tools"
  }

  ghost predicate IsFirstImport(s: Store, u: Id, f: Feed) {
    s == FRESH && u == SUPPLIER && f == PRICE_LIST
  }

  lemma FirstImportSucceeds(s: Store, u: Id, f: Feed)
    requires IsFirstImport(s, u, f)
    ensures Valid(s) && Import(s, u, f).1.Imported?
  {
    ImportSucceedsIff(s, u, f);
    assert Mapping(SAW.parameters);
    assert ListsCategory(f.categories, 1) by { assert f.categories[0].id == 1; }
  }

  lemma FirstOffer(t: Store, shop: Id)
    requires OffersValid(t.cat, t.infos, t.nextInfo, t.values) && Catalogued(t, shop, 1, [SAW])
    requires LeavesOthers(FRESH, t, shop)
    ensures t.nextInfo == 2 && t.infos.Keys == {1}
    ensures t.infos[1].price == 10 && t.infos[1].stock == 3 && t.infos[1].shop == shop
  {
    assert Describes(t, 1 + 0, shop, [SAW][0]);
    forall p: Id ensures p in t.infos <==> p == 1 {
      assert p in t.infos ==> p < t.nextInfo;
    }
  }

  lemma FirstSales(t: Store, shop: Id)
    requires LeavesOthers(FRESH, t, shop)
    ensures t == FRESH.(cat := t.cat, infos := t.infos, nextInfo := t.nextInfo, values := t.values)
  {
    assert t.items == map[];
  }

  lemma FirstImport(s: Store, u: Id, f: Feed)
    requires IsFirstImport(s, u, f)
    ensures var t := Import(s, u, f).0;
            Offering(t, 3) && t == s.(cat := t.cat, infos := t.infos, nextInfo := 2, values := t.values)
  {
    var t, shop := Import(s, u, f).0, TargetShop(s, u, f);
    FirstImportSucceeds(s, u, f);
    ImportReplacesCatalogue(s, u, f);
    ImportedCategories(s, u, f);
    ImportKeepsValid(s, u, f);
    assert f.categories[0] == CategoryRow(1, "tools");
    FirstOffer(t, shop);
    FirstSales(t, shop);
  }

  /** The database after shopping: order 1 is the buyer's basket and holds item 1. */
  ghost predicate Shopped(s: Store) {
    && Offering(s, 3) && s.contacts == map[] && s.nextContact == 1
    && s.orders == map[1 := Order(BUYER, Basket, None, 20)] && s.nextOrder == 2
    && s.items == map[1 := Item(1, 1, 2)] && s.nextItem == 2
  }

  lemma ItemValue(s: Store)
    requires s.items == map[1 := Item(1, 1, 2)] && s.nextItem == 2 && 1 in s.infos && s.infos[1].price == 10
    ensures Total(s, Value(1)) == 20
  {
    assert Sum(s, Value(1), 1) == 0 && Weight(s, Value(1), 1) == 20;
  }

  lemma FirstEntryAdded(s: Store, u: Id, p: Payload<AddEntry>)
    requires Offering(s, 3) && s.orders == map[] && s.nextOrder == 1 && s.items == map[] && s.nextItem == 1
    requires u == BUYER && p == Parsed([AddEntry(1, 2)])
    ensures Post(s, u, p).0 == s.(orders := map[1 := Order(BUYER, Basket, None, 20)], nextOrder := 2,
                                  items := map[1 := Item(1, 1, 2)], nextItem := 2)
  {
    var s1 := s.(orders := map[1 := Order(BUYER, Basket, None, 0)], nextOrder := 2);
    assert OpenBasket(s, u) == (s1, 1);
    var t := PutItem(s1, 1, Item(1, 1, 2));
    ItemValue(t);
    assert AddOne(s1, 1, p.entries[0]) == Batch(RefreshTotal(t, 1), [], 1);
    ItemValue(RefreshTotal(t, 1));
  }

  lemma RunOfTwo(s: Store, a: Step, b: Step)
    ensures Run(s, [a, b]) == Apply(Apply(s, a), b)
  {
    var two, one := [a, b], [b];
    assert two[1..] == one && one[1..] == [];
    assert Run(s, two) == Run(Apply(s, a), one);
    assert Run(Apply(s, a), one) == Run(Apply(Apply(s, a), b), []);
  }

  lemma ShoppingEnds(steps: seq<Step>)
    requires steps == SHOPPING
    ensures Shopped(Run(FRESH, steps))
  {
    var t := Apply(FRESH, steps[0]);
    RunOfTwo(FRESH, steps[0], steps[1]);
    FirstImport(FRESH, steps[0].user, steps[0].feed);
    FirstEntryAdded(t, steps[1].user, steps[1].adds);
    ApplyKeepsValid(t, steps[1]);
  }

  lemma ShoppedAgrees(s: Store)
    requires Shopped(s)
    ensures AllAgree(s)
  {
    ItemValue(s);
  }

  // ---------- a failed update leaves a wrong total ----------

  lemma RemovedIsStale(s: Store, es: seq<UpdateEntry>)
    requires Shopped(s) && es == REMOVE_AND_FAIL.entries
    ensures !Clean(s, 1, es) && LeavesStale(s, 1, es)
  {
    assert !Applies(s, 1, es[1]);
    assert Stale(s, 1, es, 0);
  }

  lemma RemoveAndFail(s: Store, u: Id, p: Payload<UpdateEntry>)
    requires Shopped(s) && u == BUYER && p == REMOVE_AND_FAIL
    ensures Put(s, u, p).1.Failed? && !Agrees(Put(s, u, p).0, 1)
  {
    assert OpenBasket(s, u) == (s, 1);
    ShoppedAgrees(s);
    PutEffect(s, u, p);
    RemovedIsStale(s, p.entries);
  }

  /** The basket was right, the request fails, and the total of the basket is wrong. */
  lemma FailedUpdateCanLeaveStaleTotal()
    ensures var s := Run(FRESH, SHOPPING);
            var (t, r) := Put(s, BUYER, REMOVE_AND_FAIL);
            AllAgree(s) && r.Failed? && !Agrees(t, 1)
  {
    ShoppingEnds(SHOPPING);
    ShoppedAgrees(Run(FRESH, SHOPPING));
    RemoveAndFail(Run(FRESH, SHOPPING), BUYER, REMOVE_AND_FAIL);
  }

  // ---------- an import leaves a wrong total ----------

  lemma SupplierValue(s: Store, u: Id)
    requires Shopped(s) && u == SUPPLIER
    ensures Total(s, Supplied(1, u)) == 20
  {
    var shop := s.infos[1].shop;
    assert s.items[1] == Item(1, 1, 2) && ItemPrice(s, 1) == 20 && ShopOf(s, 1) == Some(shop);
    assert Weight(s, Supplied(1, u), 1) == 20;
    SumSingle(s, Supplied(1, u), 1, 2);
  }

  lemma EmptyListLoads(s: Store, u: Id, f: Feed)
    requires Shopped(s) && u == SUPPLIER && f == EMPTY_LIST
    ensures Import(s, u, f).1.Imported? && !AllAgree(Import(s, u, f).0)
  {
    ImportSucceedsIff(s, u, f);
    SupplierValue(s, u);
    ShoppedAgrees(s);
    TotalsStayRightIff(s, LoadFeed(u, f));
  }

  /** The totals were right, the import succeeds, and the total of a basket is wrong. */
  lemma ImportCanLeaveWrongTotal()
    ensures var s := Run(FRESH, SHOPPING);
            var (t, r) := Import(s, SUPPLIER, EMPTY_LIST);
            AllAgree(s) && r.Imported? && !AllAgree(t)
  {
    ShoppingEnds(SHOPPING);
    ShoppedAgrees(Run(FRESH, SHOPPING));
    EmptyListLoads(Run(FRESH, SHOPPING), SUPPLIER, EMPTY_LIST);
  }

  // ---------- an import that fails has dropped the offers ----------

  lemma DoubleListFails(s: Store, u: Id, f: Feed)
    requires Shopped(s) && u == SUPPLIER && f == DOUBLE_LIST
    ensures var (t, r) := Import(s, u, f);
            r.Aborted? && 1 !in t.infos && 1 !in t.items
  {
    assert SameKey(f.goods[0], f.goods[1]);
    ImportSucceedsIff(s, u, f);
    ImportKeepsOffersIff(s, u, f);
    assert f.categories == [CategoryRow(1, "tools")];
    assert HeadImportable(s, u, f);
    assert Sells(s, u, 1);
  }

  /** The import fails, and the supplier's offer and the item in the buyer's basket are gone. */
  lemma AbortedImportCanDropOffers()
    ensures var s := Run(FRESH, SHOPPING);
            var (t, r) := Import(s, SUPPLIER, DOUBLE_LIST);
            && r.Aborted?
            && 1 in s.infos && 1 !in t.infos
            && 1 in s.items && 1 !in t.items
  {
    ShoppingEnds(SHOPPING);
    DoubleListFails(Run(FRESH, SHOPPING), SUPPLIER, DOUBLE_LIST);
  }

  // ---------- a contact deletion loses stock ----------

  /** The database after ordering: one saw is left, and order 1 is on its way to contact 1. */
  ghost predicate Ordered(s: Store) {
    && Offering(s, 1) && s.contacts.Keys == {1} && s.contacts[1].user == BUYER
    && s.orders == map[1 := Order(BUYER, New, Some(1), 20)]
    && s.items == map[1 := Item(1, 1, 2)] && s.nextItem == 2
  }

  lemma ContactAdded(s: Store, u: Id, f: ContactForm)
    requires Shopped(s) && u == BUYER && f == ADDRESS
    ensures AddContact(s, u, f).0 == s.(contacts := map[1 := ContactRow(u, f)], nextContact := 2)
  {
  }

  /** The buyer has an address, and is about to order. */
  ghost predicate Addressed(s: Store) {
    && Offering(s, 3) && s.contacts.Keys == {1} && s.contacts[1].user == BUYER
    && s.orders == map[1 := Order(BUYER, Basket, None, 20)] && s.nextOrder == 2
    && s.items == map[1 := Item(1, 1, 2)] && s.nextItem == 2
  }

  lemma OrderFits(s: Store)
    requires Addressed(s)
    ensures Total(s, Held(1, 1)) == 2 && InStock(s, 1) && HasItems(s, 1)
  {
    HeldIsOneItem(s, 1);
    assert s.items[1].order == 1;
  }

  lemma OrderPlaced(s: Store, u: Id, c: Id)
    requires Addressed(s) && u == BUYER && c == 1
    ensures Ordered(PlaceCurrent(s, u, c).0)
  {
    OrderFits(s);
    assert FirstBasket(s.orders, u, s.nextOrder) == Some(1);
    CheckoutKeepsValid(s, u, 1, c);
    PlacementIsExact(s, u, 1, c);
    StillOffering(s, PlaceBasket(s, u, 1, c).0);
    CheckedOut(s, PlaceBasket(s, u, 1, c).0, Order(BUYER, New, Some(1), 20));
  }

  lemma StillOffering(s: Store, t: Store)
    requires Offering(s, 3) && Valid(t) && t.cat == s.cat && SameButStock(s.infos, t.infos) && t.infos[1].stock == 1
    ensures Offering(t, 1)
  {
  }

  lemma OneRow(orders: map<Id, Order>, row: Order)
    requires orders.Keys == {1} && orders[1] == row
    ensures orders == map[1 := row]
  {
  }

  lemma CheckedOut(s: Store, t: Store, row: Order)
    requires Addressed(s) && Offering(t, 1) && OnlyOrder(s, t, 1, row) && row == Order(BUYER, New, Some(1), 20)
    ensures Ordered(t)
  {
    OneRow(t.orders, row);
  }

  lemma AddressAdded(s: Store, u: Id, f: ContactForm)
    requires Shopped(s) && u == BUYER && f == ADDRESS
    ensures Addressed(AddContact(s, u, f).0)
  {
    ContactAdded(s, u, f);
    AddContactKeepsValid(s, u, f);
  }

  lemma OrderingEnds(steps: seq<Step>, s: Store)
    requires Shopped(s) && steps == ORDERING
    ensures Ordered(Run(s, steps))
  {
    var t := Apply(s, steps[0]);
    RunOfTwo(s, steps[0], steps[1]);
    AddressAdded(s, steps[0].user, steps[0].form);
    OrderPlaced(t, steps[1].user, steps[1].contact);
  }

  lemma ReadsOne(token: string)
    requires token == "1"
    ensures IsDigits(token) && Number(token) == 1
  {
    assert |token| == 1 && token[0] == '1' && token[..|token| - 1] == [];
  }

  lemma OneToken(tokens: seq<string>, c: Id)
    requires tokens == ["1"]
    ensures Listed(tokens, c) <==> c == 1
  {
    ReadsOne(tokens[0]);
  }

  lemma CommittedSaws(s: Store)
    requires Ordered(s)
    ensures Total(s, Committed(1)) == 2 && Total(s, Doomed(1, {1})) == 2
  {
    assert s.items[1] == Item(1, 1, 2) && IsNew(s, 1);
    assert Weight(s, Doomed(1, {1}), 1) == 2 && Weight(s, Committed(1), 1) == 2;
    SumSingle(s, Doomed(1, {1}), 1, 2);
    SumSingle(s, Committed(1), 1, 2);
  }

  lemma AddressGone(s: Store, u: Id, tokens: seq<string>)
    requires Ordered(s) && u == BUYER && tokens == ["1"]
    ensures Gone(s, u, tokens) == {1} && OrdersOn(s, {1}) == {1}
  {
    forall c: Id ensures Listed(tokens, c) <==> c == 1 {
      OneToken(tokens, c);
    }
  }

  lemma AddressDropped(s: Store, step: Step)
    requires Ordered(s) && step == DropContacts(BUYER, ["1"])
    ensures Lost(s, step, 1) == 2
    ensures Ledger(s, 1) == 3 && Ledger(Apply(s, step), 1) == 1
  {
    CommittedSaws(s);
    AddressGone(s, step.user, step.tokens);
    DropStepLedger(s, step, 1);
  }

  lemma OrderingThenDropping(first: seq<Step>, next: seq<Step>, step: Step)
    requires first == SHOPPING && next == ORDERING
    requires step == DropContacts(BUYER, ["1"])
    ensures var s := Run(FRESH, first + next);
            Lost(s, step, 1) == 2 && Ledger(s, 1) == 3 && Ledger(Apply(s, step), 1) == 1
  {
    ShoppingEnds(first);
    RunConcat(FRESH, first, next);
    OrderingEnds(next, Run(FRESH, first));
    AddressDropped(Run(FRESH, first + next), step);
  }

  /** Of three saws one is left in stock and none is ordered any more. */
  lemma DeletingContactsLosesStock()
    ensures var s := Run(FRESH, SHOPPING + ORDERING);
            && Lost(s, DropContacts(BUYER, ["1"]), 1) == 2
            && Ledger(s, 1) == 3 && Ledger(Apply(s, DropContacts(BUYER, ["1"])), 1) == 1
  {
    OrderingThenDropping(SHOPPING, ORDERING, DropContacts(BUYER, ["1"]));
  }
}
