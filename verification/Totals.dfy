/** The cached total of every order over steps, and the totals that other code recomputes. */
module Totals {
  import opened Tables
  import opened Sums
  import opened Baskets
  import opened BatchAdd
  import opened BatchUpdate
  import opened Requests
  import opened Orders
  import opened Contacts
  import opened Imports
  import opened ImportTheorems
  import opened Runs

  ghost predicate AllAgree(s: Store) {
    forall o | o in s.orders :: Agrees(s, o)
  }

  /** The two ways a correct total goes stale: an update that cannot be applied as a whole and
      removes something of value after its last save, and a feed, acceptable up to its goods, that
      replaces offers some order holds at a price. */
  ghost predicate Spoils(s: Store, step: Step) {
    match step
    case UpdateBasket(u, p) =>
      var (s1, b) := OpenBasket(s, u);
      !Absent(p) && !Clean(s1, b, p.entries) && LeavesStale(s1, b, p.entries)
    case LoadFeed(u, f) =>
      HeadImportable(s, u, f) && exists o :: o in s.orders && Total(s, Supplied(o, u)) != 0
    case _ => false
  }

  lemma EditsAgree(s: Store, t: Store, b: Id)
    requires Numbered(s) && Numbered(t) && Edits(s, t, b) && AllAgree(s)
    ensures AllAgree(t) <==> Agrees(t, b)
  {
    forall o | o in s.orders && o != b ensures Agrees(t, o) {
      EditsKeepOtherTotals(s, t, b, o);
    }
  }

  lemma BasketStepAgrees(s: Store, step: Step)
    requires Valid(s) && EditsBasket(step) && AllAgree(s)
    ensures AllAgree(Apply(s, step)) <==> !Spoils(s, step)
  {
    var (s1, b) := OpenBasket(s, step.user);
    BasketStep(s, step);
    NewBasketAgrees(s, step.user);
    var t := Apply(s, step);
    if t != s {
      EditsAgree(s1, t, b);
    }
    match step
    case AddToBasket(u, p) => if !Absent(p) { PostEffect(s, u, p); }
    case UpdateBasket(u, p) => if !Absent(p) { PutEffect(s, u, p); }
    case RemoveFromBasket(u, tokens) => if tokens != [] { DeleteEffect(s, u, tokens); }
  }

  /** Placing, re-addressing and cancelling carry every cached total and every sum unchanged,
      right or wrong. */
  lemma OrderStepsKeepTotals(s: Store, step: Step, o: Id)
    requires AdvancesOrder(step) && o in s.orders
    ensures var t := Apply(s, step);
            && o in t.orders && t.orders[o].total == s.orders[o].total
            && Total(t, Value(o)) == Total(s, Value(o))
  {
    if step.Readdress? || step.CancelOrder? {
      SameValues(s, Apply(s, step), o);
    } else {
      PlaceStep(s, step);
      SameValues(s, Apply(s, step), o);
    }
  }

  lemma OrderStepAgrees(s: Store, step: Step)
    requires AdvancesOrder(step) && AllAgree(s)
    ensures AllAgree(Apply(s, step))
  {
    forall o | o in Apply(s, step).orders ensures Agrees(Apply(s, step), o) {
      OrderStepKeepsIds(s, step, o);
      OrderStepsKeepTotals(s, step, o);
    }
  }

  lemma OrderStepKeepsIds(s: Store, step: Step, o: Id)
    requires AdvancesOrder(step) && o in Apply(s, step).orders
    ensures o in s.orders
  {
    if step.PlaceNamed? || step.PlaceOwn? {
      PlaceStep(s, step);
    }
  }

  lemma CascadeAgrees(s: Store, gone: set<Id>)
    requires Numbered(s) && AllAgree(s)
    ensures AllAgree(Cascade(s, gone))
  {
    var t := Cascade(s, gone);
    forall o | o in t.orders ensures Agrees(t, o) {
      TotalSame(s, Value(o), t, Value(o));
    }
  }

  /** Clearing a shop takes from an order's sum what the shop's owner supplied to it. */
  lemma ClearedValue(s: Store, t: Store, shop: Id, u: Id, o: Id)
    requires Numbered(s) && ItemsLinked(s) && LeavesOthers(s, t, shop)
    requires forall p | p in s.infos :: s.infos[p].shop in s.cat.shops
    requires forall a | a in s.cat.shops :: s.cat.shops[a].owner == u <==> a == shop
    ensures Total(s, Value(o)) == Total(t, Value(o)) + Total(s, Supplied(o, u))
  {
    forall i: Id ensures Weight(s, Value(o), i) == Weight(t, Value(o), i) + Weight(s, Supplied(o, u), i) {
      assert i in t.items <==> i in ItemsElsewhere(s, shop);
    }
    TotalSplits(s, Value(o), t, Value(o), s, Supplied(o, u));
  }

  lemma ImportAgrees(s: Store, u: Id, f: Feed)
    requires Valid(s) && AllAgree(s)
    ensures AllAgree(Import(s, u, f).0) <==> !Spoils(s, LoadFeed(u, f))
  {
    var t := Import(s, u, f).0;
    ImportLeavesOthers(s, u, f);
    HeadSucceedsIff(s, u, f);
    if HeadImportable(s, u, f) {
      TargetIsOwned(s, u, f);
      ClearedAgrees(s, t, TargetShop(s, u, f), u);
    } else {
      CatalogueAgrees(s, t);
    }
  }

  lemma ClearedAgrees(s: Store, t: Store, shop: Id, u: Id)
    requires Numbered(s) && ItemsLinked(s) && AllAgree(s) && LeavesOthers(s, t, shop)
    requires forall p | p in s.infos :: s.infos[p].shop in s.cat.shops
    requires forall a | a in s.cat.shops :: s.cat.shops[a].owner == u <==> a == shop
    ensures AllAgree(t) <==> forall o | o in s.orders :: Total(s, Supplied(o, u)) == 0
  {
    forall o | o in s.orders ensures Agrees(t, o) <==> Total(s, Supplied(o, u)) == 0 {
      ClearedValue(s, t, shop, u, o);
      assert Agrees(s, o);
    }
  }

  lemma CatalogueAgrees(s: Store, t: Store)
    requires Numbered(s) && AllAgree(s) && t == s.(cat := t.cat)
    ensures AllAgree(t)
  {
    forall o | o in s.orders ensures Agrees(t, o) {
      TotalSame(s, Value(o), t, Value(o));
    }
  }

  lemma NewContactAgrees(s: Store, u: Id, f: ContactForm)
    requires Numbered(s) && AllAgree(s)
    ensures AllAgree(AddContact(s, u, f).0)
  {
    var t := AddContact(s, u, f).0;
    forall o | o in t.orders ensures Agrees(t, o) {
      TotalSame(s, Value(o), t, Value(o));
    }
  }

  /** From correct totals, a step ends in correct totals of all orders exactly when it is not one
      of the two spoiling kinds. */
  lemma TotalsStayRightIff(s: Store, step: Step)
    requires Valid(s) && AllAgree(s)
    ensures AllAgree(Apply(s, step)) <==> !Spoils(s, step)
  {
    match step
    case NewContact(u, f) => NewContactAgrees(s, u, f);
    case DropContacts(u, tokens) =>
      ContactDeletionIsExact(s, u, tokens);
      CascadeAgrees(s, Gone(s, u, tokens));
    case LoadFeed(u, f) => ImportAgrees(s, u, f);
    case _ => if EditsBasket(step) { BasketStepAgrees(s, step); } else { OrderStepAgrees(s, step); }
  }

  // ---------- totals recomputed elsewhere ----------

  /** `Sum(...)` in SQL is NULL over no rows; `or 0` turns that into 0. */
  function SqlSum(s: Store, o: Id, n: nat): Option<int> {
    if n == 0 then None else
      var r := SqlSum(s, o, n - 1);
      if n - 1 in s.items && s.items[n - 1].order == o
      then Some((if r.Some? then r.value else 0) + ItemPrice(s, n - 1))
      else r
  }

  function OrZero(r: Option<int>): int {
    if r.Some? then r.value else 0
  }

  /** The SQL aggregate with `or 0` is the Python sum, for an empty order too. */
  lemma {:induction false} SqlSumIsSum(s: Store, o: Id, n: nat)
    ensures OrZero(SqlSum(s, o, n)) == Sum(s, Value(o), n)
    ensures SqlSum(s, o, n).None? <==> forall i | 0 <= i < n && i in s.items :: s.items[i].order != o
  {
    if n == 0 {
    } else {
      SqlSumIsSum(s, o, n - 1);
    }
  }

  /** The lines of an order e-mail: quantity, price and amount of each item. */
  function EmailLines(s: Store, o: Id, n: nat): seq<(nat, nat, int)>
    requires forall i | i in s.items :: s.items[i].info in s.infos
  {
    if n == 0 then [] else
      EmailLines(s, o, n - 1) +
      if n - 1 in s.items && s.items[n - 1].order == o
      then [(s.items[n - 1].quantity, s.infos[s.items[n - 1].info].price, ItemPrice(s, n - 1))]
      else []
  }

  function Amounts(lines: seq<(nat, nat, int)>): int {
    if lines == [] then 0 else Amounts(lines[..|lines| - 1]) + lines[|lines| - 1].2
  }

  lemma AmountsAppend(lines: seq<(nat, nat, int)>, line: (nat, nat, int))
    ensures Amounts(lines + [line]) == Amounts(lines) + line.2
  {
    assert (lines + [line])[..|lines|] == lines;
  }

  /** The amounts listed in an order e-mail add up to the order's sum, and each is its line's
      quantity times price. */
  lemma {:induction false} EmailLinesAddUp(s: Store, o: Id, n: nat)
    requires forall i | i in s.items :: s.items[i].info in s.infos
    ensures Amounts(EmailLines(s, o, n)) == Sum(s, Value(o), n)
    ensures forall l | l in EmailLines(s, o, n) :: l.2 == l.0 * l.1
  {
    if n == 0 {
    } else {
      EmailLinesAddUp(s, o, n - 1);
      if n - 1 in s.items && s.items[n - 1].order == o {
        var item := s.items[n - 1];
        AmountsAppend(EmailLines(s, o, n - 1), (item.quantity, s.infos[item.info].price, ItemPrice(s, n - 1)));
      } else {
        assert EmailLines(s, o, n) == EmailLines(s, o, n - 1);
      }
    }
  }

  ghost predicate LineIs(s: Store, line: (nat, nat, int), i: Id) {
    && i in s.items && s.items[i].info in s.infos
    && line == (s.items[i].quantity, s.infos[s.items[i].info].price, ItemPrice(s, i))
  }

  /** The ids of the items of order `o` below `n`, each once and in order. */
  ghost predicate ItemIds(s: Store, o: Id, n: nat, ids: seq<Id>) {
    && (forall i :: i in ids <==> i < n && i in s.items && s.items[i].order == o)
    && (forall j, k | 0 <= j < k < |ids| :: ids[j] < ids[k])
  }

  /** Each line says the quantity, the price and the amount of its item. */
  ghost predicate LinesSay(s: Store, ids: seq<Id>, lines: seq<(nat, nat, int)>) {
    |lines| == |ids| && forall k | 0 <= k < |ids| :: LineIs(s, lines[k], ids[k])
  }

  /** An order e-mail has exactly one line for each item of the order. */
  lemma {:induction false} EmailHasEveryLine(s: Store, o: Id, n: nat) returns (ids: seq<Id>)
    requires forall i | i in s.items :: s.items[i].info in s.infos
    ensures ItemIds(s, o, n, ids) && LinesSay(s, ids, EmailLines(s, o, n))
  {
    if n == 0 {
      ids := [];
    } else {
      ids := EmailHasEveryLine(s, o, n - 1);
      if n - 1 in s.items && s.items[n - 1].order == o {
        ids := ids + [n - 1];
      }
    }
  }

  /** What each supplier sees of an order, added up over the shops with ids below `n`. */
  function SupplierTotals(s: Store, o: Id, n: nat): int {
    if n == 0 then 0 else
      SupplierTotals(s, o, n - 1) +
      if n - 1 in s.cat.shops then Total(s, Supplied(o, s.cat.shops[n - 1].owner)) else 0
  }

  lemma {:induction false} SuppliersBelow(s: Store, o: Id, n: nat)
    requires Numbered(s) && UniqueShops(s.cat) && forall p | p in s.infos :: s.infos[p].shop in s.cat.shops
    ensures SupplierTotals(s, o, n) == Total(s, SoldBy(o, n))
  {
    if n == 0 {
      SumSingle(s, SoldBy(o, 0), s.nextItem, s.nextItem);
    } else {
      SuppliersBelow(s, o, n - 1);
      if n - 1 in s.cat.shops {
        TotalSplits(s, SoldBy(o, n), s, SoldBy(o, n - 1), s, Supplied(o, s.cat.shops[n - 1].owner));
      } else {
        TotalSame(s, SoldBy(o, n - 1), s, SoldBy(o, n));
      }
    }
  }

  /** The per-supplier totals of an order, each over that supplier's items only, add up to the
      order's total. */
  lemma SupplierTotalsAddUp(s: Store, o: Id)
    requires Valid(s)
    ensures SupplierTotals(s, o, s.cat.nextShop) == Total(s, Value(o))
  {
    SuppliersBelow(s, o, s.cat.nextShop);
    TotalSame(s, SoldBy(o, s.cat.nextShop), s, Value(o));
  }
}
