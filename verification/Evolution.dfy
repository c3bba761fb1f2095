/** How orders, items and offers can change over a run, and the theorems that rest on it:
    conservation of stock, the life of an order, and re-imported stock. */
module Evolution {
  import opened Tables
  import opened Sums
  import opened Baskets
  import opened Orders
  import opened Contacts
  import opened Imports
  import opened ImportTheorems
  import opened Runs

  /** The phases that requests can lead to from a phase. */
  predicate Later(a: Phase, b: Phase) {
    a == b || (a.Basket? && (b.New? || b.Canceled?)) || (a.New? && b.Canceled?)
  }

  /** Orders keep their user and only move basket, new, canceled; new ones get unused ids. */
  ghost predicate OrdersEvolve(s: Store, t: Store) {
    && s.nextOrder <= t.nextOrder
    && (forall o | o in s.orders && o in t.orders ::
          t.orders[o].user == s.orders[o].user && Later(s.orders[o].phase, t.orders[o].phase))
    && (forall o | o in t.orders && o !in s.orders :: s.nextOrder <= o)
  }

  /** New offers get unused ids. */
  ghost predicate OffersEvolve(s: Store, t: Store) {
    s.nextInfo <= t.nextInfo && forall p | p in t.infos && p !in s.infos :: s.nextInfo <= p
  }

  ghost predicate Closed(s: Store, o: Id) {
    o in s.orders && !s.orders[o].phase.Basket?
  }

  /** The items of an order that is no longer a basket never change, though they can go with
      their order or their offer. */
  ghost predicate ItemsFrozen(s: Store, t: Store) {
    && (forall i | i in t.items && Closed(s, t.items[i].order) :: i in s.items && s.items[i] == t.items[i])
    && (forall i | i in s.items && Closed(s, s.items[i].order)
          && s.items[i].order in t.orders && s.items[i].info in t.infos ::
          i in t.items && t.items[i] == s.items[i])
  }

  ghost predicate Evolves(s: Store, t: Store) {
    OrdersEvolve(s, t) && OffersEvolve(s, t) && ItemsFrozen(s, t)
  }

  lemma OrdersEvolveCompose(s: Store, t: Store, u: Store)
    requires OrdersEvolve(s, t) && OrdersEvolve(t, u) && forall o | o in s.orders :: o < s.nextOrder
    ensures OrdersEvolve(s, u)
    ensures forall o | o in s.orders && o in u.orders :: o in t.orders
  {
    assert forall o | o in s.orders && o in u.orders :: o in t.orders;
  }

  lemma OffersEvolveCompose(s: Store, t: Store, u: Store)
    requires OffersEvolve(s, t) && OffersEvolve(t, u) && forall p | p in s.infos :: p < s.nextInfo
    ensures OffersEvolve(s, u)
    ensures forall p | p in s.infos && p in u.infos :: p in t.infos
  {
  }

  lemma ItemsFrozenCompose(s: Store, t: Store, u: Store)
    requires ItemsFrozen(s, t) && ItemsFrozen(t, u) && OrdersEvolve(s, t)
    requires forall o | o in s.orders && o in u.orders :: o in t.orders
    requires forall p | p in s.infos && p in u.infos :: p in t.infos
    requires forall i | i in s.items :: s.items[i].info in s.infos
    requires forall i | i in u.items :: u.items[i].order in u.orders
    ensures ItemsFrozen(s, u)
  {
    forall i | i in u.items && Closed(s, u.items[i].order) ensures i in s.items && s.items[i] == u.items[i] {
      assert Closed(t, u.items[i].order);
    }
    forall i | i in s.items && Closed(s, s.items[i].order) && s.items[i].order in u.orders && s.items[i].info in u.infos
      ensures i in u.items && u.items[i] == s.items[i]
    {
      assert Closed(t, s.items[i].order) && t.items[i] == s.items[i];
    }
  }

  lemma EvolvesCompose(s: Store, t: Store, u: Store)
    requires Valid(s) && Valid(u) && Evolves(s, t) && Evolves(t, u)
    ensures Evolves(s, u)
  {
    OrdersEvolveCompose(s, t, u);
    OffersEvolveCompose(s, t, u);
    ItemsFrozenCompose(s, t, u);
  }

  // ---------- one step ----------

  lemma EditsEvolve(s: Store, t: Store, b: Id)
    requires OrdersNumbered(s) && IsBasket(s, b) && Edits(s, t, b)
    ensures Evolves(s, t)
  {
  }

  lemma OpenEvolves(s: Store, u: Id)
    requires OrdersNumbered(s) && ItemsLinked(s)
    ensures Evolves(s, OpenBasket(s, u).0)
  {
  }

  lemma BasketStepEvolves(s: Store, step: Step)
    requires Valid(s) && EditsBasket(step)
    ensures Evolves(s, Apply(s, step))
  {
    BasketStep(s, step);
    var (s1, b) := OpenBasket(s, step.user);
    if Apply(s, step) != s {
      OpenEvolves(s, step.user);
      EditsEvolve(s1, Apply(s, step), b);
      EvolvesCompose(s, s1, Apply(s, step));
    }
  }

  lemma AdvanceEvolves(s: Store, t: Store, o: Id)
    requires ItemsLinked(s) && o in s.orders && t.infos.Keys == s.infos.Keys && o in t.orders
    requires t == s.(infos := t.infos, orders := s.orders[o := t.orders[o]])
    requires t.orders[o].user == s.orders[o].user && Later(s.orders[o].phase, t.orders[o].phase)
    ensures Evolves(s, t)
  {
  }

  lemma CheckoutEvolves(s: Store, u: Id, b: Id, c: Id)
    requires ItemsLinked(s) && OwnsBasket(s, u, b)
    ensures Evolves(s, Checkout(s, u, b, c).0)
  {
    AdvanceEvolves(s, Checkout(s, u, b, c).0, b);
  }

  lemma CascadeEvolves(s: Store, gone: set<Id>)
    requires ItemsLinked(s)
    ensures Evolves(s, Cascade(s, gone))
  {
  }

  lemma ImportEvolves(s: Store, u: Id, f: Feed)
    requires Valid(s)
    ensures Evolves(s, Import(s, u, f).0)
  {
    ImportLeavesOthers(s, u, f);
    if Cleared(s, u, f).Some? {
      LeavesOthersEvolves(s, Import(s, u, f).0, TargetShop(s, u, f));
    }
  }

  lemma LeavesOthersEvolves(s: Store, t: Store, shop: Id)
    requires Valid(s) && LeavesOthers(s, t, shop)
    ensures Evolves(s, t)
  {
    forall i | i in s.items && s.items[i].info in t.infos ensures i in t.items && t.items[i] == s.items[i] {
      assert s.items[i].info < s.nextInfo;
    }
  }

  /** Placing, re-addressing and cancelling touch stock and one order row; items stay. */
  lemma OrderStepEvolves(s: Store, step: Step)
    requires ItemsLinked(s) && AdvancesOrder(step)
    ensures Evolves(s, Apply(s, step)) && Apply(s, step).items == s.items
  {
    if Apply(s, step) == s {
    } else if step.Readdress? || step.CancelOrder? {
      AdvanceEvolves(s, Apply(s, step), step.order);
    } else {
      PlaceStep(s, step);
      CheckoutEvolves(s, step.user, Chosen(s, step).value, step.contact);
    }
  }

  lemma ContactStepEvolves(s: Store, step: Step)
    requires ItemsLinked(s) && step.NewContact?
    ensures Evolves(s, Apply(s, step))
  {
  }

  lemma DropStepEvolves(s: Store, step: Step)
    requires ItemsLinked(s) && step.DropContacts?
    ensures Evolves(s, Apply(s, step))
  {
    ContactDeletionIsExact(s, step.user, step.tokens);
    CascadeEvolves(s, Gone(s, step.user, step.tokens));
  }

  lemma FeedStepEvolves(s: Store, step: Step)
    requires Valid(s) && step.LoadFeed?
    ensures Evolves(s, Apply(s, step))
  {
    ImportEvolves(s, step.user, step.feed);
  }

  lemma StepEvolves(s: Store, step: Step)
    requires Valid(s)
    ensures Evolves(s, Apply(s, step))
  {
    if EditsBasket(step) {
      BasketStepEvolves(s, step);
    } else if AdvancesOrder(step) {
      OrderStepEvolves(s, step);
    } else {
      match step
      case NewContact(_, _) => ContactStepEvolves(s, step);
      case DropContacts(_, _) => DropStepEvolves(s, step);
      case LoadFeed(_, _) => FeedStepEvolves(s, step);
    }
  }

  // ---------- runs ----------

  lemma {:induction false} RunEvolves(s: Store, steps: seq<Step>)
    requires Valid(s)
    ensures Evolves(s, Run(s, steps))
    decreases steps
  {
    if steps == [] {
    } else {
      var t := Apply(s, steps[0]);
      ApplyKeepsValid(s, steps[0]);
      StepEvolves(s, steps[0]);
      RunEvolves(t, steps[1..]);
      RunKeepsValid(t, steps[1..]);
      EvolvesCompose(s, t, Run(t, steps[1..]));
    }
  }

  /** What the steps of a run take off the ledger of `p` for good. */
  ghost function LostOver(s: Store, steps: seq<Step>, p: Id): int
    decreases steps
  {
    if steps == [] then 0 else Lost(s, steps[0], p) + LostOver(Apply(s, steps[0]), steps[1..], p)
  }

  /** Conservation: over any run, for every offer that survives it, stock plus the quantity in
      `new` orders is what it was, less what went with contacts deleted on the way. */
  lemma {:induction false} StockIsConserved(s: Store, steps: seq<Step>, p: Id)
    requires Valid(s) && p in s.infos && p in Run(s, steps).infos
    ensures Ledger(s, p) == Ledger(Run(s, steps), p) + LostOver(s, steps, p)
    ensures 0 <= LostOver(s, steps, p)
    decreases steps
  {
    if steps == [] {
    } else {
      var t := Apply(s, steps[0]);
      ApplyKeepsValid(s, steps[0]);
      StepEvolves(s, steps[0]);
      RunEvolves(t, steps[1..]);
      assert p in t.infos;
      StepLedger(s, steps[0], p);
      StockIsConserved(t, steps[1..], p);
    }
  }

  lemma {:induction false} OnlyContactsLose(s: Store, steps: seq<Step>, p: Id)
    requires forall k | 0 <= k < |steps| :: !steps[k].DropContacts?
    ensures LostOver(s, steps, p) == 0
    decreases steps
  {
    if steps == [] {
    } else {
      assert forall k | 0 <= k < |steps| - 1 :: steps[1..][k] == steps[k + 1];
      OnlyContactsLose(Apply(s, steps[0]), steps[1..], p);
    }
  }

  /** An offer is never oversold: its stock stays non-negative, so all `new` orders together hold
      at most what was there; without contact deletions the balance is exact. */
  lemma NeverOversold(s: Store, steps: seq<Step>, p: Id)
    requires Valid(s) && p in s.infos && p in Run(s, steps).infos
    ensures 0 <= Run(s, steps).infos[p].stock
    ensures Total(Run(s, steps), Committed(p)) <= Ledger(s, p)
    ensures (forall k | 0 <= k < |steps| :: !steps[k].DropContacts?) ==> Ledger(Run(s, steps), p) == Ledger(s, p)
  {
    RunKeepsValid(s, steps);
    StockIsConserved(s, steps, p);
    if forall k | 0 <= k < |steps| :: !steps[k].DropContacts? {
      OnlyContactsLose(s, steps, p);
    }
  }

  // ---------- the life of an order ----------

  /** The step from `s` to `t` takes the order's quantities out of stock. */
  predicate Deducts(s: Store, t: Store, o: Id) {
    o in s.orders && o in t.orders && s.orders[o].phase.Basket? && t.orders[o].phase.New?
  }

  /** The step from `s` to `t` puts the order's quantities back into stock. */
  predicate Restocks(s: Store, t: Store, o: Id) {
    o in s.orders && o in t.orders && s.orders[o].phase.New? && t.orders[o].phase.Canceled?
  }

  /** The database after the first `k` steps. */
  function At(s: Store, steps: seq<Step>, k: nat): Store
    requires k <= |steps|
  {
    Run(s, steps[..k])
  }

  lemma AtEvolves(s: Store, steps: seq<Step>, j: nat, k: nat)
    requires Valid(s) && j <= k <= |steps|
    ensures Evolves(At(s, steps, j), At(s, steps, k))
  {
    assert steps[..k] == steps[..j] + steps[j..k];
    RunConcat(s, steps[..j], steps[j..k]);
    RunKeepsValid(s, steps[..j]);
    RunEvolves(At(s, steps, j), steps[j..k]);
  }

  predicate DeductsAt(s: Store, steps: seq<Step>, k: nat, o: Id)
    requires k < |steps|
  {
    Deducts(At(s, steps, k), At(s, steps, k + 1), o)
  }

  predicate RestocksAt(s: Store, steps: seq<Step>, k: nat, o: Id)
    requires k < |steps|
  {
    Restocks(At(s, steps, k), At(s, steps, k + 1), o)
  }

  /** Over any run, an order is deducted from stock by at most one step and restocked by at most
      one step, and it is restocked only after it was deducted, if it began as a basket. */
  lemma DeductedAndRestockedOnce(s: Store, steps: seq<Step>, o: Id, j: nat, k: nat)
    requires Valid(s) && j < |steps| && k < |steps|
    ensures DeductsAt(s, steps, j, o) && DeductsAt(s, steps, k, o) ==> j == k
    ensures RestocksAt(s, steps, j, o) && RestocksAt(s, steps, k, o) ==> j == k
    ensures DeductsAt(s, steps, j, o) && RestocksAt(s, steps, k, o) ==> j < k
  {
    if j < k {
      AtEvolves(s, steps, j + 1, k);
    }
    if k < j {
      AtEvolves(s, steps, k + 1, j);
    }
  }

  lemma HeldSame(s: Store, t: Store, o: Id, p: Id)
    requires Numbered(s) && Numbered(t)
    requires forall i | i in s.items && s.items[i].order == o && s.items[i].info == p ::
               i in t.items && t.items[i] == s.items[i]
    requires forall i | i in t.items && t.items[i].order == o && t.items[i].info == p ::
               i in s.items && s.items[i] == t.items[i]
    ensures Total(t, Held(o, p)) == Total(s, Held(o, p))
  {
    TotalSame(s, Held(o, p), t, Held(o, p));
  }

  /** The quantities of an order that is no longer a basket stay what they are as long as the
      order and the offer exist. */
  lemma HeldIsFrozen(s: Store, t: Store, o: Id, p: Id)
    requires Numbered(s) && Numbered(t) && Evolves(s, t)
    requires o in s.orders && o in t.orders && !s.orders[o].phase.Basket? && p in t.infos
    ensures Total(t, Held(o, p)) == Total(s, Held(o, p))
  {
    HeldSame(s, t, o, p);
  }

  ghost predicate MovesStock(s: Store, t: Store, o: Id, p: Id)
    requires p in s.infos && p in t.infos
  {
    && (Deducts(s, t, o) ==> t.infos[p].stock == s.infos[p].stock - Total(s, Held(o, p)))
    && (Restocks(s, t, o) ==> t.infos[p].stock == s.infos[p].stock + Total(s, Held(o, p)))
    && ((forall x :: !Deducts(s, t, x) && !Restocks(s, t, x)) ==> t.infos[p].stock == s.infos[p].stock)
  }

  lemma CheckoutMovesStock(s: Store, u: Id, b: Id, c: Id, o: Id, p: Id)
    requires OwnsBasket(s, u, b) && p in s.infos
    ensures var t := Checkout(s, u, b, c).0;
            p in t.infos && MovesStock(s, t, o, p)
  {
    var t := Checkout(s, u, b, c).0;
    if t != s {
      assert Deducts(s, t, b);
    }
  }

  lemma CancelMovesStock(s: Store, u: Id, ord: Id, o: Id, p: Id)
    requires p in s.infos
    ensures var t := Cancel(s, u, ord).0;
            p in t.infos && MovesStock(s, t, o, p)
  {
    var t := Cancel(s, u, ord).0;
    if Cancel(s, u, ord).1.Cancelled? {
      assert Restocks(s, t, ord);
    }
  }

  lemma StillStock(s: Store, t: Store, o: Id, p: Id)
    requires p in s.infos && p in t.infos && t.infos[p].stock == s.infos[p].stock
    requires forall x | x in s.orders && x in t.orders :: t.orders[x].phase == s.orders[x].phase
    ensures MovesStock(s, t, o, p)
  {
  }

  /** Stock moves only when an order is deducted or restocked, and then by exactly what that
      order holds of the offer. */
  lemma StockMovesOnlyWithOrders(s: Store, step: Step, o: Id, p: Id)
    requires Valid(s) && p in s.infos && p in Apply(s, step).infos
    ensures MovesStock(s, Apply(s, step), o, p)
  {
    var t := Apply(s, step);
    if step.PlaceNamed? || step.PlaceOwn? {
      PlaceStep(s, step);
      if Chosen(s, step).Some? {
        CheckoutMovesStock(s, step.user, Chosen(s, step).value, step.contact, o, p);
      }
    } else if step.CancelOrder? {
      CancelMovesStock(s, step.user, step.order, o, p);
    } else {
      OtherStepsKeepPhases(s, step);
      StillStock(s, t, o, p);
    }
  }

  ghost predicate SamePhases(s: Store, t: Store) {
    && (forall p | p in s.infos && p in t.infos :: t.infos[p].stock == s.infos[p].stock)
    && (forall x | x in s.orders && x in t.orders :: t.orders[x].phase == s.orders[x].phase)
  }

  lemma BasketStepKeepsPhases(s: Store, step: Step)
    requires Valid(s) && EditsBasket(step)
    ensures SamePhases(s, Apply(s, step))
  {
    BasketStep(s, step);
    OpenKeepsPhases(s, step.user);
    var (t, b) := OpenBasket(s, step.user);
    if Apply(s, step) != s {
      EditsKeepPhases(s, t, Apply(s, step), b);
    }
  }

  lemma OpenKeepsPhases(s: Store, u: Id)
    requires OrdersNumbered(s)
    ensures SamePhases(s, OpenBasket(s, u).0)
    ensures forall o | o in OpenBasket(s, u).0.orders && o !in s.orders :: OpenBasket(s, u).0.orders[o].phase.Basket?
  {
  }

  lemma EditsKeepPhases(s: Store, t: Store, u: Store, b: Id)
    requires SamePhases(s, t) && Edits(t, u, b)
    ensures SamePhases(s, u)
  {
  }

  /** No order appears. */
  ghost predicate NoNewOrders(s: Store, t: Store) {
    forall o | o in t.orders :: o in s.orders
  }

  lemma ReaddressKeepsPhases(s: Store, step: Step)
    requires step.Readdress?
    ensures SamePhases(s, Apply(s, step)) && NoNewOrders(s, Apply(s, step))
  {
  }

  lemma ContactKeepsPhases(s: Store, step: Step)
    requires step.NewContact?
    ensures SamePhases(s, Apply(s, step)) && NoNewOrders(s, Apply(s, step))
  {
  }

  lemma DropKeepsPhases(s: Store, step: Step)
    requires step.DropContacts?
    ensures SamePhases(s, Apply(s, step)) && NoNewOrders(s, Apply(s, step))
  {
    ContactDeletionIsExact(s, step.user, step.tokens);
  }

  lemma FeedKeepsPhases(s: Store, step: Step)
    requires Valid(s) && step.LoadFeed?
    ensures SamePhases(s, Apply(s, step)) && NoNewOrders(s, Apply(s, step))
  {
    ImportLeavesOthers(s, step.user, step.feed);
  }

  lemma OtherStepsKeepPhases(s: Store, step: Step)
    requires Valid(s) && !step.PlaceNamed? && !step.PlaceOwn? && !step.CancelOrder?
    ensures SamePhases(s, Apply(s, step))
  {
    match step
    case Readdress(_, _, _) => ReaddressKeepsPhases(s, step);
    case NewContact(_, _) => ContactKeepsPhases(s, step);
    case DropContacts(_, _) => DropKeepsPhases(s, step);
    case LoadFeed(_, _) => FeedKeepsPhases(s, step);
    case _ => BasketStepKeepsPhases(s, step);
  }

  /** One step moves an order from basket to new, from new to canceled, or not at all, and an
      order that appears is a basket. */
  lemma StepMovesPhase(s: Store, step: Step, o: Id)
    requires Valid(s) && o in Apply(s, step).orders
    ensures var t := Apply(s, step);
            if o in s.orders
            then t.orders[o].phase == s.orders[o].phase || Deducts(s, t, o) || Restocks(s, t, o)
            else t.orders[o].phase.Basket?
  {
    match step
    case PlaceNamed(_, _, _) => PlaceMovesPhase(s, step, o);
    case PlaceOwn(_, _) => PlaceMovesPhase(s, step, o);
    case CancelOrder(_, _) => CancelMovesPhase(s, step, o);
    case Readdress(_, _, _) => ReaddressKeepsPhases(s, step);
    case NewContact(_, _) => ContactKeepsPhases(s, step);
    case DropContacts(_, _) => DropKeepsPhases(s, step);
    case LoadFeed(_, _) => FeedKeepsPhases(s, step);
    case _ => BasketStepMovesPhase(s, step, o);
  }

  lemma PlaceMovesPhase(s: Store, step: Step, o: Id)
    requires (step.PlaceNamed? || step.PlaceOwn?) && o in Apply(s, step).orders
    ensures o in s.orders
    ensures Apply(s, step).orders[o].phase == s.orders[o].phase || Deducts(s, Apply(s, step), o)
  {
    PlaceStep(s, step);
  }

  lemma CancelMovesPhase(s: Store, step: Step, o: Id)
    requires step.CancelOrder? && o in Apply(s, step).orders
    ensures o in s.orders
    ensures Apply(s, step).orders[o].phase == s.orders[o].phase || Restocks(s, Apply(s, step), o)
  {
  }

  lemma BasketStepMovesPhase(s: Store, step: Step, o: Id)
    requires Valid(s) && EditsBasket(step) && o in Apply(s, step).orders
    ensures if o in s.orders then Apply(s, step).orders[o].phase == s.orders[o].phase
            else Apply(s, step).orders[o].phase.Basket?
  {
    BasketStep(s, step);
    OpenKeepsPhases(s, step.user);
  }

  lemma AtNext(s: Store, steps: seq<Step>, k: nat)
    requires k < |steps|
    ensures At(s, steps, k + 1) == Apply(At(s, steps, k), steps[k])
  {
    assert steps[..k + 1] == steps[..k] + [steps[k]];
    RunConcat(s, steps[..k], [steps[k]]);
    assert Run(At(s, steps, k), [steps[k]]) == Apply(At(s, steps, k), steps[k]);
  }

  /** Step `k` of a run leads from one valid database to the next. */
  lemma AtStep(s: Store, steps: seq<Step>, k: nat)
    requires Valid(s) && k < |steps|
    ensures Valid(At(s, steps, k)) && Valid(At(s, steps, k + 1))
    ensures At(s, steps, k + 1) == Apply(At(s, steps, k), steps[k])
    ensures Evolves(At(s, steps, k), At(s, steps, k + 1))
  {
    RunKeepsValid(s, steps[..k]);
    RunKeepsValid(s, steps[..k + 1]);
    AtNext(s, steps, k);
    AtEvolves(s, steps, k, k + 1);
  }

  /** By how much step `k` of the run moves the stock of `p`. */
  function StockChange(s: Store, steps: seq<Step>, k: nat, p: Id): int
    requires k < |steps|
  {
    Stock(At(s, steps, k + 1), p) - Stock(At(s, steps, k), p)
  }

  /** In every run that deducts an order at one step and restocks it at another, with any steps
      between, the two together move the stock of every offer that is there throughout by nothing. */
  lemma PlaceThenCancelIsNeutral(s: Store, steps: seq<Step>, o: Id, p: Id, j: nat, k: nat)
    requires Valid(s) && j < |steps| && k < |steps|
    ensures DeductsAt(s, steps, j, o) && RestocksAt(s, steps, k, o)
            && p in At(s, steps, j).infos && p in At(s, steps, k + 1).infos
            ==> StockChange(s, steps, j, p) + StockChange(s, steps, k, p) == 0
  {
    DeductedAndRestockedOnce(s, steps, o, j, k);
    if && DeductsAt(s, steps, j, o) && RestocksAt(s, steps, k, o)
       && p in At(s, steps, j).infos && p in At(s, steps, k + 1).infos
    {
      AtStep(s, steps, j);
      AtStep(s, steps, k);
      AtEvolves(s, steps, j + 1, k);
      NeutralCore(At(s, steps, j), At(s, steps, j + 1), At(s, steps, k), At(s, steps, k + 1), steps[j], steps[k], o, p);
    }
  }

  lemma NeutralCore(s: Store, t: Store, u: Store, w: Store, place: Step, cancel: Step, o: Id, p: Id)
    requires Valid(s) && Valid(t) && Valid(u) && t == Apply(s, place) && w == Apply(u, cancel)
    requires Evolves(s, t) && Evolves(t, u) && Evolves(u, w)
    requires Deducts(s, t, o) && Restocks(u, w, o) && p in s.infos && p in w.infos
    ensures Stock(t, p) - Stock(s, p) + Stock(w, p) - Stock(u, p) == 0
  {
    assert p in u.infos && p in t.infos;
    StockMovesOnlyWithOrders(s, place, o, p);
    StockMovesOnlyWithOrders(u, cancel, o, p);
    HeldIsFrozen(t, u, o, p);
    DeductionKeepsItems(s, place, o, p);
  }

  lemma DeductionKeepsItems(s: Store, step: Step, o: Id, p: Id)
    requires Valid(s) && p in s.infos && p in Apply(s, step).infos && Deducts(s, Apply(s, step), o)
    ensures Total(Apply(s, step), Held(o, p)) == Total(s, Held(o, p))
  {
    if !AdvancesOrder(step) {
      OtherStepsKeepPhases(s, step);
    } else {
      ApplyKeepsValid(s, step);
      OrderStepEvolves(s, step);
      HeldSame(s, Apply(s, step), o, p);
    }
  }

  /** Whatever happens after an order has left the basket, it never holds anything of an offer
      created later: cancelling it adds nothing to re-imported stock. */
  lemma LaterOffersAreUntouched(s: Store, steps: seq<Step>, o: Id, p: Id)
    requires Valid(s) && o in s.orders && !s.orders[o].phase.Basket? && s.nextInfo <= p
    ensures Total(Run(s, steps), Held(o, p)) == 0
    ensures p in Run(s, steps).infos ==>
              forall u: Id :: Stock(Cancel(Run(s, steps), u, o).0, p) == Stock(Run(s, steps), p)
  {
    var t := Run(s, steps);
    RunEvolves(s, steps);
    RunKeepsValid(s, steps);
    HeldIsZero(t, o, p);
  }
}
