/** The requests as steps, runs of steps, and what holds over every run. */
module Runs {
  import opened Tables
  import opened Sums
  import opened Queries
  import opened Baskets
  import opened Requests
  import opened Orders
  import opened Contacts
  import opened Imports
  import opened ImportTheorems

  datatype Step =
    | AddToBasket(user: Id, adds: Payload<AddEntry>)
    | UpdateBasket(user: Id, updates: Payload<UpdateEntry>)
    | RemoveFromBasket(user: Id, tokens: seq<string>)
    | PlaceNamed(user: Id, id: string, contact: Id)
    | PlaceOwn(user: Id, contact: Id)
    | Readdress(user: Id, order: Id, contact: Id)
    | CancelOrder(user: Id, order: Id)
    | NewContact(user: Id, form: ContactForm)
    | DropContacts(user: Id, tokens: seq<string>)
    | LoadFeed(user: Id, feed: Feed)

  function Apply(s: Store, step: Step): Store {
    match step
    case AddToBasket(u, p) => Post(s, u, p).0
    case UpdateBasket(u, p) => Put(s, u, p).0
    case RemoveFromBasket(u, tokens) => Delete(s, u, tokens).0
    case PlaceNamed(u, id, c) => PlaceById(s, u, id, c).0
    case PlaceOwn(u, c) => PlaceCurrent(s, u, c).0
    case Readdress(u, o, c) => ChangeContact(s, u, o, c).0
    case CancelOrder(u, o) => Cancel(s, u, o).0
    case NewContact(u, f) => AddContact(s, u, f).0
    case DropContacts(u, tokens) => DeleteContacts(s, u, tokens).0
    case LoadFeed(u, f) => Import(s, u, f).0
  }

  function Run(s: Store, steps: seq<Step>): Store
    decreases steps
  {
    if steps == [] then s else Run(Apply(s, steps[0]), steps[1..])
  }

  lemma {:induction false} RunConcat(s: Store, a: seq<Step>, b: seq<Step>)
    ensures Run(s, a + b) == Run(Run(s, a), b)
    decreases a
  {
    if a == [] {
      assert a + b == b;
    } else {
      assert (a + b)[1..] == a[1..] + b;
      RunConcat(Apply(s, a[0]), a[1..], b);
    }
  }

  /** The empty database. */
  const FRESH := Store(Catalogue(map[], 1, map[], {}, map[], 1, map[], 1),
                       map[], 1, map[], map[], 1, map[], 1, map[], 1)

  // ---------- five kinds of change ----------

  /** Placing, re-addressing and cancelling. */
  predicate AdvancesOrder(step: Step) {
    step.PlaceNamed? || step.PlaceOwn? || step.Readdress? || step.CancelOrder?
  }

  predicate EditsBasket(step: Step) {
    step.AddToBasket? || step.UpdateBasket? || step.RemoveFromBasket?
  }

  /** A basket request opens the caller's basket and edits it, or does nothing at all. */
  lemma BasketStep(s: Store, step: Step)
    requires Valid(s) && EditsBasket(step)
    ensures var (s1, b) := OpenBasket(s, step.user);
            var t := Apply(s, step);
            && Valid(t) && (t == s || Edits(s1, t, b))
            && Valid(s1) && IsBasket(s1, b) && s1.orders[b].user == step.user
  {
    OpenBasketKeepsValid(s, step.user);
    match step
    case AddToBasket(u, p) => if !Absent(p) { PostEffect(s, u, p); }
    case UpdateBasket(u, p) => if !Absent(p) { PutEffect(s, u, p); }
    case RemoveFromBasket(u, tokens) => if tokens != [] { DeleteEffect(s, u, tokens); }
  }

  /** The basket a placement request checks out, if there is one. */
  function Chosen(s: Store, step: Step): Option<Id> {
    match step
    case PlaceNamed(u, id, c) => if IsDigits(id) && OwnsBasket(s, u, Number(id)) then Some(Number(id)) else None
    case PlaceOwn(u, c) => FirstBasket(s.orders, u, s.nextOrder)
    case _ => None
  }

  /** A placement request checks out the chosen basket or does nothing. */
  lemma PlaceStep(s: Store, step: Step)
    requires step.PlaceNamed? || step.PlaceOwn?
    ensures match Chosen(s, step)
            case Some(b) => OwnsBasket(s, step.user, b) && Apply(s, step) == Checkout(s, step.user, b, step.contact).0
            case None => Apply(s, step) == s
  {
  }

  lemma ApplyKeepsValid(s: Store, step: Step)
    requires Valid(s)
    ensures Valid(Apply(s, step))
  {
    match step
    case PlaceNamed(u, id, c) => PlaceStepKeepsValid(s, step);
    case PlaceOwn(u, c) => PlaceStepKeepsValid(s, step);
    case Readdress(u, o, c) => ChangeContactKeepsValid(s, u, o, c);
    case CancelOrder(u, o) => CancelKeepsValid(s, u, o);
    case NewContact(u, f) => AddContactKeepsValid(s, u, f);
    case DropContacts(u, tokens) =>
      ContactDeletionIsExact(s, u, tokens);
      CascadeKeepsValid(s, Gone(s, u, tokens));
    case LoadFeed(u, f) => ImportKeepsValid(s, u, f);
    case _ => BasketStep(s, step);
  }

  lemma PlaceStepKeepsValid(s: Store, step: Step)
    requires Valid(s) && (step.PlaceNamed? || step.PlaceOwn?)
    ensures Valid(Apply(s, step))
  {
    PlaceStep(s, step);
    if Chosen(s, step).Some? {
      CheckoutKeepsValid(s, step.user, Chosen(s, step).value, step.contact);
    }
  }

  /** Every reachable database is valid: foreign keys hold, natural keys and (order, product) are
      unique, each user has at most one basket, order contacts belong to the order's user, and no
      stock is negative. */
  lemma {:induction false} RunKeepsValid(s: Store, steps: seq<Step>)
    requires Valid(s)
    ensures Valid(Run(s, steps))
    decreases steps
  {
    if steps == [] {
    } else {
      ApplyKeepsValid(s, steps[0]);
      RunKeepsValid(Apply(s, steps[0]), steps[1..]);
    }
  }

  lemma ReachableIsValid(steps: seq<Step>)
    ensures Valid(Run(FRESH, steps))
  {
    RunKeepsValid(FRESH, steps);
  }

  // ---------- contact rows ----------

  /** Every contact keeps within the columns of its table. */
  ghost predicate ContactsFit(s: Store) {
    forall c | c in s.contacts :: Fitting(s.contacts[c])
  }

  /** A step only deletes contacts, except that it may add one with an acceptable form. */
  ghost predicate ContactsFrom(s: Store, t: Store, step: Step) {
    forall c | c in t.contacts ::
      || (c in s.contacts && t.contacts[c] == s.contacts[c])
      || (step.NewContact? && Acceptable(step.form) && t.contacts[c] == ContactRow(step.user, step.form))
  }

  lemma OtherStepsAddNoContact(s: Store, step: Step)
    requires Valid(s) && !step.NewContact?
    ensures ContactsFrom(s, Apply(s, step), step)
  {
    match step
    case DropContacts(u, tokens) => ContactDeletionIsExact(s, u, tokens);
    case LoadFeed(u, f) => ImportLeavesOthers(s, u, f);
    case _ => if AdvancesOrder(step) { OrderStepKeepsContacts(s, step); } else { BasketStep(s, step); }
  }

  lemma OrderStepKeepsContacts(s: Store, step: Step)
    requires AdvancesOrder(step)
    ensures Apply(s, step).contacts == s.contacts
  {
    if step.PlaceNamed? || step.PlaceOwn? {
      PlaceStep(s, step);
    }
  }

  lemma StepKeepsContactsFit(s: Store, step: Step)
    requires Valid(s) && ContactsFit(s)
    ensures ContactsFit(Apply(s, step))
  {
    if step.NewContact? {
      if Acceptable(step.form) {
        AcceptedFits(step.user, step.form);
      }
    } else {
      OtherStepsAddNoContact(s, step);
    }
  }

  lemma {:induction false} RunKeepsContactsFit(s: Store, steps: seq<Step>)
    requires Valid(s) && ContactsFit(s)
    ensures ContactsFit(Run(s, steps))
    decreases steps
  {
    if steps == [] {
    } else {
      ApplyKeepsValid(s, steps[0]);
      StepKeepsContactsFit(s, steps[0]);
      RunKeepsContactsFit(Apply(s, steps[0]), steps[1..]);
    }
  }

  /** In every reachable database the contacts keep within the columns: what the form checks is
      what the table allows, and no other step writes a contact. */
  lemma ReachableContactsFit(steps: seq<Step>)
    ensures ContactsFit(Run(FRESH, steps))
  {
    RunKeepsContactsFit(FRESH, steps);
  }

  // ---------- conservation of stock ----------

  lemma EditsKeepLedger(s: Store, t: Store, b: Id, p: Id)
    requires Edits(s, t, b) && Numbered(s) && Numbered(t) && IsBasket(s, b)
    ensures Ledger(t, p) == Ledger(s, p)
  {
    TotalSame(s, Committed(p), t, Committed(p));
  }

  lemma OpenKeepsLedger(s: Store, u: Id, p: Id)
    requires Numbered(s) && ItemsLinked(s) && OrdersNumbered(s)
    ensures Ledger(OpenBasket(s, u).0, p) == Ledger(s, p)
  {
    TotalSame(s, Committed(p), OpenBasket(s, u).0, Committed(p));
  }

  /** What a step takes off the ledger of `p` for good: the part of deleted `new` orders. */
  ghost function Lost(s: Store, step: Step, p: Id): int {
    if step.DropContacts?
    then Total(s, Doomed(p, OrdersOn(s, Gone(s, step.user, step.tokens))))
    else 0
  }

  /** Each step keeps the ledger of an offer that is still there, but for what is lost. */
  lemma StepLedger(s: Store, step: Step, p: Id)
    requires Valid(s) && p in s.infos && p in Apply(s, step).infos
    ensures Ledger(s, p) == Ledger(Apply(s, step), p) + Lost(s, step, p)
    ensures 0 <= Lost(s, step, p)
  {
    match step
    case PlaceNamed(_, _, _) => PlaceStepLedger(s, step, p);
    case PlaceOwn(_, _) => PlaceStepLedger(s, step, p);
    case Readdress(_, _, _) => ReaddressStepLedger(s, step, p);
    case CancelOrder(_, _) => CancelStepLedger(s, step, p);
    case NewContact(_, _) => ContactStepLedger(s, step, p);
    case DropContacts(_, _) => DropStepLedger(s, step, p);
    case LoadFeed(_, _) => FeedStepLedger(s, step, p);
    case _ => BasketStepLedger(s, step, p);
  }

  ghost predicate KeepsLedger(s: Store, step: Step, p: Id) {
    Ledger(s, p) == Ledger(Apply(s, step), p) + Lost(s, step, p) && 0 <= Lost(s, step, p)
  }

  /** Item `i` is of offer `p` and of a `new` order that hangs on one of the contacts `gone`. */
  predicate OnGone(s: Store, gone: set<Id>, p: Id, i: Id) {
    && i in s.items && s.items[i].info == p && s.items[i].quantity > 0
    && IsNew(s, s.items[i].order) && Hangs(s, s.items[i].order, gone)
  }

  /** The step deletes a contact on which a `new` order with pieces of `p` hangs. */
  ghost predicate TakesPieces(s: Store, step: Step, p: Id) {
    step.DropContacts? && exists i :: OnGone(s, Gone(s, step.user, step.tokens), p, i)
  }

  lemma DoomedIff(s: Store, gone: set<Id>, p: Id)
    requires Numbered(s)
    ensures Total(s, Doomed(p, OrdersOn(s, gone))) > 0 <==> exists i :: OnGone(s, gone, p, i)
  {
    var m := Doomed(p, OrdersOn(s, gone));
    if i :| OnGone(s, gone, p, i) {
      TotalBounds(s, m, i);
      assert Weight(s, m, i) > 0;
    } else {
      assert forall i: Id :: Weight(s, m, i) > 0 ==> OnGone(s, gone, p, i);
      SumSingle(s, m, s.nextItem, s.nextItem);
    }
  }

  /** A step keeps the ledger of an offer that is still there exactly when it does not delete a
      contact on which a `new` order with pieces of it hangs. */
  lemma LedgerKeptIff(s: Store, step: Step, p: Id)
    requires Valid(s) && p in s.infos && p in Apply(s, step).infos
    ensures Ledger(Apply(s, step), p) == Ledger(s, p) <==> !TakesPieces(s, step, p)
  {
    StepLedger(s, step, p);
    if step.DropContacts? {
      DoomedIff(s, Gone(s, step.user, step.tokens), p);
    }
  }

  lemma ReaddressStepLedger(s: Store, step: Step, p: Id)
    requires Numbered(s) && step.Readdress?
    ensures KeepsLedger(s, step, p)
  {
    ChangeContactKeepsLedger(s, step.user, step.order, step.contact, p);
  }

  lemma CancelStepLedger(s: Store, step: Step, p: Id)
    requires Numbered(s) && p in s.infos && step.CancelOrder?
    ensures KeepsLedger(s, step, p)
  {
    CancelKeepsLedger(s, step.user, step.order, p);
  }

  lemma ContactStepLedger(s: Store, step: Step, p: Id)
    requires Numbered(s) && step.NewContact?
    ensures KeepsLedger(s, step, p)
  {
    AddContactKeepsLedger(s, step.user, step.form, p);
  }

  lemma AddContactKeepsLedger(s: Store, u: Id, f: ContactForm, p: Id)
    requires Numbered(s)
    ensures Ledger(AddContact(s, u, f).0, p) == Ledger(s, p)
  {
    TotalSame(s, Committed(p), AddContact(s, u, f).0, Committed(p));
  }

  lemma FeedStepLedger(s: Store, step: Step, p: Id)
    requires Valid(s) && p in s.infos && step.LoadFeed? && p in Apply(s, step).infos
    ensures KeepsLedger(s, step, p)
  {
    ImportKeepsLedger(s, step.user, step.feed, p);
  }

  lemma PlaceStepLedger(s: Store, step: Step, p: Id)
    requires Numbered(s) && p in s.infos && (step.PlaceNamed? || step.PlaceOwn?)
    ensures KeepsLedger(s, step, p)
  {
    PlaceStep(s, step);
    if Chosen(s, step).Some? {
      CheckoutKeepsLedger(s, step.user, Chosen(s, step).value, step.contact, p);
    }
  }

  lemma DropStepLedger(s: Store, step: Step, p: Id)
    requires Numbered(s) && step.DropContacts?
    ensures KeepsLedger(s, step, p)
  {
    var gone := Gone(s, step.user, step.tokens);
    ContactDeletionIsExact(s, step.user, step.tokens);
    CascadeLosesLedger(s, gone, p);
    TotalBounds(s, Doomed(p, OrdersOn(s, gone)), 0);
  }

  lemma BasketStepLedger(s: Store, step: Step, p: Id)
    requires Valid(s) && EditsBasket(step)
    ensures KeepsLedger(s, step, p)
  {
    BasketStep(s, step);
    OpenKeepsLedger(s, step.user, p);
    if Apply(s, step) != s {
      EditsKeepLedger(OpenBasket(s, step.user).0, Apply(s, step), OpenBasket(s, step.user).1, p);
    }
  }
}
