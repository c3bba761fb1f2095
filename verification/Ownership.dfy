/** What one user's requests leave of another user's rows. */
module Ownership {
  import opened Tables
  import opened Baskets
  import opened Contacts
  import opened Imports
  import opened ImportTheorems
  import opened Runs

  function OrdersOf(s: Store, v: Id): map<Id, Order> {
    map o | o in s.orders && s.orders[o].user == v :: s.orders[o]
  }

  function ItemsOf(s: Store, v: Id): map<Id, Item> {
    map i | i in s.items && s.items[i].order in s.orders && s.orders[s.items[i].order].user == v :: s.items[i]
  }

  function ContactsOf(s: Store, v: Id): map<Id, Contact> {
    map c | c in s.contacts && s.contacts[c].user == v :: s.contacts[c]
  }

  /** User `v` has the same orders, items and contacts in both. */
  ghost predicate SameFor(s: Store, t: Store, v: Id) {
    OrdersOf(t, v) == OrdersOf(s, v) && ItemsOf(t, v) == ItemsOf(s, v) && ContactsOf(t, v) == ContactsOf(s, v)
  }

  predicate OrderedBy(s: Store, o: Id, v: Id) {
    o in s.orders && s.orders[o].user == v
  }

  /** Row by row: what `v` has in `s` is there in `t`. */
  ghost predicate KeepsRows(s: Store, t: Store, v: Id) {
    && (forall o | OrderedBy(s, o, v) :: OrderedBy(t, o, v) && t.orders[o] == s.orders[o])
    && (forall i | i in s.items && OrderedBy(s, s.items[i].order, v) :: i in t.items && t.items[i] == s.items[i])
    && (forall c | c in s.contacts && s.contacts[c].user == v :: c in t.contacts && t.contacts[c] == s.contacts[c])
  }

  lemma RowsSame(s: Store, t: Store, v: Id)
    requires KeepsRows(s, t, v) && KeepsRows(t, s, v)
    ensures SameFor(s, t, v)
  {
    assert OrdersOf(t, v) == OrdersOf(s, v);
    assert ItemsOf(t, v) == ItemsOf(s, v);
    assert ContactsOf(t, v) == ContactsOf(s, v);
  }

  lemma OpenKeepsOthers(s: Store, u: Id, v: Id)
    requires OrdersNumbered(s) && ItemsLinked(s) && u != v
    ensures SameFor(s, OpenBasket(s, u).0, v)
  {
    RowsSame(s, OpenBasket(s, u).0, v);
  }

  lemma EditsKeepOthers(s: Store, t: Store, b: Id, v: Id)
    requires Edits(s, t, b) && s.orders[b].user != v
    ensures SameFor(s, t, v)
  {
    RowsSame(s, t, v);
  }

  lemma AdvanceKeepsOthers(s: Store, t: Store, o: Id, v: Id)
    requires o in s.orders && o in t.orders && s.orders[o].user != v && t.orders[o].user != v
    requires t == s.(infos := t.infos, orders := s.orders[o := t.orders[o]])
    ensures SameFor(s, t, v)
  {
  }

  lemma CascadeKeepsOthers(s: Store, gone: set<Id>, v: Id)
    requires ItemsLinked(s) && forall c | c in gone :: c in s.contacts && s.contacts[c].user != v
    requires forall o | o in s.orders && s.orders[o].contact.Some? ::
               s.orders[o].contact.value in s.contacts && s.contacts[s.orders[o].contact.value].user == s.orders[o].user
    ensures SameFor(s, Cascade(s, gone), v)
  {
    var t := Cascade(s, gone);
    forall o | o in OrdersOn(s, gone) ensures s.orders[o].user != v {
      assert Hangs(s, o, gone);
    }
    RowsSame(s, t, v);
  }

  lemma OrderStepKeepsOthers(s: Store, step: Step, v: Id)
    requires Valid(s) && step.user != v && AdvancesOrder(step)
    ensures SameFor(s, Apply(s, step), v)
  {
    if Apply(s, step) == s {
    } else if step.Readdress? || step.CancelOrder? {
      AdvanceKeepsOthers(s, Apply(s, step), step.order, v);
    } else {
      PlaceStep(s, step);
      AdvanceKeepsOthers(s, Apply(s, step), Chosen(s, step).value, v);
    }
  }

  lemma InsertKeepsOthers(s: Store, row: Contact, v: Id)
    requires s.nextContact !in s.contacts && row.user != v
    ensures SameFor(s, InsertContact(s, row), v)
  {
  }

  lemma ContactStepKeepsOthers(s: Store, step: Step, v: Id)
    requires s.nextContact !in s.contacts && step.user != v && step.NewContact?
    ensures SameFor(s, Apply(s, step), v)
  {
    if Acceptable(step.form) {
      InsertKeepsOthers(s, ContactRow(step.user, step.form), v);
    }
  }

  lemma DropStepKeepsOthers(s: Store, step: Step, v: Id)
    requires SalesValid(s) && step.user != v && step.DropContacts?
    ensures SameFor(s, Apply(s, step), v)
  {
    ContactDeletionIsExact(s, step.user, step.tokens);
    CascadeKeepsOthers(s, Gone(s, step.user, step.tokens), v);
  }

  /** A basket, order or contact request of one user leaves every other user's orders, items and
      contacts as they are, cascades included. */
  lemma StepKeepsOthers(s: Store, step: Step, v: Id)
    requires Valid(s) && step.user != v && !step.LoadFeed?
    ensures SameFor(s, Apply(s, step), v)
  {
    match step
    case NewContact(_, _) => ContactStepKeepsOthers(s, step, v);
    case DropContacts(_, _) => DropStepKeepsOthers(s, step, v);
    case _ => if EditsBasket(step) { BasketStepKeepsOthers(s, step, v); } else { OrderStepKeepsOthers(s, step, v); }
  }

  lemma BasketStepKeepsOthers(s: Store, step: Step, v: Id)
    requires Valid(s) && step.user != v && EditsBasket(step)
    ensures SameFor(s, Apply(s, step), v)
  {
    BasketStep(s, step);
    OpenKeepsOthers(s, step.user, v);
    if Apply(s, step) != s {
      EditsKeepOthers(OpenBasket(s, step.user).0, Apply(s, step), OpenBasket(s, step.user).1, v);
    }
  }

  /** Over any run in which user `v` takes no step and no feed is loaded, nothing of `v` changes. */
  lemma {:induction false} RunKeepsOthers(s: Store, steps: seq<Step>, v: Id)
    requires Valid(s) && forall k | 0 <= k < |steps| :: steps[k].user != v && !steps[k].LoadFeed?
    ensures SameFor(s, Run(s, steps), v)
    decreases steps
  {
    if steps == [] {
    } else {
      ApplyKeepsValid(s, steps[0]);
      StepKeepsOthers(s, steps[0], v);
      assert forall k | 0 <= k < |steps| - 1 :: steps[1..][k] == steps[k + 1];
      RunKeepsOthers(Apply(s, steps[0]), steps[1..], v);
    }
  }

  /** A feed changes nobody's orders or contacts, and of the items only removes those that point
      at offers of the shop it replaces. */
  lemma ImportKeepsOrders(s: Store, u: Id, f: Feed, v: Id)
    requires Valid(s)
    ensures var t := Import(s, u, f).0;
            && OrdersOf(t, v) == OrdersOf(s, v) && ContactsOf(t, v) == ContactsOf(s, v)
            && (forall i | i in t.items :: i in s.items && t.items[i] == s.items[i])
            && (forall i | i in s.items && i !in t.items :: s.infos[s.items[i].info].shop == TargetShop(s, u, f))
  {
    ImportLeavesOthers(s, u, f);
  }
}
