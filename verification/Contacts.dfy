/** Delivery contacts: adding them, and deleting them with everything that hangs on them. */
module Contacts {
  import opened Tables
  import opened Sums
  import opened Queries
  import opened Baskets
  import opened Orders

  datatype ContactReply = NoArguments | Invalid(fields: seq<string>) | Created | Deleted(count: nat)

  /** What a contact request carries, stripped of surrounding blanks; an optional field that is
      not sent is empty. */
  datatype ContactForm = ContactForm(
    city: Option<string>, street: Option<string>, phone: Option<string>,
    house: string, structure: string, building: string, apartment: string)

  predicate Complete(f: ContactForm) {
    f.city.Some? && f.street.Some? && f.phone.Some?
  }

  function Check(name: string, ok: bool): seq<string> {
    if ok then [] else [name]
  }

  /** The fields the serializer refuses: required ones that are blank, and any that are too long. */
  function Faults(f: ContactForm): seq<string>
    requires Complete(f)
  {
    Check("city", 1 <= |f.city.value| <= 50) + Check("street", 1 <= |f.street.value| <= 100) +
    Check("house", |f.house| <= 15) + Check("structure", |f.structure| <= 15) +
    Check("building", |f.building| <= 15) + Check("apartment", |f.apartment| <= 15) +
    Check("phone", 1 <= |f.phone.value| <= 20)
  }

  predicate Acceptable(f: ContactForm) {
    Complete(f) && Faults(f) == []
  }

  function ContactRow(u: Id, f: ContactForm): Contact
    requires Complete(f)
  {
    Contact(u, f.city.value, f.street.value, f.house, f.structure, f.building, f.apartment, f.phone.value)
  }

  function InsertContact(s: Store, row: Contact): Store {
    s.(contacts := s.contacts[s.nextContact := row], nextContact := s.nextContact + 1)
  }

  /** ContactView.post */
  function AddContact(s: Store, u: Id, f: ContactForm): (Store, ContactReply) {
    if !Complete(f) then (s, NoArguments)
    else if Faults(f) != [] then (s, Invalid(Faults(f)))
    else (InsertContact(s, ContactRow(u, f)), Created)
  }

  /** A field of the form that must not be blank, or must not be so long. */
  predicate Breaks(f: ContactForm, field: string)
    requires Complete(f)
  {
    match field
    case "city" => f.city.value == [] || |f.city.value| > 50
    case "street" => f.street.value == [] || |f.street.value| > 100
    case "house" => |f.house| > 15
    case "structure" => |f.structure| > 15
    case "building" => |f.building| > 15
    case "apartment" => |f.apartment| > 15
    case "phone" => f.phone.value == [] || |f.phone.value| > 20
    case _ => false
  }

  /** The row keeps within the columns of the contact table. */
  predicate Fitting(c: Contact) {
    && 1 <= |c.city| <= 50 && 1 <= |c.street| <= 100 && 1 <= |c.phone| <= 20
    && |c.house| <= 15 && |c.structure| <= 15 && |c.building| <= 15 && |c.apartment| <= 15
  }

  predicate Hangs(s: Store, o: Id, gone: set<Id>) {
    o in s.orders && s.orders[o].contact.Some? && s.orders[o].contact.value in gone
  }

  /** The orders delivered to one of the contacts `gone`. */
  function OrdersOn(s: Store, gone: set<Id>): set<Id> {
    set o | o in s.orders && Hangs(s, o, gone)
  }

  /** Deleting contacts takes their orders with them, and those orders their items. */
  function Cascade(s: Store, gone: set<Id>): Store {
    s.(contacts := s.contacts - gone,
       orders := s.orders - OrdersOn(s, gone),
       items := map i | i in s.items && s.items[i].order !in OrdersOn(s, gone) :: s.items[i])
  }

  /** `Contact.objects.filter(q)` */
  function Selected(s: Store, q: Query): set<Id> {
    set c | c in s.contacts && Matches(q, s.contacts[c].user, c)
  }

  function Fewer<T>(before: map<Id, T>, after: map<Id, T>): nat {
    |before.Keys - after.Keys|
  }

  function Removed(s: Store, t: Store): nat {
    Fewer(s.contacts, t.contacts) + Fewer(s.orders, t.orders) + Fewer(s.items, t.items)
  }

  /** ContactView.delete; the count covers all three tables. */
  function DeleteContacts(s: Store, u: Id, tokens: seq<string>): (Store, ContactReply) {
    var (q, found) := Fold(Empty, false, u, tokens);
    if !found then (s, NoArguments) else
      var t := Cascade(s, Selected(s, q));
      (t, Deleted(Removed(s, t)))
  }

  /** What a deletion request removes: the caller's listed contacts. */
  ghost function Gone(s: Store, u: Id, tokens: seq<string>): set<Id> {
    set c | c in s.contacts && s.contacts[c].user == u && Listed(tokens, c)
  }

  /** The request deletes exactly the caller's contacts whose id is listed; a list without a
      numeric id deletes nothing, not everything. */
  lemma ContactDeletionIsExact(s: Store, u: Id, tokens: seq<string>)
    ensures var (t, r) := DeleteContacts(s, u, tokens);
            && (r.NoArguments? <==> !ListsSomething(tokens))
            && t == Cascade(s, Gone(s, u, tokens))
  {
    var (q, found) := Fold(Empty, false, u, tokens);
    FoldIsExact(u, tokens);
    if found {
      assert Selected(s, q) == Gone(s, u, tokens);
    } else {
      assert Gone(s, u, tokens) == {};
      assert OrdersOn(s, {}) == {};
      assert Cascade(s, {}).items == s.items;
    }
  }

  /** The items of the orders `os`. */
  function ItemsOn(s: Store, os: set<Id>): set<Id> {
    set i | i in s.items && s.items[i].order in os
  }

  /** The contacts `gone`, the orders on them, and the items of those orders. */
  function RowsOn(s: Store, gone: set<Id>): nat {
    |gone| + |OrdersOn(s, gone)| + |ItemsOn(s, OrdersOn(s, gone))|
  }

  lemma FewerBy<T>(before: map<Id, T>, after: map<Id, T>, gone: set<Id>)
    requires gone <= before.Keys && after.Keys == before.Keys - gone
    ensures Fewer(before, after) == |gone|
  {
    assert before.Keys - after.Keys == gone;
  }

  lemma FewerContacts(s: Store, gone: set<Id>)
    requires gone <= s.contacts.Keys
    ensures Fewer(s.contacts, Cascade(s, gone).contacts) == |gone|
  {
    FewerBy(s.contacts, Cascade(s, gone).contacts, gone);
  }

  lemma FewerOrders(s: Store, gone: set<Id>)
    ensures Fewer(s.orders, Cascade(s, gone).orders) == |OrdersOn(s, gone)|
  {
    FewerBy(s.orders, Cascade(s, gone).orders, OrdersOn(s, gone));
  }

  lemma FewerItems(s: Store, gone: set<Id>)
    ensures Fewer(s.items, Cascade(s, gone).items) == |ItemsOn(s, OrdersOn(s, gone))|
  {
    FewerBy(s.items, Cascade(s, gone).items, ItemsOn(s, OrdersOn(s, gone)));
  }

  lemma CascadeCount(s: Store, gone: set<Id>)
    requires gone <= s.contacts.Keys
    ensures Removed(s, Cascade(s, gone)) == RowsOn(s, gone)
  {
    FewerContacts(s, gone);
    FewerOrders(s, gone);
    FewerItems(s, gone);
  }

  lemma SelectedCount(s: Store, q: Query)
    ensures Deleted(Removed(s, Cascade(s, Selected(s, q)))) == Deleted(RowsOn(s, Selected(s, q)))
  {
    CascadeCount(s, Selected(s, q));
  }

  lemma GoneIsSelected(s: Store, u: Id, tokens: seq<string>)
    requires ListsSomething(tokens)
    ensures var (q, found) := Fold(Empty, false, u, tokens);
            found && Selected(s, q) == Gone(s, u, tokens)
  {
    FoldIsExact(u, tokens);
  }

  /** The count reported covers the contacts, their orders and the items of those. */
  lemma DeletionCount(s: Store, u: Id, tokens: seq<string>)
    requires ListsSomething(tokens)
    ensures DeleteContacts(s, u, tokens).1 == Deleted(RowsOn(s, Gone(s, u, tokens)))
  {
    GoneIsSelected(s, u, tokens);
    SelectedCount(s, Fold(Empty, false, u, tokens).0);
  }

  /** A refusal names exactly the fields that break a rule. */
  lemma FaultsName(f: ContactForm, field: string)
    requires Complete(f)
    ensures field in Faults(f) <==> Breaks(f, field)
  {
  }

  /** The form is accepted exactly when nothing is missing and no field breaks a rule; a refusal
      names exactly the fields that do. */
  lemma FaultsAreExact(f: ContactForm)
    requires Complete(f)
    ensures forall field :: field in Faults(f) <==> Breaks(f, field)
    ensures Faults(f) == [] <==> forall field :: !Breaks(f, field)
  {
    forall field ensures field in Faults(f) <==> Breaks(f, field) {
      FaultsName(f, field);
    }
    if Faults(f) != [] {
      assert Faults(f)[0] in Faults(f);
    }
  }

  /** An accepted row keeps within the columns. */
  lemma AcceptedFits(u: Id, f: ContactForm)
    requires Acceptable(f)
    ensures Fitting(ContactRow(u, f))
  {
  }

  lemma AddContactKeepsValid(s: Store, u: Id, f: ContactForm)
    requires Valid(s)
    ensures Valid(AddContact(s, u, f).0)
  {
  }

  lemma CascadeKeepsValid(s: Store, gone: set<Id>)
    requires Valid(s)
    ensures Valid(Cascade(s, gone))
  {
  }

  /** Of the three tables exactly those rows go that hang on a deleted contact; every other row,
      and the offers with their stock, stay as they are. */
  lemma CascadeSparesTheRest(s: Store, gone: set<Id>)
    requires SalesValid(s)
    ensures var t := Cascade(s, gone);
            && (forall c | c in s.contacts ::
                  if c in gone then c !in t.contacts else c in t.contacts && t.contacts[c] == s.contacts[c])
            && (forall o | o in s.orders ::
                  if s.orders[o].contact.Some? && s.orders[o].contact.value in gone then o !in t.orders
                  else o in t.orders && t.orders[o] == s.orders[o])
            && (forall i | i in s.items ::
                  if s.items[i].order in t.orders then i in t.items && t.items[i] == s.items[i] else i !in t.items)
            && t == s.(contacts := t.contacts, orders := t.orders, items := t.items)
            && (forall i | i in t.items :: i in s.items) && (forall o | o in t.orders :: o in s.orders)
            && (forall o | IsBasket(s, o) :: IsBasket(t, o))
  {
  }

  /** Nothing is put back into stock: the ledger of every product loses what the deleted `new`
      orders had taken. */
  lemma CascadeLosesLedger(s: Store, gone: set<Id>, p: Id)
    requires Numbered(s)
    ensures Ledger(s, p) == Ledger(Cascade(s, gone), p) + Total(s, Doomed(p, OrdersOn(s, gone)))
  {
    TotalSplits(s, Committed(p), Cascade(s, gone), Committed(p), s, Doomed(p, OrdersOn(s, gone)));
  }
}
