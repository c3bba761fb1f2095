/** What a batch add does when some of its entries are refused: every product is decided on its
    own, entry by entry, and the errors are those of the refused entries, in order. */
module AddOutcome {
  import opened Tables
  import opened Sums
  import opened Baskets
  import opened BatchAdd

  /** The quantity that order `b` holds of offer `p`, if it has an item for it. */
  function Row(s: Store, b: Id, p: Id): Option<nat> {
    match FirstItem(s.items, b, p, s.nextItem)
    case Some(i) => Some(s.items[i].quantity)
    case None => None
  }

  function Piled(row: Option<nat>): nat {
    if row.Some? then row.value else 0
  }

  /** The most that can be held of an offer; of a missing one, not even nothing. */
  function Limit(s: Store, p: Id): int {
    if p in s.infos then s.infos[p].stock else -1
  }

  /** The entry can be added to what is there. */
  predicate HasRoom(e: AddEntry, row: Option<nat>, limit: int) {
    0 <= e.quantity && Piled(row) + e.quantity <= limit
  }

  /** What the listed entries for offer `p` make of its row: one after the other, those that have
      room are added and the others are passed over. */
  function RowAfter(es: seq<AddEntry>, p: Id, row: Option<nat>, limit: int): Option<nat> {
    if es == [] then row
    else if es[0].info == p && HasRoom(es[0], row, limit)
    then RowAfter(es[1..], p, Some(Piled(row) + es[0].quantity), limit)
    else RowAfter(es[1..], p, row, limit)
  }

  /** What is held of an offer when the list has been worked off up to entry `k`. */
  function HeldBefore(s: Store, b: Id, es: seq<AddEntry>, k: nat): nat
    requires k < |es|
  {
    Piled(RowAfter(es[..k], es[k].info, Row(s, b, es[k].info), Limit(s, es[k].info)))
  }

  /** The complaints about entry `k`: the refused fields, or that there is not enough, by itself or
      together with what is held by then. */
  function Complaint(s: Store, b: Id, es: seq<AddEntry>, k: nat): seq<Error>
    requires k < |es|
  {
    var (p, q) := (es[k].info, es[k].quantity);
    if p !in s.infos && q < 0 then [Rejected("product_info"), Rejected("quantity")]
    else if p !in s.infos then [Rejected("product_info")]
    else if q < 0 then [Rejected("quantity")]
    else if q > s.infos[p].stock then [NotEnough(p, s.infos[p].stock)]
    else if HeldBefore(s, b, es, k) + q > s.infos[p].stock
    then [NotEnoughMerged(p, s.infos[p].stock, HeldBefore(s, b, es, k) + q)]
    else []
  }

  /** The complaints about the first `n` entries, in order. */
  function Complaints(s: Store, b: Id, es: seq<AddEntry>, n: nat): seq<Error>
    requires n <= |es|
  {
    if n == 0 then [] else Complaints(s, b, es, n - 1) + Complaint(s, b, es, n - 1)
  }

  /** Some entry is added. */
  ghost predicate SomeAdded(s: Store, b: Id, es: seq<AddEntry>) {
    exists k :: 0 <= k < |es| && Complaint(s, b, es, k) == []
  }

  // ---------- rows ----------

  /** With (order, offer) unique, the row is that of any item for the offer. */
  lemma RowIsItem(s: Store, i: Id)
    requires Numbered(s) && UniqueItems(s.items) && i in s.items
    ensures Row(s, s.items[i].order, s.items[i].info) == Some(s.items[i].quantity)
  {
    var j := FirstItem(s.items, s.items[i].order, s.items[i].info, s.nextItem);
    assert j.Some? && j.value == i;
  }

  lemma RowIsMissing(s: Store, b: Id, p: Id)
    requires forall i | i in s.items :: s.items[i].order != b || s.items[i].info != p
    ensures Row(s, b, p) == None
  {
  }

  lemma PiledIsHeld(s: Store, b: Id, p: Id)
    requires Numbered(s) && UniqueItems(s.items)
    ensures Piled(Row(s, b, p)) == Total(s, Held(b, p))
  {
    match FirstItem(s.items, b, p, s.nextItem)
    case Some(i) => HeldIsOneItem(s, i);
    case None => HeldIsZero(s, b, p);
  }

  /** Saving the target row of an entry changes the row of its offer only. */
  lemma TargetChangesRow(s: Store, t: Store, b: Id, e: AddEntry, p: Id)
    requires Numbered(s) && UniqueItems(s.items) && Numbered(t) && UniqueItems(t.items) && 0 <= e.quantity
    requires t.items == s.items[TargetRow(s, b, e).0 := TargetRow(s, b, e).1]
    ensures Row(t, b, p) == if p == e.info then Some(Piled(Row(s, b, p)) + e.quantity) else Row(s, b, p)
  {
    var (j, item) := TargetRow(s, b, e);
    if p == e.info {
      RowIsItem(t, j);
    } else {
      match FirstItem(s.items, b, p, s.nextItem)
      case Some(i) => RowIsItem(t, i);
      case None => RowIsMissing(t, b, p);
    }
  }

  lemma FitsIsRoom(s: Store, b: Id, e: AddEntry)
    requires Numbered(s) && UniqueItems(s.items)
    ensures Accepts(s, b, e) <==> HasRoom(e, Row(s, b, e.info), Limit(s, e.info))
  {
    PiledIsHeld(s, b, e.info);
  }

  lemma AddOneWrites(s: Store, b: Id, e: AddEntry)
    requires Valid(s) && IsBasket(s, b)
    ensures var t := AddOne(s, b, e).store;
            if Accepts(s, b, e)
            then Numbered(t) && UniqueItems(t.items)
                 && t.items == s.items[TargetRow(s, b, e).0 := TargetRow(s, b, e).1]
            else t == s
  {
    AddOneDecides(s, b, e);
    AddOneEffect(s, b, e);
  }

  /** One entry changes the row of its offer if there is room, and nothing otherwise. */
  lemma AddOneChangesRow(s: Store, t: Store, b: Id, e: AddEntry, p: Id)
    requires Numbered(s) && UniqueItems(s.items)
    requires if Accepts(s, b, e)
             then Numbered(t) && UniqueItems(t.items)
                  && t.items == s.items[TargetRow(s, b, e).0 := TargetRow(s, b, e).1]
             else t == s
    ensures Row(t, b, p) == RowAfter([e], p, Row(s, b, p), Limit(s, p))
  {
    FitsIsRoom(s, b, e);
    if Accepts(s, b, e) {
      TargetChangesRow(s, t, b, e, p);
    }
  }

  lemma AddOneKeepsItems(s: Store, b: Id, e: AddEntry)
    requires Valid(s) && IsBasket(s, b)
    ensures forall i | i in s.items :: i in AddOne(s, b, e).store.items
  {
    AddOneDecides(s, b, e);
  }

  /** What a single entry is answered. */
  lemma AddOneComplains(s: Store, b: Id, es: seq<AddEntry>)
    requires Valid(s) && IsBasket(s, b) && es != []
    ensures AddOne(s, b, es[0]).errors == Complaint(s, b, es, 0)
  {
    var e := es[0];
    assert es[..0] == [];
    PiledIsHeld(s, b, e.info);
    match FirstItem(s.items, b, e.info, s.nextItem)
    case Some(i) => HeldIsOneItem(s, i);
    case None =>
  }

  // ---------- the rest of the list, seen from before its first entry ----------

  lemma RowAfterStep(es: seq<AddEntry>, p: Id, row: Option<nat>, limit: int)
    requires es != []
    ensures RowAfter(es, p, row, limit) == RowAfter(es[1..], p, RowAfter([es[0]], p, row, limit), limit)
  {
    assert [es[0]][1..] == [];
  }

  lemma ComplaintShifts(s: Store, t: Store, b: Id, es: seq<AddEntry>, k: nat)
    requires 0 < k < |es| && t.infos == s.infos
    requires forall p: Id :: Row(t, b, p) == RowAfter([es[0]], p, Row(s, b, p), Limit(s, p))
    ensures Complaint(s, b, es, k) == Complaint(t, b, es[1..], k - 1)
  {
    var p := es[k].info;
    assert es[1..][k - 1] == es[k] && es[..k][0] == es[0] && es[..k][1..] == es[1..][..k - 1];
    RowAfterStep(es[..k], p, Row(s, b, p), Limit(s, p));
  }

  lemma {:induction false} ComplaintsShift(s: Store, t: Store, b: Id, es: seq<AddEntry>, n: nat)
    requires 0 < n <= |es| && t.infos == s.infos
    requires forall p: Id :: Row(t, b, p) == RowAfter([es[0]], p, Row(s, b, p), Limit(s, p))
    ensures Complaints(s, b, es, n) == Complaint(s, b, es, 0) + Complaints(t, b, es[1..], n - 1)
  {
    if n == 1 {
      assert Complaints(s, b, es, 0) == [];
    } else {
      ComplaintsShift(s, t, b, es, n - 1);
      ComplaintShifts(s, t, b, es, n - 1);
    }
  }

  lemma SomeAddedShifts(s: Store, t: Store, b: Id, es: seq<AddEntry>)
    requires es != [] && t.infos == s.infos
    requires forall p: Id :: Row(t, b, p) == RowAfter([es[0]], p, Row(s, b, p), Limit(s, p))
    ensures SomeAdded(s, b, es) <==> Complaint(s, b, es, 0) == [] || SomeAdded(t, b, es[1..])
  {
    forall k | 0 < k < |es| ensures Complaint(s, b, es, k) == Complaint(t, b, es[1..], k - 1) {
      ComplaintShifts(s, t, b, es, k);
    }
    if SomeAdded(t, b, es[1..]) {
      var k :| 0 <= k < |es[1..]| && Complaint(t, b, es[1..], k) == [];
      assert Complaint(s, b, es, k + 1) == [];
    }
  }

  // ---------- the whole batch ----------

  /** For any list: the row of every offer in the basket is what its own entries make of it, no
      item goes, the errors are the complaints in order, and something is saved exactly when there
      is an entry without complaint. */
  lemma {:induction false} AddAllIsExact(s: Store, b: Id, es: seq<AddEntry>)
    requires Valid(s) && IsBasket(s, b)
    ensures var r := AddAll(s, b, es);
            && (forall p: Id :: Row(r.store, b, p) == RowAfter(es, p, Row(s, b, p), Limit(s, p)))
            && (forall i | i in s.items :: i in r.store.items)
            && r.errors == Complaints(s, b, es, |es|)
            && (r.count > 0 <==> SomeAdded(s, b, es))
    decreases es
  {
    if es == [] {
    } else {
      var h := AddOne(s, b, es[0]);
      AddOneEffect(s, b, es[0]);
      AddOneComplains(s, b, es);
      AddOneWrites(s, b, es[0]);
      AddOneKeepsItems(s, b, es[0]);
      forall p: Id ensures Row(h.store, b, p) == RowAfter([es[0]], p, Row(s, b, p), Limit(s, p)) {
        AddOneChangesRow(s, h.store, b, es[0], p);
      }
      AddAllIsExact(h.store, b, es[1..]);
      ComplaintsShift(s, h.store, b, es, |es|);
      SomeAddedShifts(s, h.store, b, es);
      RowsCompose(s, h.store, AddAll(s, b, es).store, b, es);
    }
  }

  lemma RowsCompose(s: Store, t: Store, u: Store, b: Id, es: seq<AddEntry>)
    requires es != [] && t.infos == s.infos
    requires forall p: Id :: Row(t, b, p) == RowAfter([es[0]], p, Row(s, b, p), Limit(s, p))
    requires forall p: Id :: Row(u, b, p) == RowAfter(es[1..], p, Row(t, b, p), Limit(t, p))
    ensures forall p: Id :: Row(u, b, p) == RowAfter(es, p, Row(s, b, p), Limit(s, p))
  {
    forall p: Id ensures Row(u, b, p) == RowAfter(es, p, Row(s, b, p), Limit(s, p)) {
      RowAfterStep(es, p, Row(s, b, p), Limit(s, p));
    }
  }

  // ---------- orders do not matter ----------

  lemma {:induction false} ComplaintsSame(s: Store, t: Store, b: Id, es: seq<AddEntry>, n: nat)
    requires n <= |es| && SameItems(s, t)
    ensures Complaints(t, b, es, n) == Complaints(s, b, es, n)
  {
    if n == 0 {
    } else {
      ComplaintsSame(s, t, b, es, n - 1);
      var k := n - 1;
      assert Complaint(t, b, es, k) == Complaint(s, b, es, k);
    }
  }

  lemma SomeAddedSame(s: Store, t: Store, b: Id, es: seq<AddEntry>)
    requires SameItems(s, t)
    ensures SomeAdded(t, b, es) <==> SomeAdded(s, b, es)
  {
    assert forall k | 0 <= k < |es| :: Complaint(t, b, es, k) == Complaint(s, b, es, k);
  }
}
