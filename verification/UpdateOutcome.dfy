/** What a batch update does when some of its entries are refused: the items, the errors and their
    order, stated on the list and the database before it. */
module UpdateOutcome {
  import opened Tables
  import opened Baskets
  import opened BatchUpdate

  /** The complaint about entry `k`: its item is not, or no longer, in the basket, or there is not
      enough of the item's offer. Entries that are no pair of integers are passed over. */
  ghost function Complaint(s: Store, b: Id, es: seq<UpdateEntry>, k: nat): seq<Error>
    requires k < |es|
  {
    if es[k].Untyped? then []
    else if !Meets(s, b, es, k) then [NotInBasket(es[k].id)]
    else
      var p := s.items[es[k].id].info;
      if es[k].quantity > Stock(s, p) then [NotEnough(p, Stock(s, p))] else []
  }

  /** The complaints about the first `n` entries, in order. */
  ghost function Complaints(s: Store, b: Id, es: seq<UpdateEntry>, n: nat): seq<Error>
    requires n <= |es|
  {
    if n == 0 then [] else Complaints(s, b, es, n - 1) + Complaint(s, b, es, n - 1)
  }

  /** One of the first `n` entries removes item `i`. */
  ghost predicate Removed(s: Store, b: Id, es: seq<UpdateEntry>, i: Id, n: nat)
    requires n <= |es|
  {
    exists k :: 0 <= k < n && Removes(s, b, es, k) && es[k].id == i
  }

  /** The quantity last saved for item `i` by the first `n` entries, or the one it had. */
  ghost function Quantity(s: Store, b: Id, es: seq<UpdateEntry>, i: Id, n: nat): nat
    requires n <= |es| && i in s.items
  {
    if n == 0 then s.items[i].quantity
    else if Saves(s, b, es, n - 1) && es[n - 1].id == i then es[n - 1].quantity
    else Quantity(s, b, es, i, n - 1)
  }

  /** The items after the list, whether or not all of it could be applied. */
  ghost function ItemsAfter(s: Store, b: Id, es: seq<UpdateEntry>): map<Id, Item> {
    map i | i in s.items && !Removed(s, b, es, i, |es|) ::
      s.items[i].(quantity := Quantity(s, b, es, i, |es|))
  }

  // ---------- the first entry ----------

  lemma UpdateOneComplains(s: Store, b: Id, es: seq<UpdateEntry>)
    requires Valid(s) && es != []
    ensures UpdateOne(s, b, es[0]).errors == Complaint(s, b, es, 0)
  {
  }

  lemma ComplaintShifts(s: Store, t: Store, b: Id, es: seq<UpdateEntry>, k: nat)
    requires 0 < k < |es| && After(s, t, b, es)
    ensures Complaint(s, b, es, k) == Complaint(t, b, es[1..], k - 1)
  {
    MeetsShifts(s, t, b, es, k);
    assert es[1..][k - 1] == es[k];
  }

  lemma {:induction false} ComplaintsShift(s: Store, t: Store, b: Id, es: seq<UpdateEntry>, n: nat)
    requires 0 < n <= |es| && After(s, t, b, es)
    ensures Complaints(s, b, es, n) == Complaint(s, b, es, 0) + Complaints(t, b, es[1..], n - 1)
  {
    if n == 1 {
      assert Complaints(s, b, es, 0) == [];
    } else {
      ComplaintsShift(s, t, b, es, n - 1);
      ComplaintShifts(s, t, b, es, n - 1);
    }
  }

  lemma RemovedShifts(s: Store, t: Store, b: Id, es: seq<UpdateEntry>, i: Id)
    requires es != [] && After(s, t, b, es)
    ensures Removed(s, b, es, i, |es|) <==>
            (Removes(s, b, es, 0) && es[0].id == i) || Removed(t, b, es[1..], i, |es| - 1)
  {
    forall k | 0 < k < |es| ensures Removes(s, b, es, k) <==> Removes(t, b, es[1..], k - 1) {
      MeetsShifts(s, t, b, es, k);
    }
    if Removed(t, b, es[1..], i, |es| - 1) {
      var k :| 0 <= k < |es| - 1 && Removes(t, b, es[1..], k) && es[1..][k].id == i;
      assert Removes(s, b, es, k + 1) && es[k + 1].id == i;
    }
    if k :| 0 <= k < |es| && Removes(s, b, es, k) && es[k].id == i {
      assert k > 0 ==> Removes(t, b, es[1..], k - 1) && es[1..][k - 1].id == i;
    }
  }

  lemma {:induction false} QuantityShifts(s: Store, t: Store, b: Id, es: seq<UpdateEntry>, i: Id, n: nat)
    requires 0 < n <= |es| && After(s, t, b, es) && i in s.items && i in t.items
    ensures Quantity(s, b, es, i, n) == Quantity(t, b, es[1..], i, n - 1)
  {
    if n == 1 {
      assert Quantity(s, b, es, i, 0) == s.items[i].quantity;
    } else {
      QuantityShifts(s, t, b, es, i, n - 1);
      MeetsShifts(s, t, b, es, n - 1);
      assert es[1..][n - 2] == es[n - 1];
    }
  }

  lemma ItemsAfterStep(s: Store, t: Store, b: Id, es: seq<UpdateEntry>)
    requires es != [] && After(s, t, b, es)
    ensures ItemsAfter(s, b, es) == ItemsAfter(t, b, es[1..])
  {
    forall i: Id
      ensures i in ItemsAfter(s, b, es) <==> i in ItemsAfter(t, b, es[1..])
      ensures i in ItemsAfter(s, b, es) ==> ItemsAfter(s, b, es)[i] == ItemsAfter(t, b, es[1..])[i]
    {
      RemovedShifts(s, t, b, es, i);
      if i in s.items && i in t.items {
        QuantityShifts(s, t, b, es, i, |es|);
      }
    }
  }

  // ---------- the whole batch ----------

  /** For any list: an item is gone exactly when an entry removes it, every other item has the
      quantity last saved for it, and the errors are the complaints in order. */
  lemma {:induction false} UpdateAllIsExact(s: Store, b: Id, es: seq<UpdateEntry>)
    requires Valid(s) && IsBasket(s, b)
    ensures UpdateAll(s, b, es).store.items == ItemsAfter(s, b, es)
    ensures UpdateAll(s, b, es).errors == Complaints(s, b, es, |es|)
    decreases es
  {
    if es == [] {
      assert ItemsAfter(s, b, es) == s.items;
    } else {
      var t := UpdateOne(s, b, es[0]).store;
      FirstEntry(s, b, es);
      UpdateOneEffect(s, b, es[0]);
      UpdateOneComplains(s, b, es);
      UpdateAllIsExact(t, b, es[1..]);
      ComplaintsShift(s, t, b, es, |es|);
      ItemsAfterStep(s, t, b, es);
    }
  }

  /** Entry `k` is refused because its item is not in the basket by then. */
  ghost predicate Misses(s: Store, b: Id, es: seq<UpdateEntry>, k: nat, id: int)
    requires k < |es|
  {
    es[k].Set? && es[k].id == id && !Meets(s, b, es, k)
  }

  /** Entry `k` is refused because it asks for more of offer `p` than the `available` stock. */
  ghost predicate Exceeds(s: Store, b: Id, es: seq<UpdateEntry>, k: nat, p: Id, available: int)
    requires k < |es|
  {
    Meets(s, b, es, k) && s.items[es[k].id].info == p && es[k].quantity > available == Stock(s, p)
  }

  lemma {:induction false} ComplaintsAre(s: Store, b: Id, es: seq<UpdateEntry>, n: nat, x: Error)
    requires n <= |es|
    ensures x in Complaints(s, b, es, n) <==> exists k :: 0 <= k < n && x in Complaint(s, b, es, k)
  {
    if n == 0 {
    } else {
      ComplaintsAre(s, b, es, n - 1, x);
    }
  }

  /** An error says that an item is not in the basket exactly when some entry names it and does not
      meet it, and that there is not enough of an offer exactly when some entry asks for more of it
      than its stock, which is the figure given; there is no other error. */
  lemma ComplaintsMean(s: Store, b: Id, es: seq<UpdateEntry>, x: Error)
    ensures x in Complaints(s, b, es, |es|) <==>
            match x
            case NotInBasket(id) => exists k :: 0 <= k < |es| && Misses(s, b, es, k, id)
            case NotEnough(p, a) => exists k :: 0 <= k < |es| && Exceeds(s, b, es, k, p, a)
            case _ => false
  {
    ComplaintsAre(s, b, es, |es|, x);
    if k :| 0 <= k < |es| && x in Complaint(s, b, es, k) {
      assert x.NotInBasket? ==> Misses(s, b, es, k, x.id);
      assert x.NotEnough? ==> Exceeds(s, b, es, k, x.info, x.available);
    }
    if x.NotInBasket? && exists k :: 0 <= k < |es| && Misses(s, b, es, k, x.id) {
      var k :| 0 <= k < |es| && Misses(s, b, es, k, x.id);
      assert x in Complaint(s, b, es, k);
    }
    if x.NotEnough? && exists k :: 0 <= k < |es| && Exceeds(s, b, es, k, x.info, x.available) {
      var k :| 0 <= k < |es| && Exceeds(s, b, es, k, x.info, x.available);
      assert x in Complaint(s, b, es, k);
    }
  }

  // ---------- orders do not matter ----------

  lemma EntriesSame(s: Store, t: Store, b: Id, es: seq<UpdateEntry>)
    requires SameItems(s, t)
    ensures forall k | 0 <= k < |es| :: Saves(t, b, es, k) <==> Saves(s, b, es, k)
    ensures forall k | 0 <= k < |es| :: Removes(t, b, es, k) <==> Removes(s, b, es, k)
    ensures forall k | 0 <= k < |es| :: Complaint(t, b, es, k) == Complaint(s, b, es, k)
  {
  }

  lemma {:induction false} ComplaintsSame(s: Store, t: Store, b: Id, es: seq<UpdateEntry>, n: nat)
    requires n <= |es| && SameItems(s, t)
    ensures Complaints(t, b, es, n) == Complaints(s, b, es, n)
  {
    if n == 0 {
    } else {
      ComplaintsSame(s, t, b, es, n - 1);
      EntriesSame(s, t, b, es);
    }
  }

  lemma {:induction false} QuantitySame(s: Store, t: Store, b: Id, es: seq<UpdateEntry>, i: Id, n: nat)
    requires n <= |es| && i in s.items && SameItems(s, t)
    ensures Quantity(t, b, es, i, n) == Quantity(s, b, es, i, n)
  {
    if n == 0 {
    } else {
      QuantitySame(s, t, b, es, i, n - 1);
      EntriesSame(s, t, b, es);
    }
  }

  lemma ItemsAfterSame(s: Store, t: Store, b: Id, es: seq<UpdateEntry>)
    requires SameItems(s, t)
    ensures ItemsAfter(t, b, es) == ItemsAfter(s, b, es)
  {
    EntriesSame(s, t, b, es);
    forall i: Id | i in s.items ensures Quantity(t, b, es, i, |es|) == Quantity(s, b, es, i, |es|) {
      QuantitySame(s, t, b, es, i, |es|);
    }
    forall i: Id ensures Removed(t, b, es, i, |es|) <==> Removed(s, b, es, i, |es|) {
    }
  }

  lemma StaleSame(s: Store, t: Store, b: Id, es: seq<UpdateEntry>)
    requires SameItems(s, t)
    ensures SavesFrom(t, b, es, 0) <==> SavesFrom(s, b, es, 0)
    ensures LeavesStale(t, b, es) <==> LeavesStale(s, b, es)
    ensures Clean(t, b, es) <==> Clean(s, b, es)
  {
    EntriesSame(s, t, b, es);
    forall n: nat ensures SavesFrom(t, b, es, n) <==> SavesFrom(s, b, es, n) {
    }
    forall k | 0 <= k < |es| ensures Stale(t, b, es, k) <==> Stale(s, b, es, k) {
    }
    assert forall k | 0 <= k < |es| :: Applies(t, b, es[k]) <==> Applies(s, b, es[k]);
  }
}
