/** The exact meaning of a batch update, and what it does to the cached total of the basket
    when it succeeds and when it fails half way. */
module BatchUpdate {
  import opened Tables
  import opened Sums
  import opened Baskets
  import opened BatchAdd

  /** The last quantity listed for item `id`. */
  function LastSet(es: seq<UpdateEntry>, id: Id): Option<int> {
    if es == [] then None else
      var r := LastSet(es[1..], id);
      if r.Some? then r
      else if es[0].Set? && es[0].id == id then Some(es[0].quantity)
      else None
  }

  /** The items after the list: a listed item holds its last listed quantity, or is gone if that
      was not positive; every other item is as before. */
  ghost function Updated(items: map<Id, Item>, es: seq<UpdateEntry>): map<Id, Item> {
    map i | i in items && (LastSet(es, i).Some? ==> LastSet(es, i).value > 0) ::
      if LastSet(es, i).Some? then items[i].(quantity := LastSet(es, i).value) else items[i]
  }

  /** The items after a single entry. */
  function UpdatedOne(items: map<Id, Item>, e: UpdateEntry): map<Id, Item> {
    if e.Untyped? || e.id < 0 || e.id !in items then items
    else if e.quantity <= 0 then items - {e.id}
    else items[e.id := items[e.id].(quantity := e.quantity)]
  }

  /** An entry that can be applied to the basket as it is. */
  ghost predicate Applies(s: Store, b: Id, e: UpdateEntry) {
    e.Set? ==> InBasket(s, b, e.id) && e.quantity <= Stock(s, s.items[e.id].info)
  }

  ghost predicate ListedAgain(es: seq<UpdateEntry>, id: int) {
    exists k :: 0 <= k < |es| && es[k].Set? && es[k].id == id
  }

  /** Every entry names an item of the basket, asks for no more than its stock, and no item is
      listed again after an entry that removes it. */
  ghost predicate Clean(s: Store, b: Id, es: seq<UpdateEntry>) {
    && (forall k | 0 <= k < |es| :: Applies(s, b, es[k]))
    && (forall j, k | 0 <= j < k < |es| && es[j].Set? && es[k].Set? && es[j].id == es[k].id ::
          es[j].quantity > 0)
  }

  // ---------- one entry ----------

  ghost predicate Deletes(s: Store, b: Id, e: UpdateEntry) {
    e.Set? && Applies(s, b, e) && e.quantity <= 0
  }

  lemma UpdateOneDecides(s: Store, b: Id, e: UpdateEntry)
    requires Valid(s)
    ensures var r := UpdateOne(s, b, e);
            && (r.errors == [] <==> Applies(s, b, e))
            && (r.errors != [] ==> r.store == s)
            && (r.errors == [] ==> r.store.items == UpdatedOne(s.items, e))
            && (r.count == 0 ==> r.store == if Deletes(s, b, e) then DeleteItem(s, e.id) else s)
            && (r.count > 0 ==>
                  && e.Set? && InBasket(s, b, e.id) && e.quantity > 0
                  && r.store == SaveItem(s, e.id, s.items[e.id].(quantity := e.quantity)))
  {
  }

  lemma UpdateOneEffect(s: Store, b: Id, e: UpdateEntry)
    requires Valid(s) && IsBasket(s, b)
    ensures var r := UpdateOne(s, b, e);
            && Valid(r.store) && IsBasket(r.store, b) && Edits(s, r.store, b)
            && (r.errors == [] <==> Applies(s, b, e))
            && (r.errors != [] ==> r.store == s)
            && (r.errors == [] ==> r.store.items == UpdatedOne(s.items, e))
            && (r.count == 0 ==> r.store == if Deletes(s, b, e) then DeleteItem(s, e.id) else s)
            && (r.count > 0 ==> Agrees(r.store, b))
  {
    UpdateOneDecides(s, b, e);
    if UpdateOne(s, b, e).count > 0 {
      var item := s.items[e.id].(quantity := e.quantity);
      SaveKeepsValid(s, e.id, item);
      SaveEffect(s, e.id, item);
    } else if Deletes(s, b, e) {
      DropKeepsValid(s, DeleteItem(s, e.id), b);
    }
  }

  // ---------- the whole batch ----------

  lemma {:induction false} UpdateAllKeeps(s: Store, b: Id, es: seq<UpdateEntry>)
    requires Valid(s) && IsBasket(s, b)
    ensures var r := UpdateAll(s, b, es);
            Valid(r.store) && IsBasket(r.store, b) && Edits(s, r.store, b)
    decreases es
  {
    if es == [] {
    } else {
      UpdateOneEffect(s, b, es[0]);
      var t := UpdateOne(s, b, es[0]).store;
      UpdateAllKeeps(t, b, es[1..]);
      EditsCompose(s, t, UpdateAll(s, b, es).store, b);
    }
  }

  /** A list is clean exactly when its first entry applies and the rest is clean after it. */
  lemma CleanStep(s: Store, t: Store, b: Id, es: seq<UpdateEntry>)
    requires es != [] && Applies(s, b, es[0])
    requires t.infos == s.infos && t.items == UpdatedOne(s.items, es[0])
    ensures Clean(s, b, es) <==> Clean(t, b, es[1..])
  {
    var e := es[0];
    assert forall k | 1 <= k < |es| :: es[k] == es[1..][k - 1];
    assert forall k | 0 <= k < |es| - 1 :: es[1..][k] == es[k + 1];
    if Clean(t, b, es[1..]) {
      assert Applies(s, b, es[0]);
      forall k | 1 <= k < |es|
        ensures Applies(s, b, es[k])
        ensures e.Set? && es[k].Set? && e.id == es[k].id ==> e.quantity > 0
      {
        assert es[k] == es[1..][k - 1] && Applies(t, b, es[1..][k - 1]);
      }
      forall j, k | 0 <= j < k < |es| && es[j].Set? && es[k].Set? && es[j].id == es[k].id
        ensures es[j].quantity > 0
      {
        if j > 0 {
          assert es[1..][j - 1] == es[j] && es[1..][k - 1] == es[k];
        }
      }
    }
    if Clean(s, b, es) {
      forall k | 0 <= k < |es| - 1 ensures Applies(t, b, es[1..][k]) {
        assert es[1..][k] == es[k + 1] && Applies(s, b, es[k + 1]);
        assert es[0].Set? && es[k + 1].Set? && es[0].id == es[k + 1].id ==> es[0].quantity > 0;
      }
    }
  }

  lemma LastSetStep(es: seq<UpdateEntry>, id: Id)
    requires es != []
    requires forall j, k | 0 <= j < k < |es| && es[j].Set? && es[k].Set? && es[j].id == es[k].id :: es[j].quantity > 0
    ensures LastSet(es, id) ==
            if LastSet(es[1..], id).Some? then LastSet(es[1..], id)
            else if es[0].Set? && es[0].id == id then Some(es[0].quantity) else None
    ensures es[0].Set? && es[0].id == id && LastSet(es[1..], id).Some? ==> es[0].quantity > 0
  {
    if LastSet(es[1..], id).Some? {
      LastSetIsListed(es[1..], id);
      var k :| 0 <= k < |es[1..]| && es[1..][k].Set? && es[1..][k].id == id;
      assert es[k + 1] == es[1..][k];
    }
  }

  lemma UpdatedStep(items: map<Id, Item>, es: seq<UpdateEntry>)
    requires es != []
    requires forall j, k | 0 <= j < k < |es| && es[j].Set? && es[k].Set? && es[j].id == es[k].id :: es[j].quantity > 0
    ensures Updated(UpdatedOne(items, es[0]), es[1..]) == Updated(items, es)
  {
    var a, b := Updated(UpdatedOne(items, es[0]), es[1..]), Updated(items, es);
    forall i: Id ensures (i in a <==> i in b) && (i in a ==> a[i] == b[i]) {
      LastSetStep(es, i);
    }
  }

  lemma {:induction false} LastSetIsListed(es: seq<UpdateEntry>, id: Id)
    requires LastSet(es, id).Some?
    ensures ListedAgain(es, id)
  {
    if LastSet(es[1..], id).Some? {
      LastSetIsListed(es[1..], id);
      var k :| 0 <= k < |es[1..]| && es[1..][k].Set? && es[1..][k].id == id;
      assert es[k + 1].Set? && es[k + 1].id == id;
    } else {
      assert es[0].Set? && es[0].id == id;
    }
  }

  /** How many entries ask for a positive quantity. */
  function Positive(es: seq<UpdateEntry>): nat {
    if es == [] then 0 else (if es[0].Set? && es[0].quantity > 0 then 1 else 0) + Positive(es[1..])
  }

  /** A batch update without errors reports the number of positive entries. */
  lemma {:induction false} BatchUpdateCounts(s: Store, b: Id, es: seq<UpdateEntry>)
    ensures UpdateAll(s, b, es).errors == [] ==> UpdateAll(s, b, es).count == Positive(es)
    decreases es
  {
    if es == [] {
    } else {
      BatchUpdateCounts(UpdateOne(s, b, es[0]).store, b, es[1..]);
    }
  }

  /** A batch update reports no error exactly when it is clean, and then every listed item holds
      its last listed quantity or is gone, and every other item is untouched. */
  lemma {:induction false} BatchUpdateIsExact(s: Store, b: Id, es: seq<UpdateEntry>)
    requires Valid(s) && IsBasket(s, b)
    ensures var r := UpdateAll(s, b, es);
            && (r.errors == [] <==> Clean(s, b, es))
            && (r.errors == [] ==> r.store.items == Updated(s.items, es))
    decreases es
  {
    if es == [] {
      assert Updated(s.items, es) == s.items;
    } else {
      UpdateOneEffect(s, b, es[0]);
      var t := UpdateOne(s, b, es[0]).store;
      if Applies(s, b, es[0]) {
        BatchUpdateIsExact(t, b, es[1..]);
        CleanStep(s, t, b, es);
        if Clean(s, b, es) {
          UpdatedStep(s.items, es);
        }
      }
    }
  }

  // ---------- the cached total ----------

  /** How far the cached total of an order is from the sum of its items. */
  function Drift(s: Store, o: Id): int
    requires o in s.orders
  {
    s.orders[o].total - Total(s, Value(o))
  }

  /** The value of the items deleted by the list after its last save. */
  ghost function Forgotten(s: Store, b: Id, es: seq<UpdateEntry>): int
    decreases es
  {
    if es == [] then 0 else
      var t := UpdateOne(s, b, es[0]).store;
      Forgotten(t, b, es[1..]) +
      if Deletes(s, b, es[0]) && UpdateAll(t, b, es[1..]).count == 0 then ItemPrice(s, es[0].id) else 0
  }

  lemma DeleteDrifts(s: Store, i: Id)
    requires Valid(s) && i in s.items
    ensures Drift(DeleteItem(s, i), s.items[i].order) == Drift(s, s.items[i].order) + ItemPrice(s, i)
    ensures 0 <= ItemPrice(s, i)
  {
    var m := Value(s.items[i].order);
    TotalShifts(s, m, DeleteItem(s, i), m, i);
  }

  /** After the loop of an update request, the cached total is off by what it was off before
      (or by nothing, once any item was saved) plus the value deleted after the last save. */
  lemma {:induction false} UpdateDrift(s: Store, b: Id, es: seq<UpdateEntry>)
    requires Valid(s) && IsBasket(s, b)
    ensures var r := UpdateAll(s, b, es);
            && b in r.store.orders
            && Drift(r.store, b) == (if r.count == 0 then Drift(s, b) else 0) + Forgotten(s, b, es)
            && 0 <= Forgotten(s, b, es)
    decreases es
  {
    if es == [] {
    } else {
      UpdateOneEffect(s, b, es[0]);
      var t := UpdateOne(s, b, es[0]).store;
      UpdateDrift(t, b, es[1..]);
      if Deletes(s, b, es[0]) {
        DeleteDrifts(s, es[0].id);
      }
    }
  }

  // ---------- which lists leave a wrong total ----------

  /** An earlier entry removes the item that entry `k` names. */
  ghost predicate Dropped(es: seq<UpdateEntry>, k: nat)
    requires k < |es|
  {
    es[k].Set? && exists j :: 0 <= j < k && es[j].Set? && es[j].id == es[k].id && es[j].quantity <= 0
  }

  /** Entry `k` names an item that is still in the basket. */
  ghost predicate Meets(s: Store, b: Id, es: seq<UpdateEntry>, k: nat)
    requires k < |es|
  {
    es[k].Set? && InBasket(s, b, es[k].id) && !Dropped(es, k)
  }

  /** Entry `k` gives an item a positive quantity that is in stock. */
  ghost predicate Saves(s: Store, b: Id, es: seq<UpdateEntry>, k: nat)
    requires k < |es|
  {
    Meets(s, b, es, k) && 0 < es[k].quantity <= Stock(s, s.items[es[k].id].info)
  }

  /** Entry `k` removes an item. */
  ghost predicate Removes(s: Store, b: Id, es: seq<UpdateEntry>, k: nat)
    requires k < |es|
  {
    Meets(s, b, es, k) && es[k].quantity <= 0
  }

  ghost predicate SavesFrom(s: Store, b: Id, es: seq<UpdateEntry>, n: nat) {
    exists k :: n <= k < |es| && Saves(s, b, es, k)
  }

  /** The item that entry `k` names has a positive quantity by then. */
  ghost predicate Filled(s: Store, b: Id, es: seq<UpdateEntry>, k: nat)
    requires k < |es| && Meets(s, b, es, k)
  {
    s.items[es[k].id].quantity > 0 || exists j :: 0 <= j < k && Saves(s, b, es, j) && es[j].id == es[k].id
  }

  /** Entry `k` removes something of value and no later entry is saved. */
  ghost predicate Stale(s: Store, b: Id, es: seq<UpdateEntry>, k: nat)
    requires k < |es|
  {
    && Removes(s, b, es, k) && Filled(s, b, es, k)
    && s.items[es[k].id].info in s.infos && s.infos[s.items[es[k].id].info].price > 0
    && !SavesFrom(s, b, es, k + 1)
  }

  /** Some entry removes something of value and none after it is saved. */
  ghost predicate LeavesStale(s: Store, b: Id, es: seq<UpdateEntry>) {
    exists k :: 0 <= k < |es| && Stale(s, b, es, k)
  }

  lemma DroppedShifts(es: seq<UpdateEntry>, k: nat)
    requires 0 < k < |es|
    ensures Dropped(es, k) <==>
            Dropped(es[1..], k - 1) || (es[0].Set? && es[k].Set? && es[0].id == es[k].id && es[0].quantity <= 0)
  {
    var rest := es[1..];
    assert rest[k - 1] == es[k];
    if Dropped(es, k) {
      var j :| 0 <= j < k && es[j].Set? && es[j].id == es[k].id && es[j].quantity <= 0;
      if j > 0 {
        assert rest[j - 1] == es[j];
      }
    }
    if Dropped(rest, k - 1) {
      var j :| 0 <= j < k - 1 && rest[j].Set? && rest[j].id == rest[k - 1].id && rest[j].quantity <= 0;
      assert es[j + 1] == rest[j];
    }
  }

  /** `t` has the items that the first entry leaves. */
  ghost predicate After(s: Store, t: Store, b: Id, es: seq<UpdateEntry>)
    requires es != []
  {
    && t.infos == s.infos
    && t.items == if Saves(s, b, es, 0) then s.items[es[0].id := s.items[es[0].id].(quantity := es[0].quantity)]
                  else if Removes(s, b, es, 0) then s.items - {es[0].id} else s.items
  }

  /** What an entry does to the items, in terms of the list alone. */
  lemma FirstEntry(s: Store, b: Id, es: seq<UpdateEntry>)
    requires Valid(s) && es != []
    ensures var r := UpdateOne(s, b, es[0]);
            && (r.count > 0 <==> Saves(s, b, es, 0))
            && (Deletes(s, b, es[0]) <==> Removes(s, b, es, 0))
            && After(s, r.store, b, es)
  {
  }

  /** The quantity of an item once the first entry is done, if that left the item. */
  ghost function QuantityAfterFirst(s: Store, b: Id, es: seq<UpdateEntry>, i: Id): int
    requires es != [] && i in s.items
  {
    if Saves(s, b, es, 0) && es[0].id == i then es[0].quantity else s.items[i].quantity
  }

  lemma MeetsShifts(s: Store, t: Store, b: Id, es: seq<UpdateEntry>, k: nat)
    requires 0 < k < |es| && After(s, t, b, es)
    ensures Meets(s, b, es, k) <==> Meets(t, b, es[1..], k - 1)
    ensures Saves(s, b, es, k) <==> Saves(t, b, es[1..], k - 1)
    ensures Removes(s, b, es, k) <==> Removes(t, b, es[1..], k - 1)
    ensures Meets(s, b, es, k) ==> t.items[es[k].id].info == s.items[es[k].id].info
    ensures Meets(s, b, es, k) ==> t.items[es[k].id].quantity == QuantityAfterFirst(s, b, es, es[k].id)
  {
    DroppedShifts(es, k);
    assert es[1..][k - 1] == es[k];
  }

  lemma SavesFromShifts(s: Store, t: Store, b: Id, es: seq<UpdateEntry>, n: nat)
    requires es != [] && After(s, t, b, es)
    ensures SavesFrom(s, b, es, n + 1) <==> SavesFrom(t, b, es[1..], n)
    ensures SavesFrom(s, b, es, 0) <==> Saves(s, b, es, 0) || SavesFrom(s, b, es, 1)
  {
    forall k | 0 < k < |es| ensures Saves(s, b, es, k) <==> Saves(t, b, es[1..], k - 1) {
      MeetsShifts(s, t, b, es, k);
    }
    if SavesFrom(t, b, es[1..], n) {
      var k :| n <= k < |es[1..]| && Saves(t, b, es[1..], k);
      assert Saves(s, b, es, k + 1);
    }
    if SavesFrom(s, b, es, n + 1) {
      var k :| n + 1 <= k < |es| && Saves(s, b, es, k);
      assert Saves(t, b, es[1..], k - 1);
    }
  }

  lemma FilledShifts(s: Store, t: Store, b: Id, es: seq<UpdateEntry>, k: nat)
    requires 0 < k < |es| && After(s, t, b, es) && Meets(s, b, es, k)
    ensures Meets(t, b, es[1..], k - 1)
    ensures Filled(s, b, es, k) <==> Filled(t, b, es[1..], k - 1)
  {
    MeetsShifts(s, t, b, es, k);
    var rest := es[1..];
    if j :| 0 <= j < k && Saves(s, b, es, j) && es[j].id == es[k].id {
      if j > 0 {
        MeetsShifts(s, t, b, es, j);
        assert Saves(t, b, rest, j - 1) && rest[j - 1].id == rest[k - 1].id;
      }
    }
    if j :| 0 <= j < k - 1 && Saves(t, b, rest, j) && rest[j].id == rest[k - 1].id {
      MeetsShifts(s, t, b, es, j + 1);
      assert Saves(s, b, es, j + 1) && es[j + 1].id == es[k].id;
    }
  }

  lemma StaleShifts(s: Store, t: Store, b: Id, es: seq<UpdateEntry>, k: nat)
    requires 0 < k < |es| && After(s, t, b, es)
    ensures Stale(s, b, es, k) <==> Stale(t, b, es[1..], k - 1)
  {
    MeetsShifts(s, t, b, es, k);
    SavesFromShifts(s, t, b, es, k);
    if Meets(s, b, es, k) {
      FilledShifts(s, t, b, es, k);
    }
  }

  lemma LeavesStaleStep(s: Store, t: Store, b: Id, es: seq<UpdateEntry>)
    requires es != [] && After(s, t, b, es)
    ensures LeavesStale(s, b, es) <==> Stale(s, b, es, 0) || LeavesStale(t, b, es[1..])
  {
    forall k | 0 < k < |es| ensures Stale(s, b, es, k) <==> Stale(t, b, es[1..], k - 1) {
      StaleShifts(s, t, b, es, k);
    }
    if LeavesStale(t, b, es[1..]) {
      var k :| 0 <= k < |es[1..]| && Stale(t, b, es[1..], k);
      assert Stale(s, b, es, k + 1);
    }
    if LeavesStale(s, b, es) {
      var k :| 0 <= k < |es| && Stale(s, b, es, k);
      assert k > 0 ==> Stale(t, b, es[1..], k - 1);
    }
  }

  /** Something is saved exactly when the list has an entry that saves. */
  lemma {:induction false} UpdateSavesIff(s: Store, b: Id, es: seq<UpdateEntry>)
    requires Valid(s) && IsBasket(s, b)
    ensures UpdateAll(s, b, es).count > 0 <==> SavesFrom(s, b, es, 0)
    decreases es
  {
    if es == [] {
    } else {
      var t := UpdateOne(s, b, es[0]).store;
      FirstEntry(s, b, es);
      UpdateOneEffect(s, b, es[0]);
      UpdateSavesIff(t, b, es[1..]);
      SavesFromShifts(s, t, b, es, 0);
    }
  }

  lemma ProductPositive(x: nat, y: nat)
    ensures x * y > 0 <==> x > 0 && y > 0
  {
    if x > 0 && y > 0 {
      assert x * y >= 1 * y;
    }
  }

  /** A first entry that removes an item leaves a wrong total exactly when the item was worth
      something and nothing is saved later. */
  lemma FirstIsStale(s: Store, b: Id, es: seq<UpdateEntry>)
    requires ItemsLinked(s) && es != [] && Removes(s, b, es, 0)
    ensures Stale(s, b, es, 0) <==> ItemPrice(s, es[0].id) != 0 && !SavesFrom(s, b, es, 1)
  {
    var item := s.items[es[0].id];
    ProductPositive(item.quantity, s.infos[item.info].price);
  }

  /** What the first entry adds to the forgotten value. */
  lemma ForgottenStep(s: Store, t: Store, b: Id, es: seq<UpdateEntry>)
    requires Valid(s) && IsBasket(s, b) && es != [] && t == UpdateOne(s, b, es[0]).store
    ensures Valid(t) && IsBasket(t, b) && After(s, t, b, es)
    ensures Forgotten(s, b, es) == Forgotten(t, b, es[1..]) +
              if Removes(s, b, es, 0) && !SavesFrom(s, b, es, 1) then ItemPrice(s, es[0].id) else 0
  {
    FirstEntry(s, b, es);
    UpdateOneEffect(s, b, es[0]);
    UpdateSavesIff(t, b, es[1..]);
    SavesFromShifts(s, t, b, es, 0);
  }

  /** Value is forgotten exactly when some entry removes something of value and none after it is
      saved. */
  lemma {:induction false} ForgottenIff(s: Store, b: Id, es: seq<UpdateEntry>)
    requires Valid(s) && IsBasket(s, b)
    ensures Forgotten(s, b, es) > 0 <==> LeavesStale(s, b, es)
    ensures Forgotten(s, b, es) >= 0
    decreases es
  {
    if es == [] {
    } else {
      var t := UpdateOne(s, b, es[0]).store;
      ForgottenStep(s, t, b, es);
      ForgottenIff(t, b, es[1..]);
      LeavesStaleStep(s, t, b, es);
      if Removes(s, b, es, 0) {
        FirstIsStale(s, b, es);
        PriceBounds(s, es[0].id);
      }
    }
  }

  lemma PriceBounds(s: Store, i: Id)
    requires i in s.items
    ensures 0 <= ItemPrice(s, i)
  {
  }

  /** The update loop leaves the cached total right exactly when no entry removes something of
      value without a later entry being saved, provided the total was right before or some entry
      is saved. */
  lemma UpdateKeepsTotalIff(s: Store, b: Id, es: seq<UpdateEntry>)
    requires Valid(s) && IsBasket(s, b)
    requires Agrees(s, b) || SavesFrom(s, b, es, 0)
    ensures Agrees(UpdateAll(s, b, es).store, b) <==> !LeavesStale(s, b, es)
  {
    UpdateDrift(s, b, es);
    UpdateAllKeeps(s, b, es);
    UpdateSavesIff(s, b, es);
    ForgottenIff(s, b, es);
  }
}
