/** The three basket requests as wholes: their replies, the basket they leave, its cached total. */
module Requests {
  import opened Tables
  import opened Sums
  import opened Queries
  import opened Baskets
  import opened BatchAdd
  import opened BatchUpdate
  import Add = AddOutcome
  import Upd = UpdateOutcome

  lemma NewBasketAgrees(s: Store, u: Id)
    requires Valid(s)
    ensures var (t, b) := OpenBasket(s, u);
            forall o | o in t.orders :: Agrees(t, o) <==> (o in s.orders ==> Agrees(s, o))
  {
    var (t, b) := OpenBasket(s, u);
    forall o | o in t.orders ensures Agrees(t, o) <==> (o in s.orders ==> Agrees(s, o)) {
      TotalSame(s, Value(o), t, Value(o));
      if o !in s.orders {
        SumSingle(t, Value(o), t.nextItem, t.nextItem);
      }
    }
  }

  lemma EditsKeepOtherTotals(s: Store, t: Store, b: Id, o: Id)
    requires Edits(s, t, b) && Numbered(s) && Numbered(t) && o != b && o in s.orders
    ensures Agrees(t, o) <==> Agrees(s, o)
  {
    TotalSame(s, Value(o), t, Value(o));
  }

  lemma RefreshAgrees(s: Store, b: Id)
    requires Valid(s) && IsBasket(s, b)
    ensures var t := RefreshTotal(s, b);
            && Agrees(t, b) && Total(t, Value(b)) == Total(s, Value(b))
            && forall p: Id :: Total(t, Held(b, p)) == Total(s, Held(b, p))
  {
    RefreshKeepsTotals(s, b, Value(b));
    forall p: Id ensures Total(RefreshTotal(s, b), Held(b, p)) == Total(s, Held(b, p)) {
      RefreshKeepsTotals(s, b, Held(b, p));
    }
  }

  /** Ending a batch request: an error leaves the batch as applied, success refreshes the total. */
  lemma SettleEffect(s: Store, r: Batch, b: Id)
    requires Valid(r.store) && IsBasket(r.store, b) && Edits(s, r.store, b) && Numbered(s)
    ensures var (t, reply) := Settle(r, b);
            && Valid(t) && IsBasket(t, b) && Edits(s, t, b)
            && (reply.Failed? <==> r.errors != [])
            && (reply.Failed? ==> t == r.store)
            && (reply.Done? ==>
                  && Agrees(t, b) && t.items == r.store.items && Total(t, Value(b)) == Total(r.store, Value(b))
                  && forall p: Id :: Total(t, Held(b, p)) == Total(r.store, Held(b, p)))
  {
    if r.errors == [] {
      RefreshKeepsValid(r.store, b);
      RefreshAgrees(r.store, b);
      EditsCompose(s, r.store, RefreshTotal(r.store, b), b);
    }
  }

  // ---------- what an add request does and answers ----------

  /** Without a list nothing happens. Otherwise only the caller's basket changes; its items stay, but
      for their quantities; the row of every offer in it is what the entries for that offer make of
      it, one after the other; the errors are those of the refused entries, in order; and the cached
      total is right unless nothing could be added, when it stays what it was. */
  ghost predicate Posts(s: Store, u: Id, p: Payload<AddEntry>, t: Store, reply: Reply) {
    var (b, es) := (BasketOf(s, u), p.entries);
    if p.Parsed? && es == [] then reply.Missing? && t == s
    else
      var complaints := Add.Complaints(s, b, es, |es|);
      && OnlyBasket(s, t, u, b)
      && (forall i | i in s.items :: i in t.items && t.items[i] == s.items[i].(quantity := t.items[i].quantity))
      && (forall q: Id :: Add.Row(t, b, q) == Add.RowAfter(es, q, Add.Row(s, b, q), Add.Limit(s, q)))
      && reply == (if complaints == [] then Done(|es|) else Failed(complaints))
      && if complaints == [] || Add.SomeAdded(s, b, es) then Agrees(t, b)
         else CachedTotal(t, b) == CachedTotal(s, b)
  }

  lemma PostEffect(s: Store, u: Id, p: Payload<AddEntry>)
    requires Valid(s) && !Absent(p)
    ensures var (s1, b) := OpenBasket(s, u);
            var (t, reply) := Post(s, u, p);
            && Valid(t) && Edits(s1, t, b)
            && (reply.Done? <==> Fits(s1, b, p.entries)) && !reply.Missing?
            && (reply.Done? ==> reply.count == |p.entries| && Adds(s1, t, b, p.entries) && Agrees(t, b))
            && (Agrees(s1, b) ==> Agrees(t, b))
  {
    var (s1, b) := OpenBasket(s, u);
    OpenBasketKeepsValid(s, u);
    AddAllKeeps(s1, b, p.entries);
    BatchAddIsExact(s1, b, p.entries);
    SettleEffect(s1, AddAll(s1, b, p.entries), b);
  }

  lemma SameSums(s: Store, t: Store, b: Id)
    requires SameItems(s, t)
    ensures Total(t, Value(b)) == Total(s, Value(b))
    ensures forall p: Id :: Total(t, Held(b, p)) == Total(s, Held(b, p))
  {
    SumsSame(s, t, Value(b), s.nextItem);
    forall p: Id ensures Total(t, Held(b, p)) == Total(s, Held(b, p)) {
      SumsSame(s, t, Held(b, p), s.nextItem);
    }
  }

  lemma SameFits(s: Store, t: Store, b: Id, es: seq<AddEntry>)
    requires SameItems(s, t)
    ensures Fits(t, b, es) <==> Fits(s, b, es)
    ensures forall u :: Adds(t, u, b, es) <==> Adds(s, u, b, es)
  {
    SameSums(s, t, b);
    assert Prices(t) == Prices(s);
  }

  /** The batch of an add request on the opened basket `s1`, seen from before it was opened. */
  lemma PostedBatch(s: Store, s1: Store, b: Id, es: seq<AddEntry>)
    requires SameItems(s, s1) && Valid(s1) && IsBasket(s1, b)
    ensures var t := AddAll(s1, b, es).store;
            && (forall q: Id :: Add.Row(t, b, q) == Add.RowAfter(es, q, Add.Row(s, b, q), Add.Limit(s, q)))
            && (forall i | i in s.items :: i in t.items)
            && AddAll(s1, b, es).errors == Add.Complaints(s, b, es, |es|)
            && b in t.orders
            && if Add.SomeAdded(s, b, es) then Agrees(t, b) else t == s1
  {
    Add.AddAllIsExact(s1, b, es);
    AddAllKeeps(s1, b, es);
    Add.ComplaintsSame(s, s1, b, es, |es|);
    Add.SomeAddedSame(s, s1, b, es);
  }

  lemma SettleAnswers(r: Batch, b: Id)
    requires Numbered(r.store) && b in r.store.orders
    ensures var (t, reply) := Settle(r, b);
            && SameItems(r.store, t)
            && reply == (if r.errors == [] then Done(r.count) else Failed(r.errors))
            && if r.errors == [] then Agrees(t, b) else t == r.store
  {
    RefreshKeepsTotals(r.store, b, Value(b));
  }

  lemma PostEdits(s: Store, u: Id, p: Payload<AddEntry>)
    requires Valid(s) && !Absent(p)
    ensures var t := Post(s, u, p).0;
            && OnlyBasket(s, t, u, BasketOf(s, u))
            && forall i | i in s.items && i in t.items :: t.items[i] == s.items[i].(quantity := t.items[i].quantity)
  {
    OpenBasketIsExact(s, u);
    PostEffect(s, u, p);
    EditsFromOpen(s, OpenBasket(s, u).0, Post(s, u, p).0, u, BasketOf(s, u));
  }

  /** The batch with its end. */
  lemma PostedAndSettled(s: Store, s1: Store, b: Id, es: seq<AddEntry>)
    requires SameItems(s, s1) && CachedTotal(s1, b) == CachedTotal(s, b) && Valid(s1) && IsBasket(s1, b)
    ensures var (t, reply) := Settle(AddAll(s1, b, es), b);
            var complaints := Add.Complaints(s, b, es, |es|);
            && (forall q: Id :: Add.Row(t, b, q) == Add.RowAfter(es, q, Add.Row(s, b, q), Add.Limit(s, q)))
            && (forall i | i in s.items :: i in t.items)
            && reply == (if complaints == [] then Done(|es|) else Failed(complaints))
            && if complaints == [] || Add.SomeAdded(s, b, es) then Agrees(t, b)
               else CachedTotal(t, b) == CachedTotal(s, b)
  {
    PostedBatch(s, s1, b, es);
    BatchAddIsExact(s1, b, es);
    AddAllNumbered(s1, b, es);
    SettleAnswers(AddAll(s1, b, es), b);
    SettledRows(AddAll(s1, b, es).store, Settle(AddAll(s1, b, es), b).0, b);
  }

  lemma AddAllNumbered(s: Store, b: Id, es: seq<AddEntry>)
    requires Valid(s) && IsBasket(s, b)
    ensures Numbered(AddAll(s, b, es).store)
  {
    AddAllKeeps(s, b, es);
  }

  lemma SettledRows(s: Store, t: Store, b: Id)
    requires SameItems(s, t)
    ensures forall q: Id :: Add.Row(t, b, q) == Add.Row(s, b, q)
  {
  }

  lemma PostAnswers(s: Store, u: Id, p: Payload<AddEntry>)
    requires Valid(s)
    ensures Posts(s, u, p, Post(s, u, p).0, Post(s, u, p).1)
  {
    if !Absent(p) {
      OpenBasketIsExact(s, u);
      OpenBasketKeepsValid(s, u);
      PostEdits(s, u, p);
      PostedAndSettled(s, OpenBasket(s, u).0, BasketOf(s, u), p.entries);
    }
  }

  /** Adding to the basket: what the request does and answers for any list; it succeeds exactly
      when the list fits, and then the basket is the pointwise sum and its cached total the sum of
      its items; a failed request still leaves a correct total correct. */
  lemma PostIsExact(s: Store, u: Id, p: Payload<AddEntry>)
    requires Valid(s)
    ensures var b := BasketOf(s, u);
            var (t, reply) := Post(s, u, p);
            && Posts(s, u, p, t, reply) && Valid(t)
            && (!reply.Missing? ==> (reply.Done? <==> Fits(s, b, p.entries)))
            && (reply.Done? ==> Adds(s, t, b, p.entries) && Agrees(t, b))
            && (Agrees(s, b) ==> Agrees(t, b))
  {
    PostAnswers(s, u, p);
    if !Absent(p) {
      PostEffect(s, u, p);
      OpenBasketIsExact(s, u);
      SameFits(s, OpenBasket(s, u).0, BasketOf(s, u), p.entries);
      SameSums(s, OpenBasket(s, u).0, BasketOf(s, u));
    }
  }

  // ---------- what an update request does and answers ----------

  /** Without a list nothing happens. Otherwise only the caller's basket changes; an item is gone
      exactly when an entry removes it and has the quantity last saved for it otherwise; the errors
      are those of the refused entries, in order. The cached total is right after a success. After
      a failure it is what it was if nothing was saved, and otherwise it is too high exactly when
      something of value was removed after the last save, and right if not. */
  ghost predicate Puts(s: Store, u: Id, p: Payload<UpdateEntry>, t: Store, reply: Reply) {
    var (b, es) := (BasketOf(s, u), p.entries);
    if p.Parsed? && es == [] then reply.Missing? && t == s
    else
      var complaints := Upd.Complaints(s, b, es, |es|);
      && OnlyBasket(s, t, u, b) && t.items == Upd.ItemsAfter(s, b, es)
      && reply == (if complaints == [] then Done(Positive(es)) else Failed(complaints))
      && if complaints == [] then Agrees(t, b)
         else if !SavesFrom(s, b, es, 0) then CachedTotal(t, b) == CachedTotal(s, b)
         else if LeavesStale(s, b, es) then CachedTotal(t, b) > Total(t, Value(b))
         else Agrees(t, b)
  }

  lemma PutEffect(s: Store, u: Id, p: Payload<UpdateEntry>)
    requires Valid(s) && !Absent(p)
    ensures var (s1, b) := OpenBasket(s, u);
            var (t, reply) := Put(s, u, p);
            && Valid(t) && Edits(s1, t, b)
            && (reply.Done? <==> Clean(s1, b, p.entries)) && !reply.Missing?
            && (reply.Done? ==>
                  && t.items == Updated(s1.items, p.entries) && reply.count == Positive(p.entries)
                  && Agrees(t, b))
            && (reply.Failed? && Agrees(s1, b) ==> (Agrees(t, b) <==> !LeavesStale(s1, b, p.entries)))
  {
    var (s1, b) := OpenBasket(s, u);
    OpenBasketKeepsValid(s, u);
    UpdateAllKeeps(s1, b, p.entries);
    BatchUpdateIsExact(s1, b, p.entries);
    BatchUpdateCounts(s1, b, p.entries);
    SettleEffect(s1, UpdateAll(s1, b, p.entries), b);
    if Agrees(s1, b) {
      UpdateKeepsTotalIff(s1, b, p.entries);
    }
  }

  lemma {:induction false} NothingSaved(s: Store, b: Id, es: seq<UpdateEntry>)
    requires Valid(s) && IsBasket(s, b) && UpdateAll(s, b, es).count == 0
    ensures CachedTotal(UpdateAll(s, b, es).store, b) == CachedTotal(s, b)
    decreases es
  {
    if es == [] {
    } else {
      UpdateOneEffect(s, b, es[0]);
      NothingSaved(UpdateOne(s, b, es[0]).store, b, es[1..]);
    }
  }

  /** The batch of an update request on the opened basket `s1`, seen from before it was opened. */
  lemma PutBatch(s: Store, s1: Store, b: Id, es: seq<UpdateEntry>)
    requires SameItems(s, s1) && Valid(s1) && IsBasket(s1, b)
    ensures var t := UpdateAll(s1, b, es).store;
            && t.items == Upd.ItemsAfter(s, b, es)
            && UpdateAll(s1, b, es).errors == Upd.Complaints(s, b, es, |es|)
            && b in t.orders
            && if !SavesFrom(s, b, es, 0) then CachedTotal(t, b) == CachedTotal(s1, b)
               else if LeavesStale(s, b, es) then CachedTotal(t, b) > Total(t, Value(b))
               else Agrees(t, b)
  {
    Upd.UpdateAllIsExact(s1, b, es);
    Upd.ComplaintsSame(s, s1, b, es, |es|);
    Upd.ItemsAfterSame(s, s1, b, es);
    PutTotal(s1, b, es);
    Upd.StaleSame(s, s1, b, es);
  }

  lemma PutTotal(s: Store, b: Id, es: seq<UpdateEntry>)
    requires Valid(s) && IsBasket(s, b)
    ensures var t := UpdateAll(s, b, es).store;
            && b in t.orders
            && if !SavesFrom(s, b, es, 0) then CachedTotal(t, b) == CachedTotal(s, b)
               else if LeavesStale(s, b, es) then CachedTotal(t, b) > Total(t, Value(b))
               else Agrees(t, b)
  {
    UpdateSavesIff(s, b, es);
    UpdateDrift(s, b, es);
    ForgottenIff(s, b, es);
    if !SavesFrom(s, b, es, 0) {
      NothingSaved(s, b, es);
    }
  }

  lemma PutAnswers(s: Store, u: Id, p: Payload<UpdateEntry>)
    requires Valid(s)
    ensures Puts(s, u, p, Put(s, u, p).0, Put(s, u, p).1)
  {
    if !Absent(p) {
      var (s1, b) := OpenBasket(s, u);
      var r := UpdateAll(s1, b, p.entries);
      OpenBasketIsExact(s, u);
      OpenBasketKeepsValid(s, u);
      PutEffect(s, u, p);
      EditsFromOpen(s, s1, Put(s, u, p).0, u, b);
      PutBatch(s, s1, b, p.entries);
      UpdateAllKeeps(s1, b, p.entries);
      BatchUpdateCounts(s1, b, p.entries);
      SettleAnswers(r, b);
    }
  }

  /** Updating the basket: what the request does and answers for any list; it succeeds exactly when
      the list is clean, and then every listed item holds its last quantity or is gone; a failed
      request leaves a correct total correct exactly when no entry removes something of value
      without a later one being saved. */
  lemma PutIsExact(s: Store, u: Id, p: Payload<UpdateEntry>)
    requires Valid(s)
    ensures var b := BasketOf(s, u);
            var (t, reply) := Put(s, u, p);
            && Puts(s, u, p, t, reply) && Valid(t)
            && (!reply.Missing? ==> (reply.Done? <==> Clean(s, b, p.entries)))
            && (reply.Done? ==> t.items == Updated(s.items, p.entries) && Agrees(t, b))
            && (reply.Failed? && Agrees(s, b) ==> (Agrees(t, b) <==> !LeavesStale(s, b, p.entries)))
  {
    PutAnswers(s, u, p);
    if !Absent(p) {
      PutEffect(s, u, p);
      OpenBasketIsExact(s, u);
      Upd.StaleSame(s, OpenBasket(s, u).0, BasketOf(s, u), p.entries);
      SameSums(s, OpenBasket(s, u).0, BasketOf(s, u));
    }
  }

  /** The errors of a failed update say that an item is not in the basket exactly when an entry
      names one that is not, or no longer, there, and that there is not enough of an offer exactly
      when an entry asks for more of it than its stock, with that stock; nothing else is reported. */
  lemma PutErrorsAreExact(s: Store, u: Id, p: Payload<UpdateEntry>, x: Error)
    requires Valid(s) && Put(s, u, p).1.Failed?
    ensures var (b, es) := (BasketOf(s, u), p.entries);
            x in Put(s, u, p).1.errors <==>
            match x
            case NotInBasket(id) => exists k :: 0 <= k < |es| && Upd.Misses(s, b, es, k, id)
            case NotEnough(q, a) => exists k :: 0 <= k < |es| && Upd.Exceeds(s, b, es, k, q, a)
            case _ => false
  {
    PutAnswers(s, u, p);
    Upd.ComplaintsMean(s, BasketOf(s, u), p.entries, x);
  }

  // ---------- what a deletion request does and answers ----------

  /** The items a deletion request leaves. */
  ghost function Unlisted(items: map<Id, Item>, b: Id, tokens: seq<string>): map<Id, Item> {
    map i | i in items && !(items[i].order == b && Listed(tokens, i)) :: items[i]
  }

  lemma SelectionIsExact(s: Store, b: Id, tokens: seq<string>)
    ensures var (q, found) := Fold(Empty, false, b, tokens);
            && (found <==> ListsSomething(tokens))
            && (found ==> DeleteMatching(s, q).items == Unlisted(s.items, b, tokens))
            && (!found ==> s.items == Unlisted(s.items, b, tokens))
  {
    FoldIsExact(b, tokens);
  }

  lemma DeletionKeeps(s: Store, t: Store, b: Id)
    requires Valid(s) && IsBasket(s, b) && t == s.(items := t.items)
    requires forall i | i in t.items :: i in s.items && t.items[i] == s.items[i]
    requires forall i | i in s.items && s.items[i].order != b :: i in t.items
    ensures var r := RefreshTotal(t, b);
            Valid(r) && Edits(s, r, b) && Agrees(r, b) && r.items == t.items
  {
    DropKeepsValid(s, t, b);
    RefreshKeepsValid(t, b);
    RefreshAgrees(t, b);
    EditsCompose(s, t, RefreshTotal(t, b), b);
  }

  /** Without a list nothing happens. Otherwise only the caller's basket changes: exactly its items
      with a listed id go, and their number is answered and the total refreshed. A list without a
      numeric id removes nothing and is answered like a missing one. */
  ghost predicate RemovesListed(s: Store, u: Id, tokens: seq<string>, t: Store, reply: Reply) {
    var b := BasketOf(s, u);
    if tokens == [] then reply.Missing? && t == s
    else
      && OnlyBasket(s, t, u, b) && t.items == Unlisted(s.items, b, tokens) && t.nextItem == s.nextItem
      && if ListsSomething(tokens) then reply == Done(|s.items.Keys - t.items.Keys|) && Agrees(t, b)
         else reply.Missing? && t.items == s.items && CachedTotal(t, b) == CachedTotal(s, b)
  }

  lemma DeleteEffect(s: Store, u: Id, tokens: seq<string>)
    requires Valid(s) && tokens != []
    ensures var (s1, b) := OpenBasket(s, u);
            var (t, reply) := Delete(s, u, tokens);
            && Valid(t) && Edits(s1, t, b)
            && (reply.Done? <==> ListsSomething(tokens)) && (reply.Missing? <==> !reply.Done?)
            && (reply.Missing? ==> t == s1)
            && t.items == Unlisted(s1.items, b, tokens) && t.nextItem == s1.nextItem
            && (reply.Done? ==> reply.count == |s1.items.Keys - t.items.Keys| && Agrees(t, b))
  {
    var (s1, b) := OpenBasket(s, u);
    OpenBasketKeepsValid(s, u);
    SelectionIsExact(s1, b, tokens);
    var (q, found) := Fold(Empty, false, b, tokens);
    if found {
      DeletionKeeps(s1, DeleteMatching(s1, q), b);
    }
  }

  /** Deleting from the basket removes exactly the caller's basket items whose id is listed, and
      refreshes the total; without a list, or without a numeric id in it, nothing is removed. */
  lemma DeleteIsExact(s: Store, u: Id, tokens: seq<string>)
    requires Valid(s)
    ensures var (t, reply) := Delete(s, u, tokens);
            && RemovesListed(s, u, tokens, t, reply) && Valid(t)
            && (tokens == [] ==> t == s && reply.Missing?)
            && (reply.Done? <==> ListsSomething(tokens)) && (reply.Missing? <==> !reply.Done?)
  {
    if tokens != [] {
      var (s1, b) := OpenBasket(s, u);
      OpenBasketIsExact(s, u);
      DeleteEffect(s, u, tokens);
      EditsFromOpen(s, s1, Delete(s, u, tokens).0, u, b);
    }
  }
}
