/** The exact meaning of a batch add: when it reports no error, and what the basket is then. */
module BatchAdd {
  import opened Tables
  import opened Sums
  import opened Baskets

  /** The cached total of the order is the sum of its items. */
  ghost predicate Agrees(s: Store, o: Id) {
    o in s.orders && s.orders[o].total == Total(s, Value(o))
  }

  /** The listed quantities, each weighted by what `rate` gives for its product. */
  function Tally(es: seq<AddEntry>, rate: map<Id, int>): int {
    if es == [] then 0 else
      (if es[0].info in rate then es[0].quantity * rate[es[0].info] else 0) + Tally(es[1..], rate)
  }

  /** The sum of all quantities listed for product `p`. */
  function Asked(es: seq<AddEntry>, p: Id): int {
    Tally(es, map[p := 1])
  }

  function Prices(s: Store): map<Id, int> {
    map p | p in s.infos :: s.infos[p].price
  }

  ghost predicate Lists(es: seq<AddEntry>, p: Id) {
    exists k :: 0 <= k < |es| && es[k].info == p
  }

  ghost predicate NonNegative(es: seq<AddEntry>) {
    forall k | 0 <= k < |es| :: 0 <= es[k].quantity
  }

  /** For every listed product: it exists, and the basket's quantity plus everything listed for
      it is at most its stock. */
  ghost predicate Fits(s: Store, b: Id, es: seq<AddEntry>) {
    NonNegative(es) && forall p: Id | Lists(es, p) ::
      p in s.infos && Total(s, Held(b, p)) + Asked(es, p) <= s.infos[p].stock
  }

  // ---------- one entry ----------

  /** Refreshing a cached total changes no measure. */
  lemma RefreshKeepsTotals(s: Store, o: Id, m: Measure)
    requires Numbered(s)
    ensures Total(RefreshTotal(s, o), m) == Total(s, m)
  {
    TotalSame(s, m, RefreshTotal(s, o), m);
  }

  function Growth(s: Store, i: Id, item: Item): int {
    item.quantity - if i in s.items then s.items[i].quantity else 0
  }

  lemma PutChangesHeld(s: Store, i: Id, item: Item, p: Id)
    requires Numbered(s) && Writes(s, i, item)
    ensures Total(PutItem(s, i, item), Held(item.order, p)) ==
            Total(s, Held(item.order, p)) + if p == item.info then Growth(s, i, item) else 0
  {
    TotalShifts(s, Held(item.order, p), PutItem(s, i, item), Held(item.order, p), i);
  }

  lemma Distribute(a: int, b: int, c: int)
    ensures (a - b) * c == a * c - b * c
  {
  }

  lemma PutChangesValue(s: Store, i: Id, item: Item)
    requires Numbered(s) && Writes(s, i, item) && item.info in s.infos
    ensures Total(PutItem(s, i, item), Value(item.order)) ==
            Total(s, Value(item.order)) + Growth(s, i, item) * s.infos[item.info].price
  {
    var m := Value(item.order);
    TotalShifts(s, m, PutItem(s, i, item), m, i);
    Distribute(item.quantity, if i in s.items then s.items[i].quantity else 0, s.infos[item.info].price);
  }

  /** A save changes the measures of its order by what the row changes, and leaves the cached
      total equal to the sum, whatever it was before. */
  lemma SaveEffect(s: Store, i: Id, item: Item)
    requires Valid(s) && IsBasket(s, item.order) && item.info in s.infos && Writes(s, i, item)
    ensures var t := SaveItem(s, i, item);
            && Agrees(t, item.order)
            && (forall p: Id :: Total(t, Held(item.order, p)) ==
                  Total(s, Held(item.order, p)) + if p == item.info then Growth(s, i, item) else 0)
            && Total(t, Value(item.order)) ==
                 Total(s, Value(item.order)) + Growth(s, i, item) * s.infos[item.info].price
  {
    var b, t1, t := item.order, PutItem(s, i, item), SaveItem(s, i, item);
    PutKeepsValid(s, i, item);
    PutChangesValue(s, i, item);
    RefreshKeepsTotals(t1, b, Value(b));
    forall p: Id
      ensures Total(t, Held(b, p)) == Total(s, Held(b, p)) + if p == item.info then Growth(s, i, item) else 0
    {
      PutChangesHeld(s, i, item, p);
      RefreshKeepsTotals(t1, b, Held(b, p));
    }
  }

  ghost predicate Accepts(s: Store, b: Id, e: AddEntry) {
    0 <= e.quantity && e.info in s.infos && Total(s, Held(b, e.info)) + e.quantity <= s.infos[e.info].stock
  }

  ghost predicate Grows(s: Store, t: Store, b: Id, e: AddEntry)
    requires e.info in s.infos
  {
    && (forall p: Id :: Total(t, Held(b, p)) == Total(s, Held(b, p)) + if p == e.info then e.quantity else 0)
    && Total(t, Value(b)) == Total(s, Value(b)) + e.quantity * s.infos[e.info].price
  }

  /** The row that an accepted entry writes. */
  function TargetRow(s: Store, b: Id, e: AddEntry): (Id, Item)
    requires 0 <= e.quantity
  {
    match FirstItem(s.items, b, e.info, s.nextItem)
    case Some(i) => (i, s.items[i].(quantity := s.items[i].quantity + e.quantity))
    case None => (s.nextItem, Item(b, e.info, e.quantity))
  }

  lemma AddOneDecides(s: Store, b: Id, e: AddEntry)
    requires Valid(s) && IsBasket(s, b)
    ensures var r := AddOne(s, b, e);
            && (r.errors == [] <==> Accepts(s, b, e))
            && r == if Accepts(s, b, e) then Batch(SaveItem(s, TargetRow(s, b, e).0, TargetRow(s, b, e).1), [], 1)
                    else Batch(s, r.errors, 0)
  {
    match FirstItem(s.items, b, e.info, s.nextItem)
    case Some(i) => HeldIsOneItem(s, i);
    case None => HeldIsZero(s, b, e.info);
  }

  lemma AcceptedSave(s: Store, b: Id, e: AddEntry)
    requires Valid(s) && IsBasket(s, b) && Accepts(s, b, e)
    ensures var t := SaveItem(s, TargetRow(s, b, e).0, TargetRow(s, b, e).1);
            Valid(t) && IsBasket(t, b) && Edits(s, t, b) && Agrees(t, b) && Grows(s, t, b, e)
  {
    var (i, item) := TargetRow(s, b, e);
    assert Writes(s, i, item) && item.order == b && item.info == e.info && Growth(s, i, item) == e.quantity;
    SaveKeepsValid(s, i, item);
    SaveEffect(s, i, item);
  }

  lemma AddOneEffect(s: Store, b: Id, e: AddEntry)
    requires Valid(s) && IsBasket(s, b)
    ensures var r := AddOne(s, b, e);
            && Valid(r.store) && IsBasket(r.store, b) && Edits(s, r.store, b)
            && (r.errors == [] <==> Accepts(s, b, e))
            && (r.errors != [] ==> r.store == s && r.count == 0)
            && (r.errors == [] ==> r.count == 1 && Agrees(r.store, b) && Grows(s, r.store, b, e))
  {
    AddOneDecides(s, b, e);
    if Accepts(s, b, e) {
      AcceptedSave(s, b, e);
    }
  }

  // ---------- tallies ----------

  lemma {:induction false} TallyConcat(a: seq<AddEntry>, b: seq<AddEntry>, rate: map<Id, int>)
    ensures Tally(a + b, rate) == Tally(a, rate) + Tally(b, rate)
  {
    if a == [] {
      assert a + b == b;
    } else {
      assert (a + b)[1..] == a[1..] + b;
      TallyConcat(a[1..], b, rate);
    }
  }

  lemma {:induction false} AskedBounds(es: seq<AddEntry>, p: Id)
    requires NonNegative(es)
    ensures 0 <= Asked(es, p)
    ensures !Lists(es, p) ==> Asked(es, p) == 0
  {
    if es == [] {
    } else {
      assert forall k | 0 <= k < |es| - 1 :: es[1..][k] == es[k + 1];
      AskedBounds(es[1..], p);
    }
  }

  lemma ListsStep(es: seq<AddEntry>, p: Id)
    requires es != []
    ensures Lists(es, p) <==> es[0].info == p || Lists(es[1..], p)
    ensures NonNegative(es) <==> 0 <= es[0].quantity && NonNegative(es[1..])
  {
    assert forall k | 1 <= k < |es| :: es[k] == es[1..][k - 1];
    assert forall k | 0 <= k < |es| - 1 :: es[1..][k] == es[k + 1];
  }

  /** A batch fits exactly when its first entry is accepted and the rest fits what it leaves. */
  lemma FitsStep(s: Store, t: Store, b: Id, es: seq<AddEntry>)
    requires es != [] && Accepts(s, b, es[0]) && t.infos == s.infos && Grows(s, t, b, es[0])
    ensures Fits(s, b, es) <==> Fits(t, b, es[1..])
  {
    forall p: Id
      ensures Lists(es, p) <==> es[0].info == p || Lists(es[1..], p)
      ensures NonNegative(es) <==> 0 <= es[0].quantity && NonNegative(es[1..])
      ensures Asked(es, p) == (if p == es[0].info then es[0].quantity else 0) + Asked(es[1..], p)
      ensures NonNegative(es[1..]) && !Lists(es[1..], p) ==> Asked(es[1..], p) == 0
    {
      ListsStep(es, p);
      if NonNegative(es[1..]) {
        AskedBounds(es[1..], p);
      }
    }
    if Fits(t, b, es[1..]) {
      assert NonNegative(es) by { ListsStep(es, 0); }
    }
  }

  lemma RejectedNeverFits(s: Store, b: Id, es: seq<AddEntry>)
    requires es != [] && !Accepts(s, b, es[0])
    ensures !Fits(s, b, es)
  {
    if Fits(s, b, es) {
      ListsStep(es, es[0].info);
      AskedBounds(es[1..], es[0].info);
    }
  }

  // ---------- the whole batch ----------

  /** Whatever the batch, the database stays valid, only the basket is edited, a batch that
      saved nothing changed nothing, and one that saved anything left the total correct. */
  lemma {:induction false} AddAllKeeps(s: Store, b: Id, es: seq<AddEntry>)
    requires Valid(s) && IsBasket(s, b)
    ensures var r := AddAll(s, b, es);
            && Valid(r.store) && IsBasket(r.store, b) && Edits(s, r.store, b)
            && (r.count == 0 ==> r.store == s)
            && (r.count > 0 ==> Agrees(r.store, b))
    decreases es
  {
    if es == [] {
    } else {
      AddOneEffect(s, b, es[0]);
      var t := AddOne(s, b, es[0]).store;
      AddAllKeeps(t, b, es[1..]);
      EditsCompose(s, t, AddAll(s, b, es).store, b);
    }
  }

  /** What an accepted list does to the basket: a pointwise sum of the quantities, and a price
      that grows by the price of the list. */
  ghost predicate Adds(s: Store, t: Store, b: Id, es: seq<AddEntry>) {
    && (forall p: Id :: Total(t, Held(b, p)) == Total(s, Held(b, p)) + Asked(es, p))
    && Total(t, Value(b)) == Total(s, Value(b)) + Tally(es, Prices(s))
  }

  lemma AddsStep(s: Store, t: Store, u: Store, b: Id, es: seq<AddEntry>)
    requires es != [] && es[0].info in s.infos && t.infos == s.infos
    requires Grows(s, t, b, es[0]) && Adds(t, u, b, es[1..])
    ensures Adds(s, u, b, es)
  {
    assert Prices(t) == Prices(s);
    forall p: Id ensures Total(u, Held(b, p)) == Total(s, Held(b, p)) + Asked(es, p) {
      assert Total(u, Held(b, p)) == Total(t, Held(b, p)) + Asked(es[1..], p);
    }
  }

  /** A batch add reports no error exactly when it fits, and then every entry was saved and the
      basket is the pointwise sum of what it was and what was listed. */
  lemma {:induction false} BatchAddIsExact(s: Store, b: Id, es: seq<AddEntry>)
    requires Valid(s) && IsBasket(s, b)
    ensures var r := AddAll(s, b, es);
            && (r.errors == [] <==> Fits(s, b, es))
            && (r.errors == [] ==> r.count == |es| && Adds(s, r.store, b, es))
    decreases es
  {
    if es == [] {
    } else {
      AddOneEffect(s, b, es[0]);
      var t := AddOne(s, b, es[0]).store;
      if Accepts(s, b, es[0]) {
        BatchAddIsExact(t, b, es[1..]);
        FitsStep(s, t, b, es);
        if AddAll(s, b, es).errors == [] {
          AddsStep(s, t, AddAll(s, b, es).store, b, es);
        }
      } else {
        RejectedNeverFits(s, b, es);
      }
    }
  }

  /** Every error names a listed product or a refused field, and the availability it reports is
      the product's stock, exceeded by what was asked. */
  ghost predicate Truthful(s: Store, es: seq<AddEntry>, error: Error) {
    match error
    case Rejected(field) => field == "product_info" || field == "quantity"
    case NotEnough(p, a) =>
      exists k :: 0 <= k < |es| && es[k].info == p && p in s.infos && a == s.infos[p].stock && es[k].quantity > a
    case NotEnoughMerged(p, a, q) =>
      exists k :: 0 <= k < |es| && es[k].info == p && p in s.infos && a == s.infos[p].stock && es[k].quantity <= a < q
    case NotInBasket(id) => false
  }

  lemma {:induction false} ErrorsAreTruthful(s: Store, b: Id, es: seq<AddEntry>)
    requires Valid(s) && IsBasket(s, b)
    ensures forall error | error in AddAll(s, b, es).errors :: Truthful(s, es, error)
    decreases es
  {
    if es == [] {
    } else {
      AddOneEffect(s, b, es[0]);
      var h := AddOne(s, b, es[0]);
      ErrorsAreTruthful(h.store, b, es[1..]);
      forall error | error in AddAll(s, b, es).errors ensures Truthful(s, es, error) {
        if error in h.errors {
          assert es[0].info == es[0].info;
        } else {
          TruthfulLater(s, h.store, es, error);
        }
      }
    }
  }

  lemma TruthfulLater(s: Store, t: Store, es: seq<AddEntry>, error: Error)
    requires es != [] && t.infos == s.infos && Truthful(t, es[1..], error)
    ensures Truthful(s, es, error)
  {
    assert forall k | 0 <= k < |es| - 1 :: es[1..][k] == es[k + 1];
  }

  lemma Scaled(a: int, q: int, r: int)
    ensures r * (q + a) == q * r + r * a
  {
  }

  /** The part of a tally that one product contributes. */
  lemma {:induction false} TallySplits(es: seq<AddEntry>, rate: map<Id, int>, p: Id)
    requires p in rate
    ensures Tally(es, rate) == Tally(es, rate - {p}) + rate[p] * Asked(es, p)
    decreases es
  {
    if es == [] {
    } else {
      TallySplits(es[1..], rate, p);
      Scaled(Asked(es[1..], p), es[0].quantity, rate[p]);
    }
  }

  lemma {:induction false} TallyOfNothing(es: seq<AddEntry>)
    ensures Tally(es, map[]) == 0
    decreases es
  {
    if es == [] {
    } else {
      TallyOfNothing(es[1..]);
    }
  }

  /** Lists that ask the same of every product have the same price, whatever the prices. */
  lemma {:induction false} TallyDependsOnQuantities(es: seq<AddEntry>, fs: seq<AddEntry>, rate: map<Id, int>)
    requires forall p: Id :: Asked(es, p) == Asked(fs, p)
    ensures Tally(es, rate) == Tally(fs, rate)
    decreases |rate|
  {
    if rate == map[] {
      TallyOfNothing(es);
      TallyOfNothing(fs);
    } else {
      var p :| p in rate;
      TallySplits(es, rate, p);
      TallySplits(fs, rate, p);
      TallyDependsOnQuantities(es, fs, rate - {p});
    }
  }

  /** The outcome depends only on which products are listed and how much of each: lists that
      agree on both are accepted together and leave the same quantities and the same price. */
  lemma OutcomeDependsOnQuantities(s: Store, b: Id, es: seq<AddEntry>, fs: seq<AddEntry>)
    requires Valid(s) && IsBasket(s, b)
    requires NonNegative(es) && NonNegative(fs)
    requires forall p: Id :: (Lists(es, p) <==> Lists(fs, p)) && Asked(es, p) == Asked(fs, p)
    ensures var r, q := AddAll(s, b, es), AddAll(s, b, fs);
            && (r.errors == [] <==> q.errors == [])
            && (r.errors == [] ==>
                  && (forall p: Id :: Total(r.store, Held(b, p)) == Total(q.store, Held(b, p)))
                  && Total(r.store, Value(b)) == Total(q.store, Value(b)))
  {
    BatchAddIsExact(s, b, es);
    BatchAddIsExact(s, b, fs);
    TallyDependsOnQuantities(es, fs, Prices(s));
  }

  lemma {:induction false} TallyPermutes(es: seq<AddEntry>, fs: seq<AddEntry>, rate: map<Id, int>)
    requires multiset(es) == multiset(fs)
    ensures Tally(es, rate) == Tally(fs, rate)
    decreases es
  {
    if es == [] {
      assert |multiset(fs)| == 0;
    } else {
      assert es[0] in multiset(fs);
      var j :| 0 <= j < |fs| && fs[j] == es[0];
      assert es == [es[0]] + es[1..];
      assert fs == fs[..j] + ([fs[j]] + fs[j + 1..]);
      assert multiset(es) == multiset{es[0]} + multiset(es[1..]);
      assert multiset(fs) == multiset{fs[j]} + multiset(fs[..j] + fs[j + 1..]);
      assert multiset(es[1..]) == multiset(es) - multiset{es[0]};
      assert multiset(fs[..j] + fs[j + 1..]) == multiset(fs) - multiset{fs[j]};
      TallyPermutes(es[1..], fs[..j] + fs[j + 1..], rate);
      TallyConcat(fs[..j], [fs[j]] + fs[j + 1..], rate);
      TallyConcat([fs[j]], fs[j + 1..], rate);
      TallyConcat(fs[..j], fs[j + 1..], rate);
      TallyConcat([es[0]], es[1..], rate);
    }
  }

  lemma ListsPermutes(es: seq<AddEntry>, fs: seq<AddEntry>, p: Id)
    requires multiset(es) == multiset(fs)
    ensures Lists(es, p) ==> Lists(fs, p)
    ensures NonNegative(es) ==> NonNegative(fs)
  {
    forall k | 0 <= k < |es| ensures exists j :: 0 <= j < |fs| && fs[j] == es[k] {
      assert es[k] in multiset(fs);
    }
    forall k | 0 <= k < |fs| ensures exists j :: 0 <= j < |es| && es[j] == fs[k] {
      assert fs[k] in multiset(es);
    }
  }

  /** Reordering the list changes neither whether it is accepted, nor the quantities in the
      basket, nor its price. */
  lemma BatchAddIgnoresOrder(s: Store, b: Id, es: seq<AddEntry>, fs: seq<AddEntry>)
    requires Valid(s) && IsBasket(s, b) && multiset(es) == multiset(fs)
    ensures var r, q := AddAll(s, b, es), AddAll(s, b, fs);
            && (r.errors == [] <==> q.errors == [])
            && (r.errors == [] ==>
                  && (forall p: Id :: Total(r.store, Held(b, p)) == Total(q.store, Held(b, p)))
                  && Total(r.store, Value(b)) == Total(q.store, Value(b)))
  {
    forall p: Id
      ensures (Lists(es, p) <==> Lists(fs, p)) && Asked(es, p) == Asked(fs, p)
      ensures NonNegative(es) <==> NonNegative(fs)
    {
      ListsPermutes(es, fs, p);
      ListsPermutes(fs, es, p);
      TallyPermutes(es, fs, map[p := 1]);
    }
    TallyPermutes(es, fs, Prices(s));
    BatchAddIsExact(s, b, es);
    BatchAddIsExact(s, b, fs);
    assert NonNegative(es) <==> NonNegative(fs) by { ListsPermutes(es, fs, 0); ListsPermutes(fs, es, 0); }
  }

  lemma ListsMerged(a: seq<AddEntry>, e: AddEntry, c: seq<AddEntry>, f: AddEntry, d: seq<AddEntry>, p: Id)
    requires e.info == f.info
    ensures Lists(a + [e] + c + [f] + d, p) <==> Lists(a + [AddEntry(e.info, e.quantity + f.quantity)] + c + d, p)
  {
    var es, fs := a + [e] + c + [f] + d, a + [AddEntry(e.info, e.quantity + f.quantity)] + c + d;
    var n, m := |a|, |a| + 1 + |c|;
    assert es[n] == e && es[m] == f;
    assert forall k | 0 <= k < m :: es[k].info == fs[k].info;
    assert forall k | m < k < |es| :: es[k] == fs[k - 1];
    assert forall k | m <= k < |fs| :: fs[k] == es[k + 1];
  }

  lemma AskedMerged(a: seq<AddEntry>, e: AddEntry, c: seq<AddEntry>, f: AddEntry, d: seq<AddEntry>, p: Id)
    requires e.info == f.info
    ensures Asked(a + [e] + c + [f] + d, p) == Asked(a + [AddEntry(e.info, e.quantity + f.quantity)] + c + d, p)
  {
    var g, rate := AddEntry(e.info, e.quantity + f.quantity), map[p := 1];
    TallyConcat(a + [e] + c + [f], d, rate);
    TallyConcat(a + [e] + c, [f], rate);
    TallyConcat(a + [e], c, rate);
    TallyConcat(a, [e], rate);
    TallyConcat(a + [g] + c, d, rate);
    TallyConcat(a + [g], c, rate);
    TallyConcat(a, [g], rate);
  }

  lemma NonNegativeMerged(a: seq<AddEntry>, e: AddEntry, c: seq<AddEntry>, f: AddEntry, d: seq<AddEntry>)
    requires e.info == f.info && NonNegative(a + [e] + c + [f] + d)
    ensures NonNegative(a + [AddEntry(e.info, e.quantity + f.quantity)] + c + d)
  {
    var es, fs := a + [e] + c + [f] + d, a + [AddEntry(e.info, e.quantity + f.quantity)] + c + d;
    var m := |a| + 1 + |c|;
    assert es[|a|] == e && es[m] == f;
    forall k | 0 <= k < |fs| ensures 0 <= fs[k].quantity {
      assert k < m && k != |a| ==> fs[k] == es[k];
      assert k >= m ==> fs[k] == es[k + 1];
    }
  }

  /** Two entries for one product do what a single entry with their sum does. */
  lemma BatchAddMergesDuplicates(s: Store, b: Id,
                                 a: seq<AddEntry>, e: AddEntry, c: seq<AddEntry>, f: AddEntry, d: seq<AddEntry>)
    requires Valid(s) && IsBasket(s, b) && e.info == f.info
    requires NonNegative(a + [e] + c + [f] + d)
    ensures var r, q := AddAll(s, b, a + [e] + c + [f] + d),
                        AddAll(s, b, a + [AddEntry(e.info, e.quantity + f.quantity)] + c + d);
            && (r.errors == [] <==> q.errors == [])
            && (r.errors == [] ==>
                  && (forall p: Id :: Total(r.store, Held(b, p)) == Total(q.store, Held(b, p)))
                  && Total(r.store, Value(b)) == Total(q.store, Value(b)))
  {
    var es, fs := a + [e] + c + [f] + d, a + [AddEntry(e.info, e.quantity + f.quantity)] + c + d;
    NonNegativeMerged(a, e, c, f, d);
    forall p: Id ensures (Lists(es, p) <==> Lists(fs, p)) && Asked(es, p) == Asked(fs, p) {
      ListsMerged(a, e, c, f, d, p);
      AskedMerged(a, e, c, f, d, p);
    }
    OutcomeDependsOnQuantities(s, b, es, fs);
  }
}
