/** Sums over the order items. An item contributes a weight to each of a few measures, and a
    total adds the weights of all item ids; totals are compared weight by weight. */
module Sums {
  import opened Tables

  datatype Measure =
    | Held(order: Id, info: Id)               // pieces of one product in one order
    | Committed(info: Id)                     // pieces of one product over the orders in state `new`
    | Doomed(info: Id, gone: set<Id>)         // the part of Committed that lies in the orders `gone`
    | Value(order: Id)                        // quantity times price over one order
    | Supplied(order: Id, supplier: Id)       // the part of Value offered by one supplier's shop
    | SoldBy(order: Id, shops: Id)            // the part of Value offered by shops with an id below `shops`

  /** `OrderItem.item_price` */
  function ItemPrice(s: Store, i: Id): int
    requires i in s.items
  {
    if s.items[i].info in s.infos then s.items[i].quantity * s.infos[s.items[i].info].price else 0
  }

  predicate IsNew(s: Store, o: Id) {
    o in s.orders && s.orders[o].phase.New?
  }

  function ShopOf(s: Store, i: Id): Option<Id>
    requires i in s.items
  {
    if s.items[i].info in s.infos then Some(s.infos[s.items[i].info].shop) else None
  }

  function Weight(s: Store, m: Measure, i: Id): int {
    if i !in s.items then 0 else
      var item := s.items[i];
      match m
      case Held(o, p) => if item.order == o && item.info == p then item.quantity else 0
      case Committed(p) => if item.info == p && IsNew(s, item.order) then item.quantity else 0
      case Doomed(p, gone) =>
        if item.info == p && IsNew(s, item.order) && item.order in gone then item.quantity else 0
      case Value(o) => if item.order == o then ItemPrice(s, i) else 0
      case Supplied(o, u) =>
        if item.order == o && ShopOf(s, i).Some? && ShopOf(s, i).value in s.cat.shops
           && s.cat.shops[ShopOf(s, i).value].owner == u
        then ItemPrice(s, i) else 0
      case SoldBy(o, n) =>
        if item.order == o && ShopOf(s, i).Some? && ShopOf(s, i).value < n then ItemPrice(s, i) else 0
  }

  /** The weights of the item ids below `n`, added up in id order. */
  function Sum(s: Store, m: Measure, n: nat): int {
    if n == 0 then 0 else Sum(s, m, n - 1) + Weight(s, m, n - 1)
  }

  function Total(s: Store, m: Measure): int {
    Sum(s, m, s.nextItem)
  }

  lemma {:induction false} SumBeyond(s: Store, m: Measure, n: nat)
    requires Numbered(s) && s.nextItem <= n
    ensures Sum(s, m, n) == Total(s, m)
    decreases n
  {
    if n == s.nextItem {
    } else {
      SumBeyond(s, m, n - 1);
    }
  }

  lemma {:induction false} SumSplits(s: Store, m: Measure, t: Store, k: Measure, u: Store, l: Measure, n: nat)
    requires forall i | 0 <= i < n :: Weight(s, m, i) == Weight(t, k, i) + Weight(u, l, i)
    ensures Sum(s, m, n) == Sum(t, k, n) + Sum(u, l, n)
  {
    if n == 0 {
    } else {
      SumSplits(s, m, t, k, u, l, n - 1);
    }
  }

  /** Weights that add up item by item give totals that add up. */
  lemma TotalSplits(s: Store, m: Measure, t: Store, k: Measure, u: Store, l: Measure)
    requires Numbered(s) && Numbered(t) && Numbered(u)
    requires forall i: Id :: Weight(s, m, i) == Weight(t, k, i) + Weight(u, l, i)
    ensures Total(s, m) == Total(t, k) + Total(u, l)
  {
    var n := s.nextItem + t.nextItem + u.nextItem;
    SumBeyond(s, m, n);
    SumBeyond(t, k, n);
    SumBeyond(u, l, n);
    SumSplits(s, m, t, k, u, l, n);
  }

  lemma {:induction false} SumShifts(s: Store, m: Measure, t: Store, k: Measure, j: Id, n: nat)
    requires forall i | 0 <= i < n && i != j :: Weight(s, m, i) == Weight(t, k, i)
    ensures Sum(t, k, n) - Sum(s, m, n) == if j < n then Weight(t, k, j) - Weight(s, m, j) else 0
  {
    if n == 0 {
    } else {
      SumShifts(s, m, t, k, j, n - 1);
    }
  }

  /** Two stores that weigh every item but `j` alike differ by what `j` contributes. */
  lemma TotalShifts(s: Store, m: Measure, t: Store, k: Measure, j: Id)
    requires Numbered(s) && Numbered(t)
    requires forall i: Id | i != j :: Weight(s, m, i) == Weight(t, k, i)
    ensures Total(t, k) == Total(s, m) + Weight(t, k, j) - Weight(s, m, j)
  {
    var n := s.nextItem + t.nextItem + j + 1;
    SumBeyond(s, m, n);
    SumBeyond(t, k, n);
    SumShifts(s, m, t, k, j, n);
  }

  lemma {:induction false} SumsSame(s: Store, t: Store, m: Measure, n: nat)
    requires forall i | 0 <= i < n :: Weight(s, m, i) == Weight(t, m, i)
    ensures Sum(t, m, n) == Sum(s, m, n)
  {
    if n == 0 {
    } else {
      SumsSame(s, t, m, n - 1);
    }
  }

  lemma TotalSame(s: Store, m: Measure, t: Store, k: Measure)
    requires Numbered(s) && Numbered(t)
    requires forall i: Id :: Weight(s, m, i) == Weight(t, k, i)
    ensures Total(t, k) == Total(s, m)
  {
    TotalShifts(s, m, t, k, 0);
  }

  lemma {:induction false} SumBounds(s: Store, m: Measure, n: nat, j: Id)
    ensures 0 <= Sum(s, m, n)
    ensures j < n ==> Weight(s, m, j) <= Sum(s, m, n)
  {
    if n == 0 {
    } else {
      SumBounds(s, m, n - 1, j);
    }
  }

  /** Totals are never negative and no single item exceeds them. */
  lemma TotalBounds(s: Store, m: Measure, j: Id)
    requires Numbered(s)
    ensures 0 <= Total(s, m) && Weight(s, m, j) <= Total(s, m)
  {
    SumBounds(s, m, s.nextItem, j);
  }

  lemma {:induction false} SumMonotone(s: Store, m: Measure, n: nat, k: nat)
    requires n <= k
    ensures Sum(s, m, n) <= Sum(s, m, k)
    decreases k
  {
    if n == k {
    } else {
      SumMonotone(s, m, n, k - 1);
    }
  }

  lemma {:induction false} SumSingle(s: Store, m: Measure, j: Id, n: nat)
    requires forall i | 0 <= i < n && i != j :: Weight(s, m, i) == 0
    ensures Sum(s, m, n) == if j < n then Weight(s, m, j) else 0
  {
    if n == 0 {
    } else {
      SumSingle(s, m, j, n - 1);
    }
  }

  /** With (order, product) unique, what an order holds of a product is one item's quantity. */
  lemma HeldIsOneItem(s: Store, j: Id)
    requires Numbered(s) && UniqueItems(s.items) && j in s.items
    ensures Total(s, Held(s.items[j].order, s.items[j].info)) == s.items[j].quantity
  {
    SumSingle(s, Held(s.items[j].order, s.items[j].info), j, s.nextItem);
  }

  /** An order with no item for a product holds nothing of it. */
  lemma HeldIsZero(s: Store, o: Id, p: Id)
    requires forall i | i in s.items :: s.items[i].order != o || s.items[i].info != p
    ensures Total(s, Held(o, p)) == 0
  {
    SumSingle(s, Held(o, p), s.nextItem, s.nextItem);
  }
}
