/** Placements of several baskets that compete for the same stock. */
module Competing {
  import opened Tables
  import opened Sums
  import opened Baskets
  import opened Orders

  datatype Request = Request(user: Id, basket: Id, contact: Id)

  /** The requests one after the other: the database at the end, and whether all were placed. */
  function PlaceAll(s: Store, rs: seq<Request>): (Store, bool)
    decreases rs
  {
    if rs == [] then (s, true) else
      var (t, r) := PlaceBasket(s, rs[0].user, rs[0].basket, rs[0].contact);
      var (end, ok) := PlaceAll(t, rs[1..]);
      (end, r.Placed? && ok)
  }

  /** Taken alone and with unlimited stock, the request would be accepted. */
  ghost predicate Ready(s: Store, r: Request) {
    OwnsBasket(s, r.user, r.basket) && HasItems(s, r.basket) && OwnsContact(s, r.user, r.contact)
  }

  ghost predicate AllReady(s: Store, rs: seq<Request>) {
    forall k | 0 <= k < |rs| :: Ready(s, rs[k])
  }

  ghost predicate DistinctBaskets(rs: seq<Request>) {
    forall j, k | 0 <= j < k < |rs| :: rs[j].basket != rs[k].basket
  }

  /** What all requests together ask of product `p`. */
  function Demand(s: Store, rs: seq<Request>, p: Id): int {
    if rs == [] then 0 else Total(s, Held(rs[0].basket, p)) + Demand(s, rs[1..], p)
  }

  ghost predicate Enough(s: Store, rs: seq<Request>) {
    forall p | p in s.infos :: Demand(s, rs, p) <= s.infos[p].stock
  }

  function Find(rs: seq<Request>, o: Id): Option<Request> {
    if rs == [] then None else if rs[0].basket == o then Some(rs[0]) else Find(rs[1..], o)
  }

  /** The database with all requests carried out at once. */
  function Settled(s: Store, rs: seq<Request>): Store {
    s.(infos := map p | p in s.infos :: s.infos[p].(stock := s.infos[p].stock - Demand(s, rs, p)),
       orders := map o | o in s.orders ::
         if Find(rs, o).Some? then s.orders[o].(contact := Some(Find(rs, o).value.contact), phase := New)
         else s.orders[o])
  }

  lemma {:induction false} DemandSame(s: Store, t: Store, rs: seq<Request>, p: Id)
    requires t.items == s.items && t.nextItem == s.nextItem && Numbered(s)
    ensures Demand(t, rs, p) == Demand(s, rs, p)
  {
    if rs == [] {
    } else {
      TotalSame(s, Held(rs[0].basket, p), t, Held(rs[0].basket, p));
      DemandSame(s, t, rs[1..], p);
    }
  }

  lemma {:induction false} DemandBounds(s: Store, rs: seq<Request>, p: Id)
    requires Numbered(s)
    ensures 0 <= Demand(s, rs, p)
  {
    if rs == [] {
    } else {
      TotalBounds(s, Held(rs[0].basket, p), 0);
      DemandBounds(s, rs[1..], p);
    }
  }

  lemma {:induction false} FindIsMembership(rs: seq<Request>, o: Id)
    ensures Find(rs, o).Some? ==> Find(rs, o).value in rs && Find(rs, o).value.basket == o
    ensures Find(rs, o).None? ==> forall r | r in rs :: r.basket != o
  {
    if rs == [] {
    } else {
      FindIsMembership(rs[1..], o);
    }
  }

  /** A ready request is placed exactly when its own demand is in stock. */
  lemma ReadyIsPlaced(s: Store, r: Request)
    requires Valid(s) && Ready(s, r)
    ensures var (t, reply) := PlaceBasket(s, r.user, r.basket, r.contact);
            && (reply.Placed? <==> forall p | p in s.infos :: Total(s, Held(r.basket, p)) <= s.infos[p].stock)
            && (reply.Placed? ==>
                  && Valid(t)
                  && t == s.(infos := Deducted(s, r.basket), orders := Signed(s, r.basket, r.contact)))
  {
    CheckIsExact(s, r.basket);
    CheckoutKeepsValid(s, r.user, r.basket, r.contact);
  }

  lemma EnoughStep(s: Store, t: Store, rs: seq<Request>)
    requires Numbered(s) && rs != []
    requires t.items == s.items && t.nextItem == s.nextItem && t.infos == Deducted(s, rs[0].basket)
    ensures Enough(s, rs) <==> Enough(t, rs[1..])
  {
    forall p: Id ensures Demand(t, rs[1..], p) == Demand(s, rs[1..], p) {
      DemandSame(s, t, rs[1..], p);
    }
    if Enough(t, rs[1..]) {
      forall p | p in s.infos ensures Demand(s, rs, p) <= s.infos[p].stock {
        assert Demand(t, rs[1..], p) <= t.infos[p].stock;
      }
    }
  }

  lemma SettledStep(s: Store, t: Store, rs: seq<Request>)
    requires Numbered(s) && rs != [] && DistinctBaskets(rs) && rs[0].basket in s.orders
    requires t == s.(infos := Deducted(s, rs[0].basket), orders := Signed(s, rs[0].basket, rs[0].contact))
    ensures Settled(t, rs[1..]) == Settled(s, rs)
  {
    forall p: Id ensures Demand(t, rs[1..], p) == Demand(s, rs[1..], p) {
      DemandSame(s, t, rs[1..], p);
    }
    assert Find(rs[1..], rs[0].basket).None? by {
      FindIsMembership(rs[1..], rs[0].basket);
      assert forall k | 0 <= k < |rs[1..]| :: rs[1..][k] == rs[k + 1];
    }
    assert Settled(t, rs[1..]).infos == Settled(s, rs).infos;
    assert Settled(t, rs[1..]).orders == Settled(s, rs).orders;
  }

  lemma ReadyRemains(s: Store, t: Store, rs: seq<Request>)
    requires rs != [] && AllReady(s, rs) && DistinctBaskets(rs)
    requires t == s.(infos := t.infos, orders := Signed(s, rs[0].basket, rs[0].contact))
    ensures AllReady(t, rs[1..]) && DistinctBaskets(rs[1..])
  {
    forall k | 0 <= k < |rs| - 1 ensures Ready(t, rs[1..][k]) {
      assert rs[1..][k] == rs[k + 1] && Ready(s, rs[k + 1]);
    }
  }

  /** Ready requests for distinct baskets are all placed exactly when, for every offer, the
      summed demand is in stock; the database at the end is the simultaneous settlement. */
  lemma {:induction false} CompetingPlacements(s: Store, rs: seq<Request>)
    requires Valid(s) && AllReady(s, rs) && DistinctBaskets(rs)
    ensures PlaceAll(s, rs).1 <==> Enough(s, rs)
    ensures PlaceAll(s, rs).1 ==> PlaceAll(s, rs).0 == Settled(s, rs)
    decreases rs
  {
    if rs == [] {
      assert Settled(s, rs).infos == s.infos && Settled(s, rs).orders == s.orders;
    } else {
      var (t, r) := PlaceBasket(s, rs[0].user, rs[0].basket, rs[0].contact);
      ReadyIsPlaced(s, rs[0]);
      if r.Placed? {
        ReadyRemains(s, t, rs);
        CompetingPlacements(t, rs[1..]);
        EnoughStep(s, t, rs);
        SettledStep(s, t, rs);
      } else {
        var p :| p in s.infos && Total(s, Held(rs[0].basket, p)) > s.infos[p].stock;
        DemandBounds(s, rs[1..], p);
      }
    }
  }

  // ---------- any order will do ----------

  lemma {:induction false} DemandConcat(s: Store, a: seq<Request>, b: seq<Request>, p: Id)
    ensures Demand(s, a + b, p) == Demand(s, a, p) + Demand(s, b, p)
  {
    if a == [] {
      assert a + b == b;
    } else {
      assert (a + b)[1..] == a[1..] + b;
      DemandConcat(s, a[1..], b, p);
    }
  }

  lemma {:induction false} DemandPermutes(s: Store, rs: seq<Request>, qs: seq<Request>, p: Id)
    requires multiset(rs) == multiset(qs)
    ensures Demand(s, rs, p) == Demand(s, qs, p)
    decreases rs
  {
    if rs == [] {
      assert |multiset(qs)| == 0;
    } else {
      assert rs[0] in multiset(qs);
      var j :| 0 <= j < |qs| && qs[j] == rs[0];
      assert rs == [rs[0]] + rs[1..];
      assert qs == qs[..j] + ([qs[j]] + qs[j + 1..]);
      assert multiset(rs[1..]) == multiset(rs) - multiset{rs[0]};
      assert multiset(qs[..j] + qs[j + 1..]) == multiset(qs) - multiset{qs[j]};
      DemandPermutes(s, rs[1..], qs[..j] + qs[j + 1..], p);
      DemandConcat(s, qs[..j], [qs[j]] + qs[j + 1..], p);
      DemandConcat(s, [qs[j]], qs[j + 1..], p);
      DemandConcat(s, qs[..j], qs[j + 1..], p);
    }
  }

  lemma MembersPermute(rs: seq<Request>, qs: seq<Request>, r: Request)
    requires multiset(rs) == multiset(qs)
    ensures r in rs <==> r in qs
  {
    assert r in rs <==> r in multiset(rs);
    assert r in qs <==> r in multiset(qs);
  }

  /** Two positions of one basket would be two occurrences in every ordering. */
  lemma DistinctPermutes(rs: seq<Request>, qs: seq<Request>)
    requires multiset(rs) == multiset(qs) && DistinctBaskets(rs)
    ensures DistinctBaskets(qs)
  {
    forall j, k | 0 <= j < k < |qs| ensures qs[j].basket != qs[k].basket {
      MembersPermute(rs, qs, qs[j]);
      MembersPermute(rs, qs, qs[k]);
      if qs[j].basket == qs[k].basket {
        var a :| 0 <= a < |rs| && rs[a] == qs[j];
        var c :| 0 <= c < |rs| && rs[c] == qs[k];
        assert a == c;
        assert qs == qs[..j] + [qs[j]] + qs[j + 1..k] + [qs[k]] + qs[k + 1..];
        assert multiset(qs)[qs[j]] >= 2;
        OccursOnce(rs, a);
      }
    }
  }

  lemma OccursOnce(rs: seq<Request>, a: nat)
    requires a < |rs| && DistinctBaskets(rs)
    ensures multiset(rs)[rs[a]] == 1
  {
    assert rs == rs[..a] + [rs[a]] + rs[a + 1..];
    assert rs[a] !in rs[..a] && rs[a] !in rs[a + 1..];
    assert multiset(rs) == multiset(rs[..a]) + multiset{rs[a]} + multiset(rs[a + 1..]);
  }

  lemma FindPermutes(rs: seq<Request>, qs: seq<Request>, o: Id)
    requires multiset(rs) == multiset(qs) && DistinctBaskets(rs)
    ensures Find(rs, o) == Find(qs, o)
  {
    FindIsMembership(rs, o);
    FindIsMembership(qs, o);
    if Find(rs, o).Some? {
      MembersPermute(rs, qs, Find(rs, o).value);
    }
    if Find(qs, o).Some? {
      MembersPermute(rs, qs, Find(qs, o).value);
    }
  }

  lemma SettledPermutes(s: Store, rs: seq<Request>, qs: seq<Request>)
    requires multiset(rs) == multiset(qs) && DistinctBaskets(rs)
    ensures Settled(s, rs) == Settled(s, qs)
    ensures Enough(s, rs) <==> Enough(s, qs)
  {
    forall p: Id ensures Demand(s, rs, p) == Demand(s, qs, p) {
      DemandPermutes(s, rs, qs, p);
    }
    forall o: Id ensures Find(rs, o) == Find(qs, o) {
      FindPermutes(rs, qs, o);
    }
    assert Settled(s, rs).infos == Settled(s, qs).infos;
    assert Settled(s, rs).orders == Settled(s, qs).orders;
  }

  /** If a list of competing placements succeeds, so does every reordering of it, and the whole
      database ends the same. */
  lemma PlacementsInAnyOrder(s: Store, rs: seq<Request>, qs: seq<Request>)
    requires Valid(s) && AllReady(s, rs) && DistinctBaskets(rs) && multiset(rs) == multiset(qs)
    ensures PlaceAll(s, qs).1 <==> PlaceAll(s, rs).1
    ensures PlaceAll(s, rs).1 ==> PlaceAll(s, qs).0 == PlaceAll(s, rs).0
  {
    DistinctPermutes(rs, qs);
    forall k | 0 <= k < |qs| ensures Ready(s, qs[k]) {
      MembersPermute(rs, qs, qs[k]);
    }
    CompetingPlacements(s, rs);
    CompetingPlacements(s, qs);
    SettledPermutes(s, rs, qs);
  }
}
