/** Each stage of the import: when it succeeds, what it writes, and what it leaves alone. */
module ImportStages {
  import opened Tables
  import opened Imports

  // ---------- categories ----------

  /** No listed id is already taken by, or listed with, another name. */
  ghost predicate Consistent(c: Catalogue, rows: seq<CategoryRow>) {
    && (forall k | 0 <= k < |rows| :: rows[k].id in c.categories ==> c.categories[rows[k].id] == rows[k].name)
    && (forall j, k | 0 <= j < k < |rows| :: rows[j].id == rows[k].id ==> rows[j].name == rows[k].name)
  }

  ghost predicate ListsCategory(rows: seq<CategoryRow>, id: Id) {
    exists k :: 0 <= k < |rows| && rows[k].id == id
  }

  lemma ConsistentStep(c: Catalogue, d: Catalogue, rows: seq<CategoryRow>)
    requires rows != [] && (rows[0].id in c.categories ==> c.categories[rows[0].id] == rows[0].name)
    requires d.categories == c.categories[rows[0].id := rows[0].name]
    ensures Consistent(c, rows) <==> Consistent(d, rows[1..])
  {
    assert forall k | 0 <= k < |rows| - 1 :: rows[1..][k] == rows[k + 1];
    assert forall k | 1 <= k < |rows| :: rows[k] == rows[1..][k - 1];
    if Consistent(d, rows[1..]) {
      forall k | 1 <= k < |rows|
        ensures rows[k].id == rows[0].id ==> rows[k].name == rows[0].name
        ensures rows[k].id in c.categories ==> c.categories[rows[k].id] == rows[k].name
      {
        assert rows[1..][k - 1].id in d.categories ==> d.categories[rows[1..][k - 1].id] == rows[1..][k - 1].name;
      }
      forall j, k | 0 <= j < k < |rows| && rows[j].id == rows[k].id ensures rows[j].name == rows[k].name {
        if j > 0 {
          assert rows[1..][j - 1] == rows[j] && rows[1..][k - 1] == rows[k];
        }
      }
    }
  }

  lemma ListsCategoryStep(rows: seq<CategoryRow>, id: Id)
    requires rows != []
    ensures ListsCategory(rows, id) <==> rows[0].id == id || ListsCategory(rows[1..], id)
  {
    assert forall k | 0 <= k < |rows| - 1 :: rows[1..][k] == rows[k + 1];
    assert forall k | 1 <= k < |rows| :: rows[k] == rows[1..][k - 1];
  }

  lemma {:induction false} CategoriesKeep(c: Catalogue, shop: Id, rows: seq<CategoryRow>)
    requires CatalogueValid(c) && shop in c.shops
    ensures var d := ImportCategories(c, shop, rows).0;
            && CatalogueValid(d) && Extends(c, d)
            && d == c.(categories := d.categories, links := d.links)
    decreases rows
  {
    if rows == [] {
    } else if OpenCategory(c, rows[0]).Some? {
      var e := OpenCategory(c, rows[0]).value;
      CategoriesKeep(e.(links := e.links + {(rows[0].id, shop)}), shop, rows[1..]);
    }
  }

  /** The stage succeeds exactly when the list is consistent; then exactly the listed ids are
      added, under their names, and linked to the shop. */
  lemma {:induction false} CategoriesStage(c: Catalogue, shop: Id, rows: seq<CategoryRow>)
    ensures var (d, ok) := ImportCategories(c, shop, rows);
            && (ok <==> Consistent(c, rows))
            && (ok ==>
                  && (forall id | id in c.categories :: id in d.categories && d.categories[id] == c.categories[id])
                  && (forall id: Id :: id in d.categories <==> id in c.categories || ListsCategory(rows, id))
                  && (forall k | 0 <= k < |rows| :: d.categories[rows[k].id] == rows[k].name)
                  && (forall l :: l in d.links <==> l in c.links || (l.1 == shop && ListsCategory(rows, l.0))))
    decreases rows
  {
    if rows == [] {
    } else if OpenCategory(c, rows[0]).Some? {
      var e := OpenCategory(c, rows[0]).value;
      var e' := e.(links := e.links + {(rows[0].id, shop)});
      CategoriesStage(e', shop, rows[1..]);
      ConsistentStep(c, e', rows);
      forall id: Id ensures ListsCategory(rows, id) <==> rows[0].id == id || ListsCategory(rows[1..], id) {
        ListsCategoryStep(rows, id);
      }
      assert forall k | 1 <= k < |rows| :: rows[k] == rows[1..][k - 1];
    }
  }

  /** Importing categories that are there and linked changes nothing. */
  lemma {:induction false} CategoriesIdle(c: Catalogue, shop: Id, rows: seq<CategoryRow>)
    requires forall k | 0 <= k < |rows| ::
               rows[k].id in c.categories && c.categories[rows[k].id] == rows[k].name && (rows[k].id, shop) in c.links
    ensures ImportCategories(c, shop, rows) == (c, true)
    decreases rows
  {
    if rows == [] {
    } else {
      assert c.links + {(rows[0].id, shop)} == c.links;
      assert forall k | 0 <= k < |rows| - 1 :: rows[1..][k] == rows[k + 1];
      CategoriesIdle(c, shop, rows[1..]);
    }
  }

  // ---------- parameters of one offer ----------

  ghost predicate HasValue(s: Store, info: Id, name: string, value: string) {
    exists q :: (info, q) in s.values && q in s.cat.parameters
      && s.cat.parameters[q] == name && s.values[(info, q)] == value
  }

  ghost predicate Knows(s: Store, info: Id, name: string) {
    exists value :: HasValue(s, info, name, value)
  }

  /** The keys of a mapping are distinct. */
  ghost predicate Mapping(ps: seq<(string, string)>) {
    forall j, k | 0 <= j < k < |ps| :: ps[j].0 != ps[k].0
  }

  ghost predicate AddsValues(s: Store, t: Store, info: Id) {
    && Extends(s.cat, t.cat)
    && t == s.(cat := s.cat.(parameters := t.cat.parameters, nextParameter := t.cat.nextParameter), values := t.values)
    && (forall v | v in s.values :: v in t.values && t.values[v] == s.values[v])
    && (forall v | v in t.values && v !in s.values :: v.0 == info)
  }

  ghost predicate Named(c: Catalogue, name: string) {
    exists q :: q in c.parameters && c.parameters[q] == name
  }

  ghost predicate ParametersPresent(c: Catalogue, ps: seq<(string, string)>) {
    forall k | 0 <= k < |ps| :: Named(c, ps[k].0)
  }

  lemma AddValueGrows(s: Store, info: Id, name: string, value: string)
    requires CatalogueValid(s.cat)
    ensures var r := AddValue(s, info, name, value);
            && CatalogueValid(r.store.cat) && AddsValues(s, r.store, info)
            && (forall v | v in r.store.values && v !in s.values :: v.0 == info && v.1 in r.store.cat.parameters)
            && Named(r.store.cat, name)
            && (Named(s.cat, name) ==> r.store.cat == s.cat)
  {
    OpenParameterKeeps(s.cat, name);
  }

  lemma AddsValuesKeepOffers(s: Store, t: Store, info: Id)
    requires LoadValid(s) && info in s.infos && AddsValues(s, t, info)
    requires forall v | v in t.values && v !in s.values :: v.1 in t.cat.parameters
    ensures OffersValid(t.cat, t.infos, t.nextInfo, t.values)
  {
  }

  lemma AddValueStage(s: Store, info: Id, name: string, value: string)
    requires LoadValid(s) && info in s.infos
    ensures var r := AddValue(s, info, name, value);
            && LoadValid(r.store) && AddsValues(s, r.store, info)
            && Named(r.store.cat, name)
            && (Named(s.cat, name) ==> r.store.cat == s.cat)
  {
    AddValueGrows(s, info, name, value);
    AddsValuesKeepOffers(s, AddValue(s, info, name, value).store, info);
  }

  lemma AddValueDecides(s: Store, info: Id, name: string, value: string)
    requires CatalogueValid(s.cat) && forall v | v in s.values :: v.1 in s.cat.parameters
    ensures AddValue(s, info, name, value).ok <==> !Knows(s, info, name)
  {
    OpenParameterKeeps(s.cat, name);
    var (c, q) := OpenParameter(s.cat, name);
    if (info, q) in s.values {
      assert HasValue(s, info, name, s.values[(info, q)]);
    }
    if Knows(s, info, name) {
      var w :| HasValue(s, info, name, w);
    }
  }

  /** Values already there keep their meaning when rows are added. */
  lemma ValuesStay(s: Store, t: Store, p: Id, name: string, value: string)
    requires Extends(s.cat, t.cat) && forall v | v in s.values :: v.1 in s.cat.parameters
    requires forall v | v in s.values :: v in t.values && t.values[v] == s.values[v]
    ensures HasValue(s, p, name, value) ==> HasValue(t, p, name, value)
    ensures (forall v | v in t.values && v.0 == p :: v in s.values) && HasValue(t, p, name, value) ==>
              HasValue(s, p, name, value)
  {
  }

  lemma AddValueMeans(s: Store, info: Id, name: string, value: string, n: string, v: string)
    requires LoadValid(s) && info in s.infos && AddValue(s, info, name, value).ok
    ensures HasValue(AddValue(s, info, name, value).store, info, n, v) <==>
            HasValue(s, info, n, v) || (n == name && v == value)
  {
    OpenParameterKeeps(s.cat, name);
    var t := AddValue(s, info, name, value).store;
    var q0 := OpenParameter(s.cat, name).1;
    assert HasValue(t, info, name, value) by { assert (info, q0) in t.values; }
    if HasValue(t, info, n, v) {
      var q :| (info, q) in t.values && q in t.cat.parameters && t.cat.parameters[q] == n && t.values[(info, q)] == v;
      assert q == q0 || (info, q) in s.values;
    }
  }

  lemma AddValueMeansAll(s: Store, info: Id, name: string, value: string)
    requires LoadValid(s) && info in s.infos && AddValue(s, info, name, value).ok
    ensures var t := AddValue(s, info, name, value).store;
            forall n, v :: HasValue(t, info, n, v) <==> HasValue(s, info, n, v) || (n == name && v == value)
  {
    forall n, v
      ensures HasValue(AddValue(s, info, name, value).store, info, n, v) <==>
              HasValue(s, info, n, v) || (n == name && v == value)
    {
      AddValueMeans(s, info, name, value, n, v);
    }
  }

  lemma MappingStep(s: Store, t: Store, info: Id, ps: seq<(string, string)>)
    requires ps != [] && !Knows(s, info, ps[0].0)
    requires forall n, v :: HasValue(t, info, n, v) <==> HasValue(s, info, n, v) || (n == ps[0].0 && v == ps[0].1)
    ensures (Mapping(ps) && forall k | 0 <= k < |ps| :: !Knows(s, info, ps[k].0)) <==>
            (Mapping(ps[1..]) && forall k | 0 <= k < |ps[1..]| :: !Knows(t, info, ps[1..][k].0))
  {
    assert forall k | 0 <= k < |ps| - 1 :: ps[1..][k] == ps[k + 1];
    assert forall k | 1 <= k < |ps| :: ps[k] == ps[1..][k - 1];
    assert HasValue(t, info, ps[0].0, ps[0].1);
    assert Knows(t, info, ps[0].0);
    forall n ensures Knows(t, info, n) <==> Knows(s, info, n) || n == ps[0].0 {
      if Knows(s, info, n) {
        var v :| HasValue(s, info, n, v);
        assert HasValue(t, info, n, v);
      }
    }
    if Mapping(ps[1..]) && forall k | 0 <= k < |ps[1..]| :: !Knows(t, info, ps[1..][k].0) {
      forall k | 1 <= k < |ps| ensures !Knows(s, info, ps[k].0) && ps[k].0 != ps[0].0 {
        assert !Knows(t, info, ps[1..][k - 1].0);
      }
    }
  }

  lemma AddsValuesCompose(s: Store, t: Store, u: Store, info: Id)
    requires AddsValues(s, t, info) && AddsValues(t, u, info)
    ensures AddsValues(s, u, info)
  {
    ExtendsTransitive(s.cat, t.cat, u.cat);
  }

  lemma NamedStays(c: Catalogue, d: Catalogue, name: string)
    requires Extends(c, d) && Named(c, name)
    ensures Named(d, name)
  {
    var q :| q in c.parameters && c.parameters[q] == name;
    assert q in d.parameters && d.parameters[q] == name;
  }

  lemma {:induction false} ValuesKeep(s: Store, info: Id, ps: seq<(string, string)>)
    requires LoadValid(s) && info in s.infos
    ensures var r := ImportValues(s, info, ps);
            LoadValid(r.store) && AddsValues(s, r.store, info)
    decreases ps
  {
    if ps == [] {
    } else {
      AddValueStage(s, info, ps[0].0, ps[0].1);
      var t := AddValue(s, info, ps[0].0, ps[0].1).store;
      if AddValue(s, info, ps[0].0, ps[0].1).ok {
        ValuesKeep(t, info, ps[1..]);
        AddsValuesCompose(s, t, ImportValues(s, info, ps).store, info);
      }
    }
  }

  lemma {:induction false} ValuesPresent(s: Store, info: Id, ps: seq<(string, string)>)
    requires LoadValid(s) && info in s.infos
    ensures ImportValues(s, info, ps).ok ==> ParametersPresent(ImportValues(s, info, ps).store.cat, ps)
    decreases ps
  {
    if ps == [] {
    } else if ImportValues(s, info, ps).ok {
      AddValueStage(s, info, ps[0].0, ps[0].1);
      var t := AddValue(s, info, ps[0].0, ps[0].1).store;
      ValuesPresent(t, info, ps[1..]);
      ValuesKeep(t, info, ps[1..]);
      var d := ImportValues(t, info, ps[1..]).store.cat;
      NamedStays(t.cat, d, ps[0].0);
      forall k | 0 <= k < |ps| ensures Named(d, ps[k].0) {
        if k > 0 {
          assert ps[k] == ps[1..][k - 1];
        }
      }
    }
  }

  /** If every listed parameter exists, none is created. */
  lemma {:induction false} ValuesIdle(s: Store, info: Id, ps: seq<(string, string)>)
    requires LoadValid(s) && info in s.infos && ParametersPresent(s.cat, ps)
    ensures ImportValues(s, info, ps).store.cat == s.cat
    decreases ps
  {
    if ps == [] {
    } else {
      AddValueStage(s, info, ps[0].0, ps[0].1);
      assert forall k | 0 <= k < |ps| - 1 :: ps[1..][k] == ps[k + 1];
      if AddValue(s, info, ps[0].0, ps[0].1).ok {
        ValuesIdle(AddValue(s, info, ps[0].0, ps[0].1).store, info, ps[1..]);
      }
    }
  }

  lemma ValuesMean(s: Store, t: Store, u: Store, info: Id, ps: seq<(string, string)>)
    requires ps != []
    requires forall n, v :: HasValue(t, info, n, v) <==> HasValue(s, info, n, v) || (n == ps[0].0 && v == ps[0].1)
    requires forall n, v :: HasValue(u, info, n, v) <==> HasValue(t, info, n, v) || (n, v) in ps[1..]
    ensures forall n, v :: HasValue(u, info, n, v) <==> HasValue(s, info, n, v) || (n, v) in ps
  {
    assert ps == [ps[0]] + ps[1..];
  }

  /** The stage succeeds exactly when the keys are distinct and none is there already; then the
      offer has exactly the listed values in addition to those it had. */
  lemma {:induction false} ValuesStage(s: Store, info: Id, ps: seq<(string, string)>)
    requires LoadValid(s) && info in s.infos
    ensures var r := ImportValues(s, info, ps);
            && (r.ok <==> Mapping(ps) && forall k | 0 <= k < |ps| :: !Knows(s, info, ps[k].0))
            && (r.ok ==> forall n, v :: HasValue(r.store, info, n, v) <==> HasValue(s, info, n, v) || (n, v) in ps)
    decreases ps
  {
    if ps == [] {
    } else {
      var (name, value) := ps[0];
      AddValueDecides(s, info, name, value);
      var t := AddValue(s, info, name, value).store;
      if AddValue(s, info, name, value).ok {
        AddValueStage(s, info, name, value);
        ValuesStage(t, info, ps[1..]);
        AddValueMeansAll(s, info, name, value);
        MappingStep(s, t, info, ps);
        if ImportValues(s, info, ps).ok {
          ValuesMean(s, t, ImportValues(s, info, ps).store, info, ps);
        }
      }
    }
  }
}
