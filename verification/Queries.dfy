/** Comma-separated id lists and the filter expression they are folded into. */
module Queries {
  import opened Tables

  /** `str.isdigit()` on ASCII text: false for the empty string. */
  predicate IsDigits(t: string) {
    t != [] && forall k | 0 <= k < |t| :: '0' <= t[k] <= '9'
  }

  function Number(t: string): nat
    requires forall k | 0 <= k < |t| :: '0' <= t[k] <= '9'
  {
    if t == [] then 0 else Number(t[..|t| - 1]) * 10 + (t[|t| - 1] as int - '0' as int)
  }

  function Digit(d: nat): (c: char)
    requires d < 10
    ensures '0' <= c <= '9' && c as int - '0' as int == d
  {
    (d + '0' as int) as char
  }

  /** The text of an id. */
  function Decimal(n: nat): string {
    (if n < 10 then [] else Decimal(n / 10)) + [Digit(n % 10)]
  }

  /** The text of an id is numeric and reads back as that id. */
  lemma {:induction false} NumberReadsDecimal(n: nat)
    ensures IsDigits(Decimal(n)) && Number(Decimal(n)) == n
  {
    if n < 10 {
      NumberAppends([], n);
      assert [] + [Digit(n)] == Decimal(n);
    } else {
      NumberReadsDecimal(n / 10);
      NumberAppends(Decimal(n / 10), n % 10);
    }
  }

  /** Appending a digit to a numeric text, which may be empty. */
  lemma NumberAppends(t: string, d: nat)
    requires d < 10 && forall k | 0 <= k < |t| :: '0' <= t[k] <= '9'
    ensures IsDigits(t + [Digit(d)]) && Number(t + [Digit(d)]) == Number(t) * 10 + d
  {
    assert (t + [Digit(d)])[..|t|] == t;
  }

  /** A filter: the empty `Q()` matches every row; `Row` asks for one id under one owner. */
  datatype Query = Empty | Row(owner: Id, id: Id) | Or(left: Query, right: Query)

  /** `q | r`: an empty operand is dropped, so `Q()` is the identity of `|`. */
  function Combine(q: Query, r: Query): Query {
    if q.Empty? then r else if r.Empty? then q else Or(q, r)
  }

  /** What `filter(q)` keeps. */
  predicate Matches(q: Query, owner: Id, id: Id) {
    match q
    case Empty => true
    case Row(o, i) => o == owner && i == id
    case Or(l, r) => Matches(l, owner, id) || Matches(r, owner, id)
  }

  /** The loop over the id list, started from the query `q` and the flag `found`. */
  function Fold(q: Query, found: bool, owner: Id, tokens: seq<string>): (Query, bool)
    decreases tokens
  {
    if tokens == [] then (q, found)
    else if IsDigits(tokens[0]) then Fold(Combine(q, Row(owner, Number(tokens[0]))), true, owner, tokens[1..])
    else Fold(q, found, owner, tokens[1..])
  }

  ghost predicate Listed(tokens: seq<string>, id: Id) {
    exists k :: 0 <= k < |tokens| && IsDigits(tokens[k]) && Number(tokens[k]) == id
  }

  ghost predicate ListsSomething(tokens: seq<string>) {
    exists k :: 0 <= k < |tokens| && IsDigits(tokens[k])
  }

  lemma ListedStep(tokens: seq<string>, id: Id)
    requires tokens != []
    ensures Listed(tokens, id) <==>
            (IsDigits(tokens[0]) && Number(tokens[0]) == id) || Listed(tokens[1..], id)
    ensures ListsSomething(tokens) <==> IsDigits(tokens[0]) || ListsSomething(tokens[1..])
  {
    assert forall k | 1 <= k < |tokens| :: tokens[k] == tokens[1..][k - 1];
    assert forall k | 0 <= k < |tokens| - 1 :: tokens[1..][k] == tokens[k + 1];
  }

  lemma {:induction false} FoldFrom(q: Query, found: bool, owner: Id, tokens: seq<string>, o: Id, id: Id)
    requires found <==> !q.Empty?
    ensures var (r, flag) := Fold(q, found, owner, tokens);
            && (flag <==> found || ListsSomething(tokens))
            && (flag <==> !r.Empty?)
            && (flag ==> (Matches(r, o, id) <==>
                  (found && Matches(q, o, id)) || (o == owner && Listed(tokens, id))))
    decreases tokens
  {
    if tokens == [] {
    } else {
      ListedStep(tokens, id);
      if IsDigits(tokens[0]) {
        FoldFrom(Combine(q, Row(owner, Number(tokens[0]))), true, owner, tokens[1..], o, id);
      } else {
        FoldFrom(q, found, owner, tokens[1..], o, id);
      }
    }
  }

  /** Folding the list from `Q()`: the flag is set exactly when a numeric id is listed, the
      match-everything query is what is left exactly when it is not, and otherwise the query
      selects the caller's rows whose id is listed and nothing else. */
  lemma FoldIsExact(owner: Id, tokens: seq<string>)
    ensures var (q, flag) := Fold(Empty, false, owner, tokens);
            && (flag <==> ListsSomething(tokens))
            && (q.Empty? <==> !flag)
            && (flag ==> forall o: Id, id: Id :: Matches(q, o, id) <==> o == owner && Listed(tokens, id))
  {
    FoldFrom(Empty, false, owner, tokens, owner, 0);
    var (q, flag) := Fold(Empty, false, owner, tokens);
    forall o: Id, id: Id | flag
      ensures Matches(q, o, id) <==> o == owner && Listed(tokens, id)
    {
      FoldFrom(Empty, false, owner, tokens, o, id);
    }
  }
}
