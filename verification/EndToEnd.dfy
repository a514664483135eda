/** Building a state: when it crashes, and what one component is charged
    (cost/state.go, cost/component.go). */
module EndToEnd {
  import opened Wrappers
  import opened Orders
  import opened Costs
  import opened Queries
  import opened States

  // ----- writes to a nil component map -----

  ghost predicate FirstUse(queries: seq<ResourceQuery>, i: nat)
    requires i < |queries|
  {
    forall k | 0 <= k < i :: queries[k].Address != queries[i].Address
  }

  // The first query of an address has no components and a later one has some.
  ghost predicate Revives(queries: seq<ResourceQuery>, i: nat, j: nat)
    requires i < j < |queries|
  {
    && FirstUse(queries, i) && queries[j].Address == queries[i].Address
    && queries[i].Components == [] && queries[j].Components != []
  }

  ghost predicate RevivesSkipped(queries: seq<ResourceQuery>) {
    exists i, j | 0 <= i < j < |queries| :: Revives(queries, i, j)
  }

  // Which addresses a built state has, and which of them have no component map.
  ghost predicate Shaped(rs: Resources, queries: seq<ResourceQuery>) {
    && (forall i | 0 <= i < |queries| :: queries[i].Address in rs)
    && (forall a | a in rs :: exists i | 0 <= i < |queries| :: queries[i].Address == a)
    && (forall i | 0 <= i < |queries| && FirstUse(queries, i) ::
          rs[queries[i].Address].Components.NilMap? <==> queries[i].Components == [])
  }

  // How one query changes that.
  ghost predicate Grew(was: Resources, now: Resources, q: ResourceQuery) {
    && now.Keys == was.Keys + {q.Address}
    && (forall a | a in was :: now[a].Components.NilMap? <==> was[a].Components.NilMap?)
    && (q.Address !in was ==> (now[q.Address].Components.NilMap? <==> q.Components == []))
  }

  lemma ShapedNext(was: Resources, now: Resources, front: seq<ResourceQuery>, q: ResourceQuery)
    requires Shaped(was, front) && Grew(was, now, q)
    ensures Shaped(now, front + [q])
  {
    var queries := front + [q];
    forall i | 0 <= i < |queries| && FirstUse(queries, i)
      ensures now[queries[i].Address].Components.NilMap? <==> queries[i].Components == []
    {
      if i < |front| {
        assert front[i] == queries[i];
        assert FirstUse(front, i) by {
          assert forall k | 0 <= k < i :: front[k] == queries[k];
        }
      } else {
        forall k | 0 <= k < |front| ensures front[k].Address != q.Address {
          assert queries[k] == front[k];
        }
      }
    }
    forall a | a in now ensures exists i | 0 <= i < |queries| :: queries[i].Address == a {
      if a in was {
        var k :| 0 <= k < |front| && front[k].Address == a;
        assert queries[k].Address == a;
      } else {
        assert queries[|front|].Address == a;
      }
    }
  }

  lemma AddQueryStep(b: Backend, was: Resources, q: ResourceQuery)
    ensures var added := AddedAll(b, Ensured(was, q.Address, q.Provider, q.Type, |q.Components| == 0),
                                  q.Address, q.Components);
            && (added.None? <==> q.Address in was && was[q.Address].Components.NilMap? && q.Components != [])
            && (added.Some? ==> Grew(was, added.value, q))
  {
    AddedAllEntries(b, Ensured(was, q.Address, q.Provider, q.Type, |q.Components| == 0), q.Address, q.Components);
  }

  lemma {:induction false} BuildShaped(b: Backend, queries: seq<ResourceQuery>)
    ensures Build(b, queries).Some? ==> Shaped(Build(b, queries).value, queries)
  {
    if queries != [] && Build(b, queries).Some? {
      var front, q := queries[..|queries| - 1], queries[|queries| - 1];
      assert queries == front + [q];
      BuildShaped(b, front);
      AddQueryStep(b, Build(b, front).value, q);
      ShapedNext(Build(b, front).value, Build(b, queries).value, front, q);
    }
  }

  lemma {:induction false} FirstUseExists(queries: seq<ResourceQuery>, j: nat) returns (i: nat)
    requires j < |queries|
    ensures i <= j && FirstUse(queries, i) && queries[i].Address == queries[j].Address
  {
    if k :| 0 <= k < j && queries[k].Address == queries[j].Address {
      i := FirstUseExists(queries, k);
    } else {
      i := j;
    }
  }

  lemma RevivesLast(rs: Resources, front: seq<ResourceQuery>, q: ResourceQuery)
    requires Shaped(rs, front)
    requires q.Address in rs && rs[q.Address].Components.NilMap? && q.Components != []
    ensures RevivesSkipped(front + [q])
  {
    var queries := front + [q];
    var k :| 0 <= k < |front| && front[k].Address == q.Address;
    var i := FirstUseExists(front, k);
    assert forall k | 0 <= k < |front| :: queries[k] == front[k];
    assert Revives(queries, i, |front|);
  }

  lemma RevivesOnlyThen(rs: Resources, front: seq<ResourceQuery>, q: ResourceQuery, i: nat, j: nat)
    requires Shaped(rs, front) && i < j <= |front| && Revives(front + [q], i, j)
    ensures RevivesSkipped(front) || (q.Address in rs && rs[q.Address].Components.NilMap? && q.Components != [])
  {
    var queries := front + [q];
    assert forall k | 0 <= k < |front| :: queries[k] == front[k];
    assert FirstUse(front, i);
    if j < |front| {
      assert Revives(front, i, j);
    }
  }

  lemma RevivesNext(rs: Resources, front: seq<ResourceQuery>, q: ResourceQuery)
    requires Shaped(rs, front)
    ensures RevivesSkipped(front + [q]) <==>
              || RevivesSkipped(front)
              || (q.Address in rs && rs[q.Address].Components.NilMap? && q.Components != [])
  {
    var queries := front + [q];
    if i, j :| 0 <= i < j < |front| && Revives(front, i, j) {
      RevivesEarlier(front, q, i, j);
    }
    if q.Address in rs && rs[q.Address].Components.NilMap? && q.Components != [] {
      RevivesLast(rs, front, q);
    }
    if i, j :| 0 <= i < j < |queries| && Revives(queries, i, j) {
      RevivesOnlyThen(rs, front, q, i, j);
    }
  }

  lemma RevivesEarlier(front: seq<ResourceQuery>, q: ResourceQuery, i: nat, j: nat)
    requires i < j < |front| && Revives(front, i, j)
    ensures RevivesSkipped(front + [q])
  {
    var queries := front + [q];
    assert forall k | 0 <= k < |front| :: queries[k] == front[k];
    assert Revives(queries, i, j);
  }

  /** NewState crashes on a nil map exactly when an address is first queried
      without components and later with some. */
  lemma {:induction false} NilMapWriteExactly(b: Backend, queries: seq<ResourceQuery>)
    ensures Build(b, queries).None? <==> RevivesSkipped(queries)
  {
    if queries != [] {
      var front, q := queries[..|queries| - 1], queries[|queries| - 1];
      assert queries == front + [q];
      NilMapWriteExactly(b, front);
      if i, j :| 0 <= i < j < |front| && Revives(front, i, j) {
        RevivesEarlier(front, q, i, j);
      }
      if Build(b, front).Some? {
        BuildShaped(b, front);
        AddQueryStep(b, Build(b, front).value, q);
        RevivesNext(Build(b, front).value, front, q);
      }
    }
  }

  // ----- the total -----

  ghost predicate DistinctAddresses(queries: seq<ResourceQuery>) {
    forall i, j | 0 <= i < j < |queries| :: queries[i].Address != queries[j].Address
  }

  // The price the store holds for a component: the first price of the first product.
  function PriceOf(b: Backend, comp: ComponentQuery): Option<Price> {
    match b.Products(comp.ProductFilter)
    case Err(_) => None
    case Ok(prods) =>
      if prods == [] then None else
        match b.Prices(prods[0], comp.PriceFilter)
        case Err(_) => None
        case Ok(prices) => if prices == [] then None else Some(prices[0])
  }

  // A month of the component: its monthly quantity, or else 730 hourly ones.
  function MonthlyUnits(comp: ComponentQuery): real {
    if comp.MonthlyQuantity.Amount() != 0.0 then comp.MonthlyQuantity.Amount()
    else comp.HourlyQuantity.Amount() * 730.0
  }

  function Charge(b: Backend, comp: ComponentQuery): real {
    match PriceOf(b, comp)
    case None => 0.0
    case Some(price) => price.Value.Amount() * MonthlyUnits(comp)
  }

  // Stored prices have ISO currencies, never an empty one (mysql/price.go:57-60).
  ghost predicate NamedPrices(b: Backend, queries: seq<ResourceQuery>) {
    forall q, comp | q in queries && comp in q.Components && PriceOf(b, comp).Some? ::
      PriceOf(b, comp).value.Currency != ""
  }

  lemma ChargeIsCost(b: Backend, comp: ComponentQuery)
    ensures var c := BuildComponent(b, comp).Cost();
            && c.Decimal.Amount() == Charge(b, comp)
            && (c == Zero <==> Charge(b, comp) == 0.0)
            && (c != Zero ==> PriceOf(b, comp).Some? && c.Currency == PriceOf(b, comp).value.Currency)
  {
    if PriceOf(b, comp).Some? {
      var p, h := PriceOf(b, comp).value.Value.Amount(), comp.HourlyQuantity.Amount();
      assert (p * 730.0) * h == p * (h * 730.0);
      Product(p, MonthlyUnits(comp));
      Product(p * 730.0, h);
    }
  }

  lemma Product(x: real, y: real)
    ensures x * y == 0.0 <==> x == 0.0 || y == 0.0
  {
  }

  // What NewState stores for one query when addresses are not repeated.
  function Expected(b: Backend, q: ResourceQuery): Resource {
    Resource(q.Provider, q.Type, if q.Components == [] then NilMap else Made(EntriesOf(b, q.Components)),
             q.Components == [])
  }

  function ExpectedAll(b: Backend, queries: seq<ResourceQuery>): Resources {
    if queries == [] then map[] else
      var q := queries[|queries| - 1];
      ExpectedAll(b, queries[..|queries| - 1])[q.Address := Expected(b, q)]
  }

  lemma AddFresh(b: Backend, rs: Resources, q: ResourceQuery)
    requires q.Address !in rs
    ensures AddedAll(b, Ensured(rs, q.Address, q.Provider, q.Type, |q.Components| == 0), q.Address, q.Components)
            == Some(rs[q.Address := Expected(b, q)])
  {
    var start := Ensured(rs, q.Address, q.Provider, q.Type, |q.Components| == 0);
    AddedAllEntries(b, start, q.Address, q.Components);
    if q.Components != [] {
      assert map[] + EntriesOf(b, q.Components) == EntriesOf(b, q.Components);
      assert start[q.Address].(Components := Made(EntriesOf(b, q.Components))) == Expected(b, q);
      assert start[q.Address := Expected(b, q)] == rs[q.Address := Expected(b, q)];
    }
  }

  lemma {:induction false} BuildDistinct(b: Backend, queries: seq<ResourceQuery>)
    requires DistinctAddresses(queries)
    ensures Build(b, queries) == Some(ExpectedAll(b, queries))
    ensures Visits(AddressesOf(queries), ExpectedAll(b, queries).Keys)
  {
    if queries != [] {
      var n := |queries| - 1;
      var front, q := queries[..n], queries[n];
      BuildDistinct(b, front);
      FreshAddress(b, queries);
      AddFresh(b, ExpectedAll(b, front), q);
      assert ExpectedAll(b, queries).Keys == ExpectedAll(b, front).Keys + {q.Address};
    }
  }

  lemma {:induction false} ExpectedAddresses(b: Backend, queries: seq<ResourceQuery>)
    ensures forall a | a in ExpectedAll(b, queries) :: exists i | 0 <= i < |queries| :: queries[i].Address == a
  {
    if queries != [] {
      var front, q := queries[..|queries| - 1], queries[|queries| - 1];
      ExpectedAddresses(b, front);
      forall a | a in ExpectedAll(b, queries) ensures exists i | 0 <= i < |queries| :: queries[i].Address == a {
        if a != q.Address {
          assert a in ExpectedAll(b, front);
          var i :| 0 <= i < |front| && front[i].Address == a;
          assert queries[i].Address == a;
        }
      }
    }
  }

  lemma FreshAddress(b: Backend, queries: seq<ResourceQuery>)
    requires |queries| > 0 && DistinctAddresses(queries)
    ensures queries[|queries| - 1].Address !in ExpectedAll(b, queries[..|queries| - 1])
  {
    var front := queries[..|queries| - 1];
    ExpectedAddresses(b, front);
    forall i | 0 <= i < |front| ensures front[i].Address != queries[|queries| - 1].Address {
      assert front[i] == queries[i];
    }
  }

  /** Distinct addresses never reach the nil map, so NewState always builds. */
  lemma EstimateBuilds(b: Backend, queries: seq<ResourceQuery>)
    requires DistinctAddresses(queries)
    ensures Build(b, queries).Some?
    ensures forall q <- queries :: q.Address in Build(b, queries).value
                                   && Build(b, queries).value[q.Address] == Expected(b, q)
  {
    BuildDistinct(b, queries);
    forall i | 0 <= i < |queries| {
      ExpectedAt(b, queries, i);
    }
  }

  lemma {:induction false} ExpectedAt(b: Backend, queries: seq<ResourceQuery>, i: nat)
    requires i < |queries| && DistinctAddresses(queries)
    ensures queries[i].Address in ExpectedAll(b, queries)
    ensures ExpectedAll(b, queries)[queries[i].Address] == Expected(b, queries[i])
    decreases |queries|
  {
    if i < |queries| - 1 {
      assert queries[..|queries| - 1][i] == queries[i];
      ExpectedAt(b, queries[..|queries| - 1], i);
    }
  }

  ghost predicate SkippedIsNil(rs: Resources) {
    forall a | a in rs :: rs[a].Skipped <==> rs[a].Components.NilMap?
  }

  /** In every state NewState builds, the skipped resources are exactly those
      without a component map. */
  lemma {:induction false} BuiltSkippedIsNil(b: Backend, queries: seq<ResourceQuery>)
    ensures Build(b, queries).Some? ==> SkippedIsNil(Build(b, queries).value)
  {
    if queries != [] && Build(b, queries).Some? {
      var front, q := queries[..|queries| - 1], queries[|queries| - 1];
      BuiltSkippedIsNil(b, front);
      var start := Ensured(Build(b, front).value, q.Address, q.Provider, q.Type, |q.Components| == 0);
      AddedAllEntries(b, start, q.Address, q.Components);
    }
  }
}
