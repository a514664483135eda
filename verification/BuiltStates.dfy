/** What a built state holds, read off the queries it was built from
    (cost/state.go). */
module BuiltStates {
  import opened Wrappers
  import opened Costs
  import opened Queries
  import opened States
  import opened FlatStates
  import opened EndToEnd
  import opened Estimates

  // ----- one component -----

  ghost predicate IsFailed(c: Component, error: string) {
    && c.Error == Some(error) && c.Quantity == Unset && c.Unit == ""
    && c.Rate.Decimal == Unset && c.Rate.Currency == "" && c.Details == [] && !c.Usage
  }

  // Its price is per unit and month, or per unit and hour.
  ghost predicate IsPriced(comp: ComponentQuery, price: Price, c: Component) {
    && c.Error == None && c.Unit == comp.Unit && c.Details == comp.Details && c.Usage == comp.Usage
    && c.Rate.Currency == price.Currency
    && (if comp.MonthlyQuantity.Amount() != 0.0 then c.Quantity == comp.MonthlyQuantity && c.Rate.Decimal == price.Value
        else c.Quantity == comp.HourlyQuantity && c.Rate.Decimal == Is(price.Value.Amount() * 730.0))
  }

  // The component of a query: the first price of the first product, or what went wrong.
  ghost predicate IsBuilt(b: Backend, comp: ComponentQuery, c: Component) {
    match b.Products(comp.ProductFilter)
    case Err(e) => IsFailed(c, e)
    case Ok(ids) =>
      if ids == [] then IsFailed(c, "product not found") else
        match b.Prices(ids[0], comp.PriceFilter)
        case Err(e) => IsFailed(c, e)
        case Ok(prices) => if prices == [] then IsFailed(c, "price not found") else IsPriced(comp, prices[0], c)
  }

  lemma ComponentBuilt(b: Backend, comp: ComponentQuery)
    ensures IsBuilt(b, comp, BuildComponent(b, comp))
  {
  }

  // ----- the state -----

  // Component n of query i is the last that is asked for under this address and name.
  ghost predicate LastAsked(queries: seq<ResourceQuery>, i: nat, n: nat, p: Pair) {
    && i < |queries| && n < |queries[i].Components| && queries[i].Address == p.0 && queries[i].Components[n].Name == p.1
    && (forall m | n < m < |queries[i].Components| :: queries[i].Components[m].Name != p.1)
    && forall j, m | i < j < |queries| && 0 <= m < |queries[j].Components| && queries[j].Address == p.0 ::
         queries[j].Components[m].Name != p.1
  }

  lemma {:induction false} LastOfMore(front: seq<Ask>, more: seq<Ask>, p: Pair)
    ensures LastOf(front + more, p) == if LastOf(more, p).Some? then LastOf(more, p) else LastOf(front, p)
    decreases |more|
  {
    if more == [] {
      assert front + more == front;
    } else {
      var n := |more| - 1;
      assert (front + more)[..|front| + n] == front + more[..n];
      LastOfMore(front, more[..n], p);
    }
  }

  lemma {:induction false} LastInQuery(address: string, comps: seq<ComponentQuery>, n: nat, p: Pair)
    requires n < |comps| && address == p.0 && comps[n].Name == p.1 && forall m | n < m < |comps| :: comps[m].Name != p.1
    ensures LastOf(AskedOf(address, comps), p) == Some(comps[n])
    decreases |comps|
  {
    var last := |comps| - 1;
    LastNext(AskedOf(address, comps[..last]), Ask((address, comps[last].Name), comps[last]), p);
    if n < last {
      LastInQuery(address, comps[..last], n, p);
    }
  }

  lemma NotInQuery(address: string, comps: seq<ComponentQuery>, p: Pair)
    requires address == p.0 ==> forall m | 0 <= m < |comps| :: comps[m].Name != p.1
    ensures LastOf(AskedOf(address, comps), p).None?
  {
    LastExists(AskedOf(address, comps), p);
  }

  lemma {:induction false} LastAskedIs(queries: seq<ResourceQuery>, i: nat, n: nat, p: Pair)
    requires LastAsked(queries, i, n, p)
    ensures LastOf(Asked(queries), p) == Some(queries[i].Components[n])
    decreases |queries|
  {
    var last := |queries| - 1;
    var front, q := queries[..last], queries[last];
    LastOfMore(Asked(front), AskedOf(q.Address, q.Components), p);
    if i == last {
      LastInQuery(q.Address, q.Components, n, p);
    } else {
      NotInQuery(q.Address, q.Components, p);
      assert forall j | 0 <= j < last :: front[j] == queries[j];
      LastAskedIs(front, i, n, p);
    }
  }

  lemma {:induction false} SomeLastIn(comps: seq<ComponentQuery>, name: string, m: nat) returns (n: nat)
    requires m < |comps| && comps[m].Name == name
    ensures m <= n < |comps| && comps[n].Name == name && forall l | n < l < |comps| :: comps[l].Name != name
    decreases |comps| - m
  {
    if l: nat :| m < l < |comps| && comps[l].Name == name {
      n := SomeLastIn(comps, name, l);
    } else {
      n := m;
    }
  }

  lemma {:induction false} SomeLastAsked(queries: seq<ResourceQuery>, p: Pair) returns (i: nat, n: nat)
    requires LastOf(Asked(queries), p).Some?
    ensures LastAsked(queries, i, n, p)
    decreases |queries|
  {
    var last := |queries| - 1;
    var front, q := queries[..last], queries[last];
    LastOfMore(Asked(front), AskedOf(q.Address, q.Components), p);
    if m: nat :| q.Address == p.0 && m < |q.Components| && q.Components[m].Name == p.1 {
      i := last;
      n := SomeLastIn(q.Components, p.1, m);
    } else {
      NotInQuery(q.Address, q.Components, p);
      i, n := SomeLastAsked(front, p);
      LastAskedNext(queries, i, n, p);
    }
  }

  lemma LastAskedNext(queries: seq<ResourceQuery>, i: nat, n: nat, p: Pair)
    requires queries != [] && LastAsked(queries[..|queries| - 1], i, n, p)
    requires var q := queries[|queries| - 1];
             q.Address == p.0 ==> forall m | 0 <= m < |q.Components| :: q.Components[m].Name != p.1
    ensures LastAsked(queries, i, n, p)
  {
    var last := |queries| - 1;
    assert forall j | 0 <= j < last :: queries[..last][j] == queries[j];
  }

  /** A built state holds a component under an address and a name exactly when some
      query asks for one, and it is what the last of these gives. */
  lemma ComponentsExactly(b: Backend, queries: seq<ResourceQuery>, rs: Resources, p: Pair)
    requires Build(b, queries) == Some(rs)
    ensures InState(rs, p) <==> exists i: nat, n: nat :: LastAsked(queries, i, n, p)
    ensures forall i: nat, n: nat | LastAsked(queries, i, n, p) ::
              InState(rs, p) && IsBuilt(b, queries[i].Components[n], rs[p.0].Components.entries[p.1])
  {
    BuildGet(b, queries, p);
    forall i: nat, n: nat | LastAsked(queries, i, n, p)
      ensures InState(rs, p) && IsBuilt(b, queries[i].Components[n], rs[p.0].Components.entries[p.1])
    {
      LastAskedIs(queries, i, n, p);
      ComponentBuilt(b, queries[i].Components[n]);
    }
    if InState(rs, p) {
      var i, n := SomeLastAsked(queries, p);
    }
  }

  // ----- the resources -----

  ghost predicate HeadIs(r: Resource, q: ResourceQuery) {
    r.Provider == q.Provider && r.Type == q.Type && r.Skipped == (q.Components == [])
  }

  predicate SameHead(r: Resource, s: Resource) {
    r.Provider == s.Provider && r.Type == s.Type && r.Skipped == s.Skipped
  }

  // Every resource is one that is queried for.
  ghost predicate AllQueried(rs: Resources, queries: seq<ResourceQuery>) {
    forall a | a in rs :: exists i | 0 <= i < |queries| :: queries[i].Address == a
  }

  ghost predicate Headed(rs: Resources, queries: seq<ResourceQuery>) {
    forall i | 0 <= i < |queries| && FirstUse(queries, i) :: queries[i].Address in rs && HeadIs(rs[queries[i].Address], queries[i])
  }

  // How one query changes the resources.
  ghost predicate HeadsKept(was: Resources, now: Resources, q: ResourceQuery) {
    && now.Keys == was.Keys + {q.Address} && (forall a | a in was :: SameHead(now[a], was[a]))
    && (q.Address !in was ==> HeadIs(now[q.Address], q))
  }

  lemma AddQueryHeads(b: Backend, was: Resources, q: ResourceQuery)
    ensures var added := AddedAll(b, Ensured(was, q.Address, q.Provider, q.Type, |q.Components| == 0), q.Address, q.Components);
            added.Some? ==> HeadsKept(was, added.value, q)
  {
    AddedAllEntries(b, Ensured(was, q.Address, q.Provider, q.Type, |q.Components| == 0), q.Address, q.Components);
  }

  ghost predicate NamedBy(rs: Resources, queries: seq<ResourceQuery>) {
    AllQueried(rs, queries) && Headed(rs, queries)
  }

  /** Every resource of the state has the provider and the type of the first query for
      its address, and is skipped exactly when that has no components. */
  lemma {:induction false} ResourcesExactly(b: Backend, queries: seq<ResourceQuery>)
    ensures Build(b, queries).Some? ==> NamedBy(Build(b, queries).value, queries)
  {
    if queries != [] && Build(b, queries).Some? {
      var front, q := queries[..|queries| - 1], queries[|queries| - 1];
      assert queries == front + [q];
      ResourcesExactly(b, front);
      AddQueryHeads(b, Build(b, front).value, q);
      NamedNext(Build(b, front).value, Build(b, queries).value, front, q);
    }
  }

  lemma NamedNext(was: Resources, now: Resources, front: seq<ResourceQuery>, q: ResourceQuery)
    requires NamedBy(was, front) && HeadsKept(was, now, q)
    ensures NamedBy(now, front + [q])
  {
    QueriedNext(was, now, front, q);
    HeadedNext(was, now, front, q);
  }

  lemma QueriedNext(was: Resources, now: Resources, front: seq<ResourceQuery>, q: ResourceQuery)
    requires AllQueried(was, front) && HeadsKept(was, now, q)
    ensures AllQueried(now, front + [q])
  {
    var queries := front + [q];
    forall a | a in now ensures exists i | 0 <= i < |queries| :: queries[i].Address == a {
      if a in was {
        var i :| 0 <= i < |front| && front[i].Address == a;
        assert queries[i].Address == a;
      } else {
        assert queries[|front|].Address == a;
      }
    }
  }

  lemma HeadedNext(was: Resources, now: Resources, front: seq<ResourceQuery>, q: ResourceQuery)
    requires AllQueried(was, front) && Headed(was, front) && HeadsKept(was, now, q)
    ensures Headed(now, front + [q])
  {
    var queries := front + [q];
    forall i | 0 <= i < |queries| && FirstUse(queries, i)
      ensures queries[i].Address in now && HeadIs(now[queries[i].Address], queries[i])
    {
      HeadAt(was, now, front, q, i);
    }
  }

  lemma HeadAt(was: Resources, now: Resources, front: seq<ResourceQuery>, q: ResourceQuery, i: nat)
    requires AllQueried(was, front) && Headed(was, front) && HeadsKept(was, now, q)
    requires i <= |front| && FirstUse(front + [q], i)
    ensures var a := (front + [q])[i].Address; a in now && HeadIs(now[a], (front + [q])[i])
  {
    FirstUseFront(was, front, q, i);
    if i < |front| {
      assert SameHead(now[front[i].Address], was[front[i].Address]);
    }
  }

  lemma FirstUseFront(was: Resources, front: seq<ResourceQuery>, q: ResourceQuery, i: nat)
    requires AllQueried(was, front) && i <= |front| && FirstUse(front + [q], i)
    ensures i < |front| ==> FirstUse(front, i)
    ensures i == |front| ==> q.Address !in was
  {
    var queries := front + [q];
    assert forall k | 0 <= k < |front| :: queries[k] == front[k];
  }
}
