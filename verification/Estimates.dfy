/** From queries to a total: what NewState followed by State.Cost computes
    (cost/state.go, cost/component.go). */
module Estimates {
  import opened Wrappers
  import opened Orders
  import opened Costs
  import opened Queries
  import opened States
  import opened FlatStates
  import opened EndToEnd

  // ----- what is asked for -----

  // A component query and the (address, name) it is stored under.
  datatype Ask = Ask(At: Pair, Comp: ComponentQuery)

  function AskedOf(address: string, comps: seq<ComponentQuery>): (asked: seq<Ask>)
    ensures |asked| == |comps|
    ensures forall i | 0 <= i < |comps| :: asked[i] == Ask((address, comps[i].Name), comps[i])
  {
    if comps == [] then [] else
      var n := |comps| - 1;
      AskedOf(address, comps[..n]) + [Ask((address, comps[n].Name), comps[n])]
  }

  // Every component query of every resource query, in order.
  function Asked(queries: seq<ResourceQuery>): seq<Ask> {
    if queries == [] then [] else
      var q := queries[|queries| - 1];
      Asked(queries[..|queries| - 1]) + AskedOf(q.Address, q.Components)
  }

  // Those that no later one overwrites.
  function Survivors(asked: seq<Ask>): seq<Ask> {
    if asked == [] then [] else
      var rest := Survivors(asked[1..]);
      if exists a <- asked[1..] :: a.At == asked[0].At then rest else [asked[0]] + rest
  }

  function LastOf(asked: seq<Ask>, p: Pair): Option<ComponentQuery> {
    if asked == [] then None else
      var last := asked[|asked| - 1];
      if last.At == p then Some(last.Comp) else LastOf(asked[..|asked| - 1], p)
  }

  lemma LastNext(asked: seq<Ask>, a: Ask, p: Pair)
    ensures LastOf(asked + [a], p) == if a.At == p then Some(a.Comp) else LastOf(asked, p)
  {
    assert (asked + [a])[..|asked|] == asked;
  }

  lemma {:induction false} LastFirst(a: Ask, rest: seq<Ask>, p: Pair)
    ensures LastOf([a] + rest, p) ==
            if LastOf(rest, p).Some? then LastOf(rest, p) else if a.At == p then Some(a.Comp) else None
    decreases |rest|
  {
    if rest == [] {
      assert [a] + rest == [a] && [a][..0] == [];
    } else {
      var n := |rest| - 1;
      assert ([a] + rest)[..n + 1] == [a] + rest[..n];
      LastFirst(a, rest[..n], p);
    }
  }

  lemma {:induction false} LastExists(asked: seq<Ask>, p: Pair)
    ensures LastOf(asked, p).Some? <==> exists a <- asked :: a.At == p
    ensures LastOf(asked, p).Some? ==> Ask(p, LastOf(asked, p).value) in asked
  {
    if asked != [] {
      var n := |asked| - 1;
      LastExists(asked[..n], p);
      assert asked == asked[..n] + [asked[n]];
    }
  }

  lemma {:induction false} SurvivorsLast(asked: seq<Ask>, a: Ask)
    ensures a in Survivors(asked) <==> LastOf(asked, a.At) == Some(a.Comp)
  {
    if asked != [] {
      var first, rest := asked[0], asked[1..];
      assert asked == [first] + rest;
      SurvivorsLast(rest, a);
      LastFirst(first, rest, a.At);
      LastExists(rest, a.At);
      if a.At == first.At {
        LastExists(rest, first.At);
      }
    }
  }

  ghost predicate DistinctAts(asked: seq<Ask>) {
    forall i, j | 0 <= i < j < |asked| :: asked[i].At != asked[j].At
  }

  lemma {:induction false} SurvivorsDistinct(asked: seq<Ask>)
    ensures DistinctAts(Survivors(asked))
  {
    if asked != [] {
      var first, rest := asked[0], asked[1..];
      SurvivorsDistinct(rest);
      var s := Survivors(rest);
      forall j | 0 <= j < |s| ensures s[j] in rest {
        SurvivorsLast(rest, s[j]);
        LastExists(rest, s[j].At);
      }
    }
  }

  // ----- what the state holds -----

  function Get(rs: Resources, p: Pair): Option<Component> {
    if InState(rs, p) then Some(rs[p.0].Components.entries[p.1]) else None
  }

  function BuiltAt(b: Backend, asked: seq<Ask>, p: Pair): Option<Component> {
    match LastOf(asked, p)
    case None => None
    case Some(comp) => Some(BuildComponent(b, comp))
  }

  lemma EnsuredGet(rs: Resources, address: string, provider: string, typ: string, skipped: bool, p: Pair)
    ensures Get(Ensured(rs, address, provider, typ, skipped), p) == Get(rs, p)
  {
  }

  lemma AddedGet(rs: Resources, address: string, name: string, comp: Component, p: Pair)
    requires address in rs && Added(rs, address, name, comp).Some?
    ensures Get(Added(rs, address, name, comp).value, p) == if p == (address, name) then Some(comp) else Get(rs, p)
  {
  }

  lemma {:induction false} AddedAllGet(b: Backend, rs: Resources, address: string, comps: seq<ComponentQuery>,
                                       asked: seq<Ask>, p: Pair)
    requires address in rs && AddedAll(b, rs, address, comps).Some? && Get(rs, p) == BuiltAt(b, asked, p)
    ensures Get(AddedAll(b, rs, address, comps).value, p) == BuiltAt(b, asked + AskedOf(address, comps), p)
  {
    if comps == [] {
      assert asked + AskedOf(address, comps) == asked;
    } else {
      var n := |comps| - 1;
      var front, last := AskedOf(address, comps[..n]), Ask((address, comps[n].Name), comps[n]);
      AddedAllGet(b, rs, address, comps[..n], asked, p);
      AddedGet(AddedAll(b, rs, address, comps[..n]).value, address, comps[n].Name, BuildComponent(b, comps[n]), p);
      assert asked + AskedOf(address, comps) == (asked + front) + [last];
      LastNext(asked + front, last, p);
    }
  }

  // The state holds what the last query of each component gave.
  lemma {:induction false} BuildGet(b: Backend, queries: seq<ResourceQuery>, p: Pair)
    requires Build(b, queries).Some?
    ensures Get(Build(b, queries).value, p) == BuiltAt(b, Asked(queries), p)
  {
    if queries != [] {
      var front, q := queries[..|queries| - 1], queries[|queries| - 1];
      BuildGet(b, front, p);
      var rs := Build(b, front).value;
      EnsuredGet(rs, q.Address, q.Provider, q.Type, |q.Components| == 0, p);
      AddedAllGet(b, Ensured(rs, q.Address, q.Provider, q.Type, |q.Components| == 0), q.Address, q.Components, Asked(front), p);
    }
  }

  // ----- the total -----

  function Kept(queries: seq<ResourceQuery>): seq<Ask> {
    Survivors(Asked(queries))
  }

  function Charges(b: Backend, asked: seq<Ask>): seq<real> {
    seq(|asked|, i requires 0 <= i < |asked| => Charge(b, asked[i].Comp))
  }

  // The flat sum the estimate should be.
  function FlatSum(b: Backend, queries: seq<ResourceQuery>): real {
    Sum(Charges(b, Kept(queries)))
  }

  // Some component is charged in this currency.
  ghost predicate ChargedIn(b: Backend, queries: seq<ResourceQuery>, currency: string) {
    exists a <- Kept(queries) :: Charge(b, a.Comp) != 0.0 && PriceOf(b, a.Comp).value.Currency == currency
  }

  function PairsOfAsks(asked: seq<Ask>): seq<Pair> {
    seq(|asked|, i requires 0 <= i < |asked| => asked[i].At)
  }

  function CostsOfAsks(b: Backend, asked: seq<Ask>): seq<Cost> {
    seq(|asked|, i requires 0 <= i < |asked| => BuildComponent(b, asked[i].Comp).Cost())
  }

  lemma KeptVisit(b: Backend, queries: seq<ResourceQuery>, resources: Resources)
    requires Build(b, queries) == Some(resources)
    ensures Visits(PairsOfAsks(Kept(queries)), FlatMap(resources).Keys)
  {
    var kept := Kept(queries);
    var pairs := PairsOfAsks(kept);
    SurvivorsDistinct(Asked(queries));
    forall p ensures p in pairs <==> InState(resources, p) {
      KeptPair(b, queries, resources, p);
    }
    PairsDiffer(kept);
    VisitsState(resources, pairs);
  }

  lemma PairsDiffer(asked: seq<Ask>)
    requires DistinctAts(asked)
    ensures var pairs := PairsOfAsks(asked); forall i, j | 0 <= i < j < |pairs| :: pairs[i] != pairs[j]
  {
  }

  lemma VisitsState(resources: Resources, pairs: seq<Pair>)
    requires forall p :: p in pairs <==> InState(resources, p)
    requires forall i, j | 0 <= i < j < |pairs| :: pairs[i] != pairs[j]
    ensures Visits(pairs, FlatMap(resources).Keys)
  {
    DistinctVisits(pairs, FlatMap(resources).Keys);
  }

  lemma KeptPair(b: Backend, queries: seq<ResourceQuery>, resources: Resources, p: Pair)
    requires Build(b, queries) == Some(resources)
    ensures p in PairsOfAsks(Kept(queries)) <==> InState(resources, p)
  {
    BuildGet(b, queries, p);
    var kept, last := Kept(queries), LastOf(Asked(queries), p);
    if last.Some? {
      SurvivorsLast(Asked(queries), Ask(p, last.value));
      var i :| 0 <= i < |kept| && kept[i] == Ask(p, last.value);
      assert PairsOfAsks(kept)[i] == p;
    }
    if i :| 0 <= i < |kept| && PairsOfAsks(kept)[i] == p {
      SurvivorsLast(Asked(queries), kept[i]);
    }
  }

  lemma KeptCost(b: Backend, queries: seq<ResourceQuery>, resources: Resources, i: nat)
    requires Build(b, queries) == Some(resources) && i < |Kept(queries)|
    ensures var a := Kept(queries)[i];
            InState(resources, a.At) && CostAt(resources, a.At) == BuildComponent(b, a.Comp).Cost()
  {
    var a := Kept(queries)[i];
    SurvivorsLast(Asked(queries), a);
    BuildGet(b, queries, a.At);
  }

  lemma KeptCosts(b: Backend, queries: seq<ResourceQuery>, resources: Resources)
    requires Build(b, queries) == Some(resources)
    requires forall p <- PairsOfAsks(Kept(queries)) :: p in FlatMap(resources)
    ensures Along(FlatMap(resources), PairsOfAsks(Kept(queries))) == CostsOfAsks(b, Kept(queries))
  {
    var kept := Kept(queries);
    forall i | 0 <= i < |kept|
      ensures Along(FlatMap(resources), PairsOfAsks(kept))[i] == CostsOfAsks(b, kept)[i]
    {
      KeptCost(b, queries, resources, i);
    }
  }

  lemma {:induction false} AskedMember(queries: seq<ResourceQuery>, a: Ask)
    requires a in Asked(queries)
    ensures exists q <- queries :: a.Comp in q.Components
  {
    var front, q := queries[..|queries| - 1], queries[|queries| - 1];
    if a in Asked(front) {
      AskedMember(front, a);
    } else {
      assert a in AskedOf(q.Address, q.Components);
      assert q in queries;
    }
  }

  lemma NamedState(b: Backend, queries: seq<ResourceQuery>, resources: Resources)
    requires Build(b, queries) == Some(resources) && NamedPrices(b, queries)
    ensures PricedState(resources)
  {
    forall c | HasCost(resources, c) ensures Named(c) {
      var a, l :| a in resources && l in resources[a].Components.Entries() && resources[a].Components.entries[l].Cost() == c;
      BuildGet(b, queries, (a, l));
      assert Get(resources, (a, l)).Some?;
      var comp := LastOf(Asked(queries), (a, l)).value;
      LastExists(Asked(queries), (a, l));
      AskedMember(queries, Ask((a, l), comp));
      ChargeIsCost(b, comp);
    }
  }

  lemma {:induction false} CostsAreCharges(b: Backend, asked: seq<Ask>)
    ensures Amounts(CostsOfAsks(b, asked)) == Charges(b, asked)
  {
    forall i | 0 <= i < |asked| ensures Amounts(CostsOfAsks(b, asked))[i] == Charges(b, asked)[i] {
      ChargeIsCost(b, asked[i].Comp);
    }
  }

  lemma CostInCurrency(b: Backend, queries: seq<ResourceQuery>, currency: string)
    ensures ChargedIn(b, queries, currency) <==>
              exists c <- CostsOfAsks(b, Kept(queries)) :: c != Zero && c.Currency == currency
  {
    var kept, costs := Kept(queries), CostsOfAsks(b, Kept(queries));
    if a :| a in kept && Charge(b, a.Comp) != 0.0 && PriceOf(b, a.Comp).value.Currency == currency {
      var i :| 0 <= i < |kept| && kept[i] == a;
      ChargeIsCost(b, a.Comp);
      assert costs[i] in costs;
    }
    if c :| c in costs && c != Zero && c.Currency == currency {
      var i :| 0 <= i < |costs| && costs[i] == c;
      ChargeIsCost(b, kept[i].Comp);
      assert kept[i] in kept;
    }
  }

  lemma CurrenciesExactly(b: Backend, queries: seq<ResourceQuery>)
    requires Priced(CostsOfAsks(b, Kept(queries)))
    ensures TwoCurrencies(CostsOfAsks(b, Kept(queries))) <==>
              exists x, y | ChargedIn(b, queries, x) && ChargedIn(b, queries, y) :: x != y
  {
    var costs := CostsOfAsks(b, Kept(queries));
    if c, d :| c in costs && d in costs && Conflict(c, d) {
      CostInCurrency(b, queries, c.Currency);
      CostInCurrency(b, queries, d.Currency);
    }
    if x, y :| ChargedIn(b, queries, x) && ChargedIn(b, queries, y) && x != y {
      CostInCurrency(b, queries, x);
      CostInCurrency(b, queries, y);
      var c :| c in costs && c != Zero && c.Currency == x;
      var d :| d in costs && d != Zero && d.Currency == y;
      assert Conflict(c, d);
    }
  }

  lemma TotalAmount(costs: seq<Cost>)
    ensures TotalOf(costs).Decimal.Amount() == Sum(Amounts(costs))
  {
    if AllZero(costs) {
      AllZeroTotal(costs);
    }
  }

  lemma OneCurrency(b: Backend, queries: seq<ResourceQuery>)
    requires Priced(CostsOfAsks(b, Kept(queries))) && !Clash(CostsOfAsks(b, Kept(queries)))
    ensures forall x | ChargedIn(b, queries, x) :: TotalOf(CostsOfAsks(b, Kept(queries))).Currency == x
  {
    var costs := CostsOfAsks(b, Kept(queries));
    CurrencyOfMember(costs);
    AllZeroMembers(costs);
    forall x | ChargedIn(b, queries, x) ensures TotalOf(costs).Currency == x {
      CostInCurrency(b, queries, x);
    }
  }

  // The total of the state is that of the kept components in one list.
  lemma TotalOfKept(b: Backend, queries: seq<ResourceQuery>, resources: Resources, total: Total)
    requires Build(b, queries) == Some(resources) && CostOutcome(resources, total) && NamedPrices(b, queries)
    ensures Priced(CostsOfAsks(b, Kept(queries)))
    ensures SameTotal(total, AddAll(CostsOfAsks(b, Kept(queries))))
  {
    NamedState(b, queries, resources);
    KeptVisit(b, queries, resources);
    StateCostIsPairs(resources, total, PairsOfAsks(Kept(queries)));
    KeptCosts(b, queries, resources);
  }

  /** NewState then State.Cost, on any queries that build a state: whatever order
      the maps are visited in, it fails exactly when two kept components are charged
      in different currencies, and otherwise the total is the flat sum of price times
      monthly units over the components that no later query overwrites and whose
      price was found, in the currency they are charged in. */
  lemma EstimateIsFlatSum(b: Backend, queries: seq<ResourceQuery>, resources: Resources, total: Total)
    requires Build(b, queries) == Some(resources) && CostOutcome(resources, total) && NamedPrices(b, queries)
    ensures total.Err? <==> exists x, y | ChargedIn(b, queries, x) && ChargedIn(b, queries, y) :: x != y
    ensures total.Ok? ==> total.value.Decimal.Amount() == FlatSum(b, queries)
    ensures total.Ok? ==> forall x | ChargedIn(b, queries, x) :: total.value.Currency == x
  {
    var costs := CostsOfAsks(b, Kept(queries));
    TotalOfKept(b, queries, resources, total);
    AddAllExact(costs);
    PricedClash(costs);
    CurrenciesExactly(b, queries);
    if total.Ok? {
      TotalAmount(costs);
      CostsAreCharges(b, Kept(queries));
      OneCurrency(b, queries);
    }
  }

  // ----- queries that overwrite nothing -----

  ghost predicate DistinctNames(comps: seq<ComponentQuery>) {
    forall i, j | 0 <= i < j < |comps| :: comps[i].Name != comps[j].Name
  }

  lemma {:induction false} DistinctKept(asked: seq<Ask>)
    requires DistinctAts(asked)
    ensures Survivors(asked) == asked
  {
    if asked != [] {
      DistinctKept(asked[1..]);
      assert asked == [asked[0]] + asked[1..];
    }
  }

  /** With distinct addresses, and distinct names in each resource, every component counts. */
  lemma {:induction false} AllKept(queries: seq<ResourceQuery>)
    requires DistinctAddresses(queries)
    requires forall i | 0 <= i < |queries| :: DistinctNames(queries[i].Components)
    ensures Kept(queries) == Asked(queries)
  {
    AskedDistinct(queries);
    DistinctKept(Asked(queries));
  }

  lemma {:induction false} AskedAddress(queries: seq<ResourceQuery>, a: Ask)
    requires a in Asked(queries)
    ensures exists i | 0 <= i < |queries| :: queries[i].Address == a.At.0
  {
    var n := |queries| - 1;
    if a in Asked(queries[..n]) {
      AskedAddress(queries[..n], a);
      var i :| 0 <= i < n && queries[..n][i].Address == a.At.0;
      assert queries[i].Address == a.At.0;
    } else {
      assert a in AskedOf(queries[n].Address, queries[n].Components);
      assert queries[n].Address == a.At.0;
    }
  }

  lemma {:induction false} AskedDistinct(queries: seq<ResourceQuery>)
    requires DistinctAddresses(queries)
    requires forall i | 0 <= i < |queries| :: DistinctNames(queries[i].Components)
    ensures DistinctAts(Asked(queries))
  {
    if queries != [] {
      var n := |queries| - 1;
      var front, last := Asked(queries[..n]), AskedOf(queries[n].Address, queries[n].Components);
      AskedDistinct(queries[..n]);
      forall i, j | 0 <= i < |front| && 0 <= j < |last| ensures front[i].At != last[j].At {
        AskedAddress(queries[..n], front[i]);
        var k :| 0 <= k < n && queries[..n][k].Address == front[i].At.0;
        assert queries[k].Address != queries[n].Address;
      }
    }
  }
}
