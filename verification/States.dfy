/** Cost states: built from queries, then totalled (cost/state.go, cost/resource.go). */
module States {
  import opened Wrappers
  import opened Orders
  import opened Costs
  import opened Queries

  // A Go map that may be nil: it can be read and ranged over, not written.
  datatype ComponentMap = NilMap | Made(entries: map<string, Component>) {
    function Entries(): map<string, Component> {
      if NilMap? then map[] else entries
    }
  }

  datatype Resource = Resource(Provider: string, Type: string, Components: ComponentMap, Skipped: bool)

  type Resources = map<string, Resource>

  // ----- building a state from queries -----

  datatype Price = Price(Value: Decimal, Currency: string)

  // The pricing store as NewState sees it: product ids and prices, or an error.
  datatype Backend = Backend(Products: Option<ProductFilter> -> Result<seq<nat>, string>,
                             Prices: (nat, Option<PriceFilter>) -> Result<seq<Price>, string>)

  function Failed(error: string): Component {
    Component(Unset, "", Zero, [], false, Some(error))
  }

  function BuildComponent(b: Backend, comp: ComponentQuery): Component {
    match b.Products(comp.ProductFilter)
    case Err(e) => Failed(e)
    case Ok(prods) =>
      if |prods| < 1 then Failed("product not found") else
        match b.Prices(prods[0], comp.PriceFilter)
        case Err(e) => Failed(e)
        case Ok(prices) =>
          if |prices| < 1 then Failed("price not found") else
            var monthly := !comp.MonthlyQuantity.IsZero();
            Component(if monthly then comp.MonthlyQuantity else comp.HourlyQuantity,
                      comp.Unit,
                      if monthly then NewMonthly(prices[0].Value, prices[0].Currency)
                      else NewHourly(prices[0].Value, prices[0].Currency),
                      comp.Details, comp.Usage, None)
  }

  function Ensured(rs: Resources, address: string, provider: string, typ: string, skipped: bool): Resources {
    if address in rs then rs
    else rs[address := Resource(provider, typ, if skipped then NilMap else Made(map[]), skipped)]
  }

  // None: the write goes to a nil map, which crashes the program.
  function Added(rs: Resources, address: string, name: string, comp: Component): Option<Resources>
    requires address in rs
  {
    if rs[address].Components.NilMap? then None
    else Some(rs[address := rs[address].(Components := Made(rs[address].Components.entries[name := comp]))])
  }

  function AddedAll(b: Backend, rs: Resources, address: string, comps: seq<ComponentQuery>): (r: Option<Resources>)
    requires address in rs
    ensures r.Some? ==> r.value.Keys == rs.Keys
  {
    if comps == [] then Some(rs) else
      match AddedAll(b, rs, address, comps[..|comps| - 1])
      case None => None
      case Some(next) => Added(next, address, comps[|comps| - 1].Name, BuildComponent(b, comps[|comps| - 1]))
  }

  function Build(b: Backend, queries: seq<ResourceQuery>): Option<Resources> {
    if queries == [] then Some(map[]) else
      var q := queries[|queries| - 1];
      match Build(b, queries[..|queries| - 1])
      case None => None
      case Some(rs) =>
        AddedAll(b, Ensured(rs, q.Address, q.Provider, q.Type, |q.Components| == 0), q.Address, q.Components)
  }

  // The components of one query, the last one with a name winning.
  function EntriesOf(b: Backend, comps: seq<ComponentQuery>): map<string, Component> {
    if comps == [] then map[]
    else EntriesOf(b, comps[..|comps| - 1])[comps[|comps| - 1].Name := BuildComponent(b, comps[|comps| - 1])]
  }

  lemma {:induction false} AddedAllEntries(b: Backend, rs: Resources, address: string, comps: seq<ComponentQuery>)
    requires address in rs
    ensures AddedAll(b, rs, address, comps).None? <==> rs[address].Components.NilMap? && comps != []
    ensures !rs[address].Components.NilMap? ==>
              AddedAll(b, rs, address, comps) ==
              Some(rs[address := rs[address].(Components := Made(rs[address].Components.entries + EntriesOf(b, comps)))])
    ensures rs[address].Components.NilMap? && comps == [] ==> AddedAll(b, rs, address, comps) == Some(rs)
  {
    if comps == [] {
      if !rs[address].Components.NilMap? {
        var entries := rs[address].Components.entries;
        assert entries + map[] == entries;
        assert rs[address := rs[address].(Components := Made(entries + map[]))] == rs;
      }
    } else {
      var front, last := comps[..|comps| - 1], comps[|comps| - 1];
      AddedAllEntries(b, rs, address, front);
      if !rs[address].Components.NilMap? {
        var entries, made := rs[address].Components.entries, BuildComponent(b, last);
        var x := rs[address].(Components := Made(entries + EntriesOf(b, front)));
        var y := rs[address].(Components := Made(entries + EntriesOf(b, comps)));
        assert y.Components.entries == x.Components.entries[last.Name := made];
        assert x.(Components := Made(x.Components.entries[last.Name := made])) == y;
        assert rs[address := x][address := y] == rs[address := y];
      }
    }
  }

  // ----- totals -----

  function CostMap(components: map<string, Component>): (costs: map<string, Cost>)
    ensures costs.Keys == components.Keys
  {
    map name | name in components :: components[name].Cost()
  }

  ghost predicate VisitsAll(resources: Resources, order: seq<string>, inner: map<string, seq<string>>) {
    && Visits(order, resources.Keys)
    && VisitsEach(resources, inner)
  }

  ghost predicate VisitsEach(resources: Resources, inner: map<string, seq<string>>) {
    && inner.Keys == resources.Keys
    && forall a | a in resources :: Visits(inner[a], resources[a].Components.Entries().Keys)
  }

  lemma VisitsIn(order: seq<string>, keys: set<string>)
    requires Visits(order, keys)
    ensures forall k <- order :: k in keys
  {
    VisitsMembers(order, keys);
  }

  ghost function CostsOf(re: Resource, order: seq<string>): seq<Cost>
    requires Visits(order, re.Components.Entries().Keys)
  {
    VisitsIn(order, re.Components.Entries().Keys);
    Along(CostMap(re.Components.Entries()), order)
  }

  ghost function GroupMap(resources: Resources, inner: map<string, seq<string>>): (groups: map<string, seq<Cost>>)
    requires VisitsEach(resources, inner)
    ensures groups.Keys == resources.Keys
  {
    map a | a in resources :: CostsOf(resources[a], inner[a])
  }

  // The component costs, grouped by resource, in the order they are visited.
  ghost function Groups(resources: Resources, order: seq<string>, inner: map<string, seq<string>>): seq<seq<Cost>>
    requires VisitsAll(resources, order, inner)
  {
    VisitsIn(order, resources.Keys);
    Along(GroupMap(resources, inner), order)
  }

  /** The component costs of a state are the same collection in every visiting order. */
  lemma GroupsPermute(resources: Resources, a: seq<string>, b: seq<string>,
                      ia: map<string, seq<string>>, ib: map<string, seq<string>>)
    requires VisitsAll(resources, a, ia) && VisitsAll(resources, b, ib)
    ensures multiset(Flatten(Groups(resources, a, ia))) == multiset(Flatten(Groups(resources, b, ib)))
  {
    VisitsIn(a, resources.Keys);
    VisitsIn(b, resources.Keys);
    AlongPermutes(GroupMap(resources, ia), a, b);
    FlattenPermutes(Groups(resources, a, ia), Groups(resources, b, ia));
    forall i | 0 <= i < |b|
      ensures multiset(Groups(resources, b, ia)[i]) == multiset(Groups(resources, b, ib)[i])
    {
      var re := resources[b[i]];
      VisitsIn(ia[b[i]], re.Components.Entries().Keys);
      VisitsIn(ib[b[i]], re.Components.Entries().Keys);
      AlongPermutes(CostMap(re.Components.Entries()), ia[b[i]], ib[b[i]]);
    }
    FlattenPointwise(Groups(resources, b, ia), Groups(resources, b, ib));
  }

  // A loop that adds up `costs` has reached `total` and still has to visit `rest`.
  ghost predicate Visited(costs: map<string, Cost>, visited: seq<string>, rest: set<string>, total: Total) {
    && multiset(visited) + multiset(rest) == multiset(costs.Keys) && rest <= costs.Keys
    && (forall k <- visited :: k in costs)
    && total == AddAll(Along(costs, visited))
  }

  lemma VisitCost(costs: map<string, Cost>, visited: seq<string>, rest: set<string>, name: string, sum: Cost)
    requires Visited(costs, visited, rest, Ok(sum)) && name in rest
    ensures Visited(costs, visited + [name], rest - {name}, Add(sum, costs[name]))
  {
    AlongNext(costs, visited, name);
    AddAllNext(Along(costs, visited), costs[name]);
    VisitNext(visited, rest, name, costs.Keys);
  }

  // What is left to visit when a loop stops early.
  lemma Finish(costs: map<string, Cost>, visited: seq<string>, rest: set<string>, total: Total) returns (order: seq<string>)
    requires Visited(costs, visited, rest, total) && total.Err?
    ensures Visited(costs, order, {}, total)
  {
    var tail := AnyOrder(rest);
    order := visited + tail;
    VisitsIn(order, costs.Keys);
    AlongConcat(costs, visited, tail);
    AddAllStuck(Along(costs, visited), Along(costs, tail));
  }

  // `total` is what adding up the resource gives in some visiting order.
  ghost predicate ResourceOutcome(re: Resource, total: Total) {
    exists order :: Visits(order, re.Components.Entries().Keys) && total == AddAll(CostsOf(re, order))
  }

  method ResourceCost(re: Resource) returns (total: Total)
    ensures ResourceOutcome(re, total)
  {
    var components := re.Components.Entries();
    ghost var costs := CostMap(components);
    var sum, rest := Zero, components.Keys;
    ghost var order: seq<string> := [];
    while rest != {}
      invariant rest <= components.Keys && Visited(costs, order, rest, Ok(sum))
    {
      var name :| name in rest;
      var next := Add(sum, components[name].Cost());
      VisitCost(costs, order, rest, name, sum);
      order, rest := order + [name], rest - {name};
      if next.Err? {
        order := Finish(costs, order, rest, next);
        VisitedAll(re, order, next);
        return next;
      }
      sum := next.value;
    }
    total := Ok(sum);
    VisitedAll(re, order, total);
  }

  lemma OrderOf(re: Resource, total: Total) returns (order: seq<string>)
    requires ResourceOutcome(re, total)
    ensures Visits(order, re.Components.Entries().Keys) && total == AddAll(CostsOf(re, order))
  {
    order :| Visits(order, re.Components.Entries().Keys) && total == AddAll(CostsOf(re, order));
  }

  lemma VisitedAll(re: Resource, order: seq<string>, total: Total)
    requires Visited(CostMap(re.Components.Entries()), order, {}, total)
    ensures ResourceOutcome(re, total)
  {
    assert Visits(order, re.Components.Entries().Keys);
    assert total == AddAll(CostsOf(re, order));
  }

  // `total` is what adding up the state gives in some visiting order.
  ghost predicate CostOutcome(resources: Resources, total: Total) {
    exists order, inner :: VisitsAll(resources, order, inner) && total == AddGroups(Groups(resources, order, inner))
  }

  // Some component of the state costs `c`.
  ghost predicate HasCost(resources: Resources, c: Cost) {
    exists a, l | a in resources && l in resources[a].Components.Entries() ::
      resources[a].Components.entries[l].Cost() == c
  }

  // Every non-zero component cost names its currency, as prices read from the store do.
  ghost predicate PricedState(resources: Resources) {
    forall c | HasCost(resources, c) :: Named(c)
  }

  lemma GroupMemberHasCost(resources: Resources, order: seq<string>, inner: map<string, seq<string>>, i: nat, c: Cost)
    requires VisitsAll(resources, order, inner)
    requires i < |order| && c in Groups(resources, order, inner)[i]
    ensures HasCost(resources, c)
  {
    VisitsIn(order, resources.Keys);
    var a, group := order[i], Groups(resources, order, inner)[i];
    assert a in order;
    VisitsIn(inner[a], resources[a].Components.Entries().Keys);
    var j :| 0 <= j < |group| && group[j] == c;
    assert inner[a][j] in inner[a];
  }

  lemma GroupAt(resources: Resources, order: seq<string>, inner: map<string, seq<string>>, i: nat)
    requires VisitsAll(resources, order, inner) && i < |order|
    ensures order[i] in resources && |Groups(resources, order, inner)| == |order|
    ensures Groups(resources, order, inner)[i] == CostsOf(resources[order[i]], inner[order[i]])
  {
    VisitsIn(order, resources.Keys);
    assert order[i] in order;
  }

  lemma CostIn(re: Resource, order: seq<string>, l: string)
    requires Visits(order, re.Components.Entries().Keys) && l in re.Components.Entries()
    ensures re.Components.entries[l].Cost() in CostsOf(re, order)
  {
    VisitsMembers(order, re.Components.Entries().Keys);
    var j :| 0 <= j < |order| && order[j] == l;
    assert CostsOf(re, order)[j] == re.Components.entries[l].Cost();
  }

  lemma CostInGroup(resources: Resources, order: seq<string>, inner: map<string, seq<string>>, a: string, l: string)
    returns (i: nat)
    requires VisitsAll(resources, order, inner)
    requires a in resources && l in resources[a].Components.Entries()
    ensures i < |order| && resources[a].Components.entries[l].Cost() in Groups(resources, order, inner)[i]
  {
    VisitsMembers(order, resources.Keys);
    i :| 0 <= i < |order| && order[i] == a;
    GroupAt(resources, order, inner, i);
    CostIn(resources[a], inner[a], l);
  }

  lemma GroupMembers(resources: Resources, order: seq<string>, inner: map<string, seq<string>>, c: Cost)
    requires VisitsAll(resources, order, inner)
    ensures c in Flatten(Groups(resources, order, inner)) <==> HasCost(resources, c)
  {
    var groups := Groups(resources, order, inner);
    FlattenMembers(groups, c);
    if i :| 0 <= i < |groups| && c in groups[i] {
      GroupMemberHasCost(resources, order, inner, i, c);
    }
    if HasCost(resources, c) {
      var a, l :| a in resources && l in resources[a].Components.Entries() &&
                  resources[a].Components.entries[l].Cost() == c;
      var i := CostInGroup(resources, order, inner, a, l);
    }
  }

  lemma GroupsPriced(resources: Resources, order: seq<string>, inner: map<string, seq<string>>)
    requires VisitsAll(resources, order, inner) && PricedState(resources)
    ensures Priced(Flatten(Groups(resources, order, inner)))
  {
    forall c | c in Flatten(Groups(resources, order, inner)) ensures Named(c) {
      GroupMembers(resources, order, inner, c);
    }
  }

  /** With priced components, whatever the visiting orders, the state total is
      the total of all its component costs added in one list. */
  lemma StateCostIsFlat(resources: Resources, total: Total, order: seq<string>, inner: map<string, seq<string>>)
    requires CostOutcome(resources, total) && PricedState(resources)
    requires VisitsAll(resources, order, inner)
    ensures SameTotal(total, AddAll(Flatten(Groups(resources, order, inner))))
  {
    var o, i :| VisitsAll(resources, o, i) && total == AddGroups(Groups(resources, o, i));
    GroupsPriced(resources, o, i);
    AddGroupsIsFlat(Groups(resources, o, i));
    GroupsPermute(resources, o, order, i, inner);
    AddAllPermutes(Flatten(Groups(resources, o, i)), Flatten(Groups(resources, order, inner)));
  }

  /** With priced components, totalling a state fails exactly when two
      components with a cost are in different currencies. */
  lemma StateCostFails(resources: Resources, total: Total)
    requires CostOutcome(resources, total) && PricedState(resources)
    ensures total.Err? <==> exists c, d | HasCost(resources, c) && HasCost(resources, d) :: Conflict(c, d)
  {
    var order, inner :| VisitsAll(resources, order, inner) && total == AddGroups(Groups(resources, order, inner));
    var flat := Flatten(Groups(resources, order, inner));
    StateCostIsFlat(resources, total, order, inner);
    GroupsPriced(resources, order, inner);
    AddAllExact(flat);
    PricedClash(flat);
    forall c ensures c in flat <==> HasCost(resources, c) {
      GroupMembers(resources, order, inner, c);
    }
  }

  /** With priced components, two runs that visit the maps in different orders
      agree on the outcome and on the total. */
  lemma StateCostStable(resources: Resources, a: Total, b: Total)
    requires CostOutcome(resources, a) && CostOutcome(resources, b) && PricedState(resources)
    ensures SameTotal(a, b)
  {
    var order, inner :| VisitsAll(resources, order, inner) && a == AddGroups(Groups(resources, order, inner));
    StateCostIsFlat(resources, a, order, inner);
    StateCostIsFlat(resources, b, order, inner);
  }

  lemma GroupsStuck(groups: map<string, seq<Cost>>, visited: seq<string>, tail: seq<string>)
    requires forall k <- visited :: k in groups
    requires forall k <- tail :: k in groups
    requires AddGroups(Along(groups, visited)).Err?
    ensures forall k <- visited + tail :: k in groups
    ensures AddGroups(Along(groups, visited + tail)) == AddGroups(Along(groups, visited))
  {
    AlongConcat(groups, visited, tail);
    AddGroupsStuck(Along(groups, visited), Along(groups, tail));
  }

  // A loop over the resources has reached `total` and still has to visit `rest`.
  ghost predicate VisitedGroups(resources: Resources, visited: seq<string>, rest: set<string>,
                                inner: map<string, seq<string>>, total: Total)
  {
    && multiset(visited) + multiset(rest) == multiset(resources.Keys) && rest <= resources.Keys
    && (forall k <- visited :: k in resources) && VisitsEach(resources, inner)
    && total == AddGroups(Along(GroupMap(resources, inner), visited))
  }

  lemma VisitGroup(resources: Resources, visited: seq<string>, rest: set<string>, inner: map<string, seq<string>>,
                   sum: Cost, name: string, order: seq<string>)
    requires VisitedGroups(resources, visited, rest, inner, Ok(sum)) && name in rest
    requires Visits(order, resources[name].Components.Entries().Keys)
    ensures VisitedGroups(resources, visited + [name], rest - {name}, inner[name := order],
                          AddTotals(Ok(sum), AddAll(CostsOf(resources[name], order))))
  {
    VisitFresh(visited, rest, name, resources.Keys);
    OpenGroup(resources, visited, inner, name, order);
    AddGroupsNext(Along(GroupMap(resources, inner), visited), CostsOf(resources[name], order));
    VisitNext(visited, rest, name, resources.Keys);
  }

  lemma FinishGroups(resources: Resources, visited: seq<string>, rest: set<string>, inner: map<string, seq<string>>,
                     total: Total)
    requires VisitedGroups(resources, visited, rest, inner, total) && (total.Err? || rest == {})
    ensures CostOutcome(resources, total)
  {
    var tail := AnyOrder(rest);
    var order := visited + tail;
    assert Visits(order, resources.Keys);
    VisitsIn(order, resources.Keys);
    var groups := GroupMap(resources, inner);
    assert forall k <- tail :: k in groups by {
      assert forall k <- tail :: k in order;
    }
    if rest == {} {
      assert order == visited;
    } else {
      GroupsStuck(groups, visited, tail);
    }
    Outcome(resources, order, inner, total);
  }

  lemma Outcome(resources: Resources, order: seq<string>, inner: map<string, seq<string>>, total: Total)
    requires VisitsAll(resources, order, inner)
    requires total == AddGroups(Groups(resources, order, inner))
    ensures CostOutcome(resources, total)
  {
  }

  lemma OpenGroup(resources: Resources, visited: seq<string>, inner: map<string, seq<string>>,
                  name: string, order: seq<string>)
    requires VisitsEach(resources, inner) && name in resources && name !in visited
    requires Visits(order, resources[name].Components.Entries().Keys)
    requires forall k <- visited :: k in resources
    ensures VisitsEach(resources, inner[name := order])
    ensures var groups := GroupMap(resources, inner[name := order]);
            Along(groups, visited + [name]) == Along(GroupMap(resources, inner), visited) + [CostsOf(resources[name], order)]
  {
    var groups := GroupMap(resources, inner[name := order]);
    AlongAgrees(GroupMap(resources, inner), groups, visited);
    AlongNext(groups, visited, name);
  }

  lemma VisitFresh(visited: seq<string>, rest: set<string>, name: string, keys: set<string>)
    requires multiset(visited) + multiset(rest) == multiset(keys) && name in rest
    ensures name !in visited && name in keys
  {
    assert (multiset(visited) + multiset(rest))[name] == multiset(keys)[name] <= 1;
    assert multiset(rest)[name] == 1;
  }

  class State {
    var Resources: Resources

    constructor ()
      ensures Resources == map[]
    {
      Resources := map[];
    }

    method EnsureResource(address: string, provider: string, typ: string, skipped: bool)
      modifies this
      ensures Resources == Ensured(old(Resources), address, provider, typ, skipped)
    {
      if address !in Resources {
        var res := Resource(provider, typ, NilMap, skipped);
        if !skipped {
          res := res.(Components := Made(map[]));
        }
        Resources := Resources[address := res];
      }
    }

    method AddComponent(resAddress: string, compLabel: string, component: Component) returns (ok: bool)
      requires resAddress in Resources
      modifies this
      ensures ok == Added(old(Resources), resAddress, compLabel, component).Some?
      ensures Resources == if ok then Added(old(Resources), resAddress, compLabel, component).value else old(Resources)
    {
      var res := Resources[resAddress];
      ok := res.Components.Made?;
      if ok {
        Resources := Resources[resAddress := res.(Components := Made(res.Components.entries[compLabel := component]))];
      }
    }

    method AddQuery(b: Backend, res: ResourceQuery) returns (ok: bool)
      modifies this
      ensures var added := AddedAll(b, Ensured(old(Resources), res.Address, res.Provider, res.Type, |res.Components| == 0),
                                    res.Address, res.Components);
              ok == added.Some? && (ok ==> Resources == added.value)
    {
      // Mark the resource as skipped if it has no components.
      EnsureResource(res.Address, res.Provider, res.Type, |res.Components| == 0);
      ghost var start := Resources;
      for i := 0 to |res.Components|
        invariant res.Address in Resources
        invariant AddedAll(b, start, res.Address, res.Components[..i]) == Some(Resources)
      {
        var comp := res.Components[i];
        assert res.Components[..i + 1][..i] == res.Components[..i];
        ok := AddComponent(res.Address, comp.Name, BuildComponent(b, comp));
        if !ok {
          AddedAllEntries(b, start, res.Address, res.Components[..i + 1]);
          AddedAllEntries(b, start, res.Address, res.Components);
          return;
        }
      }
      assert res.Components[..|res.Components|] == res.Components;
      ok := true;
    }

    method Cost() returns (total: Total)
      ensures CostOutcome(Resources, total)
    {
      ghost var inner := map a | a in Resources :: AnyOrder(Resources[a].Components.Entries().Keys);
      ghost var order: seq<string> := [];
      var sum, rest := Zero, Resources.Keys;
      while rest != {}
        invariant rest <= Resources.Keys && VisitedGroups(Resources, order, rest, inner, Ok(sum))
      {
        var name :| name in rest;
        var rCost := ResourceCost(Resources[name]);
        ghost var o := OrderOf(Resources[name], rCost);
        VisitGroup(Resources, order, rest, inner, sum, name, o);
        order, rest, inner := order + [name], rest - {name}, inner[name := o];
        if rCost.Err? {
          FinishGroups(Resources, order, rest, inner, rCost);
          return rCost;
        }
        var next := Add(sum, rCost.value);
        if next.Err? {
          FinishGroups(Resources, order, rest, inner, next);
          return next;
        }
        sum := next.value;
      }
      total := Ok(sum);
      FinishGroups(Resources, order, rest, inner, total);
    }
  }

  datatype NewStateResult = NoQueries | NilMapWrite | Built(state: State)

  method NewState(b: Backend, queries: seq<ResourceQuery>) returns (r: NewStateResult)
    ensures queries == [] <==> r.NoQueries?
    ensures r.NilMapWrite? <==> Build(b, queries).None?
    ensures r.Built? ==> fresh(r.state) && Build(b, queries) == Some(r.state.Resources)
  {
    if |queries| == 0 {
      return NoQueries;
    }
    var state := new State();
    for i := 0 to |queries|
      invariant Build(b, queries[..i]) == Some(state.Resources)
    {
      assert queries[..i + 1][..i] == queries[..i];
      var ok := state.AddQuery(b, queries[i]);
      if !ok {
        BuildStuck(b, queries, i + 1);
        return NilMapWrite;
      }
    }
    assert queries[..|queries|] == queries;
    r := Built(state);
  }

  lemma {:induction false} BuildStuck(b: Backend, queries: seq<ResourceQuery>, n: nat)
    requires n <= |queries| && Build(b, queries[..n]).None?
    ensures Build(b, queries).None?
    decreases |queries|
  {
    if n < |queries| {
      var front := queries[..|queries| - 1];
      assert front[..n] == queries[..n];
      BuildStuck(b, front, n);
    } else {
      assert queries[..n] == queries;
    }
  }
}
