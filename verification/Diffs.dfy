/** Differences between a prior and a planned state (cost/plan.go, cost/resource.go). */
module Diffs {
  import opened Wrappers
  import opened Orders
  import opened Costs
  import opened States
  import opened FlatStates

  // ----- the heap structure that ResourceDifferences builds -----

  // A pointer to a private copy of a component.
  class ComponentRef {
    var value: Component

    constructor (value: Component)
      ensures this.value == value
    {
      this.value := value;
    }
  }

  class ComponentDiff {
    var Prior: ComponentRef?
    var Planned: ComponentRef?

    constructor ()
      ensures Prior == null && Planned == null
    {
      Prior, Planned := null, null;
    }
  }

  datatype ResourceDiff = ResourceDiff(Address: string, Provider: string, Type: string,
                                       ComponentDiffs: map<string, ComponentDiff>)

  // What a cell holds.
  datatype Cell = Cell(Prior: Option<Component>, Planned: Option<Component>) {
    function With(planned: bool, comp: Component): Cell {
      if planned then this.(Planned := Some(comp)) else this.(Prior := Some(comp))
    }

    function Side(planned: bool): Option<Component> {
      if planned then Planned else Prior
    }
  }

  function Updated(was: Option<Cell>, planned: bool, comp: Component): Cell {
    (if was.None? then Cell(None, None) else was.value).With(planned, comp)
  }

  ghost function Deref(r: ComponentRef?): Option<Component>
    reads r
  {
    if r == null then None else Some(r.value)
  }

  // The addresses of the resources that were not skipped.
  ghost function Estimated(resources: Resources): set<string> {
    set a | a in resources && !resources[a].Skipped
  }

  function NewHead(resources: Resources, a: string): ResourceDiff
    requires a in resources
  {
    ResourceDiff(a, resources[a].Provider, resources[a].Type, map[])
  }

  // The cell of (a, l) once a state has been merged in.
  ghost function Placed(was: Option<Cell>, resources: Resources, a: string, l: string, planned: bool): Option<Cell> {
    match ComponentIn(Some(resources), a, l)
    case None => was
    case Some(comp) => Some(Updated(was, planned, comp))
  }

  // ----- the plan -----

  // The prior and the planned state; either may be missing from the plan.
  datatype Plan = Plan(Name: string, Prior: Option<Resources>, Planned: Option<Resources>) {
    function Side(planned: bool): Option<Resources> {
      if planned then Planned else Prior
    }
  }

  ghost function EstimatedIn(state: Option<Resources>): set<string> {
    if state.None? then {} else Estimated(state.value)
  }

  // The component a state has at (a, l), if the resource was not skipped.
  ghost function ComponentIn(state: Option<Resources>, a: string, l: string): Option<Component> {
    if a in EstimatedIn(state) && l in state.value[a].Components.Entries()
    then Some(state.value[a].Components.entries[l]) else None
  }

  // What an object of the table is for: the cell of a component, or one of its two copies.
  datatype Role = IsCell | IsPrior | IsPlanned

  class DiffTable {
    var entries: map<string, ResourceDiff>
    ghost var owner: map<object, (string, string, Role)>

    ghost predicate Has(a: string, l: string)
      reads this
    {
      a in entries && l in entries[a].ComponentDiffs
    }

    ghost function At(a: string, l: string): ComponentDiff
      requires Has(a, l)
      reads this
    {
      entries[a].ComponentDiffs[l]
    }

    ghost predicate Owns(r: object?, a: string, l: string, role: Role)
      reads this
    {
      r != null ==> r in owner && owner[r] == (a, l, role)
    }

    ghost predicate ValidCell(a: string, l: string)
      requires Has(a, l)
      reads this, At(a, l)
    {
      && At(a, l) in owner
      && Owns(At(a, l), a, l, IsCell)
      && Owns(At(a, l).Prior, a, l, IsPrior)
      && Owns(At(a, l).Planned, a, l, IsPlanned)
    }

    // Every cell, and every component copy a cell points to, has one owner.
    ghost predicate Valid()
      reads this, owner.Keys
    {
      && this !in owner
      && forall a, l | Has(a, l) :: At(a, l) in owner && ValidCell(a, l)
    }

    // What the cell of a component holds, if there is one.
    ghost function Get(a: string, l: string): Option<Cell>
      requires Valid()
      reads this, owner.Keys
    {
      if Has(a, l) then Some(Cell(Deref(At(a, l).Prior), Deref(At(a, l).Planned))) else None
    }

    // The address, provider and type of an entry.
    ghost function Head(a: string): ResourceDiff
      requires a in entries
      reads this
    {
      entries[a].(ComponentDiffs := map[])
    }

    constructor ()
      ensures Valid() && entries == map[] && owner == map[]
    {
      entries := map[];
      owner := map[];
    }

    method EnsureAddress(address: string, res: Resource)
      requires Valid()
      modifies this
      ensures Valid() && owner == old(owner)
      ensures entries.Keys == old(entries).Keys + {address}
      ensures forall a, l :: Get(a, l) == old(Get(a, l))
      ensures forall a | a in old(entries) :: Head(a) == old(Head(a))
      ensures address !in old(entries) ==> Head(address) == ResourceDiff(address, res.Provider, res.Type, map[])
    {
      if address !in entries {
        entries := entries[address := ResourceDiff(address, res.Provider, res.Type, map[])];
        assert forall a, l :: Has(a, l) <==> old(Has(a, l));
        assert forall a, l | Has(a, l) :: At(a, l) == old(At(a, l)) && old(ValidCell(a, l));
      }
    }

    // The cell of a component, made empty if it is missing.
    method CellFor(address: string, name: string) returns (cd: ComponentDiff)
      requires Valid() && address in entries
      modifies this
      ensures Valid() && fresh(owner.Keys - old(owner.Keys)) && old(owner.Keys) <= owner.Keys
      ensures Has(address, name) && At(address, name) == cd
      ensures entries.Keys == old(entries).Keys
      ensures forall a | a in entries :: Head(a) == old(Head(a))
      ensures forall a, l | a != address || l != name :: Get(a, l) == old(Get(a, l))
      ensures Get(address, name) == Some(if old(Get(address, name)).None? then Cell(None, None) else old(Get(address, name)).value)
    {
      if name in entries[address].ComponentDiffs {
        cd := entries[address].ComponentDiffs[name];
        assert Has(address, name) && At(address, name) == cd;
      } else {
        cd := new ComponentDiff();
        var rd := entries[address];
        entries := entries[address := rd.(ComponentDiffs := rd.ComponentDiffs[name := cd])];
        owner := owner[cd := (address, name, IsCell)];
        assert Has(address, name) && At(address, name) == cd;
        assert forall a, l | a != address || l != name :: Has(a, l) <==> old(Has(a, l));
        forall a, l | (a != address || l != name) && Has(a, l) ensures At(a, l) == old(At(a, l)) && ValidCell(a, l) {
          assert old(ValidCell(a, l));
        }
      }
    }

    // Point one side of a cell to a fresh copy of the component.
    method Point(address: string, name: string, cd: ComponentDiff, comp: Component, planned: bool)
      requires Valid() && Has(address, name) && At(address, name) == cd
      modifies this`owner, cd
      ensures Valid() && fresh(owner.Keys - old(owner.Keys)) && old(owner.Keys) <= owner.Keys
      ensures forall a, l | a != address || l != name :: Get(a, l) == old(Get(a, l))
      ensures Get(address, name) == Some(old(Get(address, name)).value.With(planned, comp))
    {
      var copy := new ComponentRef(comp);
      if planned {
        cd.Planned := copy;
      } else {
        cd.Prior := copy;
      }
      owner := owner[copy := (address, name, if planned then IsPlanned else IsPrior)];
      forall a, l | Has(a, l) ensures At(a, l) in owner && ValidCell(a, l) {
        assert old(ValidCell(a, l));
      }
    }

    method SetComponent(address: string, name: string, comp: Component, planned: bool)
      requires Valid() && address in entries
      modifies this, owner.Keys
      ensures Valid() && fresh(owner.Keys - old(owner.Keys))
      ensures entries.Keys == old(entries).Keys
      ensures forall a | a in entries :: Head(a) == old(Head(a))
      ensures forall a, l | a != address || l != name :: Get(a, l) == old(Get(a, l))
      ensures Get(address, name) == Some(Updated(old(Get(address, name)), planned, comp))
    {
      var cd := CellFor(address, name);
      Point(address, name, cd, comp, planned);
    }

    // All components of one resource, in any order.
    method MergeResource(address: string, res: Resource, planned: bool)
      requires Valid() && address in entries
      modifies this, owner.Keys
      ensures Valid() && fresh(owner.Keys - old(owner.Keys))
      ensures entries.Keys == old(entries).Keys
      ensures forall a | a in entries :: Head(a) == old(Head(a))
      ensures forall a, l | a != address || l !in res.Components.Entries() :: Get(a, l) == old(Get(a, l))
      ensures forall l | l in res.Components.Entries() ::
                Get(address, l) == Some(Updated(old(Get(address, l)), planned, res.Components.entries[l]))
    {
      var comps := res.Components.Entries();
      var rest := comps.Keys;
      while rest != {}
        invariant Valid() && fresh(owner.Keys - old(owner.Keys))
        invariant rest <= comps.Keys
        invariant entries.Keys == old(entries).Keys
        invariant forall a | a in entries :: Head(a) == old(Head(a))
        invariant forall a, l | a != address || l !in comps || l in rest :: Get(a, l) == old(Get(a, l))
        invariant forall l | l in comps && l !in rest :: Get(address, l) == Some(Updated(old(Get(address, l)), planned, comps[l]))
      {
        var name :| name in rest;
        SetComponent(address, name, comps[name], planned);
        rest := rest - {name};
      }
    }

    method MergeOne(resources: Resources, address: string, planned: bool)
      requires Valid() && address in resources
      modifies this, owner.Keys
      ensures Valid() && fresh(owner.Keys - old(owner.Keys))
      ensures entries.Keys == old(entries).Keys + if resources[address].Skipped then {} else {address}
      ensures forall a, l | a != address :: Get(a, l) == old(Get(a, l))
      ensures forall l :: Get(address, l) == Placed(old(Get(address, l)), resources, address, l, planned)
      ensures forall a | a in old(entries) :: Head(a) == old(Head(a))
      ensures address in entries && address !in old(entries) ==> Head(address) == NewHead(resources, address)
    {
      var res := resources[address];
      assert forall l :: ComponentIn(Some(resources), address, l).Some? <==> !res.Skipped && l in res.Components.Entries();
      if !res.Skipped {
        EnsureAddress(address, res);
        MergeResource(address, res, planned);
      }
    }

    // mergeResourceDiffsFromState: all resources that were not skipped, in any order.
    method MergeState(resources: Resources, planned: bool)
      requires Valid()
      modifies this, owner.Keys
      ensures Valid() && fresh(owner.Keys - old(owner.Keys))
      ensures entries.Keys == old(entries).Keys + Estimated(resources)
      ensures forall a, l :: Get(a, l) == Placed(old(Get(a, l)), resources, a, l, planned)
      ensures forall a | a in old(entries) :: Head(a) == old(Head(a))
      ensures forall a | a in entries && a !in old(entries) :: Head(a) == NewHead(resources, a)
    {
      var rest := resources.Keys;
      ghost var estimated := Estimated(resources);
      while rest != {}
        invariant Valid() && fresh(owner.Keys - old(owner.Keys))
        invariant rest <= resources.Keys
        invariant entries.Keys == old(entries).Keys + (estimated - rest)
        invariant forall a, l | a !in rest :: Get(a, l) == Placed(old(Get(a, l)), resources, a, l, planned)
        invariant forall a, l | a in rest :: Get(a, l) == old(Get(a, l))
        invariant forall a | a in old(entries) :: Head(a) == old(Head(a))
        invariant forall a | a in entries && a !in old(entries) :: Head(a) == NewHead(resources, a)
      {
        var address :| address in rest;
        rest := rest - {address};
        MergeOne(resources, address, planned);
      }
    }

    method MergeSide(p: Plan, planned: bool)
      requires Valid()
      modifies this, owner.Keys
      ensures Valid() && fresh(owner.Keys - old(owner.Keys))
      ensures entries.Keys == old(entries).Keys + EstimatedIn(p.Side(planned))
      ensures forall a, l :: Get(a, l) ==
                             var comp := ComponentIn(p.Side(planned), a, l);
                             if comp.None? then old(Get(a, l)) else Some(Updated(old(Get(a, l)), planned, comp.value))
      ensures forall a | a in old(entries) :: Head(a) == old(Head(a))
      ensures forall a | a in entries && a !in old(entries) :: Head(a) == NewHead(p.Side(planned).value, a)
    {
      var state := p.Side(planned);
      if state.Some? {
        MergeState(state.value, planned);
      }
    }
  }

  // One cell per component of either side, holding exactly what each side has.
  ghost predicate IsDiff(table: DiffTable, p: Plan)
    reads table, table.owner.Keys
  {
    && table.Valid()
    && table.entries.Keys == EstimatedIn(p.Prior) + EstimatedIn(p.Planned)
    && (forall a, l ::
          table.Get(a, l) ==
          var prior, planned := ComponentIn(p.Prior, a, l), ComponentIn(p.Planned, a, l);
          if prior.None? && planned.None? then None else Some(Cell(prior, planned)))
    && (forall a | a in table.entries ::
          table.Head(a) == NewHead(if a in EstimatedIn(p.Prior) then p.Prior.value else p.Planned.value, a))
  }

  // All diffs of a table, in some order.
  ghost predicate Lists(entries: map<string, ResourceDiff>, rds: seq<ResourceDiff>) {
    exists order :: Visits(order, entries.Keys) && (forall a <- order :: a in entries) && rds == Along(entries, order)
  }

  method Collect(entries: map<string, ResourceDiff>) returns (rds: seq<ResourceDiff>)
    ensures Lists(entries, rds)
  {
    rds := [];
    ghost var order: seq<string> := [];
    var rest := entries.Keys;
    while rest != {}
      invariant multiset(order) + multiset(rest) == multiset(entries.Keys)
      invariant rest <= entries.Keys && forall a <- order :: a in entries
      invariant rds == Along(entries, order)
    {
      var address :| address in rest;
      AlongNext(entries, order, address);
      VisitNext(order, rest, address, entries.Keys);
      rds, order, rest := rds + [entries[address]], order + [address], rest - {address};
    }
  }

  // The prior side goes first.
  method MergePrior(p: Plan) returns (table: DiffTable)
    ensures fresh(table) && fresh(table.owner.Keys) && table.Valid()
    ensures table.entries.Keys == EstimatedIn(p.Prior)
    ensures forall a, l ::
              table.Get(a, l) ==
              var prior := ComponentIn(p.Prior, a, l);
              if prior.None? then None else Some(Cell(prior, None))
    ensures forall a | a in table.entries :: table.Head(a) == NewHead(p.Prior.value, a)
  {
    table := new DiffTable();
    assert forall a, l :: table.Get(a, l).None?;
    table.MergeSide(p, false);
  }

  method MergePlan(p: Plan) returns (table: DiffTable)
    ensures fresh(table) && fresh(table.owner.Keys) && IsDiff(table, p)
  {
    table := MergePrior(p);
    table.MergeSide(p, true);
  }

  /** One diff per address that either side estimated, in any order. */
  method ResourceDifferences(p: Plan) returns (rds: seq<ResourceDiff>, ghost table: DiffTable)
    ensures fresh(table) && fresh(table.owner.Keys) && IsDiff(table, p)
    ensures Lists(table.entries, rds)
  {
    var rdmap := MergePlan(p);
    rds := Collect(rdmap.entries);
    table := rdmap;
  }

  /** Different components never share a cell, and no component copy is shared
      between cells or between the two sides of one cell. */
  lemma NoSharing(table: DiffTable, a: string, l: string, b: string, m: string)
    requires table.Valid() && table.Has(a, l) && table.Has(b, m)
    ensures var x, y := table.At(a, l), table.At(b, m);
            && (x == y <==> a == b && l == m)
            && (x.Prior != null ==> x.Prior != y.Planned && (x.Prior == y.Prior <==> x == y))
            && (x.Planned != null ==> (x.Planned == y.Planned <==> x == y))
  {
    assert table.ValidCell(a, l) && table.ValidCell(b, m);
  }

  // ----- costs of the differences -----

  ghost function SideOf(cd: ComponentDiff, planned: bool): Option<Component>
    reads cd, cd.Prior, cd.Planned
  {
    if planned then Deref(cd.Planned) else Deref(cd.Prior)
  }

  function CostOf(comp: Option<Component>): Cost {
    if comp.None? then Zero else comp.value.Cost()
  }

  ghost function SideCosts(rd: ResourceDiff, planned: bool): (costs: map<string, Cost>)
    reads *
    ensures costs.Keys == rd.ComponentDiffs.Keys
  {
    map l | l in rd.ComponentDiffs :: CostOf(SideOf(rd.ComponentDiffs[l], planned))
  }

  // ComponentDiff.PriorCost and PlannedCost.
  function ComponentDiffCost(cd: ComponentDiff, planned: bool): (c: Cost)
    reads cd, cd.Prior, cd.Planned
    ensures c == CostOf(SideOf(cd, planned))
  {
    if planned then
      if cd.Planned == null then Zero else cd.Planned.value.Cost()
    else
      if cd.Prior == null then Zero else cd.Prior.value.Cost()
  }

  // ResourceDiff.PriorCost and PlannedCost.
  method ResourceDiffCost(rd: ResourceDiff, planned: bool) returns (total: Total)
    ensures AddsUp(SideCosts(rd, planned), total)
  {
    total := AddSide(rd.ComponentDiffs, SideCosts(rd, planned), planned);
  }

  // `total` is what adding up the costs gives in some visiting order.
  ghost predicate AddsUp(costs: map<string, Cost>, total: Total) {
    exists order :: Visited(costs, order, {}, total)
  }

  method AddSide(cells: map<string, ComponentDiff>, ghost costs: map<string, Cost>, planned: bool)
    returns (total: Total)
    requires costs.Keys == cells.Keys
    requires forall l | l in cells :: costs[l] == CostOf(SideOf(cells[l], planned))
    ensures AddsUp(costs, total)
  {
    var sum, rest := Zero, cells.Keys;
    ghost var order: seq<string> := [];
    while rest != {}
      invariant rest <= cells.Keys && Visited(costs, order, rest, Ok(sum))
    {
      var l :| l in rest;
      var next := Add(sum, ComponentDiffCost(cells[l], planned));
      VisitCost(costs, order, rest, l, sum);
      order, rest := order + [l], rest - {l};
      if next.Err? {
        order := Finish(costs, order, rest, next);
        return next;
      }
      sum := next.value;
    }
    total := Ok(sum);
  }

  function OrEmpty(state: Option<Resources>): Resources {
    if state.None? then map[] else state.value
  }

  // Plan.PriorCost and PlannedCost: nothing for a side the plan does not have.
  method PlanCost(p: Plan, planned: bool) returns (total: Total)
    ensures CostOutcome(OrEmpty(p.Side(planned)), total)
  {
    var side := p.Side(planned);
    if side.None? {
      Outcome(map[], [], map[], Ok(Zero));
      return Ok(Zero);
    }
    var state := new State();
    state.Resources := side.value;
    total := state.Cost();
  }

  // One side of the differences, read as a state.
  ghost function SideState(table: DiffTable, planned: bool): (side: Resources)
    requires table.Valid()
    reads table, table.owner.Keys
    ensures side.Keys == table.entries.Keys
  {
    map a | a in table.entries ::
      Resource("", "", Made(map l | l in table.entries[a].ComponentDiffs :: SideComponent(table.Get(a, l), planned)), false)
  }

  function SideComponent(cell: Option<Cell>, planned: bool): Component {
    if cell.None? || cell.value.Side(planned).None? then Failed("") else cell.value.Side(planned).value
  }

  // A skipped resource carries no components, as in every state NewState builds.
  ghost predicate SkippedEmpty(state: Resources) {
    forall a | a in state && state[a].Skipped :: state[a].Components.Entries() == map[]
  }

  lemma SidePads(table: DiffTable, p: Plan, planned: bool)
    requires IsDiff(table, p) && SkippedEmpty(OrEmpty(p.Side(planned)))
    ensures Pads(SideState(table, planned), OrEmpty(p.Side(planned)))
  {
    var side, state := SideState(table, planned), OrEmpty(p.Side(planned));
    forall q | InState(state, q) ensures InState(side, q) && CostAt(side, q) == CostAt(state, q) {
      assert ComponentIn(p.Side(planned), q.0, q.1).Some?;
      assert table.Get(q.0, q.1).Some?;
      assert table.Has(q.0, q.1);
    }
    SidePadsZero(table, p, planned);
  }

  lemma SidePadsZero(table: DiffTable, p: Plan, planned: bool)
    requires IsDiff(table, p) && SkippedEmpty(OrEmpty(p.Side(planned)))
    ensures var side, state := SideState(table, planned), OrEmpty(p.Side(planned));
            forall q | InState(side, q) && !InState(state, q) :: CostAt(side, q) == Zero
  {
    var side, state := SideState(table, planned), OrEmpty(p.Side(planned));
    forall q | InState(side, q) && !InState(state, q) ensures CostAt(side, q) == Zero {
      assert table.Has(q.0, q.1);
      assert ComponentIn(p.Side(planned), q.0, q.1).None?;
    }
  }

  // The costs of one side of every diff, in the order they are visited.
  ghost predicate VisitsDiffs(table: DiffTable, order: seq<string>, inner: map<string, seq<string>>)
    reads table
  {
    && Visits(order, table.entries.Keys)
    && inner.Keys == table.entries.Keys
    && forall a | a in table.entries :: Visits(inner[a], table.entries[a].ComponentDiffs.Keys)
  }

  ghost function DiffCosts(table: DiffTable, planned: bool, a: string, names: seq<string>): seq<Cost>
    requires a in table.entries && Visits(names, table.entries[a].ComponentDiffs.Keys)
    reads *
  {
    VisitsIn(names, table.entries[a].ComponentDiffs.Keys);
    Along(SideCosts(table.entries[a], planned), names)
  }

  ghost function DiffGroupMap(table: DiffTable, planned: bool, inner: map<string, seq<string>>): (groups: map<string, seq<Cost>>)
    requires inner.Keys == table.entries.Keys
    requires forall a | a in table.entries :: Visits(inner[a], table.entries[a].ComponentDiffs.Keys)
    reads *
    ensures groups.Keys == table.entries.Keys
  {
    map a | a in table.entries :: DiffCosts(table, planned, a, inner[a])
  }

  lemma SideCostsMatch(table: DiffTable, planned: bool, a: string)
    requires table.Valid() && a in table.entries
    ensures SideState(table, planned)[a].Components.Entries().Keys == table.entries[a].ComponentDiffs.Keys
    ensures CostMap(SideState(table, planned)[a].Components.Entries()) == SideCosts(table.entries[a], planned)
  {
    var x, y := CostMap(SideState(table, planned)[a].Components.Entries()), SideCosts(table.entries[a], planned);
    forall l | l in x ensures x[l] == y[l] {
      assert table.Has(a, l) && table.ValidCell(a, l);
    }
  }

  lemma DiffGroupsMatch(table: DiffTable, planned: bool, order: seq<string>, inner: map<string, seq<string>>)
    requires table.Valid() && VisitsDiffs(table, order, inner)
    ensures VisitsAll(SideState(table, planned), order, inner)
    ensures DiffGroupMap(table, planned, inner) == GroupMap(SideState(table, planned), inner)
  {
    forall a | a in table.entries
      ensures Visits(inner[a], SideState(table, planned)[a].Components.Entries().Keys)
      ensures DiffCosts(table, planned, a, inner[a]) == CostsOf(SideState(table, planned)[a], inner[a])
    {
      SideCostsMatch(table, planned, a);
    }
  }

  /** Nothing is lost in the differences: in any order, one side's costs of the
      diffs add up, resource by resource, to that side's state total, and fail
      exactly when it does. */
  lemma DiffsConserve(table: DiffTable, p: Plan, planned: bool, total: Total,
                      order: seq<string>, inner: map<string, seq<string>>)
    requires IsDiff(table, p) && VisitsDiffs(table, order, inner)
    requires SkippedEmpty(OrEmpty(p.Side(planned))) && PricedState(OrEmpty(p.Side(planned)))
    requires CostOutcome(OrEmpty(p.Side(planned)), total)
    ensures forall a <- order :: a in table.entries
    ensures SameTotal(total, AddGroups(Along(DiffGroupMap(table, planned, inner), order)))
  {
    VisitsIn(order, table.entries.Keys);
    DiffGroupsMatch(table, planned, order, inner);
    SidePads(table, p, planned);
    var sum := AddGroups(Along(DiffGroupMap(table, planned, inner), order));
    Outcome(SideState(table, planned), order, inner, sum);
    PaddingIsFree(SideState(table, planned), OrEmpty(p.Side(planned)), total, sum);
  }
}
