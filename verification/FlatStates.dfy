/** A state seen as one flat collection of component costs, and states that
    differ only in components that cost nothing. */
module FlatStates {
  import opened Orders
  import opened Costs
  import opened States

  type Pair = (string, string)

  predicate InState(resources: Resources, p: Pair) {
    p.0 in resources && p.1 in resources[p.0].Components.Entries()
  }

  function CostAt(resources: Resources, p: Pair): Cost
    requires InState(resources, p)
  {
    resources[p.0].Components.entries[p.1].Cost()
  }

  function FlatMap(resources: Resources): (flat: map<Pair, Cost>)
    ensures forall p :: p in flat <==> InState(resources, p)
    ensures forall p | p in flat :: flat[p] == CostAt(resources, p)
  {
    map a, l | a in resources && l in resources[a].Components.Entries() :: (a, l) := CostAt(resources, (a, l))
  }

  function Tag(a: string, names: seq<string>): (pairs: seq<Pair>)
    ensures |pairs| == |names|
    ensures forall i | 0 <= i < |names| :: pairs[i] == (a, names[i])
  {
    if names == [] then [] else Tag(a, names[..|names| - 1]) + [(a, names[|names| - 1])]
  }

  function PairsOf(order: seq<string>, inner: map<string, seq<string>>): seq<Pair>
    requires forall a <- order :: a in inner
  {
    if order == [] then [] else
      var a := order[|order| - 1];
      PairsOf(order[..|order| - 1], inner) + Tag(a, inner[a])
  }

  lemma {:induction false} PairMembers(order: seq<string>, inner: map<string, seq<string>>, p: Pair)
    requires forall a <- order :: a in inner
    ensures p in PairsOf(order, inner) <==> p.0 in order && p.1 in inner[p.0]
  {
    if order != [] {
      var front, a := order[..|order| - 1], order[|order| - 1];
      assert order == front + [a];
      PairMembers(front, inner, p);
      var tagged := Tag(a, inner[a]);
      if p.0 == a && p.1 in inner[a] {
        var i :| 0 <= i < |inner[a]| && inner[a][i] == p.1;
        assert tagged[i] == p;
      }
    }
  }

  lemma {:induction false} PairsDistinct(order: seq<string>, inner: map<string, seq<string>>)
    requires forall a <- order :: a in inner
    requires forall i, j | 0 <= i < j < |order| :: order[i] != order[j]
    requires forall a <- order :: forall i, j | 0 <= i < j < |inner[a]| :: inner[a][i] != inner[a][j]
    ensures var pairs := PairsOf(order, inner); forall i, j | 0 <= i < j < |pairs| :: pairs[i] != pairs[j]
  {
    if order != [] {
      var front, a := order[..|order| - 1], order[|order| - 1];
      PairsDistinct(front, inner);
      var before, tagged := PairsOf(front, inner), Tag(a, inner[a]);
      assert a in order;
      forall i, j | 0 <= i < |before| && 0 <= j < |tagged| ensures before[i] != tagged[j] {
        PairMembers(front, inner, before[i]);
        assert before[i] in before;
      }
    }
  }

  // Visiting resources and then components visits every pair once.
  lemma PairsVisit(resources: Resources, order: seq<string>, inner: map<string, seq<string>>)
    requires VisitsAll(resources, order, inner)
    ensures forall a <- order :: a in inner
    ensures Visits(PairsOf(order, inner), FlatMap(resources).Keys)
  {
    VisitsMembers(order, resources.Keys);
    forall a | a in order
      ensures forall l :: l in inner[a] <==> l in resources[a].Components.Entries()
      ensures forall i, j | 0 <= i < j < |inner[a]| :: inner[a][i] != inner[a][j]
    {
      VisitsMembers(inner[a], resources[a].Components.Entries().Keys);
    }
    PairsDistinct(order, inner);
    forall p ensures p in PairsOf(order, inner) <==> p in FlatMap(resources).Keys {
      PairMembers(order, inner, p);
    }
    DistinctVisits(PairsOf(order, inner), FlatMap(resources).Keys);
  }

  lemma {:induction false} TagCosts(flat: map<Pair, Cost>, costs: map<string, Cost>, a: string, names: seq<string>)
    requires forall l <- names :: l in costs && (a, l) in flat && flat[(a, l)] == costs[l]
    ensures forall p <- Tag(a, names) :: p in flat
    ensures Along(flat, Tag(a, names)) == Along(costs, names)
  {
    forall i | 0 <= i < |names| ensures Tag(a, names)[i] in flat && flat[Tag(a, names)[i]] == costs[names[i]] {
      assert names[i] in names;
    }
  }

  lemma {:induction false} FlatGroups(resources: Resources, order: seq<string>, inner: map<string, seq<string>>)
    requires VisitsEach(resources, inner) && forall a <- order :: a in resources
    ensures forall p <- PairsOf(order, inner) :: p in FlatMap(resources)
    ensures Flatten(Along(GroupMap(resources, inner), order)) == Along(FlatMap(resources), PairsOf(order, inner))
  {
    if order != [] {
      var front, a := order[..|order| - 1], order[|order| - 1];
      assert order == front + [a];
      FlatGroups(resources, front, inner);
      VisitsIn(inner[a], resources[a].Components.Entries().Keys);
      TagCosts(FlatMap(resources), CostMap(resources[a].Components.Entries()), a, inner[a]);
      FlatNext(FlatMap(resources), GroupMap(resources, inner), front, a, PairsOf(front, inner), Tag(a, inner[a]));
    }
  }

  lemma FlatNext(flat: map<Pair, Cost>, groups: map<string, seq<Cost>>, front: seq<string>, a: string,
                 before: seq<Pair>, tagged: seq<Pair>)
    requires a in groups && forall k <- front :: k in groups
    requires forall p <- before :: p in flat
    requires forall p <- tagged :: p in flat
    requires Flatten(Along(groups, front)) == Along(flat, before) && groups[a] == Along(flat, tagged)
    ensures forall k <- front + [a] :: k in groups
    ensures forall p <- before + tagged :: p in flat
    ensures Flatten(Along(groups, front + [a])) == Along(flat, before + tagged)
  {
    AlongConcat(flat, before, tagged);
    AlongNext(groups, front, a);
    FlattenNext(Along(groups, front), groups[a]);
  }

  /** With priced components, the total is the sum over the flat collection, in any order. */
  lemma StateCostIsPairs(resources: Resources, total: Total, pairs: seq<Pair>)
    requires CostOutcome(resources, total) && PricedState(resources)
    requires Visits(pairs, FlatMap(resources).Keys)
    ensures forall p <- pairs :: p in FlatMap(resources)
    ensures SameTotal(total, AddAll(Along(FlatMap(resources), pairs)))
    ensures Priced(Along(FlatMap(resources), pairs))
  {
    var order, inner :| VisitsAll(resources, order, inner) && total == AddGroups(Groups(resources, order, inner));
    StateCostIsFlat(resources, total, order, inner);
    GroupsAsPairs(resources, order, inner);
    VisitedAlike(FlatMap(resources), PairsOf(order, inner), pairs);
  }

  lemma VisitedAlike(flat: map<Pair, Cost>, a: seq<Pair>, b: seq<Pair>)
    requires Visits(a, flat.Keys) && Visits(b, flat.Keys)
    requires forall p <- a :: p in flat
    requires Priced(Along(flat, a))
    ensures forall p <- b :: p in flat
    ensures Priced(Along(flat, b)) && SameTotal(AddAll(Along(flat, a)), AddAll(Along(flat, b)))
  {
    VisitsMembers(b, flat.Keys);
    AlongPermutes(flat, a, b);
    AddAllPermutes(Along(flat, a), Along(flat, b));
  }

  lemma GroupsAsPairs(resources: Resources, order: seq<string>, inner: map<string, seq<string>>)
    requires VisitsAll(resources, order, inner)
    ensures forall a <- order :: a in inner
    ensures Visits(PairsOf(order, inner), FlatMap(resources).Keys)
    ensures forall p <- PairsOf(order, inner) :: p in FlatMap(resources)
    ensures Flatten(Groups(resources, order, inner)) == Along(FlatMap(resources), PairsOf(order, inner))
    ensures PricedState(resources) ==> Priced(Along(FlatMap(resources), PairsOf(order, inner)))
  {
    VisitsIn(order, resources.Keys);
    PairsVisit(resources, order, inner);
    FlatGroups(resources, order, inner);
    if PricedState(resources) {
      GroupsPriced(resources, order, inner);
    }
  }

  lemma {:induction false} ZerosIgnored(costs: seq<Cost>, zeros: seq<Cost>)
    requires AllZero(zeros)
    ensures AddAll(costs + zeros) == AddAll(costs)
    decreases |zeros|
  {
    if zeros == [] {
      assert costs + zeros == costs;
    } else {
      assert (costs + zeros)[..|costs + zeros| - 1] == costs + zeros[..|zeros| - 1];
      ZerosIgnored(costs, zeros[..|zeros| - 1]);
    }
  }

  // `side` has the costs of `state` and otherwise only components without a cost.
  ghost predicate Pads(side: Resources, state: Resources) {
    && (forall p | InState(state, p) :: InState(side, p) && CostAt(side, p) == CostAt(state, p))
    && (forall p | InState(side, p) && !InState(state, p) :: CostAt(side, p) == Zero)
  }

  lemma PadsPriced(side: Resources, state: Resources)
    requires Pads(side, state) && PricedState(state)
    ensures PricedState(side)
  {
    forall c | HasCost(side, c) ensures Named(c) {
      var a, l :| a in side && l in side[a].Components.Entries() && side[a].Components.entries[l].Cost() == c;
      assert InState(side, (a, l)) && CostAt(side, (a, l)) == c;
      if InState(state, (a, l)) {
        assert HasCost(state, c);
      }
    }
  }

  lemma PadAdds(small: map<Pair, Cost>, big: map<Pair, Cost>, pairs: seq<Pair>, extra: seq<Pair>)
    requires forall p <- pairs :: p in small && p in big && big[p] == small[p]
    requires forall p <- extra :: p in big && big[p] == Zero
    ensures forall p <- pairs + extra :: p in big
    ensures AddAll(Along(big, pairs + extra)) == AddAll(Along(small, pairs))
  {
    AlongConcat(big, pairs, extra);
    AlongAgrees(small, big, pairs);
    forall i | 0 <= i < |extra| ensures Along(big, extra)[i] == Zero {
      assert extra[i] in extra;
    }
    ZerosIgnored(Along(big, pairs), Along(big, extra));
  }

  lemma PadSplit(small: map<Pair, Cost>, big: map<Pair, Cost>) returns (pairs: seq<Pair>, all: seq<Pair>)
    requires forall p | p in small :: p in big && big[p] == small[p]
    requires forall p | p in big && p !in small :: big[p] == Zero
    ensures Visits(pairs, small.Keys) && Visits(all, big.Keys)
    ensures forall p <- pairs :: p in small
    ensures forall p <- all :: p in big
    ensures AddAll(Along(big, all)) == AddAll(Along(small, pairs))
  {
    var more := big.Keys - small.Keys;
    assert small.Keys + more == big.Keys;
    pairs := AnyOrder(small.Keys);
    var extra := AnyOrder(more);
    all := pairs + extra;
    SplitVisit(small.Keys, more, pairs, extra);
    VisitsMembers(pairs, small.Keys);
    VisitsMembers(extra, more);
    PadAdds(small, big, pairs, extra);
  }

  /** Components without a cost change neither the outcome nor the total. */
  lemma PaddingIsFree(side: Resources, state: Resources, a: Total, b: Total)
    requires Pads(side, state) && PricedState(state)
    requires CostOutcome(state, a) && CostOutcome(side, b)
    ensures SameTotal(a, b)
  {
    PadsFlat(side, state);
    var pairs, all := PadSplit(FlatMap(state), FlatMap(side));
    PadsPriced(side, state);
    StateCostIsPairs(state, a, pairs);
    StateCostIsPairs(side, b, all);
  }

  lemma PadsFlat(side: Resources, state: Resources)
    requires Pads(side, state)
    ensures var small, big := FlatMap(state), FlatMap(side);
            && (forall p | p in small :: p in big && big[p] == small[p])
            && (forall p | p in big && p !in small :: big[p] == Zero)
  {
  }

  lemma SplitVisit(x: set<Pair>, y: set<Pair>, a: seq<Pair>, b: seq<Pair>)
    requires Visits(a, x) && Visits(b, y) && x !! y
    ensures Visits(a + b, x + y)
  {
    assert multiset(x + y) == multiset(x) + multiset(y);
  }
}
