/** From a tree of HCL modules to queries: a resource is expanded if the provider
    it refers to is known, and its query is built by the provider found under its
    type (terraform/hcl.go). */
module HclQueries {
  import opened Wrappers
  import opened Numerals
  import opened CountExpansion
  import opened ModuleTrees

  // A resource names its provider's type and may refer to one by an alias of it.
  datatype HclResource = HclResource(Type: string, Name: string, Provider: string, Ref: Option<string>, Repeat: Repeat) {
    function Key(): string {
      if Ref.Some? then Ref.value else Provider
    }
  }

  datatype Pass = Pass(InParent: string, InChild: string)

  datatype TreeCall = TreeCall(Count: int, Passed: seq<Pass>, Tree: HclTree)

  datatype HclTree = HclTree(Resources: map<string, HclResource>, Calls: map<string, TreeCall>)

  type Providers = map<string, Provider>

  // The providers of a child: those of its parent, or the known ones it is passed.
  function Handed(providers: Providers, passed: seq<Pass>): (child: Providers) {
    if passed == [] then map[] else
      var child, last := Handed(providers, passed[..|passed| - 1]), passed[|passed| - 1];
      if last.InParent in providers then child[last.InChild := providers[last.InParent]] else child
  }

  // Passing i gives the child a known provider under this name, and no later one does.
  ghost predicate Gives(providers: Providers, passed: seq<Pass>, name: string, i: nat) {
    && i < |passed| && passed[i].InChild == name && passed[i].InParent in providers
    && forall j | i < j < |passed| && passed[j].InChild == name :: passed[j].InParent !in providers
  }

  lemma {:induction false} HandedExactly(providers: Providers, passed: seq<Pass>, name: string)
    ensures name in Handed(providers, passed) <==> exists i: nat :: Gives(providers, passed, name, i)
    ensures forall i: nat | Gives(providers, passed, name, i) ::
              name in Handed(providers, passed) && Handed(providers, passed)[name] == providers[passed[i].InParent]
  {
    if passed != [] {
      var n := |passed| - 1;
      HandedExactly(providers, passed[..n], name);
      if passed[n].InChild == name && passed[n].InParent in providers {
        assert Gives(providers, passed, name, n);
      } else {
        forall i: nat ensures Gives(providers, passed, name, i) <==> Gives(providers, passed[..n], name, i) {
          GivesEarlier(providers, passed, name, i);
        }
      }
    }
  }

  lemma GivesEarlier(providers: Providers, passed: seq<Pass>, name: string, i: nat)
    requires passed != []
    requires var last := passed[|passed| - 1]; last.InChild != name || last.InParent !in providers
    ensures Gives(providers, passed, name, i) <==> Gives(providers, passed[..|passed| - 1], name, i)
  {
    var n := |passed| - 1;
    assert forall j | 0 <= j < n :: passed[..n][j] == passed[j];
  }

  function PassedOn(providers: Providers, passed: seq<Pass>): Providers {
    if passed == [] then providers else Handed(providers, passed)
  }

  /** A child that is passed no providers has its parent's; otherwise it has exactly
      those it is passed and its parent knows, each under the name it is given last. */
  lemma PassedOnExactly(providers: Providers, passed: seq<Pass>, name: string)
    ensures passed == [] ==> PassedOn(providers, passed) == providers
    ensures passed != [] ==> (name in PassedOn(providers, passed) <==> exists i: nat :: Gives(providers, passed, name, i))
    ensures forall i: nat | Gives(providers, passed, name, i) ::
              name in PassedOn(providers, passed) && PassedOn(providers, passed)[name] == providers[passed[i].InParent]
  {
    HandedExactly(providers, passed, name);
  }

  method PassProviders(providers: Providers, passed: seq<Pass>) returns (child: Providers)
    ensures child == PassedOn(providers, passed)
  {
    if |passed| == 0 {
      return providers;
    }
    child := map[];
    for i := 0 to |passed|
      invariant child == Handed(providers, passed[..i])
    {
      assert passed[..i + 1][..i] == passed[..i];
      if passed[i].InParent in providers {
        child := child[passed[i].InChild := providers[passed[i].InParent]];
      }
    }
    assert passed[..|passed|] == passed;
  }

  function ProvidersOf(providers: Providers, t: HclTree, k: string): Providers
    requires k in t.Calls
  {
    PassedOn(providers, t.Calls[k].Passed)
  }

  // What the expansion needs to know: whether the first lookup succeeds.
  function Looked(providers: Providers, res: HclResource): ManagedResource {
    ManagedResource(res.Type, res.Name, res.Provider, res.Repeat, res.Key() in providers)
  }

  function LookedAll(providers: Providers, resources: map<string, HclResource>): Managed {
    map rk | rk in resources :: Looked(providers, resources[rk])
  }

  function Resolve(providers: Providers, t: HclTree): HclModule
    decreases t
  {
    HclModule(LookedAll(providers, t.Resources),
              map k | k in t.Calls :: HclCall(t.Calls[k].Count, Resolve(ProvidersOf(providers, t, k), t.Calls[k].Tree)))
  }

  ghost predicate NamedTree(t: HclTree) {
    && (forall rk | rk in t.Resources :: exists x :: ResourceKey(rk, x))
    && (forall k | k in t.Calls :: Identifier(k) && NamedTree(t.Calls[k].Tree))
  }

  lemma {:induction false} ResolvedNames(providers: Providers, t: HclTree)
    requires NamedTree(t)
    ensures WellNamed(Resolve(providers, t))
    decreases t
  {
    var m := Resolve(providers, t);
    forall k | k in m.Calls ensures Identifier(k) && WellNamed(m.Calls[k].Module) {
      ResolvedNames(ProvidersOf(providers, t, k), t.Calls[k].Tree);
    }
  }

  // ----- the second lookup -----

  // The expansion has something to make a query of.
  predicate Expands(providers: Providers, res: HclResource, count: int) {
    res.Key() in providers && Copies(count) > 0 && HowMany(res.Repeat) > 0
  }

  // The provider found under the type is missing, or is another one.
  predicate Missing(providers: Providers, res: HclResource, count: int) {
    Expands(providers, res, count) && res.Provider !in providers
  }

  predicate Mistaken(providers: Providers, res: HclResource, count: int) {
    Expands(providers, res, count) && res.Provider in providers && providers[res.Provider] != providers[res.Key()]
  }

  ghost predicate CrashesHere(providers: Providers, t: HclTree, count: int) {
    exists rk | rk in t.Resources :: Missing(providers, t.Resources[rk], count)
  }

  ghost predicate CrashesIn(providers: Providers, t: HclTree, count: int)
    decreases t
  {
    || CrashesHere(providers, t, count)
    || exists k | k in t.Calls :: CrashesIn(ProvidersOf(providers, t, k), t.Calls[k].Tree, t.Calls[k].Count)
  }

  ghost predicate CrashesBelow(providers: Providers, t: HclTree, k: string) {
    k in t.Calls && CrashesIn(ProvidersOf(providers, t, k), t.Calls[k].Tree, t.Calls[k].Count)
  }

  lemma CrashesSomewhere(providers: Providers, t: HclTree, count: int)
    ensures CrashesIn(providers, t, count) <==> CrashesHere(providers, t, count) || exists k :: CrashesBelow(providers, t, k)
  {
    if k :| CrashesBelow(providers, t, k) {
      assert k in t.Calls;
    }
    if k :| k in t.Calls && CrashesIn(ProvidersOf(providers, t, k), t.Calls[k].Tree, t.Calls[k].Count) {
      assert CrashesBelow(providers, t, k);
    }
  }

  // The entry of one instance of a resource in one copy of its module, field by field.
  ghost predicate EntryFor(place: Place, rk: string, res: HclResource, mc: nat, inst: Instance, e: Entry) {
    && mc < place.Count && IsInstance(res.Repeat, inst)
    && e.Address == (if place.Module == "" then "" else if place.Count > 1 then place.Module + "[" + Numeral(mc) + "]."
                     else place.Module + ".")
                    + rk + (match inst case Single => "" case Nth(i) => "[" + Numeral(i) + "]" case Keyed(k) => "[" + k + "]")
    && e.Index == (if inst.Nth? then inst.i else 0)
    && e.Type == res.Type && e.Name == res.Name && e.ProviderName == res.Provider
  }

  ghost predicate Entered(place: Place, rk: string, res: HclResource, e: Entry) {
    exists mc: nat, inst :: EntryFor(place, rk, res, mc, inst, e)
  }

  // The entry is that of an instance of the resource, and the provider
  // under its type built the query; if `right`, that is the one it refers to.
  ghost predicate Builds(providers: Providers, t: HclTree, place: Place, rk: string, q: Query, right: bool) {
    && rk in t.Resources && t.Resources[rk].Key() in providers && t.Resources[rk].Provider in providers
    && IsAddress(place, place.Copies(), rk, t.Resources[rk].Repeat, q.Entry.Address)
    && Entered(place, rk, t.Resources[rk], q.Entry) && q.By == providers[t.Resources[rk].Provider]
    && (right ==> q.By == providers[t.Resources[rk].Key()])
  }

  ghost predicate BuiltHere(providers: Providers, t: HclTree, names: seq<string>, count: int, q: Query, right: bool) {
    exists rk :: Builds(providers, t, PlaceOf(names, count), rk, q, right)
  }

  ghost predicate BuiltIn(providers: Providers, t: HclTree, names: seq<string>, count: int, q: Query, right: bool)
    decreases t
  {
    || BuiltHere(providers, t, names, count, q, right)
    || exists k | k in t.Calls ::
         BuiltIn(ProvidersOf(providers, t, k), t.Calls[k].Tree, names + [k], t.Calls[k].Count, q, right)
  }

  ghost predicate BuiltBelow(providers: Providers, t: HclTree, names: seq<string>, k: string, q: Query, right: bool) {
    k in t.Calls && BuiltIn(ProvidersOf(providers, t, k), t.Calls[k].Tree, names + [k], t.Calls[k].Count, q, right)
  }

  lemma BuiltSomewhere(providers: Providers, t: HclTree, names: seq<string>, count: int, q: Query, right: bool)
    ensures BuiltIn(providers, t, names, count, q, right) <==>
              BuiltHere(providers, t, names, count, q, right) || exists k :: BuiltBelow(providers, t, names, k, q, right)
  {
    if k :| BuiltBelow(providers, t, names, k, q, right) {
      assert k in t.Calls;
    }
    if k :| k in t.Calls &&
            BuiltIn(ProvidersOf(providers, t, k), t.Calls[k].Tree, names + [k], t.Calls[k].Count, q, right) {
      assert BuiltBelow(providers, t, names, k, q, right);
    }
  }

  // One query per entry, in any order; an entry whose provider type is not known
  // crashes the program.
  method QueryEach(providers: Providers, rss: Entries) returns (ok: bool, queries: seq<Query>)
    requires forall a | a in rss :: rss[a].Address == a
    ensures ok <==> forall a | a in rss :: rss[a].ProviderName in providers
    ensures ok ==> Distinct(queries) && |queries| == |rss| && forall a :: Has(queries, a) <==> a in rss
    ensures ok ==> forall q <- queries :: IsQuery(providers, rss, q)
  {
    queries := [];
    var rest := rss.Keys;
    while rest != {}
      invariant rest <= rss.Keys && Distinct(queries) && |queries| + |rest| == |rss|
      invariant forall a :: Has(queries, a) <==> a in rss && a !in rest
      invariant forall a | a in rss && a !in rest :: rss[a].ProviderName in providers
      invariant forall q <- queries :: IsQuery(providers, rss, q)
    {
      var a :| a in rest;
      if rss[a].ProviderName !in providers {
        return false, [];
      }
      var q := Query(rss[a], providers[rss[a].ProviderName]);
      ListNext(queries, q);
      queries, rest := queries + [q], rest - {a};
    }
    ok := true;
  }

  ghost predicate IsQuery(providers: Providers, rss: Entries, q: Query) {
    && q.Entry.Address in rss && q.Entry == rss[q.Entry.Address]
    && q.Entry.ProviderName in providers && q.By == providers[q.Entry.ProviderName]
  }

  // ----- one module -----

  ghost predicate PlainKeys(t: HclTree) {
    forall rk | rk in t.Resources :: '[' !in rk
  }

  lemma NamedKeys(t: HclTree)
    requires NamedTree(t)
    ensures PlainKeys(t)
  {
    forall rk | rk in t.Resources ensures '[' !in rk {
      var x :| ResourceKey(rk, x);
      KeyPlain(rk, x);
    }
  }

  // What the expansion of the module has left.
  ghost predicate ExpandedAs(providers: Providers, t: HclTree, place: Place, rss: Entries) {
    var resources := LookedAll(providers, t.Resources);
    place.Valid() && PlainKeys(t) && Expanded(place, resources, resources.Keys, rss) && Described(place, resources, rss)
  }

  lemma EntryOfResource(providers: Providers, t: HclTree, place: Place, rss: Entries, a: string) returns (rk: string)
    requires ExpandedAs(providers, t, place, rss) && a in rss
    ensures rk in t.Resources && Expands(providers, t.Resources[rk], place.Count)
    ensures IsAddress(place, place.Copies(), rk, t.Resources[rk].Repeat, a) && Entered(place, rk, t.Resources[rk], rss[a])
  {
    var resources := LookedAll(providers, t.Resources);
    rk :| DescribedBy(place, resources, rk, rss[a]);
    var mc :| 0 <= mc < place.Copies() && Made(place.Part(mc) + rk, resources[rk], rss[a]);
    var inst :| IsInstance(resources[rk].Repeat, inst) && rss[a] == EntryOf(place.Part(mc) + rk, resources[rk], inst);
    assert a == Address(place, mc, rk, inst);
    assert EntryFor(place, rk, t.Resources[rk], mc, inst, rss[a]);
    SomeInstance(resources[rk].Repeat, inst);
  }

  lemma SomeInstance(r: Repeat, inst: Instance)
    requires IsInstance(r, inst)
    ensures HowMany(r) > 0
  {
    if r.ForEach? && r.keys != {} {
      assert |r.keys| > 0;
    }
  }

  // A resource that expands has an entry.
  lemma ResourceHasEntry(providers: Providers, t: HclTree, place: Place, rk: string) returns (a: string)
    requires rk in t.Resources && Expands(providers, t.Resources[rk], place.Count)
    ensures IsAddress(place, place.Copies(), rk, t.Resources[rk].Repeat, a)
  {
    var inst := InstanceOf(t.Resources[rk].Repeat);
    a := Address(place, 0, rk, inst);
  }

  lemma InstanceOf(r: Repeat) returns (inst: Instance)
    requires HowMany(r) > 0
    ensures IsInstance(r, inst)
  {
    match r
    case Count(n) => inst := if n == 1 then Single else Nth(0);
    case ForEach(keys) =>
      if keys == {} || "" in keys {
        inst := Single;
      } else {
        var k :| k in keys;
        inst := Keyed(k);
      }
  }

  lemma SameResource(place: Place, t: HclTree, rk: string, other: string, a: string)
    requires place.Valid() && PlainKeys(t) && rk in t.Resources && other in t.Resources
    requires IsAddress(place, place.Copies(), rk, t.Resources[rk].Repeat, a)
    requires IsAddress(place, place.Copies(), other, t.Resources[other].Repeat, a)
    ensures rk == other
  {
    var mc, s :| 0 <= mc < place.Copies() && IsInstance(t.Resources[rk].Repeat, s) && a == Address(place, mc, rk, s);
    var mc', s' :| 0 <= mc' < place.Copies() && IsInstance(t.Resources[other].Repeat, s') && a == Address(place, mc', other, s');
    AddressInjective(place, mc, rk, s, mc', other, s');
  }

  lemma CrashesHereExactly(providers: Providers, t: HclTree, place: Place, rss: Entries)
    requires ExpandedAs(providers, t, place, rss)
    ensures (exists a | a in rss :: rss[a].ProviderName !in providers) <==> CrashesHere(providers, t, place.Count)
  {
    if a :| a in rss && rss[a].ProviderName !in providers {
      var rk := EntryOfResource(providers, t, place, rss, a);
    }
    if rk :| rk in t.Resources && Missing(providers, t.Resources[rk], place.Count) {
      var a := ResourceHasEntry(providers, t, place, rk);
      assert LookedAll(providers, t.Resources)[rk].KnownProvider;
      assert a in rss;
      var other := EntryOfResource(providers, t, place, rss, a);
      SameResource(place, t, rk, other, a);
    }
  }

  lemma QueryIsBuilt(providers: Providers, t: HclTree, place: Place, rss: Entries, q: Query)
    requires ExpandedAs(providers, t, place, rss) && IsQuery(providers, rss, q)
    ensures exists rk :: Builds(providers, t, place, rk, q, false)
  {
    var rk := EntryOfResource(providers, t, place, rss, q.Entry.Address);
    assert Builds(providers, t, place, rk, q, false);
  }

  method ExtractHere(providers: Providers, ghost names: seq<string>, path: string, t: HclTree, count: int)
    returns (ok: bool, queries: seq<Query>)
    requires path == ModulePath(names) && Identifiers(names) && NamedTree(t) && (names == [] ==> count == 1)
    ensures ok <==> !CrashesHere(providers, t, count)
    ensures ok ==> Distinct(queries) && |queries| == Times(Copies(count), SumOf(OnceEach(Resolve(providers, t))))
    ensures ok ==> forall a :: Has(queries, a) <==> InHere(Resolve(providers, t), names, count, a)
    ensures ok ==> forall q <- queries :: BuiltHere(providers, t, names, count, q, false)
  {
    PlaceIsValid(names, t, count);
    var rss, order := Expand(Place(path, count), LookedAll(providers, t.Resources));
    ok, queries := QueryEach(providers, rss);
    CrashesHereExactly(providers, t, Place(path, count), rss);
    TotalIsSum(path, Resolve(providers, t), count, order);
    if ok {
      QueriesAreBuilt(providers, t, Place(path, count), rss, queries);
    }
  }

  lemma PlaceIsValid(names: seq<string>, t: HclTree, count: int)
    requires Identifiers(names) && NamedTree(t) && (names == [] ==> count == 1)
    ensures PlaceOf(names, count).Valid() && PlainKeys(t)
  {
    NamedKeys(t);
    if names != [] {
      NonEmptyPrefix(names, names);
    }
  }

  lemma QueriesAreBuilt(providers: Providers, t: HclTree, place: Place, rss: Entries, queries: seq<Query>)
    requires ExpandedAs(providers, t, place, rss) && forall q <- queries :: IsQuery(providers, rss, q)
    ensures forall q <- queries :: exists rk :: Builds(providers, t, place, rk, q, false)
  {
    forall q | q in queries ensures exists rk :: Builds(providers, t, place, rk, q, false) {
      QueryIsBuilt(providers, t, place, rss, q);
    }
  }

  // ----- the tree -----

  /** The whole of extractHCLModule, visiting resources, entries and calls in any
      order: it crashes exactly when some resource that expands refers to a known
      provider and none is known under its type; otherwise there is exactly one
      query per instance, copy of its module and resource with a known provider, at
      every depth, under different addresses, built by the provider of its type. */
  method Extract(providers: Providers, ghost names: seq<string>, path: string, t: HclTree, count: int)
    returns (ok: bool, queries: seq<Query>)
    requires path == ModulePath(names) && Identifiers(names) && NamedTree(t) && (names == [] ==> count == 1)
    ensures ok <==> !CrashesIn(providers, t, count)
    ensures ok ==> Distinct(queries) && |queries| == TreeTotal(Resolve(providers, t), count)
    ensures ok ==> forall a :: Has(queries, a) <==> InTree(Resolve(providers, t), names, count, a)
    ensures ok ==> forall q <- queries :: BuiltIn(providers, t, names, count, q, false)
    decreases t, 2
  {
    ok, queries := ExtractHere(providers, names, path, t, count);
    CrashesSomewhere(providers, t, count);
    if ok {
      WalkStarts(Resolve(providers, t), names, count, queries);
      ok, queries := ExtractCalls(providers, names, path, t, count, queries);
      if ok {
        WalkEnds(Resolve(providers, t), names, count, queries);
      }
    }
  }

  // The child modules, in any order.
  method ExtractCalls(providers: Providers, ghost names: seq<string>, path: string, t: HclTree, ghost count: int, here: seq<Query>)
    returns (ok: bool, queries: seq<Query>)
    requires path == ModulePath(names) && Identifiers(names) && NamedTree(t)
    requires Walked(Resolve(providers, t), names, count, t.Calls.Keys, here)
    requires AllBuilt(providers, t, names, count, here)
    ensures ok <==> !exists k :: CrashesBelow(providers, t, k)
    ensures ok ==> Walked(Resolve(providers, t), names, count, {}, queries)
    ensures ok ==> |queries| == |here| + SumOf(CallTotals(Resolve(providers, t)))
    ensures ok ==> AllBuilt(providers, t, names, count, queries)
    decreases t, 1
  {
    queries := here;
    ghost var order: seq<string> := [];
    var rest := t.Calls.Keys;
    assert Extracting(providers, t, names, count, order, rest, |here|, queries);
    while rest != {}
      invariant rest <= t.Calls.Keys && Extracting(providers, t, names, count, order, rest, |here|, queries)
    {
      var k :| k in rest;
      var more;
      ok, more := ExtractCall(providers, names, path, t, k);
      if !ok {
        return false, [];
      }
      ExtractNext(providers, t, names, count, order, rest, |here|, queries, k, more);
      queries, order, rest := queries + more, order + [k], rest - {k};
    }
    ModuleTrees.CountedAll(CallTotals(Resolve(providers, t)), order, |queries| - |here|);
    ok := true;
  }

  // The loop over the calls has those in `rest` left, and there were n queries before it.
  ghost predicate Extracting(providers: Providers, t: HclTree, names: seq<string>, count: int, order: seq<string>,
                             rest: set<string>, n: nat, queries: seq<Query>)
  {
    && Visiting(Resolve(providers, t), names, count, order, rest, n, queries)
    && NoCrash(providers, t, rest)
    && AllBuilt(providers, t, names, count, queries)
  }

  ghost predicate NoCrash(providers: Providers, t: HclTree, rest: set<string>) {
    forall k | k !in rest :: !CrashesBelow(providers, t, k)
  }

  ghost predicate AllBuilt(providers: Providers, t: HclTree, names: seq<string>, count: int, queries: seq<Query>) {
    forall q <- queries :: BuiltIn(providers, t, names, count, q, false)
  }

  lemma NoCrashNext(providers: Providers, t: HclTree, rest: set<string>, k: string)
    requires NoCrash(providers, t, rest) && !CrashesBelow(providers, t, k)
    ensures NoCrash(providers, t, rest - {k})
  {
  }

  lemma ExtractNext(providers: Providers, t: HclTree, names: seq<string>, count: int, order: seq<string>,
                    rest: set<string>, n: nat, queries: seq<Query>, k: string, more: seq<Query>)
    requires NamedTree(t) && Identifiers(names) && k in rest && k in t.Calls && !CrashesBelow(providers, t, k)
    requires Extracting(providers, t, names, count, order, rest, n, queries)
    requires Distinct(more) && |more| == CallTotals(Resolve(providers, t))[k]
    requires forall a :: Has(more, a) <==> Below(Resolve(providers, t), names, k, a)
    requires forall q <- more :: BuiltBelow(providers, t, names, k, q, false)
    ensures Extracting(providers, t, names, count, order + [k], rest - {k}, n, queries + more)
  {
    ResolvedNames(providers, t);
    VisitCall(Resolve(providers, t), names, count, order, rest, n, queries, k, more);
    MoreBuilt(providers, t, names, count, k, queries, more);
    NoCrashNext(providers, t, rest, k);
  }

  lemma MoreBuilt(providers: Providers, t: HclTree, names: seq<string>, count: int, k: string, queries: seq<Query>, more: seq<Query>)
    requires AllBuilt(providers, t, names, count, queries)
    requires forall q <- more :: BuiltBelow(providers, t, names, k, q, false)
    ensures AllBuilt(providers, t, names, count, queries + more)
  {
    forall q | q in more ensures BuiltIn(providers, t, names, count, q, false) {
      BuiltSomewhere(providers, t, names, count, q, false);
    }
  }

  method ExtractCall(providers: Providers, ghost names: seq<string>, path: string, t: HclTree, k: string)
    returns (ok: bool, more: seq<Query>)
    requires path == ModulePath(names) && Identifiers(names) && NamedTree(t) && k in t.Calls
    ensures ok <==> !CrashesBelow(providers, t, k)
    ensures ok ==> Distinct(more) && |more| == CallTotals(Resolve(providers, t))[k]
    ensures ok ==> forall a :: Has(more, a) <==> Below(Resolve(providers, t), names, k, a)
    ensures ok ==> forall q <- more :: BuiltBelow(providers, t, names, k, q, false)
    decreases t, 0
  {
    var call := t.Calls[k];
    var childProviders := PassProviders(providers, call.Passed);
    PathNext(names, k);
    var nextPath := if path != "" then path + ".module." + k else "module." + k;
    ok, more := Extract(childProviders, names + [k], nextPath, call.Tree, call.Count);
  }

  // ----- whose provider builds the query -----

  ghost predicate MistakenHere(providers: Providers, t: HclTree, count: int) {
    exists rk | rk in t.Resources :: Mistaken(providers, t.Resources[rk], count)
  }

  ghost predicate MistakenIn(providers: Providers, t: HclTree, count: int)
    decreases t
  {
    || MistakenHere(providers, t, count)
    || exists k | k in t.Calls :: MistakenIn(ProvidersOf(providers, t, k), t.Calls[k].Tree, t.Calls[k].Count)
  }

  lemma BuildsExpands(providers: Providers, t: HclTree, place: Place, rk: string, q: Query)
    requires Builds(providers, t, place, rk, q, false)
    ensures Expands(providers, t.Resources[rk], place.Count)
  {
    var mc, inst :| 0 <= mc < place.Copies() && IsInstance(t.Resources[rk].Repeat, inst) &&
                    q.Entry.Address == Address(place, mc, rk, inst);
    SomeInstance(t.Resources[rk].Repeat, inst);
  }

  lemma {:induction false} NoneMistaken(providers: Providers, t: HclTree, names: seq<string>, count: int, q: Query)
    requires BuiltIn(providers, t, names, count, q, false) && !MistakenIn(providers, t, count)
    ensures BuiltIn(providers, t, names, count, q, true)
    decreases t
  {
    BuiltSomewhere(providers, t, names, count, q, false);
    BuiltSomewhere(providers, t, names, count, q, true);
    if rk :| Builds(providers, t, PlaceOf(names, count), rk, q, false) {
      BuildsExpands(providers, t, PlaceOf(names, count), rk, q);
      assert Builds(providers, t, PlaceOf(names, count), rk, q, true);
    } else {
      var k :| BuiltBelow(providers, t, names, k, q, false);
      NoneMistaken(ProvidersOf(providers, t, k), t.Calls[k].Tree, names + [k], t.Calls[k].Count, q);
      assert BuiltBelow(providers, t, names, k, q, true);
    }
  }

  // The address of an instance whose query the wrong provider builds.
  ghost predicate MistakenAt(providers: Providers, t: HclTree, names: seq<string>, count: int, a: string)
    decreases t
  {
    || MistakenHereAt(providers, t, names, count, a)
    || exists k | k in t.Calls ::
         MistakenAt(ProvidersOf(providers, t, k), t.Calls[k].Tree, names + [k], t.Calls[k].Count, a)
  }

  ghost predicate MistakenHereAt(providers: Providers, t: HclTree, names: seq<string>, count: int, a: string) {
    exists rk | rk in t.Resources && Mistaken(providers, t.Resources[rk], count) ::
      IsAddress(PlaceOf(names, count), PlaceOf(names, count).Copies(), rk, t.Resources[rk].Repeat, a)
  }

  lemma {:induction false} MistakenSomewhere(providers: Providers, t: HclTree, names: seq<string>, count: int) returns (a: string)
    requires MistakenIn(providers, t, count)
    ensures MistakenAt(providers, t, names, count, a)
    decreases t
  {
    if rk :| rk in t.Resources && Mistaken(providers, t.Resources[rk], count) {
      a := ResourceHasEntry(providers, t, PlaceOf(names, count), rk);
      assert MistakenHereAt(providers, t, names, count, a);
    } else {
      var k :| k in t.Calls && MistakenIn(ProvidersOf(providers, t, k), t.Calls[k].Tree, t.Calls[k].Count);
      a := MistakenSomewhere(ProvidersOf(providers, t, k), t.Calls[k].Tree, names + [k], t.Calls[k].Count);
    }
  }

  lemma MistakenIsHere(providers: Providers, t: HclTree, names: seq<string>, count: int, a: string)
    requires MistakenHereAt(providers, t, names, count, a)
    ensures InHere(Resolve(providers, t), names, count, a)
  {
    var rk :| rk in t.Resources && Mistaken(providers, t.Resources[rk], count) &&
              IsAddress(PlaceOf(names, count), PlaceOf(names, count).Copies(), rk, t.Resources[rk].Repeat, a);
    assert Resolve(providers, t).Resources[rk] == Looked(providers, t.Resources[rk]);
  }

  lemma BuiltIsHere(providers: Providers, t: HclTree, names: seq<string>, count: int, q: Query, right: bool)
    requires BuiltHere(providers, t, names, count, q, right)
    ensures InHere(Resolve(providers, t), names, count, q.Entry.Address)
  {
    var rk :| Builds(providers, t, PlaceOf(names, count), rk, q, right);
    assert Resolve(providers, t).Resources[rk] == Looked(providers, t.Resources[rk]);
  }

  lemma {:induction false} MistakenInTree(providers: Providers, t: HclTree, names: seq<string>, count: int, a: string)
    requires MistakenAt(providers, t, names, count, a)
    ensures InTree(Resolve(providers, t), names, count, a)
    decreases t
  {
    if MistakenHereAt(providers, t, names, count, a) {
      MistakenIsHere(providers, t, names, count, a);
    } else {
      var k :| k in t.Calls && MistakenAt(ProvidersOf(providers, t, k), t.Calls[k].Tree, names + [k], t.Calls[k].Count, a);
      MistakenInTree(ProvidersOf(providers, t, k), t.Calls[k].Tree, names + [k], t.Calls[k].Count, a);
      assert Below(Resolve(providers, t), names, k, a);
      TreeExactly(Resolve(providers, t), names, count, a);
    }
  }

  lemma {:induction false} BuiltInTree(providers: Providers, t: HclTree, names: seq<string>, count: int, q: Query, right: bool)
    requires BuiltIn(providers, t, names, count, q, right)
    ensures InTree(Resolve(providers, t), names, count, q.Entry.Address)
    decreases t
  {
    BuiltSomewhere(providers, t, names, count, q, right);
    if BuiltHere(providers, t, names, count, q, right) {
      BuiltIsHere(providers, t, names, count, q, right);
    } else {
      var k :| BuiltBelow(providers, t, names, k, q, right);
      BuiltInTree(ProvidersOf(providers, t, k), t.Calls[k].Tree, names + [k], t.Calls[k].Count, q, right);
      assert Below(Resolve(providers, t), names, k, q.Entry.Address);
      TreeExactly(Resolve(providers, t), names, count, q.Entry.Address);
    }
  }

  // A query at such an address is not the right one, wherever it is thought to come from.
  lemma {:induction false} MistakenIsWrong(providers: Providers, t: HclTree, names: seq<string>, count: int, q: Query)
    requires NamedTree(t) && Identifiers(names) && (names == [] ==> count == 1)
    requires MistakenAt(providers, t, names, count, q.Entry.Address)
    ensures !BuiltIn(providers, t, names, count, q, true)
    decreases t
  {
    var a := q.Entry.Address;
    BuiltSomewhere(providers, t, names, count, q, true);
    if MistakenHereAt(providers, t, names, count, a) {
      MistakenIsHere(providers, t, names, count, a);
      WrongHere(providers, t, names, count, q);
      forall k ensures !BuiltBelow(providers, t, names, k, q, true) {
        if BuiltBelow(providers, t, names, k, q, true) {
          NotHere(providers, t, names, count, k, q);
        }
      }
    } else {
      var k :| k in t.Calls && MistakenAt(ProvidersOf(providers, t, k), t.Calls[k].Tree, names + [k], t.Calls[k].Count, a);
      PathNext(names, k);
      MistakenIsWrong(ProvidersOf(providers, t, k), t.Calls[k].Tree, names + [k], t.Calls[k].Count, q);
      MistakenInTree(ProvidersOf(providers, t, k), t.Calls[k].Tree, names + [k], t.Calls[k].Count, a);
      OnlyBelow(providers, t, names, count, k, q);
    }
  }

  lemma NotHere(providers: Providers, t: HclTree, names: seq<string>, count: int, k: string, q: Query)
    requires NamedTree(t) && Identifiers(names) && BuiltBelow(providers, t, names, k, q, true)
    ensures !InHere(Resolve(providers, t), names, count, q.Entry.Address)
  {
    ResolvedNames(providers, t);
    BuiltInTree(ProvidersOf(providers, t, k), t.Calls[k].Tree, names + [k], t.Calls[k].Count, q, true);
    CallsApart(Resolve(providers, t), names, count, k, q.Entry.Address);
  }

  lemma OnlyBelow(providers: Providers, t: HclTree, names: seq<string>, count: int, k: string, q: Query)
    requires NamedTree(t) && Identifiers(names) && Below(Resolve(providers, t), names, k, q.Entry.Address)
    ensures !BuiltHere(providers, t, names, count, q, true)
    ensures forall l | BuiltBelow(providers, t, names, l, q, true) :: l == k
  {
    var m := Resolve(providers, t);
    ResolvedNames(providers, t);
    CallsApart(m, names, count, k, q.Entry.Address);
    if BuiltHere(providers, t, names, count, q, true) {
      BuiltIsHere(providers, t, names, count, q, true);
    }
    forall l | BuiltBelow(providers, t, names, l, q, true) ensures l == k {
      BuiltInTree(ProvidersOf(providers, t, l), t.Calls[l].Tree, names + [l], t.Calls[l].Count, q, true);
      assert Below(m, names, l, q.Entry.Address);
    }
  }

  lemma WrongHere(providers: Providers, t: HclTree, names: seq<string>, count: int, q: Query)
    requires NamedTree(t) && Identifiers(names) && (names == [] ==> count == 1)
    requires MistakenHereAt(providers, t, names, count, q.Entry.Address)
    ensures !BuiltHere(providers, t, names, count, q, true)
  {
    PlaceIsValid(names, t, count);
    var place := PlaceOf(names, count);
    var rk :| rk in t.Resources && Mistaken(providers, t.Resources[rk], count) &&
              IsAddress(place, place.Copies(), rk, t.Resources[rk].Repeat, q.Entry.Address);
    forall other ensures !Builds(providers, t, place, other, q, true) {
      if Builds(providers, t, place, other, q, true) {
        SameResource(place, t, rk, other, q.Entry.Address);
      }
    }
  }

  /** Of the queries that were extracted, all are built by the providers that their
      resources refer to exactly when no resource that expands refers to a known
      provider other than the one known under its type. */
  lemma RightProvidersExactly(providers: Providers, t: HclTree, queries: seq<Query>)
    requires NamedTree(t)
    requires forall a :: Has(queries, a) <==> InTree(Resolve(providers, t), [], 1, a)
    requires forall q <- queries :: BuiltIn(providers, t, [], 1, q, false)
    ensures (forall q <- queries :: BuiltIn(providers, t, [], 1, q, true)) <==> !MistakenIn(providers, t, 1)
  {
    if MistakenIn(providers, t, 1) {
      var a := MistakenSomewhere(providers, t, [], 1);
      MistakenInTree(providers, t, [], 1, a);
      var i :| 0 <= i < |queries| && queries[i].Entry.Address == a;
      MistakenIsWrong(providers, t, [], 1, queries[i]);
      assert queries[i] in queries;
    } else {
      forall q | q in queries ensures BuiltIn(providers, t, [], 1, q, true) {
        NoneMistaken(providers, t, [], 1, q);
      }
    }
  }

  const WEST := HclResource("aws_instance", "web", "aws", Some("aws.west"), Count(1))

  /** An instance with `provider = aws.west` crashes the extraction when that is the
      only provider, and is queried from the other one when there is one. */
  lemma AliasMisleads(west: Provider, other: Provider)
    requires west != other
    ensures CrashesIn(map["aws.west" := west], HclTree(map["aws_instance.web" := WEST], map[]), 1)
    ensures MistakenIn(map["aws.west" := west, "aws" := other], HclTree(map["aws_instance.web" := WEST], map[]), 1)
  {
    var t := HclTree(map["aws_instance.web" := WEST], map[]);
    assert t.Resources["aws_instance.web"] == WEST;
    assert Missing(map["aws.west" := west], WEST, 1);
    assert Mistaken(map["aws.west" := west, "aws" := other], WEST, 1);
  }
}
