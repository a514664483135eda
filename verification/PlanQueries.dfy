/** From a Terraform plan to resource queries: the configuration tree assigns
    providers to addresses, the values tree is then looked up by address
    (terraform/plan.go). */
module PlanQueries {
  import opened Wrappers
  import opened Orders
  import opened Strings
  import opened Addresses
  import opened Merge
  import opened Queries

  datatype ConfigResource = ConfigResource(Address: string, ProviderConfigKey: string, Expressions: Fields)

  datatype ConfigModule = ConfigModule(Resources: seq<ConfigResource>, Variables: Fields,
                                       ModuleCalls: map<string, Option<ConfigModule>>)

  datatype ValueResource = ValueResource(Address: string, Mode: string, Type: string, Values: Option<Fields>)

  datatype Module = Module(Resources: seq<ValueResource>, ChildModules: seq<Module>)

  datatype Provider = Provider(Name: string)

  datatype Assigned = Assigned(Provider: Provider, Values: Fields)

  type Assignments = map<string, Assigned>

  // The providers of the plan, the evaluation of resource expressions, the usage
  // of a resource type, and the components a provider makes of a resource.
  datatype Plan = Plan(Providers: map<string, Provider>,
                       Evaluate: (string, Fields, Fields) -> Result<Fields, string>,
                       Usage: string -> Val,
                       Components: (Provider, map<string, ValueResource>, ValueResource) -> seq<ComponentQuery>)

  // ----- the configuration tree -----

  function ProviderKey(res: ConfigResource): string {
    var key := res.ProviderConfigKey;
    if ':' in key then var parts := Split(key, ':'); parts[|parts| - 1] else key
  }

  predicate Known(p: Plan, res: ConfigResource) {
    ProviderKey(res) in p.Providers
  }

  // The module configured at a path of module calls.
  function ModuleAt(m: ConfigModule, path: seq<string>): Option<ConfigModule> {
    if path == [] then Some(m)
    else if path[0] in m.ModuleCalls && m.ModuleCalls[path[0]].Some? then ModuleAt(m.ModuleCalls[path[0]].value, path[1..])
    else None
  }

  // `res` is configured at `path` with a known provider.
  ghost predicate Configured(p: Plan, m: ConfigModule, path: seq<string>, res: ConfigResource) {
    ModuleAt(m, path).Some? && res in ModuleAt(m, path).value.Resources && Known(p, res)
  }

  // What evaluating the expressions of a resource configured at `path` gives.
  function Evaluated(p: Plan, m: ConfigModule, names: seq<string>, path: seq<string>, res: ConfigResource): Result<Fields, string>
    requires ModuleAt(m, path).Some?
  {
    p.Evaluate("module." + Prefix(names + path), res.Expressions, ModuleAt(m, path).value.Variables)
  }

  // Module calls have names.
  ghost predicate NamedCalls(m: ConfigModule) {
    forall k | k in m.ModuleCalls :: k != "" && (m.ModuleCalls[k].Some? ==> NamedCalls(m.ModuleCalls[k].value))
  }

  // The entry of `rp` at `key` comes from `res`, configured under `names + path`.
  ghost predicate ComesFrom(p: Plan, m: ConfigModule, names: seq<string>, rp: Assignments, key: string,
                            path: seq<string>, res: ConfigResource)
  {
    && Configured(p, m, path, res) && key == ConfigKey(names + path, res.Address)
    && key in rp && rp[key].Provider == p.Providers[ProviderKey(res)]
    && Evaluated(p, m, names, path, res) == Ok(rp[key].Values)
  }

  // The configuration has a resource with a known provider that cannot be evaluated.
  ghost predicate EvaluationFails(p: Plan, m: ConfigModule, names: seq<string>) {
    exists path, res :: FailsAt(p, m, names, path, res)
  }

  ghost predicate FailsAt(p: Plan, m: ConfigModule, names: seq<string>, path: seq<string>, res: ConfigResource) {
    Configured(p, m, path, res) && Evaluated(p, m, names, path, res).Err?
  }

  // What walking the module has added to `was`.
  ghost predicate Walked(p: Plan, m: ConfigModule, names: seq<string>, was: Assignments, rp: Assignments) {
    && (forall path, res | Configured(p, m, path, res) :: ConfigKey(names + path, res.Address) in rp)
    && Grown(p, m, names, was, rp)
  }

  ghost predicate Grown(p: Plan, m: ConfigModule, names: seq<string>, was: Assignments, rp: Assignments) {
    && was.Keys <= rp.Keys
    && forall key | key in rp && !(key in was && was[key] == rp[key]) ::
         exists path, res :: ComesFrom(p, m, names, rp, key, path, res)
  }

  // A resource of the module itself cannot be evaluated.
  ghost predicate FailsHere(p: Plan, m: ConfigModule, names: seq<string>) {
    exists res <- m.Resources :: Known(p, res) && p.Evaluate("module." + Prefix(names), res.Expressions, m.Variables).Err?
  }

  ghost predicate FailsBelow(p: Plan, m: ConfigModule, names: seq<string>, k: string) {
    k in m.ModuleCalls && m.ModuleCalls[k].Some? && EvaluationFails(p, m.ModuleCalls[k].value, names + [k])
  }

  lemma FailsExactly(p: Plan, m: ConfigModule, names: seq<string>)
    ensures EvaluationFails(p, m, names) <==> FailsHere(p, m, names) || exists k :: FailsBelow(p, m, names, k)
  {
    assert names + [] == names;
    if path, res :| FailsAt(p, m, names, path, res) {
      if path != [] {
        var k := path[0];
        assert names + [k] + path[1..] == names + path;
        assert FailsAt(p, m.ModuleCalls[k].value, names + [k], path[1..], res);
        assert FailsBelow(p, m, names, k);
      }
    }
    if FailsHere(p, m, names) {
      var res :| res in m.Resources && Known(p, res) &&
                 p.Evaluate("module." + Prefix(names), res.Expressions, m.Variables).Err?;
      assert FailsAt(p, m, names, [], res);
    }
    if k :| FailsBelow(p, m, names, k) {
      var path, res :| FailsAt(p, m.ModuleCalls[k].value, names + [k], path, res);
      FailsAbove(p, m, names, k, path, res);
    }
  }

  lemma FailsAbove(p: Plan, m: ConfigModule, names: seq<string>, k: string, path: seq<string>, res: ConfigResource)
    requires k in m.ModuleCalls && m.ModuleCalls[k].Some?
    requires FailsAt(p, m.ModuleCalls[k].value, names + [k], path, res)
    ensures FailsAt(p, m, names, [k] + path, res)
  {
    assert ([k] + path)[1..] == path;
    assert names + ([k] + path) == (names + [k]) + path;
  }

  // The resources of one module.
  method WalkResources(p: Plan, ghost names: seq<string>, prefix: string, m: ConfigModule, was: Assignments)
    returns (rp: Assignments, err: Option<string>)
    requires prefix == Prefix(names)
    ensures err.None? ==> forall res <- m.Resources | Known(p, res) :: ConfigKey(names, res.Address) in rp
    ensures err.Some? <==> FailsHere(p, m, names)
    ensures Grown(p, m, names, was, rp)
  {
    rp, err := was, None;
    assert names + [] == names;
    for i := 0 to |m.Resources|
      invariant forall res <- m.Resources[..i] | Known(p, res) ::
                  && ConfigKey(names, res.Address) in rp
                  && p.Evaluate("module." + prefix, res.Expressions, m.Variables).Ok?
      invariant Grown(p, m, names, was, rp)
    {
      var res := m.Resources[i];
      assert m.Resources[..i + 1] == m.Resources[..i] + [res];
      var addr := if prefix != "" then "module." + prefix + "." + res.Address else res.Address;
      if Known(p, res) {
        match p.Evaluate("module." + prefix, res.Expressions, m.Variables)
        case Err(e) => return rp, Some(e);
        case Ok(rv) =>
          rp := Record(p, names, m, was, rp, res, addr, rv);
      }
    }
    assert m.Resources[..|m.Resources|] == m.Resources;
  }

  method Record(p: Plan, ghost names: seq<string>, m: ConfigModule, ghost was: Assignments, rp: Assignments,
                res: ConfigResource, addr: string, rv: Fields)
    returns (next: Assignments)
    requires Grown(p, m, names, was, rp) && res in m.Resources && Known(p, res) && addr == ConfigKey(names, res.Address)
    requires p.Evaluate("module." + Prefix(names), res.Expressions, m.Variables) == Ok(rv)
    ensures next == rp[addr := Assigned(p.Providers[ProviderKey(res)], rv)]
    ensures Grown(p, m, names, was, next)
  {
    next := rp[addr := Assigned(p.Providers[ProviderKey(res)], rv)];
    forall key | key in next && !(key in was && was[key] == next[key])
      ensures exists path, r :: ComesFrom(p, m, names, next, key, path, r)
    {
      if key == addr {
        assert names + [] == names;
        assert ComesFrom(p, m, names, next, key, [], res);
      } else {
        var path, r :| ComesFrom(p, m, names, rp, key, path, r);
        assert ComesFrom(p, m, names, next, key, path, r);
      }
    }
  }

  lemma ComesFromChild(p: Plan, m: ConfigModule, names: seq<string>, rp: Assignments, key: string,
                       k: string, path: seq<string>, res: ConfigResource)
    requires k in m.ModuleCalls && m.ModuleCalls[k].Some?
    requires ComesFrom(p, m.ModuleCalls[k].value, names + [k], rp, key, path, res)
    ensures ComesFrom(p, m, names, rp, key, [k] + path, res)
  {
    assert ([k] + path)[1..] == path;
    assert names + ([k] + path) == (names + [k]) + path;
  }

  lemma GrownChild(p: Plan, m: ConfigModule, names: seq<string>, was: Assignments, rp: Assignments, next: Assignments, k: string)
    requires k in m.ModuleCalls && m.ModuleCalls[k].Some?
    requires Grown(p, m, names, was, rp) && Grown(p, m.ModuleCalls[k].value, names + [k], rp, next)
    ensures Grown(p, m, names, was, next)
  {
    forall key | key in next && !(key in was && was[key] == next[key])
      ensures exists path, res :: ComesFrom(p, m, names, next, key, path, res)
    {
      if key in rp && rp[key] == next[key] {
        var path, res :| ComesFrom(p, m, names, rp, key, path, res);
        assert ComesFrom(p, m, names, next, key, path, res);
      } else {
        var path, res :| ComesFrom(p, m.ModuleCalls[k].value, names + [k], next, key, path, res);
        ComesFromChild(p, m, names, next, key, k, path, res);
      }
    }
  }

  lemma PrefixNext(names: seq<string>, k: string)
    requires (forall n <- names :: n != "") && k != ""
    ensures Prefix(names + [k]) == if Prefix(names) != "" then Prefix(names) + ".module." + k else k
    ensures forall n <- names + [k] :: n != ""
  {
    ConfigKeyIsPlain(names, "");
    assert (names + [k])[..|names|] == names;
  }

  // The resources of a child are the resources of the module below its call.
  lemma ChildConfigured(p: Plan, m: ConfigModule, path: seq<string>, res: ConfigResource)
    requires Configured(p, m, path, res) && path != []
    ensures path[0] in m.ModuleCalls && m.ModuleCalls[path[0]].Some?
    ensures Configured(p, m.ModuleCalls[path[0]].value, path[1..], res)
  {
  }

  // The keys of the child at `k` are all assigned.
  ghost predicate ChildDone(p: Plan, m: ConfigModule, names: seq<string>, rp: Assignments, k: string)
    requires k in m.ModuleCalls && m.ModuleCalls[k].Some?
  {
    forall path, res | Configured(p, m.ModuleCalls[k].value, path, res) ::
      ConfigKey(names + [k] + path, res.Address) in rp
  }

  lemma DoneAt(p: Plan, m: ConfigModule, names: seq<string>, rp: Assignments, path: seq<string>, res: ConfigResource)
    requires Configured(p, m, path, res)
    requires path == [] ==> ConfigKey(names, res.Address) in rp
    requires path != [] && path[0] in m.ModuleCalls && m.ModuleCalls[path[0]].Some? ==> ChildDone(p, m, names, rp, path[0])
    ensures ConfigKey(names + path, res.Address) in rp
  {
    if path == [] {
      assert names + path == names;
    } else {
      ChildConfigured(p, m, path, res);
      assert names + [path[0]] + path[1..] == names + path;
    }
  }

  lemma AllDone(p: Plan, m: ConfigModule, names: seq<string>, was: Assignments, rp: Assignments)
    requires Grown(p, m, names, was, rp)
    requires forall res <- m.Resources | Known(p, res) :: ConfigKey(names, res.Address) in rp
    requires forall k | k in m.ModuleCalls && m.ModuleCalls[k].Some? :: ChildDone(p, m, names, rp, k)
    ensures Walked(p, m, names, was, rp)
  {
    forall path, res | Configured(p, m, path, res) ensures ConfigKey(names + path, res.Address) in rp {
      DoneAt(p, m, names, rp, path, res);
    }
  }

  /** extractModuleConfiguration: visiting the module calls in any order, it
      assigns every configured resource with a known provider its provider and its
      evaluated expressions, and nothing else; it fails exactly when an evaluation does. */
  method ExtractModuleConfiguration(p: Plan, ghost names: seq<string>, prefix: string, m: ConfigModule, was: Assignments)
    returns (rp: Assignments, err: Option<string>)
    requires prefix == Prefix(names) && (forall n <- names :: n != "") && NamedCalls(m)
    ensures err.None? ==> Walked(p, m, names, was, rp)
    ensures Grown(p, m, names, was, rp)
    ensures err.Some? <==> EvaluationFails(p, m, names)
    decreases m
  {
    rp, err := WalkResources(p, names, prefix, m, was);
    var rest := m.ModuleCalls.Keys;
    while err.None? && rest != {}
      invariant rest <= m.ModuleCalls.Keys
      invariant Grown(p, m, names, was, rp)
      invariant err.None? ==> forall res <- m.Resources | Known(p, res) :: ConfigKey(names, res.Address) in rp
      invariant err.None? ==>
                  forall k | k in m.ModuleCalls && k !in rest && m.ModuleCalls[k].Some? :: ChildDone(p, m, names, rp, k)
      invariant if err.None? then !FailsHere(p, m, names) && forall k | k !in rest :: !FailsBelow(p, m, names, k)
                else FailsHere(p, m, names) || exists k :: FailsBelow(p, m, names, k)
      decreases |rest|
    {
      var k :| k in rest;
      rest := rest - {k};
      if m.ModuleCalls[k].Some? {
        rp, err := ExtractChild(p, names, prefix, m, k, was, rp);
      }
    }
    FailsExactly(p, m, names);
    if err.None? {
      AllDone(p, m, names, was, rp);
    }
  }

  method ExtractChild(p: Plan, ghost names: seq<string>, prefix: string, m: ConfigModule, k: string,
                      ghost was: Assignments, rp: Assignments)
    returns (next: Assignments, err: Option<string>)
    requires prefix == Prefix(names) && (forall n <- names :: n != "") && NamedCalls(m)
    requires k in m.ModuleCalls && m.ModuleCalls[k].Some? && Grown(p, m, names, was, rp)
    ensures Grown(p, m, names, was, next) && rp.Keys <= next.Keys
    ensures err.None? ==> ChildDone(p, m, names, next, k)
    ensures err.Some? <==> FailsBelow(p, m, names, k)
    decreases m, 0
  {
    var nextPrefix := if prefix != "" then prefix + ".module." + k else k;
    PrefixNext(names, k);
    next, err := ExtractModuleConfiguration(p, names + [k], nextPrefix, m.ModuleCalls[k].value, rp);
    GrownChild(p, m, names, was, rp, next, k);
  }

  // ----- the values tree -----

  const USAGE_KEY := "tc_usage"

  predicate Qualifies(rp: Assignments, r: ValueResource) {
    Clean(r.Address) in rp && r.Mode == "managed"
  }

  function Qualified(rp: Assignments, rs: seq<ValueResource>): set<string> {
    set r | r in rs && Qualifies(rp, r) :: r.Address
  }

  function ValuesOf(r: ValueResource): Fields {
    if r.Values.None? then map[] else r.Values.value
  }

  // The resource with its configuration merged in; None when the merge crashes.
  function Prepared(p: Plan, rp: Assignments, r: ValueResource): Option<ValueResource>
    requires Qualifies(rp, r)
  {
    var config := rp[Clean(r.Address)].Values;
    if Mergeable(ValuesOf(r), config)
    then Some(r.(Values := Some(Merged(ValuesOf(r), config)[USAGE_KEY := p.Usage(r.Type)])))
    else None
  }

  // The last resource that qualifies under this address.
  ghost predicate LastAt(rp: Assignments, rs: seq<ValueResource>, a: string, i: nat) {
    && i < |rs| && Qualifies(rp, rs[i]) && rs[i].Address == a
    && forall j | i < j < |rs| && Qualifies(rp, rs[j]) :: rs[j].Address != a
  }

  ghost predicate Kept(p: Plan, rp: Assignments, rs: seq<ValueResource>, a: string, r: ValueResource) {
    exists i: nat :: LastAt(rp, rs, a, i) && Prepared(p, rp, rs[i]) == Some(r)
  }

  // The resources of a module by address, ready for the components; of two with
  // one address the last one is kept.
  ghost predicate Gathered(p: Plan, rp: Assignments, rs: seq<ValueResource>, rss: map<string, ValueResource>) {
    rss.Keys == Qualified(rp, rs) && forall a | a in rss :: Kept(p, rp, rs, a, rss[a])
  }

  lemma KeptOnce(p: Plan, rp: Assignments, rs: seq<ValueResource>, a: string, r: ValueResource, s: ValueResource)
    requires Kept(p, rp, rs, a, r) && Kept(p, rp, rs, a, s)
    ensures r == s && r.Address == a && Clean(a) in rp
  {
    var i: nat :| LastAt(rp, rs, a, i) && Prepared(p, rp, rs[i]) == Some(r);
    var j: nat :| LastAt(rp, rs, a, j) && Prepared(p, rp, rs[j]) == Some(s);
    assert i == j;
  }

  /** What is gathered is determined by the resources of the module. */
  lemma GatheredUnique(p: Plan, rp: Assignments, rs: seq<ValueResource>, x: map<string, ValueResource>, y: map<string, ValueResource>)
    requires Gathered(p, rp, rs, x) && Gathered(p, rp, rs, y)
    ensures x == y
  {
    forall a | a in x ensures x[a] == y[a] {
      KeptOnce(p, rp, rs, a, x[a], y[a]);
    }
  }

  method Gather(p: Plan, rp: Assignments, rs: seq<ValueResource>) returns (ok: bool, rss: map<string, ValueResource>)
    ensures ok <==> forall r <- rs | Qualifies(rp, r) :: Prepared(p, rp, r).Some?
    ensures ok ==> Gathered(p, rp, rs, rss)
  {
    rss := map[];
    for i := 0 to |rs|
      invariant Gathered(p, rp, rs[..i], rss)
      invariant forall r <- rs[..i] | Qualifies(rp, r) :: Prepared(p, rp, r).Some?
    {
      var tfres := rs[i];
      assert rs[..i + 1] == rs[..i] + [tfres];
      if !Qualifies(rp, tfres) {
        GatherSkips(p, rp, rs[..i], rss, tfres);
        continue;
      }
      var merged;
      ok, merged := MergeInto(ValuesOf(tfres), rp[Clean(tfres.Address)].Values);
      if !ok {
        assert tfres in rs && Prepared(p, rp, tfres).None?;
        return;
      }
      GatherNext(p, rp, rs[..i], rss, tfres);
      rss := rss[tfres.Address := tfres.(Values := Some(merged[USAGE_KEY := p.Usage(tfres.Type)]))];
    }
    assert rs[..|rs|] == rs;
    ok := true;
  }

  lemma GatherSkips(p: Plan, rp: Assignments, rs: seq<ValueResource>, rss: map<string, ValueResource>, r: ValueResource)
    requires Gathered(p, rp, rs, rss) && !Qualifies(rp, r)
    ensures Gathered(p, rp, rs + [r], rss)
  {
    QualifiedNext(rp, rs, r);
    forall a | a in rss ensures Kept(p, rp, rs + [r], a, rss[a]) {
      KeptNext(p, rp, rs, r, a, rss[a]);
    }
  }

  lemma GatherNext(p: Plan, rp: Assignments, rs: seq<ValueResource>, rss: map<string, ValueResource>, r: ValueResource)
    requires Gathered(p, rp, rs, rss) && Qualifies(rp, r) && Prepared(p, rp, r).Some?
    ensures Gathered(p, rp, rs + [r], rss[r.Address := Prepared(p, rp, r).value])
  {
    var next := rss[r.Address := Prepared(p, rp, r).value];
    QualifiedNext(rp, rs, r);
    forall a | a in next ensures Kept(p, rp, rs + [r], a, next[a]) {
      if a == r.Address {
        assert LastAt(rp, rs + [r], a, |rs|);
      } else {
        KeptNext(p, rp, rs, r, a, rss[a]);
      }
    }
  }

  lemma KeptNext(p: Plan, rp: Assignments, rs: seq<ValueResource>, r: ValueResource, a: string, kept: ValueResource)
    requires Kept(p, rp, rs, a, kept) && (Qualifies(rp, r) ==> r.Address != a)
    ensures Kept(p, rp, rs + [r], a, kept)
  {
    var i: nat :| LastAt(rp, rs, a, i) && Prepared(p, rp, rs[i]) == Some(kept);
    assert LastAt(rp, rs + [r], a, i);
  }

  function QueryOf(p: Plan, rp: Assignments, rss: map<string, ValueResource>, rs: ValueResource): ResourceQuery
    requires Clean(rs.Address) in rp
  {
    var provider := rp[Clean(rs.Address)].Provider;
    ResourceQuery(rs.Address, provider.Name, rs.Type, p.Components(provider, rss, rs))
  }

  // The query asks for what the assigned provider makes of the resource at its address.
  ghost predicate AsksOf(p: Plan, rp: Assignments, rss: map<string, ValueResource>, q: ResourceQuery) {
    && q.Address in rss && Clean(q.Address) in rp
    && var r, provider := rss[q.Address], rp[Clean(q.Address)].Provider;
       q.Type == r.Type && q.Provider == provider.Name && q.Components == p.Components(provider, rss, r)
  }

  lemma {:induction false} AddressesConcat(a: seq<ResourceQuery>, b: seq<ResourceQuery>)
    ensures AddressesOf(a + b) == AddressesOf(a) + AddressesOf(b)
    decreases |b|
  {
    if b == [] {
      assert a + b == a;
    } else {
      assert (a + b)[..|a + b| - 1] == a + b[..|b| - 1];
      AddressesConcat(a, b[..|b| - 1]);
    }
  }

  ghost predicate WellAddressed(rp: Assignments, rss: map<string, ValueResource>) {
    forall a | a in rss :: rss[a].Address == a && Clean(a) in rp
  }

  lemma GatheredAddresses(p: Plan, rp: Assignments, rs: seq<ValueResource>, rss: map<string, ValueResource>)
    requires Gathered(p, rp, rs, rss)
    ensures WellAddressed(rp, rss)
  {
    forall a | a in rss ensures rss[a].Address == a && Clean(a) in rp {
      KeptOnce(p, rp, rs, a, rss[a], rss[a]);
    }
  }

  lemma QueryAsks(p: Plan, rp: Assignments, rss: map<string, ValueResource>, a: string)
    requires WellAddressed(rp, rss) && a in rss
    ensures QueryOf(p, rp, rss, rss[a]).Address == a && AsksOf(p, rp, rss, QueryOf(p, rp, rss, rss[a]))
  {
  }

  // One query per gathered resource, in any order.
  method QueriesOf(p: Plan, rp: Assignments, rss: map<string, ValueResource>) returns (queries: seq<ResourceQuery>)
    requires WellAddressed(rp, rss)
    ensures multiset(AddressesOf(queries)) == multiset(rss.Keys)
    ensures forall q <- queries :: AsksOf(p, rp, rss, q)
  {
    queries := [];
    var rest := rss.Keys;
    while rest != {}
      invariant rest <= rss.Keys
      invariant multiset(AddressesOf(queries)) + multiset(rest) == multiset(rss.Keys)
      invariant forall q <- queries :: AsksOf(p, rp, rss, q)
    {
      var a :| a in rest;
      VisitNext(AddressesOf(queries), rest, a, rss.Keys);
      var q := QueryOf(p, rp, rss, rss[a]);
      QueryAsks(p, rp, rss, a);
      assert (queries + [q])[..|queries|] == queries;
      queries, rest := queries + [q], rest - {a};
    }
  }

  // The addresses to query in a tree: per module, each qualified address once.
  ghost function Expected(rp: Assignments, m: Module): multiset<string>
    decreases m, 1
  {
    multiset(Qualified(rp, m.Resources)) + ExpectedIn(rp, m.ChildModules)
  }

  ghost function ExpectedIn(rp: Assignments, ms: seq<Module>): multiset<string>
    decreases ms, 0
  {
    if ms == [] then multiset{} else ExpectedIn(rp, ms[..|ms| - 1]) + Expected(rp, ms[|ms| - 1])
  }

  // No resource of the tree crashes the merge.
  ghost predicate Mergeables(p: Plan, rp: Assignments, m: Module) {
    && (forall r <- m.Resources | Qualifies(rp, r) :: Prepared(p, rp, r).Some?)
    && forall c <- m.ChildModules :: Mergeables(p, rp, c)
  }

  // The query is the one that the assigned provider builds for a resource of the
  // module, from the prepared resources of that module.
  ghost predicate Queried(p: Plan, rp: Assignments, rs: seq<ValueResource>, q: ResourceQuery) {
    exists rss ::
      Gathered(p, rp, rs, rss) && WellAddressed(rp, rss) && AsksOf(p, rp, rss, q)
  }

  ghost predicate QueriedIn(p: Plan, rp: Assignments, m: Module, q: ResourceQuery) {
    Queried(p, rp, m.Resources, q) || exists c <- m.ChildModules :: QueriedIn(p, rp, c, q)
  }

  // The queries of the module's own resources.
  method QueriesHere(p: Plan, rp: Assignments, rs: seq<ValueResource>) returns (ok: bool, queries: seq<ResourceQuery>)
    ensures ok <==> forall r <- rs | Qualifies(rp, r) :: Prepared(p, rp, r).Some?
    ensures ok ==> multiset(AddressesOf(queries)) == multiset(Qualified(rp, rs))
    ensures ok ==> forall q <- queries :: Queried(p, rp, rs, q)
  {
    var rss;
    ok, rss := Gather(p, rp, rs);
    queries := [];
    if ok {
      GatheredAddresses(p, rp, rs, rss);
      queries := QueriesOf(p, rp, rss);
    }
  }

  lemma AppendQueries(a: seq<ResourceQuery>, b: seq<ResourceQuery>)
    ensures forall q :: q in a + b <==> q in a || q in b
    ensures multiset(AddressesOf(a + b)) == multiset(AddressesOf(a)) + multiset(AddressesOf(b))
  {
    AddressesConcat(a, b);
  }

  /** extractModuleQueries: for any values tree, one query for every address that
      qualifies in a module, and no other; it crashes exactly when a merge does. */
  method ExtractModuleQueries(p: Plan, rp: Assignments, m: Module) returns (ok: bool, queries: seq<ResourceQuery>)
    ensures ok <==> Mergeables(p, rp, m)
    ensures ok ==> multiset(AddressesOf(queries)) == Expected(rp, m)
    ensures ok ==> forall q <- queries :: QueriedIn(p, rp, m, q)
    decreases m, 1
  {
    ok, queries := QueriesHere(p, rp, m.Resources);
    if ok {
      var more;
      ok, more := QueriesBelow(p, rp, m.ChildModules);
      if ok {
        AppendQueries(queries, more);
        queries := queries + more;
      }
    }
  }

  // The queries of the child modules, in order.
  method QueriesBelow(p: Plan, rp: Assignments, ms: seq<Module>) returns (ok: bool, queries: seq<ResourceQuery>)
    ensures ok <==> forall c <- ms :: Mergeables(p, rp, c)
    ensures ok ==> multiset(AddressesOf(queries)) == ExpectedIn(rp, ms)
    ensures ok ==> forall q <- queries :: exists c <- ms :: QueriedIn(p, rp, c, q)
    decreases ms, 0
  {
    ok, queries := true, [];
    for i := 0 to |ms|
      invariant forall c <- ms[..i] :: Mergeables(p, rp, c)
      invariant multiset(AddressesOf(queries)) == ExpectedIn(rp, ms[..i])
      invariant forall q <- queries :: exists c <- ms :: QueriedIn(p, rp, c, q)
    {
      assert ms[i] in ms;
      var more;
      ok, more := ExtractModuleQueries(p, rp, ms[i]);
      if !ok {
        return;
      }
      AppendQueries(queries, more);
      ExpectedNext(rp, ms, i);
      queries := queries + more;
    }
    assert ms[..|ms|] == ms;
    ok := true;
  }

  lemma ExpectedNext(rp: Assignments, ms: seq<Module>, i: nat)
    requires i < |ms|
    ensures ExpectedIn(rp, ms[..i + 1]) == ExpectedIn(rp, ms[..i]) + Expected(rp, ms[i])
    ensures forall c :: c in ms[..i + 1] <==> c in ms[..i] || c == ms[i]
  {
    assert ms[..i + 1][..i] == ms[..i];
    assert ms[..i + 1] == ms[..i] + [ms[i]];
  }

  // ----- trees with distinct addresses per module -----

  function ListedHere(want: ValueResource -> bool, rs: seq<ValueResource>): seq<string> {
    if rs == [] then [] else
      var front, r := ListedHere(want, rs[..|rs| - 1]), rs[|rs| - 1];
      if want(r) then front + [r.Address] else front
  }

  // The addresses of all resources of the tree that are wanted.
  function Listed(want: ValueResource -> bool, m: Module): seq<string>
    decreases m, 1
  {
    ListedHere(want, m.Resources) + ListedIn(want, m.ChildModules)
  }

  function ListedIn(want: ValueResource -> bool, ms: seq<Module>): seq<string>
    decreases ms, 0
  {
    if ms == [] then [] else ListedIn(want, ms[..|ms| - 1]) + Listed(want, ms[|ms| - 1])
  }

  function Qualifying(rp: Assignments): ValueResource -> bool {
    r => Qualifies(rp, r)
  }

  ghost predicate DistinctHere(rs: seq<ValueResource>) {
    forall i, j | 0 <= i < j < |rs| :: rs[i].Address != rs[j].Address
  }

  ghost predicate DistinctTree(m: Module) {
    DistinctHere(m.Resources) && forall c <- m.ChildModules :: DistinctTree(c)
  }

  lemma QualifiedNext(rp: Assignments, front: seq<ValueResource>, r: ValueResource)
    ensures Qualified(rp, front + [r]) == Qualified(rp, front) + if Qualifies(rp, r) then {r.Address} else {}
  {
    assert forall x :: x in front + [r] <==> x in front || x == r;
  }

  lemma {:induction false} ListedOnce(rp: Assignments, rs: seq<ValueResource>)
    requires DistinctHere(rs)
    ensures multiset(ListedHere(Qualifying(rp), rs)) == multiset(Qualified(rp, rs))
  {
    if rs != [] {
      var front, r := rs[..|rs| - 1], rs[|rs| - 1];
      assert rs == front + [r];
      ListedOnce(rp, front);
      QualifiedNext(rp, front, r);
      FreshHere(rp, front, r);
    }
  }

  lemma FreshHere(rp: Assignments, front: seq<ValueResource>, r: ValueResource)
    requires DistinctHere(front + [r])
    ensures r.Address !in Qualified(rp, front)
  {
    forall x | x in front ensures x.Address != r.Address {
      var i :| 0 <= i < |front| && front[i] == x;
      assert (front + [r])[i] == x && (front + [r])[|front|] == r;
    }
  }

  /** With distinct addresses in each module there is exactly one query for every
      qualified resource of the tree, and none for anything else. */
  lemma {:induction false} OneQueryEach(rp: Assignments, m: Module)
    requires DistinctTree(m)
    ensures multiset(Listed(Qualifying(rp), m)) == Expected(rp, m)
    decreases m, 1
  {
    ListedOnce(rp, m.Resources);
    OneQueryEachIn(rp, m.ChildModules);
  }

  lemma {:induction false} OneQueryEachIn(rp: Assignments, ms: seq<Module>)
    requires forall c <- ms :: DistinctTree(c)
    ensures multiset(ListedIn(Qualifying(rp), ms)) == ExpectedIn(rp, ms)
    decreases ms, 0
  {
    if ms != [] {
      var front, last := ms[..|ms| - 1], ms[|ms| - 1];
      assert last in ms && forall c <- front :: c in ms;
      OneQueryEachIn(rp, front);
      OneQueryEach(rp, last);
    }
  }

  // ----- which resources qualify -----

  // Names of modules and resources are identifiers.
  ghost predicate IdentifierTree(m: ConfigModule) {
    && (forall r <- m.Resources :: exists a: Address :: r.Address == a.Text() && '.' !in a.Type && '.' !in a.Name)
    && forall k | k in m.ModuleCalls ::
         k != "" && '.' !in k && (m.ModuleCalls[k].Some? ==> IdentifierTree(m.ModuleCalls[k].value))
  }

  lemma {:induction false} IdentifierPath(m: ConfigModule, path: seq<string>)
    requires IdentifierTree(m) && ModuleAt(m, path).Some?
    ensures forall n <- path :: n != "" && '.' !in n
    ensures IdentifierTree(ModuleAt(m, path).value)
  {
    if path != [] {
      IdentifierPath(m.ModuleCalls[path[0]].value, path[1..]);
      assert path == [path[0]] + path[1..];
    }
  }

  ghost predicate ConfiguredAt(p: Plan, m: ConfigModule, path: seq<string>, address: string) {
    exists res :: Configured(p, m, path, res) && res.Address == address
  }

  // No instance key has a closing bracket that is not followed by an opening one.
  ghost predicate KeysReopen(path: seq<Call>, key: Option<string>) {
    KeyReopens(key) && forall c <- path :: KeyReopens(c.Key)
  }

  // The entry that the rendered address finds is that of the resource it names.
  ghost predicate FindsOwn(p: Plan, root: ConfigModule, rp: Assignments, path: seq<Call>, address: Address, key: Option<string>) {
    exists res: ConfigResource ::
      res.Address == address.Text() && ComesFrom(p, root, [], rp, Clean(Rendered(path, address.Text(), key)), Names(path), res)
  }

  // The entry that it finds is that of a resource configured elsewhere.
  ghost predicate FindsOther(p: Plan, root: ConfigModule, rp: Assignments, path: seq<Call>, address: Address, key: Option<string>) {
    exists at, res ::
      && ComesFrom(p, root, [], rp, Clean(Rendered(path, address.Text(), key)), at, res)
      && !(at == Names(path) && res.Address == address.Text())
  }

  /** A rendered resource address finds the entry of its own resource exactly when
      that is configured, at the same module path and with a known provider, and
      every closing bracket in an instance key is followed by an opening one. */
  lemma FoundExactly(p: Plan, root: ConfigModule, rp: Assignments, path: seq<Call>, address: Address, key: Option<string>)
    requires IdentifierTree(root) && Walked(p, root, [], map[], rp)
    requires PlainPath(path) && Plain(address.Text()) && DotFreePath(Names(path), address)
    ensures FindsOwn(p, root, rp, path, address, key) <==>
              ConfiguredAt(p, root, Names(path), address.Text()) && KeysReopen(path, key)
    ensures KeysReopen(path, key) ==> (Clean(Rendered(path, address.Text(), key)) in rp <==>
                                       ConfiguredAt(p, root, Names(path), address.Text()))
  {
    CleanGivesConfigKey(path, address.Text(), key);
    var names, found := Names(path), Clean(Rendered(path, address.Text(), key));
    assert [] + names == names;
    if ConfiguredAt(p, root, names, address.Text()) && KeysReopen(path, key) {
      var res :| Configured(p, root, names, res) && res.Address == address.Text();
      FindsConfigured(p, root, rp, path, address, key);
    }
    if found in rp && KeysReopen(path, key) {
      FindsConfigured(p, root, rp, path, address, key);
    }
  }

  lemma FindsConfigured(p: Plan, root: ConfigModule, rp: Assignments, path: seq<Call>, address: Address, key: Option<string>)
    requires IdentifierTree(root) && Walked(p, root, [], map[], rp) && DotFreePath(Names(path), address)
    requires Clean(Rendered(path, address.Text(), key)) == ConfigKey(Names(path), address.Text())
    requires ConfigKey(Names(path), address.Text()) in rp
    ensures FindsOwn(p, root, rp, path, address, key) && ConfiguredAt(p, root, Names(path), address.Text())
  {
    var at, res := Origin(p, root, rp, ConfigKey(Names(path), address.Text()));
    assert [] + at == at;
    SameResource(p, root, Names(path), address, at, res);
  }

  // A resource with a known provider is configured under this key.
  ghost predicate KeyTaken(p: Plan, root: ConfigModule, key: string) {
    exists at, res :: Configured(p, root, at, res) && ConfigKey(at, res.Address) == key
  }

  lemma KeysTaken(p: Plan, root: ConfigModule, rp: Assignments, key: string)
    requires Walked(p, root, [], map[], rp)
    ensures key in rp <==> KeyTaken(p, root, key)
  {
    if at, res :| Configured(p, root, at, res) && ConfigKey(at, res.Address) == key {
      assert [] + at == at;
    }
    if key in rp {
      var at, res := Origin(p, root, rp, key);
      assert [] + at == at;
    }
  }

  /** It finds the entry of another resource exactly when some closing bracket is
      not followed by an opening one and another resource is configured under what
      cleaning leaves. */
  lemma MisfoundExactly(p: Plan, root: ConfigModule, rp: Assignments, path: seq<Call>, address: Address, key: Option<string>)
    requires IdentifierTree(root) && Walked(p, root, [], map[], rp)
    requires PlainPath(path) && Plain(address.Text()) && DotFreePath(Names(path), address)
    ensures FindsOther(p, root, rp, path, address, key) <==>
              !KeysReopen(path, key) && KeyTaken(p, root, Clean(Rendered(path, address.Text(), key)))
  {
    CleanGivesConfigKey(path, address.Text(), key);
    KeysTaken(p, root, rp, Clean(Rendered(path, address.Text(), key)));
    if FindsOther(p, root, rp, path, address, key) {
      OtherIsMisfound(p, root, rp, path, address, key);
    }
    if Clean(Rendered(path, address.Text(), key)) in rp && !KeysReopen(path, key) {
      MisfoundIsOther(p, root, rp, path, address, key);
    }
  }

  lemma OtherIsMisfound(p: Plan, root: ConfigModule, rp: Assignments, path: seq<Call>, address: Address, key: Option<string>)
    requires IdentifierTree(root) && DotFreePath(Names(path), address) && FindsOther(p, root, rp, path, address, key)
    ensures Clean(Rendered(path, address.Text(), key)) in rp
    ensures Clean(Rendered(path, address.Text(), key)) != ConfigKey(Names(path), address.Text())
  {
    var found := Clean(Rendered(path, address.Text(), key));
    var at, res :| ComesFrom(p, root, [], rp, found, at, res) && !(at == Names(path) && res.Address == address.Text());
    assert [] + at == at;
    if found == ConfigKey(Names(path), address.Text()) {
      SameResource(p, root, Names(path), address, at, res);
    }
  }

  lemma MisfoundIsOther(p: Plan, root: ConfigModule, rp: Assignments, path: seq<Call>, address: Address, key: Option<string>)
    requires Walked(p, root, [], map[], rp) && Clean(Rendered(path, address.Text(), key)) in rp
    requires Clean(Rendered(path, address.Text(), key)) != ConfigKey(Names(path), address.Text())
    ensures FindsOther(p, root, rp, path, address, key)
  {
    var at, res := Origin(p, root, rp, Clean(Rendered(path, address.Text(), key)));
    assert [] + at == at;
  }

  /** So a resource of one module can get the provider and the values configured
      in a module below it: with this for_each key, one of m is taken for one of m.n. */
  lemma ForEachKeyMisleads(p: Plan, root: ConfigModule, rp: Assignments, m: string, n: string, x: string, address: Address)
    requires Walked(p, root, [], map[], rp) && ConfiguredAt(p, root, [m, n], address.Text())
    requires Plain(m) && Plain(n) && ']' !in x && Plain(address.Text()) && m != ""
    ensures FindsOther(p, root, rp, [Call(m, Some(Misleading(n, x)))], address, None)
  {
    var path := [Call(m, Some(Misleading(n, x)))];
    assert Names(path) == [m];
    MisleadingKey(m, n, x, address.Text());
    KeysTaken(p, root, rp, ConfigKey([m, n], address.Text()));
    MisfoundIsOther(p, root, rp, path, address, None);
  }

  ghost predicate DistinctResources(m: ConfigModule) {
    forall r, s | r in m.Resources && s in m.Resources && r.Address == s.Address :: r == s
  }

  lemma SameResource(p: Plan, root: ConfigModule, names: seq<string>, address: Address, at: seq<string>, res: ConfigResource)
    requires IdentifierTree(root) && DotFreePath(names, address)
    requires Configured(p, root, at, res) && ConfigKey(at, res.Address) == ConfigKey(names, address.Text())
    ensures at == names && res.Address == address.Text()
  {
    IdentifierPath(root, at);
    var a: Address :| res.Address == a.Text() && '.' !in a.Type && '.' !in a.Name;
    ConfigKeyInjective(at, a, names, address);
  }

  /** Two configured resources never compete for an entry: the provider and the
      values found for an address are those configured for it. */
  lemma ProviderExactly(p: Plan, root: ConfigModule, rp: Assignments, path: seq<string>, res: ConfigResource)
    requires IdentifierTree(root) && Walked(p, root, [], map[], rp) && Configured(p, root, path, res)
    requires DistinctResources(ModuleAt(root, path).value)
    ensures ConfigKey(path, res.Address) in rp
    ensures rp[ConfigKey(path, res.Address)].Provider == p.Providers[ProviderKey(res)]
    ensures Evaluated(p, root, [], path, res) == Ok(rp[ConfigKey(path, res.Address)].Values)
  {
    assert [] + path == path;
    var k := ConfigKey(path, res.Address);
    var at, r :| ComesFrom(p, root, [], rp, k, at, r);
    assert [] + at == at;
    IdentifierPath(root, path);
    var a: Address :| res.Address == a.Text() && '.' !in a.Type && '.' !in a.Name;
    SameResource(p, root, path, a, at, r);
  }

  // No module lists two different resources under one address.
  ghost predicate DistinctConfig(root: ConfigModule) {
    forall path | ModuleAt(root, path).Some? :: DistinctResources(ModuleAt(root, path).value)
  }

  /** The assignments do not depend on the order in which module calls are visited. */
  lemma AssignmentsUnique(p: Plan, root: ConfigModule, rp: Assignments, other: Assignments)
    requires IdentifierTree(root) && DistinctConfig(root)
    requires Walked(p, root, [], map[], rp) && Walked(p, root, [], map[], other)
    ensures rp == other
  {
    SubAssignments(p, root, rp, other);
    SubAssignments(p, root, other, rp);
  }

  lemma SubAssignments(p: Plan, root: ConfigModule, rp: Assignments, other: Assignments)
    requires IdentifierTree(root) && DistinctConfig(root)
    requires Walked(p, root, [], map[], rp) && Walked(p, root, [], map[], other)
    ensures forall key | key in rp :: key in other && other[key] == rp[key]
  {
    forall key | key in rp ensures key in other && other[key] == rp[key] {
      var path, res := Origin(p, root, rp, key);
      SameEntry(p, root, rp, other, path, res);
    }
  }

  lemma Origin(p: Plan, root: ConfigModule, rp: Assignments, key: string) returns (path: seq<string>, res: ConfigResource)
    requires Walked(p, root, [], map[], rp) && key in rp
    ensures Configured(p, root, path, res) && key == ConfigKey([] + path, res.Address)
    ensures ComesFrom(p, root, [], rp, key, path, res)
  {
    path, res :| ComesFrom(p, root, [], rp, key, path, res);
  }

  lemma SameEntry(p: Plan, root: ConfigModule, rp: Assignments, other: Assignments, path: seq<string>, res: ConfigResource)
    requires IdentifierTree(root) && Configured(p, root, path, res) && DistinctResources(ModuleAt(root, path).value)
    requires Walked(p, root, [], map[], rp) && Walked(p, root, [], map[], other)
    ensures var key := ConfigKey([] + path, res.Address); key in rp && key in other && other[key] == rp[key]
  {
    assert [] + path == path;
    ProviderExactly(p, root, rp, path, res);
    ProviderExactly(p, root, other, path, res);
  }

  // For assignments that are those of the configuration: a crash when a merge
  // crashes, and otherwise one query per qualified address.
  ghost predicate Extracted(p: Plan, root: ConfigModule, values: Module, ok: bool, queries: seq<ResourceQuery>) {
    exists rp ::
      && Walked(p, root, [], map[], rp)
      && (ok <==> Mergeables(p, rp, values))
      && (ok ==> multiset(AddressesOf(queries)) == Expected(rp, values) && forall q <- queries :: QueriedIn(p, rp, values, q))
  }

  // An address as plans render them.
  ghost predicate Renders(r: ValueResource, path: seq<Call>, address: Address, key: Option<string>) {
    && r.Address == Rendered(path, address.Text(), key) && KeysReopen(path, key)
    && PlainPath(path) && Plain(address.Text()) && DotFreePath(Names(path), address)
  }

  ghost predicate RenderedTree(m: Module) {
    && (forall r <- m.Resources :: exists path, address, key :: Renders(r, path, address, key))
    && forall c <- m.ChildModules :: RenderedTree(c)
  }

  // A managed resource that is configured with a known provider.
  ghost predicate ManagedConfigured(p: Plan, root: ConfigModule, r: ValueResource) {
    && r.Mode == "managed"
    && exists path, address, key :: Renders(r, path, address, key) && ConfiguredAt(p, root, Names(path), address.Text())
  }

  ghost function Configuring(p: Plan, root: ConfigModule): ValueResource -> bool {
    r => ManagedConfigured(p, root, r)
  }

  lemma QualifiesExactly(p: Plan, root: ConfigModule, rp: Assignments, r: ValueResource)
    requires IdentifierTree(root) && Walked(p, root, [], map[], rp)
    requires exists path, address, key :: Renders(r, path, address, key)
    ensures Qualifies(rp, r) <==> ManagedConfigured(p, root, r)
  {
    if path, address, key :| Renders(r, path, address, key) && ConfiguredAt(p, root, Names(path), address.Text()) {
      FoundExactly(p, root, rp, path, address, key);
    } else {
      var path, address, key :| Renders(r, path, address, key);
      FoundExactly(p, root, rp, path, address, key);
    }
  }

  lemma {:induction false} ListedHereAgrees(p: Plan, root: ConfigModule, rp: Assignments, rs: seq<ValueResource>)
    requires IdentifierTree(root) && Walked(p, root, [], map[], rp)
    requires forall r <- rs :: exists path, address, key :: Renders(r, path, address, key)
    ensures ListedHere(Qualifying(rp), rs) == ListedHere(Configuring(p, root), rs)
  {
    if rs != [] {
      var front, last := rs[..|rs| - 1], rs[|rs| - 1];
      assert last in rs && forall r <- front :: r in rs;
      ListedHereAgrees(p, root, rp, front);
      QualifiesExactly(p, root, rp, last);
    }
  }

  lemma {:induction false} ListedAgrees(p: Plan, root: ConfigModule, rp: Assignments, m: Module)
    requires IdentifierTree(root) && Walked(p, root, [], map[], rp) && RenderedTree(m)
    ensures Listed(Qualifying(rp), m) == Listed(Configuring(p, root), m)
    decreases m, 1
  {
    ListedHereAgrees(p, root, rp, m.Resources);
    ListedInAgrees(p, root, rp, m.ChildModules);
  }

  lemma {:induction false} ListedInAgrees(p: Plan, root: ConfigModule, rp: Assignments, ms: seq<Module>)
    requires IdentifierTree(root) && Walked(p, root, [], map[], rp) && forall c <- ms :: RenderedTree(c)
    ensures ListedIn(Qualifying(rp), ms) == ListedIn(Configuring(p, root), ms)
    decreases ms, 0
  {
    if ms != [] {
      var front, last := ms[..|ms| - 1], ms[|ms| - 1];
      assert last in ms && forall c <- front :: c in ms;
      ListedInAgrees(p, root, rp, front);
      ListedAgrees(p, root, rp, last);
    }
  }

  /** From configuration and values to queries: on a tree of rendered addresses,
      distinct in each module, there is exactly one query for every managed
      resource that is configured with a known provider, and none for anything else. */
  lemma QueriesExactly(p: Plan, root: ConfigModule, values: Module, queries: seq<ResourceQuery>)
    requires IdentifierTree(root) && RenderedTree(values) && DistinctTree(values)
    requires Extracted(p, root, values, true, queries)
    ensures multiset(AddressesOf(queries)) == multiset(Listed(Configuring(p, root), values))
  {
    var rp := ExtractedFrom(p, root, values, queries);
    OneQueryEach(rp, values);
    ListedAgrees(p, root, rp, values);
  }

  lemma ExtractedFrom(p: Plan, root: ConfigModule, values: Module, queries: seq<ResourceQuery>) returns (rp: Assignments)
    requires Extracted(p, root, values, true, queries)
    ensures Walked(p, root, [], map[], rp) && multiset(AddressesOf(queries)) == Expected(rp, values)
  {
    rp :| Walked(p, root, [], map[], rp) && multiset(AddressesOf(queries)) == Expected(rp, values);
  }

  /** The whole extraction, configuration first and then the values: it fails
      exactly when an evaluation does, and crashes exactly when a merge does. */
  method ExtractQueries(p: Plan, root: ConfigModule, values: Module)
    returns (ok: bool, queries: seq<ResourceQuery>, err: Option<string>)
    requires NamedCalls(root)
    ensures err.Some? <==> EvaluationFails(p, root, [])
    ensures err.None? ==> Extracted(p, root, values, ok, queries)
  {
    var rp;
    rp, err := ExtractModuleConfiguration(p, [], "", root, map[]);
    ok, queries := true, [];
    if err.None? {
      ok, queries := ExtractModuleQueries(p, rp, values);
    }
  }
}
