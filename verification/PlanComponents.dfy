/** What the queries of a plan ask for: the components that the provider
    configured for a resource makes of its merged values (terraform/plan.go). */
module PlanComponents {
  import opened Wrappers
  import opened Strings
  import opened Addresses
  import opened Merge
  import opened Queries
  import opened PlanQueries

  // A module of the values tree lists these resources.
  ghost predicate HasModule(m: Module, rs: seq<ValueResource>) {
    m.Resources == rs || exists c <- m.ChildModules :: HasModule(c, rs)
  }

  // Resource i is the last managed one with this address.
  ghost predicate LastManaged(rs: seq<ValueResource>, a: string, i: nat) {
    && i < |rs| && rs[i].Address == a && rs[i].Mode == "managed"
    && forall j | i < j < |rs| && rs[j].Mode == "managed" :: rs[j].Address != a
  }

  // `r` is that resource with the configured values and its usage merged in.
  ghost predicate Completed(p: Plan, config: Fields, was: ValueResource, r: ValueResource) {
    var values := if was.Values.None? then map[] else was.Values.value;
    && r.Address == was.Address && r.Mode == was.Mode && r.Type == was.Type
    && Mergeable(values, config) && r.Values == Some(Merged(values, config)["tc_usage" := p.Usage(was.Type)])
  }

  // The resources of a module that its queries are built from.
  ghost predicate Readied(p: Plan, rp: Assignments, rs: seq<ValueResource>, rss: map<string, ValueResource>) {
    && (forall r <- rs | r.Mode == "managed" && Clean(r.Address) in rp :: r.Address in rss)
    && forall a | a in rss :: Clean(a) in rp && FromLast(p, rp[Clean(a)].Values, rs, a, rss[a])
  }

  ghost predicate FromLast(p: Plan, config: Fields, rs: seq<ValueResource>, a: string, r: ValueResource) {
    exists i: nat :: LastManaged(rs, a, i) && Completed(p, config, rs[i], r)
  }

  // The query asks for what the assigned provider makes of the resource.
  ghost predicate BuiltBy(p: Plan, provider: Provider, rss: map<string, ValueResource>, q: ResourceQuery) {
    && q.Address in rss && q.Type == rss[q.Address].Type && q.Provider == provider.Name
    && q.Components == p.Components(provider, rss, rss[q.Address])
  }

  lemma GatheredReadied(p: Plan, rp: Assignments, rs: seq<ValueResource>, rss: map<string, ValueResource>)
    requires Gathered(p, rp, rs, rss)
    ensures Readied(p, rp, rs, rss)
  {
    forall a | a in rss ensures Clean(a) in rp && FromLast(p, rp[Clean(a)].Values, rs, a, rss[a]) {
      KeptCompleted(p, rp, rs, a, rss[a]);
    }
    assert forall r <- rs | r.Mode == "managed" && Clean(r.Address) in rp :: Qualifies(rp, r);
  }

  lemma KeptCompleted(p: Plan, rp: Assignments, rs: seq<ValueResource>, a: string, r: ValueResource)
    requires Kept(p, rp, rs, a, r)
    ensures Clean(a) in rp && FromLast(p, rp[Clean(a)].Values, rs, a, r)
  {
    var i: nat :| LastAt(rp, rs, a, i) && Prepared(p, rp, rs[i]) == Some(r);
    forall j | i < j < |rs| && rs[j].Mode == "managed" ensures rs[j].Address != a {
      assert rs[j].Address == a ==> Qualifies(rp, rs[j]);
    }
    assert LastManaged(rs, a, i) && Completed(p, rp[Clean(a)].Values, rs[i], r);
  }

  lemma QueryHere(p: Plan, rp: Assignments, rs: seq<ValueResource>, q: ResourceQuery) returns (rss: map<string, ValueResource>)
    requires Queried(p, rp, rs, q)
    ensures Readied(p, rp, rs, rss) && Clean(q.Address) in rp && BuiltBy(p, rp[Clean(q.Address)].Provider, rss, q)
  {
    rss :| Gathered(p, rp, rs, rss) && WellAddressed(rp, rss) && AsksOf(p, rp, rss, q);
    GatheredReadied(p, rp, rs, rss);
  }

  /** Every query of a values tree belongs to one of its modules: it has the type of
      the resource at its address, the name of the provider assigned to it, and the
      components which that provider makes of the merged resources of the module. */
  lemma {:induction false} QueryBuilt(p: Plan, rp: Assignments, m: Module, q: ResourceQuery)
    returns (rs: seq<ValueResource>, rss: map<string, ValueResource>)
    requires QueriedIn(p, rp, m, q)
    ensures HasModule(m, rs) && Readied(p, rp, rs, rss)
    ensures Clean(q.Address) in rp && BuiltBy(p, rp[Clean(q.Address)].Provider, rss, q)
    decreases m
  {
    if Queried(p, rp, m.Resources, q) {
      rs := m.Resources;
      rss := QueryHere(p, rp, rs, q);
    } else {
      var c :| c in m.ChildModules && QueriedIn(p, rp, c, q);
      rs, rss := QueryBuilt(p, rp, c, q);
    }
  }

  // ----- the provider that is configured -----

  // The provider key of a configured resource names a module first, or nothing.
  ghost predicate EndsInKey(configKey: string, key: string) {
    ':' !in key && (configKey == key || exists module_ :: configKey == module_ + ":" + key)
  }

  lemma {:induction false} LastPiece(s: string)
    ensures ':' !in Split(s, ':')[|Split(s, ':')| - 1]
    ensures |Split(s, ':')| > 1 ==> exists front :: s == front + ":" + Split(s, ':')[|Split(s, ':')| - 1]
  {
    if s != "" {
      LastPiece(s[1..]);
      var rest := Split(s[1..], ':');
      assert s == [s[0]] + s[1..];
      if |rest| > 1 {
        var front :| s[1..] == front + ":" + rest[|rest| - 1];
        Prepend(s[0], front, rest[|rest| - 1]);
      } else if s[0] == ':' {
        PlainSplit(s[1..]);
        assert s == "" + ":" + s[1..];
      } else {
        PlainSplit(s[1..]);
      }
    }
  }

  lemma Prepend(c: char, front: string, last: string)
    ensures [c] + (front + ":" + last) == ([c] + front) + ":" + last
  {
  }

  lemma PlainSplit(s: string)
    ensures |Split(s, ':')| == 1 ==> Split(s, ':') == [s]
  {
    JoinSplit(s, ':');
  }

  lemma {:induction false} ColonSplits(s: string)
    ensures ':' in s ==> |Split(s, ':')| > 1
  {
    if s != "" {
      ColonSplits(s[1..]);
    }
  }

  lemma ProviderKeyEnds(res: ConfigResource)
    ensures EndsInKey(res.ProviderConfigKey, ProviderKey(res))
  {
    LastPiece(res.ProviderConfigKey);
    ColonSplits(res.ProviderConfigKey);
  }

  // What was configured for the query's resource: at which module path, by which
  // resource block and provider, and the values its expressions have there.
  datatype Origin = Origin(Path: seq<string>, Block: ConfigResource, Key: string, Config: Fields)

  ghost predicate ConfiguredFor(p: Plan, root: ConfigModule, o: Origin) {
    && ModuleAt(root, o.Path).Some? && o.Block in ModuleAt(root, o.Path).value.Resources
    && EndsInKey(o.Block.ProviderConfigKey, o.Key) && o.Key in p.Providers
    && p.Evaluate("module." + Prefix(o.Path), o.Block.Expressions, ModuleAt(root, o.Path).value.Variables) == Ok(o.Config)
  }

  // The address is a rendering of the block's, in the module at its path.
  ghost predicate RendersBlock(a: string, o: Origin) {
    exists path, address: Address, key ::
      a == Rendered(path, address.Text(), key) && Names(path) == o.Path && address.Text() == o.Block.Address
  }

  lemma {:induction false} RenderedIn(m: Module, rs: seq<ValueResource>, r: ValueResource)
    requires RenderedTree(m) && HasModule(m, rs) && r in rs
    ensures exists path, address, key :: Renders(r, path, address, key)
    decreases m
  {
    if m.Resources != rs {
      var c :| c in m.ChildModules && HasModule(c, rs);
      RenderedIn(c, rs, r);
    }
  }

  lemma OriginOf(p: Plan, root: ConfigModule, rp: Assignments, a: string) returns (o: Origin)
    requires IdentifierTree(root) && Walked(p, root, [], map[], rp) && Clean(a) in rp
    requires exists r: ValueResource, path, address, key :: r.Address == a && Renders(r, path, address, key)
    ensures ConfiguredFor(p, root, o) && RendersBlock(a, o)
    ensures rp[Clean(a)] == Assigned(p.Providers[o.Key], o.Config)
  {
    var r: ValueResource, path, address, key :| r.Address == a && Renders(r, path, address, key);
    FoundExactly(p, root, rp, path, address, key);
    var res := OwnBlock(p, root, rp, path, address, key);
    ProviderKeyEnds(res);
    o := Origin(Names(path), res, ProviderKey(res), rp[Clean(a)].Values);
    assert [] + Names(path) == Names(path);
  }

  lemma OwnBlock(p: Plan, root: ConfigModule, rp: Assignments, path: seq<Call>, address: Address, key: Option<string>)
    returns (res: ConfigResource)
    requires FindsOwn(p, root, rp, path, address, key)
    ensures res.Address == address.Text()
    ensures ComesFrom(p, root, [], rp, Clean(Rendered(path, address.Text(), key)), Names(path), res)
  {
    res :| res.Address == address.Text() &&
           ComesFrom(p, root, [], rp, Clean(Rendered(path, address.Text(), key)), Names(path), res);
  }

  // Each resource of the module, merged with what is configured for it.
  ghost predicate MergedModule(p: Plan, root: ConfigModule, rs: seq<ValueResource>, rss: map<string, ValueResource>) {
    forall a | a in rss :: exists o :: ConfiguredFor(p, root, o) && RendersBlock(a, o) && FromLast(p, o.Config, rs, a, rss[a])
  }

  // The query asks for what the configured provider makes of the resource, merged
  // with what is configured for it, among the merged resources of its module.
  ghost predicate AsksFor(p: Plan, root: ConfigModule, values: Module, q: ResourceQuery, o: Origin) {
    exists rs, rss ::
      && HasModule(values, rs) && MergedModule(p, root, rs, rss)
      && o.Key in p.Providers && BuiltBy(p, p.Providers[o.Key], rss, q) && FromLast(p, o.Config, rs, q.Address, rss[q.Address])
  }

  /** From the configuration to the components: on a tree of rendered addresses every
      query asks for what the provider configured for its resource makes of it, with
      the values configured in the module at its path. */
  lemma QueriesAskFor(p: Plan, root: ConfigModule, values: Module, queries: seq<ResourceQuery>, q: ResourceQuery)
    returns (o: Origin)
    requires IdentifierTree(root) && RenderedTree(values) && Extracted(p, root, values, true, queries) && q in queries
    ensures ConfiguredFor(p, root, o) && RendersBlock(q.Address, o) && AsksFor(p, root, values, q, o)
  {
    var rp := AssignmentsOf(p, root, values, queries);
    var rs, rss := QueryBuilt(p, rp, values, q);
    ModuleMerged(p, root, rp, values, rs, rss);
    RenderedAt(p, rp, values, rs, q.Address, rss[q.Address]);
    o := OriginOf(p, root, rp, q.Address);
  }

  lemma ModuleMerged(p: Plan, root: ConfigModule, rp: Assignments, values: Module, rs: seq<ValueResource>,
                     rss: map<string, ValueResource>)
    requires IdentifierTree(root) && Walked(p, root, [], map[], rp)
    requires RenderedTree(values) && HasModule(values, rs) && Readied(p, rp, rs, rss)
    ensures MergedModule(p, root, rs, rss)
  {
    forall a | a in rss
      ensures exists o :: ConfiguredFor(p, root, o) && RendersBlock(a, o) && FromLast(p, o.Config, rs, a, rss[a])
    {
      RenderedAt(p, rp, values, rs, a, rss[a]);
      var o := OriginOf(p, root, rp, a);
    }
  }

  lemma RenderedAt(p: Plan, rp: Assignments, values: Module, rs: seq<ValueResource>, a: string, r: ValueResource)
    requires RenderedTree(values) && HasModule(values, rs) && Clean(a) in rp && FromLast(p, rp[Clean(a)].Values, rs, a, r)
    ensures exists was: ValueResource, path, address, key :: was.Address == a && Renders(was, path, address, key)
  {
    var i: nat :| LastManaged(rs, a, i) && Completed(p, rp[Clean(a)].Values, rs[i], r);
    RenderedIn(values, rs, rs[i]);
  }

  lemma AssignmentsOf(p: Plan, root: ConfigModule, values: Module, queries: seq<ResourceQuery>) returns (rp: Assignments)
    requires Extracted(p, root, values, true, queries)
    ensures Walked(p, root, [], map[], rp) && forall q <- queries :: QueriedIn(p, rp, values, q)
  {
    rp :| Walked(p, root, [], map[], rp) && forall q <- queries :: QueriedIn(p, rp, values, q);
  }
}
