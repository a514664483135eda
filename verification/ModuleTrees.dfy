/** Expanding a whole tree of module calls: every module is expanded by its own
    count, and its resources are addressed by its path (terraform/hcl.go). */
module ModuleTrees {
  import opened Orders
  import opened Strings
  import opened Numerals
  import opened CountExpansion
  import Addresses

  datatype HclModule = HclModule(Resources: Managed, Calls: map<string, HclCall>)

  datatype HclCall = HclCall(Count: int, Module: HclModule)

  // The path that extractHCLModule passes down.
  function ModulePath(names: seq<string>): string {
    if names == [] then "" else "module." + Addresses.Prefix(names)
  }

  function PlaceOf(names: seq<string>, count: int): Place {
    Place(ModulePath(names), count)
  }

  predicate Identifier(s: string) {
    s != "" && '.' !in s && '[' !in s
  }

  // "type.name", of a type that is not the word of module calls.
  ghost predicate ResourceKey(rk: string, x: Addresses.Address) {
    x.Managed? && rk == x.Text() && Identifier(x.Type) && Identifier(x.Name) && x.Type != "module"
  }

  ghost predicate WellNamed(m: HclModule) {
    && (forall rk | rk in m.Resources :: exists x :: ResourceKey(rk, x))
    && (forall k | k in m.Calls :: Identifier(k) && WellNamed(m.Calls[k].Module))
  }

  predicate Identifiers(names: seq<string>) {
    forall n <- names :: Identifier(n)
  }

  // ----- addresses of different modules -----

  // What comes before the first bracket of an address, and what follows.
  function Head(names: seq<string>, count: int, rk: string): string {
    if names != [] && count > 1 then ModulePath(names) else Addresses.ConfigKey(names, rk)
  }

  function Tail(names: seq<string>, count: int, mc: nat, rk: string, inst: Instance): string {
    if names != [] && count > 1 then "[" + Numeral(mc) + "]." + rk + Text(inst) else Text(inst)
  }

  lemma ModuleText(n: string)
    ensures Addresses.Managed("module", n).Text() == "module." + n
    ensures Addresses.Managed("module", n).Parts() == ["module", n]
  {
    assert ["module", n][1..] == [n];
    assert Join([n], '.') == n && "module." == "module" + ['.'];
  }

  // A module path is the key of a thing of type "module".
  lemma PathIsKey(names: seq<string>)
    requires names != [] && Identifiers(names)
    ensures var n := |names| - 1;
            ModulePath(names) == Addresses.ConfigKey(names[..n], Addresses.Managed("module", names[n]).Text())
  {
    var n := |names| - 1;
    ModuleText(names[n]);
    if n > 0 {
      NonEmptyPrefix(names[..n], names);
      var front, last := Addresses.Prefix(names[..n]), names[n];
      assert ".module." + last == "." + ("module." + last);
      assert "module." + front + "." + ("module." + last) == "module." + (front + ".module." + last);
    }
  }

  lemma NonEmptyPrefix(front: seq<string>, names: seq<string>)
    requires front != [] && front <= names && Identifiers(names)
    ensures Addresses.Prefix(front) != ""
  {
    assert forall x <- front :: x in names;
    Addresses.ConfigKeyIsPlain(front, "");
  }

  lemma AddressSplits(names: seq<string>, count: int, mc: nat, rk: string, inst: Instance)
    requires Identifiers(names)
    ensures Address(PlaceOf(names, count), mc, rk, inst) == Head(names, count, rk) + Tail(names, count, mc, rk, inst)
    ensures Opens(Tail(names, count, mc, rk, inst))
  {
    if names != [] {
      NonEmptyPrefix(names, names);
      if count > 1 {
        IndexThenRest(ModulePath(names), Numeral(mc), rk, Text(inst));
      }
    }
  }

  lemma IndexThenRest(path: string, n: string, rk: string, text: string)
    ensures path + "[" + n + "]." + rk + text == path + ("[" + n + "]." + rk + text)
    ensures ("[" + n + "]." + rk + text)[0] == '['
  {
    Reassociate(path, "[", n);
    Reassociate(path, "[" + n, "].");
    Reassociate(path, "[" + n + "].", rk);
    Reassociate(path, "[" + n + "]." + rk, text);
  }

  lemma {:induction false} PrefixPlain(names: seq<string>)
    requires Identifiers(names)
    ensures '[' !in Addresses.Prefix(names)
  {
    if names != [] {
      assert names[|names| - 1] in names && forall x <- names[..|names| - 1] :: x in names;
      PrefixPlain(names[..|names| - 1]);
    }
  }

  lemma KeyPlain(rk: string, x: Addresses.Address)
    requires ResourceKey(rk, x)
    ensures '[' !in rk
  {
    assert [x.Type, x.Name][1..] == [x.Name];
    assert rk == x.Type + ['.'] + Join([x.Name], '.');
  }

  lemma HeadPlain(names: seq<string>, count: int, rk: string, x: Addresses.Address)
    requires Identifiers(names) && ResourceKey(rk, x)
    ensures '[' !in Head(names, count, rk)
  {
    PrefixPlain(names);
    KeyPlain(rk, x);
  }

  // The two places a head can be the key of.
  function KeyPath(names: seq<string>, count: int): seq<string> {
    if names != [] && count > 1 then names[..|names| - 1] else names
  }

  function KeyAddress(names: seq<string>, count: int, x: Addresses.Address): Addresses.Address {
    if names != [] && count > 1 then Addresses.Managed("module", names[|names| - 1]) else x
  }

  lemma HeadIsKey(names: seq<string>, count: int, rk: string, x: Addresses.Address)
    requires Identifiers(names) && ResourceKey(rk, x)
    ensures Head(names, count, rk) == Addresses.ConfigKey(KeyPath(names, count), KeyAddress(names, count, x).Text())
    ensures Addresses.DotFreePath(KeyPath(names, count), KeyAddress(names, count, x))
  {
    if names != [] && count > 1 {
      PathIsKey(names);
      assert Identifier(names[|names| - 1]);
      FrontIdentifiers(names);
    }
    assert Identifiers(KeyPath(names, count));
    assert '.' !in "module";
  }

  lemma FrontIdentifiers(names: seq<string>)
    requires names != [] && Identifiers(names)
    ensures Identifiers(names[..|names| - 1]) && Identifier(names[|names| - 1])
  {
    assert forall n <- names[..|names| - 1] :: n in names;
  }

  // The resource module an address belongs to.
  ghost predicate Located(a: string, names: seq<string>) {
    exists count, mc, rk, x, inst :: IsLocation(a, names, count, mc, rk, x, inst)
  }

  ghost predicate IsLocation(a: string, names: seq<string>, count: int, mc: nat, rk: string, x: Addresses.Address, inst: Instance) {
    Identifiers(names) && ResourceKey(rk, x) && a == Address(PlaceOf(names, count), mc, rk, inst)
  }

  /** No address belongs to resources of two modules. */
  lemma LocatedOnce(a: string, names: seq<string>, other: seq<string>)
    requires Located(a, names) && Located(a, other)
    ensures names == other
  {
    var count, mc, rk, x, s :| IsLocation(a, names, count, mc, rk, x, s);
    var count', mc', rk', x', t :| IsLocation(a, other, count', mc', rk', x', t);
    SameHeads(a, names, count, mc, rk, x, s, other, count', mc', rk', x', t);
    HeadIsKey(names, count, rk, x);
    HeadIsKey(other, count', rk', x');
    Addresses.ConfigKeyInjective(KeyPath(names, count), KeyAddress(names, count, x),
                                 KeyPath(other, count'), KeyAddress(other, count', x'));
    SamePath(names, count, x, other, count', x');
  }

  lemma SameHeads(a: string, names: seq<string>, count: int, mc: nat, rk: string, x: Addresses.Address, s: Instance,
                  other: seq<string>, count': int, mc': nat, rk': string, x': Addresses.Address, t: Instance)
    requires IsLocation(a, names, count, mc, rk, x, s) && IsLocation(a, other, count', mc', rk', x', t)
    ensures Head(names, count, rk) == Head(other, count', rk')
  {
    AddressSplits(names, count, mc, rk, s);
    AddressSplits(other, count', mc', rk', t);
    HeadPlain(names, count, rk, x);
    HeadPlain(other, count', rk', x');
    NameThenIndex(Head(names, count, rk), Tail(names, count, mc, rk, s), Head(other, count', rk'), Tail(other, count', mc', rk', t));
  }

  lemma SamePath(names: seq<string>, count: int, x: Addresses.Address, other: seq<string>, count': int, x': Addresses.Address)
    requires KeyPath(names, count) == KeyPath(other, count')
    requires KeyAddress(names, count, x) == KeyAddress(other, count', x')
    requires x.Managed? && x'.Managed? && x.Type != "module" && x'.Type != "module"
    ensures names == other
  {
    assert names != [] ==> names == names[..|names| - 1] + [names[|names| - 1]];
    assert other != [] ==> other == other[..|other| - 1] + [other[|other| - 1]];
  }

  // ----- the tree -----

  ghost predicate InHere(m: HclModule, names: seq<string>, count: int, a: string) {
    exists rk | rk in m.Resources && m.Resources[rk].KnownProvider ::
      IsAddress(PlaceOf(names, count), PlaceOf(names, count).Copies(), rk, m.Resources[rk].Repeat, a)
  }

  // Some resource of the tree with a known provider has an instance with this address.
  ghost predicate InTree(m: HclModule, names: seq<string>, count: int, a: string)
    decreases m
  {
    || InHere(m, names, count, a)
    || exists k | k in m.Calls :: InTree(m.Calls[k].Module, names + [k], m.Calls[k].Count, a)
  }

  ghost predicate Below(m: HclModule, names: seq<string>, k: string, a: string) {
    k in m.Calls && InTree(m.Calls[k].Module, names + [k], m.Calls[k].Count, a)
  }

  lemma HereLocated(m: HclModule, names: seq<string>, count: int, a: string)
    requires WellNamed(m) && Identifiers(names) && InHere(m, names, count, a)
    ensures Located(a, names)
  {
    var rk :| rk in m.Resources && m.Resources[rk].KnownProvider &&
              IsAddress(PlaceOf(names, count), PlaceOf(names, count).Copies(), rk, m.Resources[rk].Repeat, a);
    var x :| ResourceKey(rk, x);
    var mc, inst :| 0 <= mc < PlaceOf(names, count).Copies() && IsInstance(m.Resources[rk].Repeat, inst) &&
                    a == Address(PlaceOf(names, count), mc, rk, inst);
    assert IsLocation(a, names, count, mc, rk, x, inst);
  }

  lemma {:induction false} TreeLocated(m: HclModule, names: seq<string>, count: int, a: string) returns (at: seq<string>)
    requires WellNamed(m) && Identifiers(names) && InTree(m, names, count, a)
    ensures names <= at && Located(a, at)
    decreases m
  {
    if InHere(m, names, count, a) {
      HereLocated(m, names, count, a);
      at := names;
    } else {
      var k :| k in m.Calls && InTree(m.Calls[k].Module, names + [k], m.Calls[k].Count, a);
      at := TreeLocated(m.Calls[k].Module, names + [k], m.Calls[k].Count, a);
    }
  }

  /** The module itself and each of its calls expand to different addresses. */
  lemma CallsApart(m: HclModule, names: seq<string>, count: int, k: string, a: string)
    requires WellNamed(m) && Identifiers(names) && Below(m, names, k, a)
    ensures !InHere(m, names, count, a)
    ensures forall l | Below(m, names, l, a) :: l == k
  {
    var at := TreeLocated(m.Calls[k].Module, names + [k], m.Calls[k].Count, a);
    if InHere(m, names, count, a) {
      HereLocated(m, names, count, a);
      LocatedOnce(a, names, at);
    }
    forall l | Below(m, names, l, a) ensures l == k {
      var other := TreeLocated(m.Calls[l].Module, names + [l], m.Calls[l].Count, a);
      LocatedOnce(a, at, other);
      assert at[|names|] == k && other[|names|] == l;
    }
  }

  // ----- how many there are -----

  // Entries of a resource in one copy of its module.
  function Once(res: ManagedResource): nat {
    if res.KnownProvider then HowMany(res.Repeat) else 0
  }

  function OnceEach(m: HclModule): map<string, nat> {
    map rk | rk in m.Resources :: Once(m.Resources[rk])
  }

  function Times(n: nat, x: nat): nat {
    n * x
  }

  function Copies(count: int): nat {
    if count < 0 then 0 else count
  }

  ghost function CallTotals(m: HclModule): map<string, nat>
    decreases m, 0
  {
    map k | k in m.Calls :: TreeTotal(m.Calls[k].Module, m.Calls[k].Count)
  }

  ghost function SumOf(counts: map<string, nat>): nat {
    SumInOrder(counts, AnyOrder(counts.Keys))
  }

  ghost function SumInOrder(counts: map<string, nat>, order: seq<string>): nat
    requires Visits(order, counts.Keys)
  {
    VisitsMembers(order, counts.Keys);
    SumNat(Along(counts, order))
  }

  // Own entries by the module's own count, then those of every call by the count of that call.
  ghost function TreeTotal(m: HclModule, count: int): nat
    decreases m, 1
  {
    Times(Copies(count), SumOf(OnceEach(m))) + SumOf(CallTotals(m))
  }

  lemma SumAnyOrder(counts: map<string, nat>, order: seq<string>)
    requires Visits(order, counts.Keys)
    ensures SumInOrder(counts, order) == SumOf(counts)
  {
    VisitsMembers(order, counts.Keys);
    VisitsMembers(AnyOrder(counts.Keys), counts.Keys);
    AlongPermutes(counts, order, AnyOrder(counts.Keys));
    SumNatPermutes(Along(counts, order), Along(counts, AnyOrder(counts.Keys)));
  }

  /** A counted module is expanded as so many copies of itself exactly when its
      count is 1 or nothing with a known provider is below it: calls inside are
      expanded by their own count alone. */
  lemma CopiesExactly(m: HclModule, count: int)
    ensures TreeTotal(m, count) == Times(Copies(count), TreeTotal(m, 1)) <==> count == 1 || SumOf(CallTotals(m)) == 0
  {
    CopiesOf(SumOf(OnceEach(m)), SumOf(CallTotals(m)), Copies(count), TreeTotal(m, count), TreeTotal(m, 1));
  }

  lemma CopiesOf(own: nat, below: nat, n: nat, total: nat, one: nat)
    requires total == Times(n, own) + below && one == Times(1, own) + below
    ensures total == Times(n, one) <==> n == 1 || below == 0
  {
    assert n * (own + below) == n * own + n * below;
    if n != 1 && below != 0 {
      assert (n - 1) * below != 0;
    }
  }

  lemma SumLast(counts: map<string, nat>, front: seq<string>, k: string)
    requires k in counts && forall j <- front :: j in counts
    ensures forall j <- front + [k] :: j in counts
    ensures SumNat(Along(counts, front + [k])) == SumNat(Along(counts, front)) + counts[k]
  {
    AlongNext(counts, front, k);
    assert (Along(counts, front) + [counts[k]])[..|front|] == Along(counts, front);
  }

  // ----- the walk -----

  // A configured provider, and the query it builds for an entry.
  datatype Provider = Provider(Config: string)

  datatype Query = Query(Entry: Entry, By: Provider)

  ghost predicate Distinct(queries: seq<Query>) {
    forall i, j | 0 <= i < j < |queries| :: queries[i].Entry.Address != queries[j].Entry.Address
  }

  ghost predicate Has(queries: seq<Query>, a: string) {
    exists i | 0 <= i < |queries| :: queries[i].Entry.Address == a
  }

  lemma ListNext(queries: seq<Query>, q: Query)
    requires Distinct(queries) && !Has(queries, q.Entry.Address)
    ensures Distinct(queries + [q])
    ensures forall a :: Has(queries + [q], a) <==> Has(queries, a) || a == q.Entry.Address
  {
    HasConcat(queries, [q]);
    assert forall a :: Has([q], a) <==> [q][0].Entry.Address == a;
  }

  lemma HasConcat(x: seq<Query>, y: seq<Query>)
    ensures forall a :: Has(x + y, a) <==> Has(x, a) || Has(y, a)
  {
    forall a ensures Has(x + y, a) <==> Has(x, a) || Has(y, a) {
      if i :| 0 <= i < |x| && x[i].Entry.Address == a {
        assert (x + y)[i].Entry.Address == a;
      }
      if i :| 0 <= i < |y| && y[i].Entry.Address == a {
        assert (x + y)[|x| + i].Entry.Address == a;
      }
    }
  }

  lemma DistinctConcat(x: seq<Query>, y: seq<Query>)
    requires Distinct(x) && Distinct(y) && forall a | Has(y, a) :: !Has(x, a)
    ensures Distinct(x + y)
  {
    assert forall i | 0 <= i < |y| :: Has(y, y[i].Entry.Address);
  }

  // Everything the walk has expanded when the calls in `rest` are left.
  ghost predicate Walked(m: HclModule, names: seq<string>, count: int, rest: set<string>, queries: seq<Query>) {
    && Distinct(queries)
    && forall a :: Has(queries, a) <==> InHere(m, names, count, a) || exists k :: k !in rest && Below(m, names, k, a)
  }

  lemma PathNext(names: seq<string>, k: string)
    requires Identifiers(names) && Identifier(k)
    ensures ModulePath(names + [k]) == if ModulePath(names) != "" then ModulePath(names) + ".module." + k else "module." + k
    ensures Identifiers(names + [k])
  {
    assert (names + [k])[..|names|] == names;
    if names != [] {
      NonEmptyPrefix(names, names);
      var prefix := Addresses.Prefix(names);
      assert "module." + (prefix + ".module." + k) == "module." + prefix + ".module." + k;
    }
  }

  lemma WalkNext(m: HclModule, names: seq<string>, count: int, rest: set<string>, queries: seq<Query>, k: string, more: seq<Query>)
    requires WellNamed(m) && Identifiers(names) && k in rest && k in m.Calls
    requires Walked(m, names, count, rest, queries) && Distinct(more)
    requires forall a :: Has(more, a) <==> Below(m, names, k, a)
    ensures Walked(m, names, count, rest - {k}, queries + more)
  {
    HasConcat(queries, more);
    forall a | Has(more, a) ensures !Has(queries, a) {
      CallsApart(m, names, count, k, a);
    }
    DistinctConcat(queries, more);
  }

  // A loop that adds up `counts` has reached n.
  ghost predicate Counted(counts: map<string, nat>, order: seq<string>, rest: set<string>, n: nat) {
    && multiset(order) + multiset(rest) == multiset(counts.Keys)
    && (forall k <- order :: k in counts)
    && n == SumNat(Along(counts, order))
  }

  lemma CountedNext(counts: map<string, nat>, order: seq<string>, rest: set<string>, n: nat, k: string)
    requires Counted(counts, order, rest, n) && k in rest && k in counts
    ensures Counted(counts, order + [k], rest - {k}, n + counts[k])
  {
    SumLast(counts, order, k);
    VisitNext(order, rest, k, counts.Keys);
  }

  lemma CountedAll(counts: map<string, nat>, order: seq<string>, n: nat)
    requires Counted(counts, order, {}, n)
    ensures n == SumOf(counts)
  {
    SumAnyOrder(counts, order);
  }

  lemma TotalIsSum(path: string, m: HclModule, count: int, order: seq<string>)
    requires Visits(order, m.Resources.Keys) && forall rk <- order :: rk in m.Resources
    ensures Total(Place(path, count), m.Resources, order) == Times(Copies(count), SumOf(OnceEach(m)))
  {
    TotalAlong(path, m, count, order);
    assert OnceEach(m).Keys == m.Resources.Keys;
    SumAnyOrder(OnceEach(m), order);
  }

  lemma {:induction false} TotalAlong(path: string, m: HclModule, count: int, order: seq<string>)
    requires forall rk <- order :: rk in m.Resources
    ensures Total(Place(path, count), m.Resources, order) == Times(Copies(count), SumNat(Along(OnceEach(m), order)))
  {
    if order != [] {
      var front, rk := order[..|order| - 1], order[|order| - 1];
      FrontAndLast(order);
      TotalAlong(path, m, count, front);
      TotalNext(Place(path, count), m.Resources, front, rk);
      SumLast(OnceEach(m), front, rk);
      ScaleStep(Copies(count), Total(Place(path, count), m.Resources, front), SumNat(Along(OnceEach(m), front)),
                Share(Place(path, count), m.Resources[rk]), Once(m.Resources[rk]));
    }
  }

  lemma ScaleStep(n: nat, a: nat, x: nat, b: nat, y: nat)
    requires a == Times(n, x) && b == Times(n, y)
    ensures a + b == Times(n, x + y)
  {
  }

  lemma WalkStarts(m: HclModule, names: seq<string>, count: int, queries: seq<Query>)
    requires Distinct(queries) && forall a :: Has(queries, a) <==> InHere(m, names, count, a)
    ensures Walked(m, names, count, m.Calls.Keys, queries)
  {
  }

  // The loop over the calls has those in `rest` left, and the own queries were n.
  ghost predicate Visiting(m: HclModule, names: seq<string>, count: int, order: seq<string>, rest: set<string>,
                           n: nat, queries: seq<Query>)
  {
    && rest <= m.Calls.Keys && n <= |queries|
    && Walked(m, names, count, rest, queries)
    && Counted(CallTotals(m), order, rest, |queries| - n)
  }

  lemma VisitCall(m: HclModule, names: seq<string>, count: int, order: seq<string>, rest: set<string>,
                  n: nat, queries: seq<Query>, k: string, more: seq<Query>)
    requires WellNamed(m) && Identifiers(names) && k in rest && k in m.Calls
    requires Visiting(m, names, count, order, rest, n, queries)
    requires Distinct(more) && |more| == CallTotals(m)[k]
    requires forall a :: Has(more, a) <==> Below(m, names, k, a)
    ensures Visiting(m, names, count, order + [k], rest - {k}, n, queries + more)
  {
    WalkNext(m, names, count, rest, queries, k, more);
    CountedNext(CallTotals(m), order, rest, |queries| - n, k);
  }

  lemma WalkEnds(m: HclModule, names: seq<string>, count: int, queries: seq<Query>)
    requires Walked(m, names, count, {}, queries)
    ensures forall a :: Has(queries, a) <==> InTree(m, names, count, a)
  {
    forall a ensures Has(queries, a) <==> InTree(m, names, count, a) {
      TreeExactly(m, names, count, a);
    }
  }

  lemma TreeExactly(m: HclModule, names: seq<string>, count: int, a: string)
    ensures InTree(m, names, count, a) <==> InHere(m, names, count, a) || exists k :: Below(m, names, k, a)
  {
    if k :| Below(m, names, k, a) {
      assert k in m.Calls && InTree(m.Calls[k].Module, names + [k], m.Calls[k].Count, a);
    }
    if k :| k in m.Calls && InTree(m.Calls[k].Module, names + [k], m.Calls[k].Count, a) {
      assert Below(m, names, k, a);
    }
  }
}
