/** Expanding count and for_each into resource addresses (terraform/hcl.go). */
module CountExpansion {
  import opened Orders
  import opened Numerals
  import opened Strings

  // A resource has a count, 1 unless it says otherwise, or for_each keys.
  datatype Repeat = Count(n: int) | ForEach(keys: set<string>)

  // `Provider` is the type of the provider, and whether the one that the resource
  // refers to is known is settled when the expansion starts.
  datatype ManagedResource = ManagedResource(Type: string, Name: string, Provider: string, Repeat: Repeat, KnownProvider: bool)

  datatype Entry = Entry(Address: string, Index: nat, Type: string, Name: string, ProviderName: string)

  type Entries = map<string, Entry>

  // One instance of a resource.
  datatype Instance = Single | Nth(i: nat) | Keyed(k: string)

  function Text(inst: Instance): string {
    match inst
    case Single => ""
    case Nth(i) => "[" + Numeral(i) + "]"
    case Keyed(k) => "[" + k + "]"
  }

  // An empty for_each, or an empty key in it, stands for a single instance.
  predicate IsInstance(r: Repeat, inst: Instance) {
    match r
    case Count(n) => if n == 1 then inst == Single else inst.Nth? && inst.i < n
    case ForEach(keys) =>
      if keys == {} then inst == Single
      else (inst == Single && "" in keys) || (inst.Keyed? && inst.k != "" && inst.k in keys)
  }

  function HowMany(r: Repeat): nat {
    match r
    case Count(n) => if n < 0 then 0 else n
    case ForEach(keys) => if keys == {} then 1 else |keys|
  }

  // The module's own count: 1 and no name for the root.
  datatype Place = Place(Module: string, Count: int) {
    ghost predicate Valid() {
      Module == "" ==> Count == 1
    }

    function Copies(): nat {
      if Count < 0 then 0 else Count
    }

    function Part(mc: nat): string {
      if Module == "" then ""
      else if Count > 1 then Module + "[" + Numeral(mc) + "]."
      else Module + "."
    }
  }

  function Address(place: Place, mc: nat, rk: string, inst: Instance): string {
    place.Part(mc) + rk + Text(inst)
  }

  // ----- addresses do not collide -----

  lemma DigitsFirst(a: string, x: string)
    requires forall c <- a :: IsDigit(c)
    ensures var s := a + "]" + x; (forall i | 0 <= i < |a| :: IsDigit(s[i])) && s[|a|] == ']' && s[..|a|] == a && s[|a| + 1..] == x
  {
    assert forall i | 0 <= i < |a| :: (a + "]" + x)[i] in a;
  }

  lemma DigitsThenBracket(a: string, b: string, x: string, y: string)
    requires (forall c <- a :: IsDigit(c)) && (forall c <- b :: IsDigit(c))
    requires a + "]" + x == b + "]" + y
    ensures a == b && x == y
  {
    DigitsFirst(a, x);
    DigitsFirst(b, y);
  }

  // Nothing, or something in brackets first.
  predicate Opens(x: string) {
    x != "" ==> x[0] == '['
  }

  lemma PlainFirst(a: string, x: string)
    requires '[' !in a && Opens(x)
    ensures var s := a + x;
            (forall i | 0 <= i < |a| :: s[i] != '[') && (|s| > |a| ==> s[|a|] == '[') && s[..|a|] == a && s[|a|..] == x
  {
    assert forall i | 0 <= i < |a| :: (a + x)[i] in a;
  }

  lemma NameThenIndex(a: string, x: string, b: string, y: string)
    requires '[' !in a && '[' !in b && Opens(x) && Opens(y) && a + x == b + y
    ensures a == b && x == y
  {
    PlainFirst(a, x);
    PlainFirst(b, y);
  }

  lemma SameText(r: Repeat, s: Instance, t: Instance)
    requires IsInstance(r, s) && IsInstance(r, t) && Text(s) == Text(t)
    ensures s == t
  {
    if s.Nth? && t.Nth? {
      assert Text(s)[1..|Text(s)| - 1] == Numeral(s.i) && Text(t)[1..|Text(t)| - 1] == Numeral(t.i);
      NumeralInjective(s.i, t.i);
    }
    if s.Keyed? && t.Keyed? {
      assert Text(s)[1..|Text(s)| - 1] == s.k && Text(t)[1..|Text(t)| - 1] == t.k;
    }
  }

  lemma SamePart(place: Place, mc: nat, rest: string, mc': nat, rest': string)
    requires place.Valid() && mc < place.Copies() && mc' < place.Copies()
    requires place.Part(mc) + rest == place.Part(mc') + rest'
    ensures mc == mc' && rest == rest'
  {
    var p, q := place.Part(mc), place.Part(mc');
    if place.Module != "" && place.Count > 1 {
      var n := |place.Module| + 1;
      assert (p + rest)[n..] == Numeral(mc) + "]" + ("." + rest);
      assert (q + rest')[n..] == Numeral(mc') + "]" + ("." + rest');
      DigitsThenBracket(Numeral(mc), Numeral(mc'), "." + rest, "." + rest');
      NumeralInjective(mc, mc');
      assert ("." + rest)[1..] == rest && ("." + rest')[1..] == rest';
    } else {
      assert (p + rest)[|p|..] == rest && (q + rest')[|p|..] == rest';
    }
  }

  /** Two instances get the same address only if they are the same copy of the
      module, the same resource and the same instance of it. */
  lemma AddressInjective(place: Place, mc: nat, rk: string, s: Instance, mc': nat, rk': string, t: Instance)
    requires place.Valid() && mc < place.Copies() && mc' < place.Copies() && '[' !in rk && '[' !in rk'
    requires Address(place, mc, rk, s) == Address(place, mc', rk', t)
    ensures mc == mc' && rk == rk' && Text(s) == Text(t)
  {
    Reassociate(place.Part(mc), rk, Text(s));
    Reassociate(place.Part(mc'), rk', Text(t));
    SamePart(place, mc, rk + Text(s), mc', rk' + Text(t));
    NameThenIndex(rk, Text(s), rk', Text(t));
  }

  // ----- the loops -----

  function EntryOf(prefix: string, res: ManagedResource, inst: Instance): Entry {
    Entry(prefix + Text(inst), if inst.Nth? then inst.i else 0, res.Type, res.Name, res.Provider)
  }

  ghost predicate Made(prefix: string, res: ManagedResource, e: Entry) {
    exists inst :: IsInstance(res.Repeat, inst) && e == EntryOf(prefix, res, inst)
  }

  // The old entries are all there, and each new one is an instance of the
  // resource under its own address.
  ghost predicate Keeps(was: Entries, now: Entries, prefix: string, res: ManagedResource) {
    && (forall a | a in was :: a in now && now[a] == was[a])
    && (forall a | a in now && a !in was :: now[a].Address == a && Made(prefix, res, now[a]))
  }

  lemma KeepsPut(was: Entries, now: Entries, prefix: string, res: ManagedResource, inst: Instance)
    requires Keeps(was, now, prefix, res) && IsInstance(res.Repeat, inst)
    requires prefix + Text(inst) !in now
    ensures Keeps(was, now[prefix + Text(inst) := EntryOf(prefix, res, inst)], prefix, res)
  {
    assert Made(prefix, res, EntryOf(prefix, res, inst));
  }

  ghost predicate AddedAll(was: Entries, now: Entries, prefix: string, r: Repeat) {
    forall a :: a in now <==> a in was || exists inst :: IsInstance(r, inst) && a == prefix + Text(inst)
  }

  // The instances of one resource in one copy of the module; `prefix` is the
  // address without the instance.
  method AddInstances(prefix: string, res: ManagedResource, was: Entries) returns (rss: Entries)
    requires forall inst | IsInstance(res.Repeat, inst) :: prefix + Text(inst) !in was
    ensures AddedAll(was, rss, prefix, res.Repeat)
    ensures |rss| == |was| + HowMany(res.Repeat)
    ensures Keeps(was, rss, prefix, res)
  {
    match res.Repeat
    case Count(n) => rss := AddCounted(prefix, res, n, was);
    case ForEach(keys) => rss := AddKeyed(prefix, res, keys, was);
  }

  function NthOf(n: int, i: nat): Instance {
    if n == 1 then Single else Nth(i)
  }

  // After the first i of n counted instances.
  ghost predicate Counted(prefix: string, n: int, i: nat, was: Entries, rss: Entries) {
    && (forall a :: a in rss <==> a in was || exists j | 0 <= j < i :: a == prefix + Text(NthOf(n, j)))
    && |rss| == |was| + i
  }

  lemma CountedText(prefix: string, n: int, i: nat, addr: string)
    requires i < n && addr == if n > 1 then prefix + "[" + Numeral(i) + "]" else prefix
    ensures addr == prefix + Text(NthOf(n, i))
  {
  }

  lemma CountedNext(prefix: string, n: int, i: nat, was: Entries, rss: Entries, entry: Entry)
    requires Counted(prefix, n, i, was, rss)
    requires entry.Address == prefix + Text(NthOf(n, i)) && entry.Address !in rss
    ensures Counted(prefix, n, i + 1, was, rss[entry.Address := entry])
  {
    var now := rss[entry.Address := entry];
    forall a ensures a in now <==> a in was || exists j | 0 <= j < i + 1 :: a == prefix + Text(NthOf(n, j)) {
      if a in now && a != entry.Address && a !in was {
        var j :| 0 <= j < i && a == prefix + Text(NthOf(n, j));
      }
    }
  }

  method AddCounted(prefix: string, res: ManagedResource, n: int, was: Entries) returns (rss: Entries)
    requires res.Repeat == Count(n)
    requires forall inst | IsInstance(Count(n), inst) :: prefix + Text(inst) !in was
    ensures AddedAll(was, rss, prefix, Count(n))
    ensures |rss| == |was| + HowMany(Count(n))
    ensures Keeps(was, rss, prefix, res)
  {
    rss := was;
    var i := 0;
    while i < n
      invariant i == 0 || i <= n
      invariant Counted(prefix, n, i, was, rss)
      invariant Keeps(was, rss, prefix, res)
    {
      var addr := prefix;
      if n > 1 {
        addr := prefix + "[" + Numeral(i) + "]";
      }
      CountedText(prefix, n, i, addr);
      CountedFresh(prefix, n, i, was, rss);
      CountedNext(prefix, n, i, was, rss, Entry(addr, i, res.Type, res.Name, res.Provider));
      KeepsPut(was, rss, prefix, res, NthOf(n, i));
      rss := rss[addr := Entry(addr, i, res.Type, res.Name, res.Provider)];
      i := i + 1;
    }
    CountedAll(prefix, n, was, rss, i);
  }

  lemma CountedFresh(prefix: string, n: int, i: nat, was: Entries, rss: Entries)
    requires i < n
    requires forall inst | IsInstance(Count(n), inst) :: prefix + Text(inst) !in was
    requires Counted(prefix, n, i, was, rss)
    ensures prefix + Text(NthOf(n, i)) !in rss
  {
    var addr := prefix + Text(NthOf(n, i));
    assert IsInstance(Count(n), NthOf(n, i));
    if j :| 0 <= j < i && addr == prefix + Text(NthOf(n, j)) {
      assert addr[|prefix|..] == Text(NthOf(n, i)) && (prefix + Text(NthOf(n, j)))[|prefix|..] == Text(NthOf(n, j));
      SameText(Count(n), NthOf(n, i), NthOf(n, j));
    }
  }

  lemma CountedAll(prefix: string, n: int, was: Entries, rss: Entries, i: nat)
    requires i >= n && (i == 0 || i <= n)
    requires Counted(prefix, n, i, was, rss)
    ensures AddedAll(was, rss, prefix, Count(n))
  {
    forall a ensures a in rss <==> a in was || exists inst :: IsInstance(Count(n), inst) && a == prefix + Text(inst) {
      if inst :| IsInstance(Count(n), inst) && a == prefix + Text(inst) {
        assert inst == NthOf(n, if inst.Nth? then inst.i else 0);
      }
      if j :| 0 <= j < i && a == prefix + Text(NthOf(n, j)) {
        assert IsInstance(Count(n), NthOf(n, j));
      }
    }
  }

  function KeyedOf(k: string): Instance {
    if k == "" then Single else Keyed(k)
  }

  function KeysOf(keys: set<string>): set<string> {
    if keys == {} then {""} else keys
  }

  lemma KeyedText(prefix: string, k: string, l: string)
    ensures prefix + Text(KeyedOf(k)) == prefix + Text(KeyedOf(l)) <==> k == l
  {
    var x, y := prefix + Text(KeyedOf(k)), prefix + Text(KeyedOf(l));
    assert x[|prefix|..] == Text(KeyedOf(k)) && y[|prefix|..] == Text(KeyedOf(l));
    if k != "" && l != "" {
      assert Text(Keyed(k))[1..|Text(Keyed(k))| - 1] == k && Text(Keyed(l))[1..|Text(Keyed(l))| - 1] == l;
    }
  }

  // After the keys outside `rest`.
  ghost predicate KeyedSoFar(prefix: string, keys: set<string>, rest: set<string>, was: Entries, rss: Entries) {
    && (forall a :: a in rss <==> a in was || exists k | k in KeysOf(keys) - rest :: a == prefix + Text(KeyedOf(k)))
    && |rss| + |rest| == |was| + |KeysOf(keys)|
  }

  lemma KeyedAddress(prefix: string, k: string, addr: string)
    requires addr == if k == "" then prefix else prefix + "[" + k + "]"
    ensures addr == prefix + Text(KeyedOf(k))
  {
  }

  lemma KeyedNext(prefix: string, keys: set<string>, rest: set<string>, k: string, was: Entries, rss: Entries, entry: Entry)
    requires k in rest && rest <= KeysOf(keys) && KeyedSoFar(prefix, keys, rest, was, rss)
    requires entry.Address == prefix + Text(KeyedOf(k)) && entry.Address !in rss
    ensures KeyedSoFar(prefix, keys, rest - {k}, was, rss[entry.Address := entry])
  {
    var now := rss[entry.Address := entry];
    forall a ensures a in now <==> a in was || exists l | l in KeysOf(keys) - (rest - {k}) :: a == prefix + Text(KeyedOf(l)) {
      if a in now && a != entry.Address && a !in was {
        var l :| l in KeysOf(keys) - rest && a == prefix + Text(KeyedOf(l));
      }
    }
  }

  method AddKeyed(prefix: string, res: ManagedResource, keys: set<string>, was: Entries) returns (rss: Entries)
    requires res.Repeat == ForEach(keys)
    requires forall inst | IsInstance(ForEach(keys), inst) :: prefix + Text(inst) !in was
    ensures AddedAll(was, rss, prefix, ForEach(keys))
    ensures |rss| == |was| + HowMany(ForEach(keys))
    ensures Keeps(was, rss, prefix, res)
  {
    rss := was;
    var rest := KeysOf(keys);
    while rest != {}
      invariant rest <= KeysOf(keys)
      invariant KeyedSoFar(prefix, keys, rest, was, rss)
      invariant Keeps(was, rss, prefix, res)
    {
      var k :| k in rest;
      var addr := if k == "" then prefix else prefix + "[" + k + "]";
      KeyedAddress(prefix, k, addr);
      KeyedFresh(prefix, keys, rest, k, was, rss);
      KeyedNext(prefix, keys, rest, k, was, rss, Entry(addr, 0, res.Type, res.Name, res.Provider));
      KeepsPut(was, rss, prefix, res, KeyedOf(k));
      rss := rss[addr := Entry(addr, 0, res.Type, res.Name, res.Provider)];
      rest := rest - {k};
    }
    KeyedAll(prefix, keys, was, rss);
  }

  lemma KeyedFresh(prefix: string, keys: set<string>, rest: set<string>, k: string, was: Entries, rss: Entries)
    requires k in rest && rest <= KeysOf(keys)
    requires forall inst | IsInstance(ForEach(keys), inst) :: prefix + Text(inst) !in was
    requires KeyedSoFar(prefix, keys, rest, was, rss)
    ensures prefix + Text(KeyedOf(k)) !in rss
  {
    assert IsInstance(ForEach(keys), KeyedOf(k));
    if j :| j in KeysOf(keys) - rest && prefix + Text(KeyedOf(k)) == prefix + Text(KeyedOf(j)) {
      KeyedText(prefix, k, j);
    }
  }

  lemma KeyedAll(prefix: string, keys: set<string>, was: Entries, rss: Entries)
    requires KeyedSoFar(prefix, keys, {}, was, rss)
    ensures AddedAll(was, rss, prefix, ForEach(keys))
  {
    forall a ensures a in rss <==> a in was || exists inst :: IsInstance(ForEach(keys), inst) && a == prefix + Text(inst) {
      if inst :| IsInstance(ForEach(keys), inst) && a == prefix + Text(inst) {
        assert inst == KeyedOf(if inst.Keyed? then inst.k else "");
      }
      if k :| k in KeysOf(keys) - {} && a == prefix + Text(KeyedOf(k)) {
        assert IsInstance(ForEach(keys), KeyedOf(k));
      }
    }
  }

  // ----- resources and copies of the module -----

  type Managed = map<string, ManagedResource>

  // The address of some instance of `rk` in one of the first n copies of the module.
  ghost predicate IsAddress(place: Place, n: nat, rk: string, r: Repeat, a: string) {
    exists mc, inst | 0 <= mc < n :: IsInstance(r, inst) && a == Address(place, mc, rk, inst)
  }

  ghost predicate AddedCopies(place: Place, n: nat, rk: string, r: Repeat, was: Entries, now: Entries) {
    forall a :: a in now <==> a in was || IsAddress(place, n, rk, r, a)
  }

  ghost predicate MadeAt(place: Place, n: nat, rk: string, res: ManagedResource, e: Entry) {
    exists mc | 0 <= mc < n :: Made(place.Part(mc) + rk, res, e)
  }

  ghost predicate KeepsCopies(was: Entries, now: Entries, place: Place, n: nat, rk: string, res: ManagedResource) {
    && (forall a | a in was :: a in now && now[a] == was[a])
    && (forall a | a in now && a !in was :: now[a].Address == a && MadeAt(place, n, rk, res, now[a]))
  }

  lemma KeepsThen(was: Entries, mid: Entries, now: Entries, place: Place, mc: nat, rk: string, res: ManagedResource)
    requires KeepsCopies(was, mid, place, mc, rk, res) && Keeps(mid, now, place.Part(mc) + rk, res)
    ensures KeepsCopies(was, now, place, mc + 1, rk, res)
  {
    forall a | a in now && a !in was ensures now[a].Address == a && MadeAt(place, mc + 1, rk, res, now[a]) {
      if a in mid {
        var m :| 0 <= m < mc && Made(place.Part(m) + rk, res, mid[a]);
        assert Made(place.Part(m) + rk, res, now[a]);
      }
    }
  }

  method ExpandResource(place: Place, rk: string, res: ManagedResource, was: Entries) returns (rss: Entries)
    requires place.Valid() && '[' !in rk
    requires forall a | a in was :: !IsAddress(place, place.Copies(), rk, res.Repeat, a)
    ensures AddedCopies(place, place.Copies(), rk, res.Repeat, was, rss)
    ensures |rss| == |was| + place.Copies() * HowMany(res.Repeat)
    ensures KeepsCopies(was, rss, place, place.Copies(), rk, res)
  {
    rss := was;
    for mc := 0 to place.Copies()
      invariant AddedCopies(place, mc, rk, res.Repeat, was, rss)
      invariant |rss| == |was| + mc * HowMany(res.Repeat)
      invariant KeepsCopies(was, rss, place, mc, rk, res)
    {
      CopyFresh(place, mc, rk, res.Repeat, was, rss);
      ghost var before := rss;
      rss := AddInstances(place.Part(mc) + rk, res, rss);
      CopyAdded(place, mc, rk, res.Repeat, was, before, rss);
      KeepsThen(was, before, rss, place, mc, rk, res);
    }
  }

  lemma CopyFresh(place: Place, mc: nat, rk: string, r: Repeat, was: Entries, rss: Entries)
    requires place.Valid() && '[' !in rk && mc < place.Copies()
    requires forall a | a in was :: !IsAddress(place, place.Copies(), rk, r, a)
    requires AddedCopies(place, mc, rk, r, was, rss)
    ensures forall inst | IsInstance(r, inst) :: place.Part(mc) + rk + Text(inst) !in rss
  {
    forall inst | IsInstance(r, inst) ensures place.Part(mc) + rk + Text(inst) !in rss {
      var a := Address(place, mc, rk, inst);
      assert IsAddress(place, place.Copies(), rk, r, a);
      if IsAddress(place, mc, rk, r, a) {
        var m, other :| 0 <= m < mc && IsInstance(r, other) && a == Address(place, m, rk, other);
        AddressInjective(place, mc, rk, inst, m, rk, other);
      }
    }
  }

  lemma CopyAdded(place: Place, mc: nat, rk: string, r: Repeat, was: Entries, before: Entries, rss: Entries)
    requires AddedCopies(place, mc, rk, r, was, before)
    requires AddedAll(before, rss, place.Part(mc) + rk, r)
    ensures AddedCopies(place, mc + 1, rk, r, was, rss)
  {
    forall a ensures a in rss <==> a in was || IsAddress(place, mc + 1, rk, r, a) {
      if IsAddress(place, mc + 1, rk, r, a) {
        var m, inst :| 0 <= m < mc + 1 && IsInstance(r, inst) && a == Address(place, m, rk, inst);
        if m < mc {
          assert IsAddress(place, mc, rk, r, a);
        }
      }
      if inst :| IsInstance(r, inst) && a == place.Part(mc) + rk + Text(inst) {
        assert a == Address(place, mc, rk, inst);
      }
    }
  }

  // Entries of the resources in `order` that have a known provider.
  function Total(place: Place, resources: Managed, order: seq<string>): nat
    requires forall rk <- order :: rk in resources
  {
    if order == [] then 0 else
      var rk := order[|order| - 1];
      Total(place, resources, order[..|order| - 1]) +
      Share(place, resources[rk])
  }

  function Share(place: Place, res: ManagedResource): nat {
    if res.KnownProvider then place.Copies() * HowMany(res.Repeat) else 0
  }

  lemma TotalNext(place: Place, resources: Managed, order: seq<string>, rk: string)
    requires rk in resources && forall k <- order :: k in resources
    ensures forall k <- order + [rk] :: k in resources
    ensures Total(place, resources, order + [rk]) == Total(place, resources, order) + Share(place, resources[rk])
  {
    assert (order + [rk])[..|order|] == order;
  }

  ghost predicate Expanded(place: Place, resources: Managed, done: set<string>, rss: Entries) {
    forall a :: a in rss <==>
      exists rk | rk in done && rk in resources && resources[rk].KnownProvider ::
        IsAddress(place, place.Copies(), rk, resources[rk].Repeat, a)
  }

  // Every entry carries its own address and describes an instance of a resource.
  ghost predicate Described(place: Place, resources: Managed, rss: Entries) {
    forall a | a in rss ::
      rss[a].Address == a && exists rk :: DescribedBy(place, resources, rk, rss[a])
  }

  ghost predicate DescribedBy(place: Place, resources: Managed, rk: string, e: Entry) {
    rk in resources && resources[rk].KnownProvider && MadeAt(place, place.Copies(), rk, resources[rk], e)
  }

  lemma DescribedThen(place: Place, resources: Managed, rk: string, was: Entries, now: Entries)
    requires Described(place, resources, was) && rk in resources && resources[rk].KnownProvider
    requires KeepsCopies(was, now, place, place.Copies(), rk, resources[rk])
    ensures Described(place, resources, now)
  {
    forall a | a in now ensures now[a].Address == a && exists k :: DescribedBy(place, resources, k, now[a]) {
      if a in was {
        var k :| DescribedBy(place, resources, k, was[a]);
        assert DescribedBy(place, resources, k, now[a]);
      } else {
        assert DescribedBy(place, resources, rk, now[a]);
      }
    }
  }

  lemma ResourceFresh(place: Place, resources: Managed, rest: set<string>, rk: string, rss: Entries)
    requires place.Valid() && (forall k | k in resources :: '[' !in k) && rk in rest && rest <= resources.Keys
    requires Expanded(place, resources, resources.Keys - rest, rss)
    ensures forall a | a in rss :: !IsAddress(place, place.Copies(), rk, resources[rk].Repeat, a)
  {
    forall a | a in rss ensures !IsAddress(place, place.Copies(), rk, resources[rk].Repeat, a) {
      var other :| other in resources.Keys - rest && other in resources && resources[other].KnownProvider
                   && IsAddress(place, place.Copies(), other, resources[other].Repeat, a);
      var m, s :| 0 <= m < place.Copies() && IsInstance(resources[other].Repeat, s) && a == Address(place, m, other, s);
      forall mc, inst | 0 <= mc < place.Copies() ensures a != Address(place, mc, rk, inst) {
        if a == Address(place, mc, rk, inst) {
          AddressInjective(place, m, other, s, mc, rk, inst);
        }
      }
    }
  }

  lemma ResourceAdded(place: Place, resources: Managed, rest: set<string>, rk: string, before: Entries, rss: Entries)
    requires rk in rest && rest <= resources.Keys
    requires Expanded(place, resources, resources.Keys - rest, before)
    requires if resources[rk].KnownProvider then AddedCopies(place, place.Copies(), rk, resources[rk].Repeat, before, rss)
             else rss == before
    ensures Expanded(place, resources, resources.Keys - (rest - {rk}), rss)
  {
  }

  method AddResource(place: Place, resources: Managed, ghost rest: set<string>, rk: string, was: Entries) returns (rss: Entries)
    requires place.Valid() && (forall k | k in resources :: '[' !in k) && rk in rest && rest <= resources.Keys
    requires Expanded(place, resources, resources.Keys - rest, was) && Described(place, resources, was)
    ensures Expanded(place, resources, resources.Keys - (rest - {rk}), rss) && Described(place, resources, rss)
    ensures |rss| == |was| + Share(place, resources[rk])
  {
    var res := resources[rk];
    rss := was;
    ResourceFresh(place, resources, rest, rk, was);
    if res.KnownProvider {
      rss := ExpandResource(place, rk, res, was);
      DescribedThen(place, resources, rk, was, rss);
    }
    ResourceAdded(place, resources, rest, rk, was, rss);
  }

  /** The resource loop of extractHCLModule: visiting the resources in any order,
      it makes one entry per instance, copy of the module and resource with a
      known provider, all under different addresses. */
  method Expand(place: Place, resources: Managed) returns (rss: Entries, ghost order: seq<string>)
    requires place.Valid() && forall rk | rk in resources :: '[' !in rk
    ensures Visits(order, resources.Keys) && forall rk <- order :: rk in resources
    ensures Expanded(place, resources, resources.Keys, rss)
    ensures |rss| == Total(place, resources, order)
    ensures Described(place, resources, rss)
  {
    rss, order := map[], [];
    var rest := resources.Keys;
    while rest != {}
      invariant rest <= resources.Keys && forall rk <- order :: rk in resources
      invariant multiset(order) + multiset(rest) == multiset(resources.Keys)
      invariant Expanded(place, resources, resources.Keys - rest, rss)
      invariant |rss| == Total(place, resources, order)
      invariant Described(place, resources, rss)
    {
      var rk :| rk in rest;
      VisitNext(order, rest, rk, resources.Keys);
      TotalNext(place, resources, order, rk);
      rss := AddResource(place, resources, rest, rk, rss);
      order, rest := order + [rk], rest - {rk};
    }
    assert resources.Keys - {} == resources.Keys;
  }

  /** The number of entries does not depend on the order. */
  lemma {:induction false} TotalPermutes(place: Place, resources: Managed, a: seq<string>, b: seq<string>)
    requires multiset(a) == multiset(b)
    requires (forall rk <- a :: rk in resources) && forall rk <- b :: rk in resources
    ensures Total(place, resources, a) == Total(place, resources, b)
    decreases |a|
  {
    if a == [] {
      assert |multiset(b)| == 0;
    } else {
      var n := |a| - 1;
      LastOf(a);
      var i := Occurrence(b, a[n]);
      var rest := Drop(b, i);
      Cancel(multiset(a[..n]), multiset(rest), a[n]);
      TotalPermutes(place, resources, a[..n], rest);
      TotalDrop(place, resources, b, i);
    }
  }

  lemma {:induction false} TotalDrop(place: Place, resources: Managed, b: seq<string>, i: nat)
    requires i < |b| && forall rk <- b :: rk in resources
    ensures forall rk <- Drop(b, i) :: rk in resources
    ensures Total(place, resources, b) == Total(place, resources, Drop(b, i)) +
            Share(place, resources[b[i]])
    decreases |b|
  {
    var n := |b| - 1;
    if i == n {
      assert Drop(b, i) == b[..n];
    } else {
      TotalDrop(place, resources, b[..n], i);
      assert Drop(b, i)[..|Drop(b, i)| - 1] == Drop(b[..n], i);
      assert Drop(b, i)[|Drop(b, i)| - 1] == b[n];
    }
  }
}
