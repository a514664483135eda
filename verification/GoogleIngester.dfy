/** Google ingestion: a price table filled from the SKUs, then machine types
    priced from it (google/ingester.go). */
module GoogleIngester {
  import opened Wrappers
  import opened Strings
  import opened Store
  import opened LivePrices

  datatype Rate = Rate(Units: int, Nanos: int, CurrencyCode: string)

  datatype PricingExpression = PricingExpression(UsageUnit: string, TieredRates: seq<Rate>)

  datatype Category = Category(ResourceFamily: string, ServiceDisplayName: string, ResourceGroup: string, UsageType: string)

  datatype Sku = Sku(SkuId: string, Description: string, Category: Option<Category>, ServiceRegions: seq<string>,
                     PricingInfo: seq<Option<PricingExpression>>)

  datatype MachineType = MachineType(ID: string, Name: string, GuestCpus: int, MemoryMb: int, Kind: string)

  datatype Emitted = Emitted(Price: LivePrice, Product: Product)

  // The region of the ingester, strings.ToLower, strconv.Itoa and the ingestion filter.
  datatype Config = Config(Region: string, ToLower: string -> string, Itoa: int -> string, Filter: Emitted -> bool)

  const FAMILIES: set<string> := {"e2", "n2", "n2d", "n1", "t2d", "m2", "m1", "c2", "a2"}

  const RAM := "RAM"
  const CPU := "CPU"

  type Table = map<string, LivePrice>

  function Key(family: string, group: string): string {
    family + "." + group
  }

  // Go divides integers toward zero.
  function Quotient(n: int, d: int): int
    requires d > 0
  {
    if n >= 0 then n / d else -((-n) / d)
  }

  // ----- phase one: the SKUs -----

  function Group(sku: Sku): string {
    if sku.Category.None? then "" else sku.Category.value.ResourceGroup
  }

  // The current pricing, if the SKU has one with a rate.
  function SkuPrice(sku: Sku): Option<LivePrice> {
    if sku.PricingInfo == [] then None else
      match sku.PricingInfo[|sku.PricingInfo| - 1]
      case None => None
      case Some(pi) =>
        if pi.TieredRates == [] then None else
          var rate := pi.TieredRates[0];
          Some(LivePrice(pi.UsageUnit, rate.CurrencyCode, rate.Units as real + rate.Nanos as real / 1000000000.0, null))
  }

  function FamilyWord(cfg: Config, text: string, sep: char): string {
    cfg.ToLower(Split(text, sep)[0])
  }

  // The machine family whose memory or processors the SKU prices.
  function SkuFamily(cfg: Config, sku: Sku): Option<string> {
    if Group(sku) in {CPU, RAM} && FamilyWord(cfg, sku.Description, ' ') in FAMILIES
    then Some(FamilyWord(cfg, sku.Description, ' ')) else None
  }

  function SkuProduct(cfg: Config, sku: Sku): Product {
    var c := if sku.Category.None? then Category("", "", "", "") else sku.Category.value;
    var attributes := map["group" := c.ResourceGroup, "usage" := c.UsageType];
    Product("google", sku.SkuId, c.ServiceDisplayName, c.ResourceFamily, cfg.Region,
            if SkuFamily(cfg, sku).None? then attributes else attributes["machine_family" := SkuFamily(cfg, sku).value])
  }

  predicate InRegion(cfg: Config, region: string) {
    region == "global" || region == cfg.Region
  }

  // The SKU sets the price of a family's group.
  predicate Sets(cfg: Config, sku: Sku, family: string, group: string) {
    && SkuPrice(sku).Some? && SkuFamily(cfg, sku) == Some(family) && Group(sku) == group
    && exists r <- sku.ServiceRegions :: InRegion(cfg, r)
  }

  // The price of the last SKU that sets it.
  function LastSet(cfg: Config, skus: seq<Sku>, family: string, group: string): Option<LivePrice> {
    if skus == [] then None else
      var last := skus[|skus| - 1];
      if Sets(cfg, last, family, group) then SkuPrice(last)
      else LastSet(cfg, skus[..|skus| - 1], family, group)
  }

  // One record per region of the SKU that is, or stands for, the ingester's.
  function SkuRecords(cfg: Config, sku: Sku, regions: seq<string>): seq<Emitted> {
    if regions == [] || SkuPrice(sku).None? then [] else
      var front, r := SkuRecords(cfg, sku, regions[..|regions| - 1]), regions[|regions| - 1];
      var pwp := Emitted(SkuPrice(sku).value, SkuProduct(cfg, sku));
      if InRegion(cfg, r) && cfg.Filter(pwp) then front + [pwp] else front
  }

  function AllSkuRecords(cfg: Config, skus: seq<Sku>): seq<Emitted> {
    if skus == [] then [] else
      var last := skus[|skus| - 1];
      AllSkuRecords(cfg, skus[..|skus| - 1]) + SkuRecords(cfg, last, last.ServiceRegions)
  }

  // ----- phase two: the machine types -----

  datatype Composed = Skipped | Priced(Record: Emitted) | Failed(Error: AddError)

  // A price for n units of what p is the price of one unit of.
  function Scaled(p: LivePrice, n: int): LivePrice {
    p.(Value := p.Value * n as real)
  }

  function Compose(cfg: Config, table: Table, mt: MachineType): Composed {
    var mf := FamilyWord(cfg, mt.Name, '-');
    if mf !in FAMILIES || Key(mf, RAM) !in table || Key(mf, CPU) !in table then Skipped else
      var rp, cp := table[Key(mf, RAM)], table[Key(mf, CPU)];
      if rp.Unit != "GiBy.h" then Skipped else
        var ram := Scaled(rp, Quotient(mt.MemoryMb, 1000)).(Unit := "h");
        var cpu := Scaled(cp, mt.GuestCpus);
        match Mismatch(ram, cpu)
        case Some(e) => Failed(e)
        case None => Priced(Emitted(ram.(Value := ram.Value + cpu.Value), MachineProduct(cfg, mt)))
  }

  function MachineProduct(cfg: Config, mt: MachineType): Product {
    Product("google", "machine-types-" + mt.ID, "Compute Engine", "Compute", cfg.Region,
            map["machine_type" := mt.Name, "group" := "MachineType", "cpu" := cfg.Itoa(mt.GuestCpus),
                "ram" := cfg.Itoa(mt.MemoryMb), "kind" := mt.Kind, "machine_family" := FamilyWord(cfg, mt.Name, '-')])
  }

  // The records of the machine types, up to the first that fails.
  function ComposeAll(cfg: Config, table: Table, mts: seq<MachineType>): (seq<Emitted>, Option<AddError>) {
    if mts == [] then ([], None) else
      var (front, e) := ComposeAll(cfg, table, mts[..|mts| - 1]);
      if e.Some? then (front, e) else
        match Compose(cfg, table, mts[|mts| - 1])
        case Skipped => (front, None)
        case Priced(r) => (if cfg.Filter(r) then front + [r] else front, None)
        case Failed(e) => (front, Some(e))
  }

  lemma {:induction false} ComposeStuck(cfg: Config, table: Table, mts: seq<MachineType>, n: nat)
    requires n <= |mts| && ComposeAll(cfg, table, mts[..n]).1.Some?
    ensures ComposeAll(cfg, table, mts) == ComposeAll(cfg, table, mts[..n])
    decreases |mts|
  {
    if n < |mts| {
      assert mts[..|mts| - 1][..n] == mts[..n];
      ComposeStuck(cfg, table, mts[..|mts| - 1], n);
    } else {
      assert mts[..n] == mts;
    }
  }

  // ----- the table -----

  ghost predicate DotFree(s: string) {
    '.' !in s
  }

  lemma FamiliesDotFree(family: string)
    requires family in FAMILIES
    ensures DotFree(family)
  {
  }

  lemma KeyInjective(f: string, g: string, f': string, g': string)
    requires f in FAMILIES && f' in FAMILIES && g in {CPU, RAM} && g' in {CPU, RAM}
    ensures Key(f, g) == Key(f', g') <==> f == f' && g == g'
  {
    FamiliesDotFree(f);
    FamiliesDotFree(f');
    assert Key(f, g) == Join([f, g], '.') && Key(f', g') == Join([f', g'], '.') by {
      assert [f, g][1..] == [g] && [f', g'][1..] == [g'] && "." == ['.'];
    }
    JoinInjective([f, g], [f', g'], '.');
    assert [f, g] == [f', g'] ==> [f, g][0] == [f', g'][0] && [f, g][1] == [f', g'][1];
  }

  // The table holds, for every family and group, the price that was set last.
  ghost predicate HoldsLast(cfg: Config, table: Table, skus: seq<Sku>) {
    forall f, g | f in FAMILIES && g in {CPU, RAM} ::
      (if Key(f, g) in table then Some(table[Key(f, g)]) else None) == LastSet(cfg, skus, f, g)
  }

  // What one SKU does to the table.
  function TableAfter(cfg: Config, table: Table, sku: Sku): Table {
    if SkuFamily(cfg, sku).Some? && Sets(cfg, sku, SkuFamily(cfg, sku).value, Group(sku))
    then table[Key(SkuFamily(cfg, sku).value, Group(sku)) := SkuPrice(sku).value] else table
  }

  lemma HoldsNext(cfg: Config, table: Table, skus: seq<Sku>, sku: Sku)
    requires HoldsLast(cfg, table, skus)
    ensures HoldsLast(cfg, TableAfter(cfg, table, sku), skus + [sku])
  {
    var next := TableAfter(cfg, table, sku);
    assert (skus + [sku])[..|skus|] == skus;
    forall f, g | f in FAMILIES && g in {CPU, RAM}
      ensures (if Key(f, g) in next then Some(next[Key(f, g)]) else None) == LastSet(cfg, skus + [sku], f, g)
    {
      if SkuFamily(cfg, sku).Some? {
        KeyInjective(f, g, SkuFamily(cfg, sku).value, Group(sku));
      }
    }
  }

  // The table after phase one.
  function TableOf(cfg: Config, skus: seq<Sku>): Table {
    if skus == [] then map[] else TableAfter(cfg, TableOf(cfg, skus[..|skus| - 1]), skus[|skus| - 1])
  }

  /** Phase one leaves, per family and group, the price of the last SKU that sets it. */
  lemma {:induction false} TableHoldsLast(cfg: Config, skus: seq<Sku>)
    ensures HoldsLast(cfg, TableOf(cfg, skus), skus)
  {
    if skus != [] {
      var front := skus[..|skus| - 1];
      assert skus == front + [skus[|skus| - 1]];
      TableHoldsLast(cfg, front);
      HoldsNext(cfg, TableOf(cfg, front), front, skus[|skus| - 1]);
    }
  }

  // Priced exactly when the family is known and phase one set a memory price per
  // GiB-hour and a processor price per hour in one currency; the price is then
  // that of the memory in whole thousands of MB plus that of the processors.
  ghost predicate IsMachinePrice(cfg: Config, skus: seq<Sku>, mt: MachineType, c: Composed) {
    var mf := FamilyWord(cfg, mt.Name, '-');
    var ram, cpu := LastSet(cfg, skus, mf, RAM), LastSet(cfg, skus, mf, CPU);
    && (c.Priced? <==>
          && mf in FAMILIES && ram.Some? && cpu.Some?
          && ram.value.Unit == "GiBy.h" && cpu.value.Unit == "h" && ram.value.Currency == cpu.value.Currency)
    && (c.Priced? ==>
          && c.Record.Price.Value ==
             ram.value.Value * Quotient(mt.MemoryMb, 1000) as real + cpu.value.Value * mt.GuestCpus as real
          && c.Record.Price.Unit == "h" && c.Record.Price.Currency == cpu.value.Currency)
  }

  lemma ComposeIsMachinePrice(cfg: Config, table: Table, skus: seq<Sku>, mt: MachineType)
    requires HoldsLast(cfg, table, skus)
    ensures IsMachinePrice(cfg, skus, mt, Compose(cfg, table, mt))
  {
    var mf := FamilyWord(cfg, mt.Name, '-');
    if mf in FAMILIES {
      assert (if Key(mf, RAM) in table then Some(table[Key(mf, RAM)]) else None) == LastSet(cfg, skus, mf, RAM);
      assert (if Key(mf, CPU) in table then Some(table[Key(mf, CPU)]) else None) == LastSet(cfg, skus, mf, CPU);
    }
  }

  /** What phase two composes from the table of phase one is the price of the
      machine type, from the parts set last. */
  lemma MachinePriceExactly(cfg: Config, skus: seq<Sku>, mt: MachineType)
    ensures IsMachinePrice(cfg, skus, mt, Compose(cfg, TableOf(cfg, skus), mt))
  {
    TableHoldsLast(cfg, skus);
    ComposeIsMachinePrice(cfg, TableOf(cfg, skus), skus, mt);
  }

  // ----- the loops -----

  predicate Reached(cfg: Config, regions: seq<string>) {
    exists r <- regions :: InRegion(cfg, r)
  }

  lemma RegionNext(cfg: Config, sku: Sku, regions: seq<string>, i: nat)
    requires i < |regions|
    ensures Reached(cfg, regions[..i + 1]) <==> Reached(cfg, regions[..i]) || InRegion(cfg, regions[i])
    ensures SkuPrice(sku).None? ==> SkuRecords(cfg, sku, regions[..i + 1]) == SkuRecords(cfg, sku, regions[..i])
    ensures SkuPrice(sku).Some? ==>
              var pwp := Emitted(SkuPrice(sku).value, SkuProduct(cfg, sku));
              SkuRecords(cfg, sku, regions[..i + 1]) ==
              SkuRecords(cfg, sku, regions[..i]) + if InRegion(cfg, regions[i]) && cfg.Filter(pwp) then [pwp] else []
  {
    assert regions[..i + 1] == regions[..i] + [regions[i]];
  }

  // Meeting the region sets the price; doing so again changes nothing.
  lemma PriceSet(cfg: Config, table: Table, sku: Sku, region: string)
    requires region in sku.ServiceRegions
    ensures SkuPrice(sku).None? || SkuFamily(cfg, sku).None? ==> TableAfter(cfg, table, sku) == table
    ensures InRegion(cfg, region) && SkuPrice(sku).Some? && SkuFamily(cfg, sku).Some? ==>
              TableAfter(cfg, table, sku) == table[Key(SkuFamily(cfg, sku).value, Group(sku)) := SkuPrice(sku).value]
  {
  }

  method IngestSku(cfg: Config, table: Table, sku: Sku) returns (next: Table, sent: seq<Emitted>)
    ensures sent == SkuRecords(cfg, sku, sku.ServiceRegions)
    ensures next == TableAfter(cfg, table, sku)
  {
    next, sent := table, [];
    var regions := sku.ServiceRegions;
    if sku.PricingInfo == [] || sku.PricingInfo[|sku.PricingInfo| - 1].None? {
      assert SkuPrice(sku).None?;
      return;
    }
    for i := 0 to |regions|
      invariant sent == SkuRecords(cfg, sku, regions[..i])
      invariant next == if Reached(cfg, regions[..i]) then TableAfter(cfg, table, sku) else table
    {
      RegionNext(cfg, sku, regions, i);
      PriceSet(cfg, table, sku, regions[i]);
      var region := if regions[i] == "global" then cfg.Region else regions[i];
      assert InRegion(cfg, regions[i]) <==> region == cfg.Region;
      if region != cfg.Region || SkuPrice(sku).None? {
        continue;
      }
      var pwp := Emitted(SkuPrice(sku).value, SkuProduct(cfg, sku));
      var family := SkuFamily(cfg, sku);
      if family.Some? {
        next := next[Key(family.value, Group(sku)) := pwp.Price];
      }
      if cfg.Filter(pwp) {
        sent := sent + [pwp];
      }
    }
    assert regions[..|regions|] == regions;
  }

  // What a fetching goroutine sent before it ended, and its error.
  datatype Fetched<T> = Fetched(Items: seq<T>, Err: Option<string>)

  datatype GoogleError = ContextDone | FetchFailed(Message: string) | AddFailed(Error: AddError)

  // The SKUs handled before the context was found done; `done` says at which ones it is.
  function Handled(skus: seq<Sku>, done: nat -> bool): (n: nat)
    ensures n <= |skus| && (n < |skus| ==> done(n))
    ensures forall i | 0 <= i < n :: !done(i)
  {
    HandledFrom(skus, done, 0)
  }

  function HandledFrom(skus: seq<Sku>, done: nat -> bool, i: nat): (n: nat)
    requires i <= |skus|
    ensures i <= n <= |skus| && (n < |skus| ==> done(n))
    ensures forall k | i <= k < n :: !done(k)
    decreases |skus| - i
  {
    if i == |skus| || done(i) then i else HandledFrom(skus, done, i + 1)
  }

  lemma SkusNext(cfg: Config, skus: seq<Sku>, i: nat)
    requires i < |skus|
    ensures AllSkuRecords(cfg, skus[..i + 1]) ==
            AllSkuRecords(cfg, skus[..i]) + SkuRecords(cfg, skus[i], skus[i].ServiceRegions)
    ensures TableOf(cfg, skus[..i + 1]) == TableAfter(cfg, TableOf(cfg, skus[..i]), skus[i])
  {
    assert skus[..i + 1][..i] == skus[..i];
  }

  lemma {:induction false} TablePlain(cfg: Config, skus: seq<Sku>, k: string)
    requires k in TableOf(cfg, skus)
    ensures TableOf(cfg, skus)[k].Attributes == null
  {
    if skus != [] && k in TableOf(cfg, skus[..|skus| - 1]) {
      TablePlain(cfg, skus[..|skus| - 1], k);
    }
  }

  method IngestSkus(cfg: Config, skus: seq<Sku>, done: nat -> bool) returns (table: Table, sent: seq<Emitted>, stopped: bool)
    ensures var n := Handled(skus, done);
            sent == AllSkuRecords(cfg, skus[..n]) && table == TableOf(cfg, skus[..n]) && stopped == (n < |skus|)
  {
    table, sent := map[], [];
    for i := 0 to |skus|
      invariant i <= Handled(skus, done)
      invariant sent == AllSkuRecords(cfg, skus[..i])
      invariant table == TableOf(cfg, skus[..i])
    {
      if done(i) {
        return table, sent, true;
      }
      SkusNext(cfg, skus, i);
      var more;
      table, more := IngestSku(cfg, table, skus[i]);
      sent := sent + more;
    }
    stopped := false;
  }

  method ComposeMachine(cfg: Config, table: Table, mt: MachineType) returns (c: Composed)
    requires forall k | k in table :: table[k].Attributes == null
    ensures c == Compose(cfg, table, mt)
  {
    var mf := FamilyWord(cfg, mt.Name, '-');
    if mf !in FAMILIES || Key(mf, RAM) !in table || Key(mf, CPU) !in table {
      return Skipped;
    }
    // Copies: scaling them leaves the table alone.
    var ram, cpu := table[Key(mf, RAM)], table[Key(mf, CPU)];
    ram := Scaled(ram, Quotient(mt.MemoryMb, 1000));
    cpu := Scaled(cpu, mt.GuestCpus);
    if ram.Unit != "GiBy.h" {
      return Skipped;
    }
    ram := ram.(Unit := "h");
    var rp := new PriceVar(ram);
    var outcome := rp.Add(cpu);
    if outcome.Mismatched? {
      return Failed(outcome.error);
    }
    c := Priced(Emitted(rp.p, MachineProduct(cfg, mt)));
  }

  method ComposeMachines(cfg: Config, table: Table, mts: seq<MachineType>) returns (sent: seq<Emitted>, err: Option<AddError>)
    requires forall k | k in table :: table[k].Attributes == null
    ensures (sent, err) == ComposeAll(cfg, table, mts)
  {
    sent := [];
    for i := 0 to |mts|
      invariant ComposeAll(cfg, table, mts[..i]) == (sent, None)
    {
      assert mts[..i + 1][..i] == mts[..i];
      var c := ComposeMachine(cfg, table, mts[i]);
      if c.Failed? {
        ComposeStuck(cfg, table, mts, i + 1);
        return sent, Some(c.Error);
      }
      if c.Priced? && cfg.Filter(c.Record) {
        sent := sent + [c.Record];
      }
    }
    assert mts[..|mts|] == mts;
    err := None;
  }

  // The error that is left: a later one replaces an earlier one.
  function Failure(fetched: Option<string>, before: Option<GoogleError>): Option<GoogleError> {
    if fetched.Some? then Some(FetchFailed(fetched.value)) else before
  }

  /** Both phases. A done context stops the first one; a failed fetch stops neither,
      so that machine types are priced from the SKUs that did arrive. Nothing that
      existed before is modified: pricing leaves the table, and the attribute maps in
      it, as phase one filled them. */
  method Ingest(cfg: Config, skus: Fetched<Sku>, mts: Fetched<MachineType>, done: nat -> bool)
    returns (sent: seq<Emitted>, err: Option<GoogleError>)
    ensures var n := Handled(skus.Items, done);
            var first := AllSkuRecords(cfg, skus.Items[..n]);
            var (more, mismatch) := ComposeAll(cfg, TableOf(cfg, skus.Items), mts.Items);
            if n < |skus.Items| then sent == first && err == Some(ContextDone)
            else sent == first + more &&
                 err == if mismatch.Some? then Some(AddFailed(mismatch.value))
                        else if mts.Err.Some? then Some(FetchFailed(mts.Err.value))
                        else if skus.Err.Some? then Some(FetchFailed(skus.Err.value)) else None
  {
    var prices, first, stopped := IngestSkus(cfg, skus.Items, done);
    if stopped {
      return first, Some(ContextDone);
    }
    assert skus.Items[..|skus.Items|] == skus.Items;
    forall k | k in prices ensures prices[k].Attributes == null {
      TablePlain(cfg, skus.Items, k);
    }
    err := Failure(skus.Err, None);
    var more, mismatch := ComposeMachines(cfg, prices, mts.Items);
    sent := first + more;
    err := if mismatch.Some? then Some(AddFailed(mismatch.value)) else Failure(mts.Err, err);
  }
}
