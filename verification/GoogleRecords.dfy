/** What Google ingestion sends, SKU by SKU and machine type by machine type
    (google/ingester.go). */
module GoogleRecords {
  import opened Wrappers
  import opened Orders
  import opened Strings
  import opened Store
  import opened LivePrices
  import opened GoogleIngester

  // ----- one SKU -----

  // A price without its attributes.
  datatype Tariff = Tariff(Unit: string, Currency: string, Value: real) {
    function Price(): LivePrice {
      LivePrice(Unit, Currency, Value, null)
    }
  }

  // The last pricing of the SKU has a rate, and this is its price per unit of usage.
  ghost predicate IsPriceOf(sku: Sku, p: Tariff) {
    && sku.PricingInfo != [] && sku.PricingInfo[|sku.PricingInfo| - 1].Some?
    && var pi := sku.PricingInfo[|sku.PricingInfo| - 1].value;
       && pi.TieredRates != []
       && p.Unit == pi.UsageUnit && p.Currency == pi.TieredRates[0].CurrencyCode
       && p.Value == pi.TieredRates[0].Units as real + pi.TieredRates[0].Nanos as real / 1000000000.0
  }

  function TariffOf(p: LivePrice): Tariff {
    Tariff(p.Unit, p.Currency, p.Value)
  }

  lemma SkuTariff(sku: Sku)
    ensures SkuPrice(sku).Some? ==> IsPriceOf(sku, TariffOf(SkuPrice(sku).value)) && SkuPrice(sku).value.Attributes == null
    ensures forall p | IsPriceOf(sku, p) :: SkuPrice(sku) == Some(p.Price())
  {
  }

  ghost predicate Begins(text: string, sep: char, x: string, rest: string) {
    sep !in x && (text == x || text == x + [sep] + rest)
  }

  // The text up to the first separator, in lower case.
  ghost predicate IsFirstWord(cfg: Config, text: string, sep: char, word: string) {
    exists x, rest :: Begins(text, sep, x, rest) && word == cfg.ToLower(x)
  }

  lemma FirstWordExactly(cfg: Config, text: string, sep: char, word: string)
    ensures FamilyWord(cfg, text, sep) == word <==> IsFirstWord(cfg, text, sep, word)
  {
    var first := FirstPiece(text, sep);
    if x, rest :| Begins(text, sep, x, rest) && word == cfg.ToLower(x) {
      SplitOne(x, sep);
      SplitConcat(x, rest, sep);
    }
  }

  lemma FirstPiece(text: string, sep: char) returns (rest: string)
    ensures Begins(text, sep, Split(text, sep)[0], rest)
  {
    JoinSplit(text, sep);
    var pieces := Split(text, sep);
    rest := Join(pieces[1..], sep);
  }

  // The machine family whose processors or memory the SKU prices.
  ghost predicate IsFamilyOf(cfg: Config, sku: Sku, family: string) {
    && sku.Category.Some? && sku.Category.value.ResourceGroup in {"CPU", "RAM"}
    && IsFirstWord(cfg, sku.Description, ' ', family)
    && family in {"e2", "n2", "n2d", "n1", "t2d", "m2", "m1", "c2", "a2"}
  }

  lemma SkuFamilyExactly(cfg: Config, sku: Sku, family: string)
    ensures SkuFamily(cfg, sku) == Some(family) <==> IsFamilyOf(cfg, sku, family)
  {
    FirstWordExactly(cfg, sku.Description, ' ', family);
  }

  // The record of a SKU, field by field.
  ghost predicate IsSkuRecord(cfg: Config, sku: Sku, e: Emitted) {
    var group := if sku.Category.Some? then sku.Category.value.ResourceGroup else "";
    var usage := if sku.Category.Some? then sku.Category.value.UsageType else "";
    && IsPriceOf(sku, TariffOf(e.Price)) && e.Price.Attributes == null
    && e.Product.Provider == "google" && e.Product.SKU == sku.SkuId && e.Product.Location == cfg.Region
    && e.Product.Service == (if sku.Category.Some? then sku.Category.value.ServiceDisplayName else "")
    && e.Product.Family == (if sku.Category.Some? then sku.Category.value.ResourceFamily else "")
    && (forall family | IsFamilyOf(cfg, sku, family) ::
          e.Product.Attributes == map["group" := group, "usage" := usage, "machine_family" := family])
    && ((forall family :: !IsFamilyOf(cfg, sku, family)) ==> e.Product.Attributes == map["group" := group, "usage" := usage])
  }

  lemma SkuRecordIs(cfg: Config, sku: Sku)
    requires SkuPrice(sku).Some?
    ensures IsSkuRecord(cfg, sku, Emitted(SkuPrice(sku).value, SkuProduct(cfg, sku)))
  {
    SkuTariff(sku);
    forall family ensures SkuFamily(cfg, sku) == Some(family) <==> IsFamilyOf(cfg, sku, family) {
      SkuFamilyExactly(cfg, sku, family);
    }
    if SkuFamily(cfg, sku).Some? {
      assert IsFamilyOf(cfg, sku, SkuFamily(cfg, sku).value);
    }
  }

  // The regions whose price is that of the ingester's region.
  ghost predicate IsHere(cfg: Config, region: string) {
    region == "global" || region == cfg.Region
  }

  /** A SKU sends its record once for every region that is the ingester's or global, if
      it has a price and is wanted, and nothing else. */
  lemma {:induction false} SkuRecordsExactly(cfg: Config, sku: Sku, regions: seq<string>) returns (at: seq<nat>)
    ensures Increasing(at, |regions|) && |at| == |SkuRecords(cfg, sku, regions)|
    ensures forall i | 0 <= i < |at| ::
              && IsHere(cfg, regions[at[i]]) && IsSkuRecord(cfg, sku, SkuRecords(cfg, sku, regions)[i])
              && cfg.Filter(SkuRecords(cfg, sku, regions)[i])
    ensures forall n | 0 <= n < |regions| && IsHere(cfg, regions[n]) && n !in at ::
              forall e :: !(IsSkuRecord(cfg, sku, e) && cfg.Filter(e))
  {
    if regions == [] {
      at := [];
    } else {
      var n := |regions| - 1;
      at := SkuRecordsExactly(cfg, sku, regions[..n]);
      IncreasingNext(at, n);
      assert forall m | 0 <= m < n :: regions[..n][m] == regions[m];
      OnlyRecord(cfg, sku);
      if SkuPrice(sku).Some? && InRegion(cfg, regions[n]) && cfg.Filter(Emitted(SkuPrice(sku).value, SkuProduct(cfg, sku))) {
        at := at + [n];
      }
    }
  }

  lemma OnlyRecord(cfg: Config, sku: Sku)
    ensures SkuPrice(sku).Some? ==> IsSkuRecord(cfg, sku, Emitted(SkuPrice(sku).value, SkuProduct(cfg, sku)))
    ensures forall e | IsSkuRecord(cfg, sku, e) ::
              SkuPrice(sku).Some? && e == Emitted(SkuPrice(sku).value, SkuProduct(cfg, sku))
  {
    if SkuPrice(sku).Some? {
      SkuRecordIs(cfg, sku);
    }
    forall e | IsSkuRecord(cfg, sku, e) ensures SkuPrice(sku).Some? && e == Emitted(SkuPrice(sku).value, SkuProduct(cfg, sku)) {
      SkuTariff(sku);
      SameProduct(cfg, sku, e, Emitted(SkuPrice(sku).value, SkuProduct(cfg, sku)));
    }
  }

  lemma SameProduct(cfg: Config, sku: Sku, e: Emitted, f: Emitted)
    requires IsSkuRecord(cfg, sku, e) && SkuPrice(sku).Some? && f == Emitted(SkuPrice(sku).value, SkuProduct(cfg, sku))
    ensures e.Product == f.Product
  {
    SkuRecordIs(cfg, sku);
    if family :| IsFamilyOf(cfg, sku, family) {
      assert e.Product.Attributes == f.Product.Attributes;
    }
  }

  // ----- the table -----

  // SKU i is the last that prices this group of the family.
  ghost predicate LastPricing(cfg: Config, skus: seq<Sku>, family: string, group: string, i: nat) {
    && i < |skus| && Prices(cfg, skus[i], family, group)
    && forall j | i < j < |skus| :: !Prices(cfg, skus[j], family, group)
  }

  ghost predicate Prices(cfg: Config, sku: Sku, family: string, group: string) {
    && IsFamilyOf(cfg, sku, family) && sku.Category.value.ResourceGroup == group
    && (exists p :: IsPriceOf(sku, p)) && exists r <- sku.ServiceRegions :: IsHere(cfg, r)
  }

  lemma SetsExactly(cfg: Config, sku: Sku, family: string, group: string)
    ensures Sets(cfg, sku, family, group) <==> Prices(cfg, sku, family, group)
  {
    SkuFamilyExactly(cfg, sku, family);
    SkuTariff(sku);
    assert forall r :: InRegion(cfg, r) <==> IsHere(cfg, r);
  }

  lemma {:induction false} LastSetExactly(cfg: Config, skus: seq<Sku>, family: string, group: string)
    ensures LastSet(cfg, skus, family, group).None? <==> forall i: nat :: !LastPricing(cfg, skus, family, group, i)
    ensures LastSet(cfg, skus, family, group).Some? ==> LastSet(cfg, skus, family, group).value.Attributes == null
    ensures LastSet(cfg, skus, family, group).Some? ==>
              exists i: nat ::
                && LastPricing(cfg, skus, family, group, i)
                && IsPriceOf(skus[i], TariffOf(LastSet(cfg, skus, family, group).value))
  {
    if skus != [] {
      var n := |skus| - 1;
      var front := skus[..n];
      SetsExactly(cfg, skus[n], family, group);
      LastSetExactly(cfg, front, family, group);
      if Sets(cfg, skus[n], family, group) {
        assert LastPricing(cfg, skus, family, group, n);
        SkuTariff(skus[n]);
      } else {
        forall i: nat ensures LastPricing(cfg, skus, family, group, i) <==> LastPricing(cfg, front, family, group, i) {
          LastEarlier(cfg, skus, family, group, i);
        }
      }
    }
  }

  lemma LastEarlier(cfg: Config, skus: seq<Sku>, family: string, group: string, i: nat)
    requires skus != [] && !Prices(cfg, skus[|skus| - 1], family, group)
    ensures LastPricing(cfg, skus, family, group, i) <==> LastPricing(cfg, skus[..|skus| - 1], family, group, i)
  {
    var n := |skus| - 1;
    assert forall j | 0 <= j < n :: skus[..n][j] == skus[j];
  }

  // ----- machine types -----

  // The record of a machine type but for its price, field by field.
  ghost predicate IsMachineProduct(cfg: Config, mt: MachineType, family: string, p: Product) {
    && p.Provider == "google" && p.SKU == "machine-types-" + mt.ID && p.Service == "Compute Engine" && p.Family == "Compute"
    && p.Location == cfg.Region
    && p.Attributes == map["machine_type" := mt.Name, "group" := "MachineType", "cpu" := cfg.Itoa(mt.GuestCpus),
                           "ram" := cfg.Itoa(mt.MemoryMb), "kind" := mt.Kind, "machine_family" := family]
  }

  // What the rates of the memory SKU and of the processor SKU come to: whole
  // thousands of MB, dropping the rest, and processors.
  ghost predicate IsComposed(mt: MachineType, ram: Tariff, cpu: Tariff, p: LivePrice) {
    var thousands := if mt.MemoryMb >= 0 then mt.MemoryMb / 1000 else -((-mt.MemoryMb) / 1000);
    && p.Value == ram.Value * thousands as real + cpu.Value * mt.GuestCpus as real
    && p.Unit == "h" && p.Currency == ram.Currency
  }

  // The parts of the machine type's price, if both are known.
  ghost predicate HasParts(cfg: Config, skus: seq<Sku>, mt: MachineType, family: string, ram: Tariff, cpu: Tariff) {
    && IsFirstWord(cfg, mt.Name, '-', family) && family in {"e2", "n2", "n2d", "n1", "t2d", "m2", "m1", "c2", "a2"}
    && (exists i: nat :: LastPricing(cfg, skus, family, "RAM", i) && IsPriceOf(skus[i], ram))
    && (exists i: nat :: LastPricing(cfg, skus, family, "CPU", i) && IsPriceOf(skus[i], cpu))
  }

  lemma PartsAreLast(cfg: Config, skus: seq<Sku>, mt: MachineType, family: string, ram: Tariff, cpu: Tariff)
    ensures HasParts(cfg, skus, mt, family, ram, cpu) <==>
              && family == FamilyWord(cfg, mt.Name, '-') && family in FAMILIES
              && LastSet(cfg, skus, family, RAM) == Some(ram.Price()) && LastSet(cfg, skus, family, CPU) == Some(cpu.Price())
  {
    FirstWordExactly(cfg, mt.Name, '-', family);
    PartIsLast(cfg, skus, family, RAM, ram);
    PartIsLast(cfg, skus, family, CPU, cpu);
  }

  lemma PartIsLast(cfg: Config, skus: seq<Sku>, family: string, group: string, p: Tariff)
    ensures LastSet(cfg, skus, family, group) == Some(p.Price()) <==>
              exists i: nat :: LastPricing(cfg, skus, family, group, i) && IsPriceOf(skus[i], p)
    ensures LastSet(cfg, skus, family, group).Some? ==> LastSet(cfg, skus, family, group).value.Attributes == null
  {
    LastSetExactly(cfg, skus, family, group);
    if LastSet(cfg, skus, family, group).Some? {
      var q := TariffOf(LastSet(cfg, skus, family, group).value);
      var j: nat :| LastPricing(cfg, skus, family, group, j) && IsPriceOf(skus[j], q);
      if i: nat :| LastPricing(cfg, skus, family, group, i) && IsPriceOf(skus[i], p) {
        assert i == j && p == q;
      }
    }
  }

  lemma PartsOnly(cfg: Config, skus: seq<Sku>, mt: MachineType)
    ensures var mf := FamilyWord(cfg, mt.Name, '-');
            var ram, cpu := LastSet(cfg, skus, mf, RAM), LastSet(cfg, skus, mf, CPU);
            if mf in FAMILIES && ram.Some? && cpu.Some? then
              && ram.value.Attributes == null && cpu.value.Attributes == null
              && forall f, x, y ::
                 HasParts(cfg, skus, mt, f, x, y) <==> f == mf && x == TariffOf(ram.value) && y == TariffOf(cpu.value)
            else forall f, x, y :: !HasParts(cfg, skus, mt, f, x, y)
  {
    var mf := FamilyWord(cfg, mt.Name, '-');
    var none := Tariff("", "", 0.0);
    PartIsLast(cfg, skus, mf, RAM, none);
    PartIsLast(cfg, skus, mf, CPU, none);
    forall f, x, y
      ensures HasParts(cfg, skus, mt, f, x, y) <==>
                && f == mf && mf in FAMILIES
                && LastSet(cfg, skus, mf, RAM) == Some(x.Price()) && LastSet(cfg, skus, mf, CPU) == Some(y.Price())
    {
      PartsAreLast(cfg, skus, mt, f, x, y);
    }
  }

  lemma PartsInTable(cfg: Config, skus: seq<Sku>, family: string)
    requires family in FAMILIES
    ensures var table := TableOf(cfg, skus);
            && (Key(family, RAM) in table <==> LastSet(cfg, skus, family, RAM).Some?)
            && (Key(family, CPU) in table <==> LastSet(cfg, skus, family, CPU).Some?)
            && (Key(family, RAM) in table ==> LastSet(cfg, skus, family, RAM) == Some(table[Key(family, RAM)]))
            && (Key(family, CPU) in table ==> LastSet(cfg, skus, family, CPU) == Some(table[Key(family, CPU)]))
  {
    var table := TableOf(cfg, skus);
    TableHoldsLast(cfg, skus);
    assert (if Key(family, RAM) in table then Some(table[Key(family, RAM)]) else None) == LastSet(cfg, skus, family, RAM);
    assert (if Key(family, CPU) in table then Some(table[Key(family, CPU)]) else None) == LastSet(cfg, skus, family, CPU);
  }

  // What a machine type with these parts becomes.
  ghost predicate IsOutcomeOf(cfg: Config, mt: MachineType, family: string, ram: Tariff, cpu: Tariff, c: Composed) {
    if ram.Unit != "GiBy.h" then c.Skipped?
    else if cpu.Unit != "h" then c == Failed(MismatchingUnit)
    else if cpu.Currency != ram.Currency then c == Failed(MismatchingCurrency)
    else c.Priced? && IsComposed(mt, ram, cpu, c.Record.Price) && IsMachineProduct(cfg, mt, family, c.Record.Product)
  }

  lemma ComposeOutcome(cfg: Config, table: Table, mt: MachineType)
    ensures var mf := FamilyWord(cfg, mt.Name, '-');
            if mf in FAMILIES && Key(mf, RAM) in table && Key(mf, CPU) in table then
              IsOutcomeOf(cfg, mt, mf, TariffOf(table[Key(mf, RAM)]), TariffOf(table[Key(mf, CPU)]), Compose(cfg, table, mt))
            else Compose(cfg, table, mt).Skipped?
  {
  }

  /** What phase two makes of a machine type, in terms of the SKUs of phase one: its
      price is that of its parts, and there is none when a part is missing. */
  lemma MachineExactly(cfg: Config, skus: seq<Sku>, mt: MachineType)
    ensures var c := Compose(cfg, TableOf(cfg, skus), mt);
            && ((forall family, ram, cpu :: !HasParts(cfg, skus, mt, family, ram, cpu)) ==> c.Skipped?)
            && forall family, ram, cpu | HasParts(cfg, skus, mt, family, ram, cpu) :: IsOutcomeOf(cfg, mt, family, ram, cpu, c)
  {
    var table, mf := TableOf(cfg, skus), FamilyWord(cfg, mt.Name, '-');
    PartsOnly(cfg, skus, mt);
    ComposeOutcome(cfg, table, mt);
    if mf in FAMILIES {
      PartsInTable(cfg, skus, mf);
      if LastSet(cfg, skus, mf, RAM).Some? && LastSet(cfg, skus, mf, CPU).Some? {
        assert HasParts(cfg, skus, mt, mf, TariffOf(table[Key(mf, RAM)]), TariffOf(table[Key(mf, CPU)]));
      }
    }
  }

  // The records sent are those of the machine types at these indices: all that were
  // composed and are wanted before machine type n.
  ghost predicate SentBefore(cfg: Config, table: Table, mts: seq<MachineType>, n: nat, at: seq<nat>, sent: seq<Emitted>) {
    && n <= |mts| && Increasing(at, n) && |sent| == |at|
    && (forall i | 0 <= i < n :: i in at <==> IsSent(cfg, Compose(cfg, table, mts[i])))
    && forall i | 0 <= i < |at| :: Compose(cfg, table, mts[at[i]]) == Priced(sent[i])
  }

  predicate IsSent(cfg: Config, c: Composed) {
    c.Priced? && cfg.Filter(c.Record)
  }

  // It is the first one whose parts do not match.
  ghost predicate FailsFirst(cfg: Config, table: Table, mts: seq<MachineType>, n: nat, err: Option<AddError>)
    requires n <= |mts|
  {
    && (forall i | 0 <= i < n :: !Compose(cfg, table, mts[i]).Failed?)
    && (if n == |mts| then err == None else err.Some? && Compose(cfg, table, mts[n]) == Failed(err.value))
  }

  /** The machine types are handled in order up to the first whose parts do not match:
      the records sent are those that were composed and are wanted. */
  lemma {:induction false} MachinesExactly(cfg: Config, table: Table, mts: seq<MachineType>) returns (n: nat, at: seq<nat>)
    ensures SentBefore(cfg, table, mts, n, at, ComposeAll(cfg, table, mts).0)
    ensures FailsFirst(cfg, table, mts, n, ComposeAll(cfg, table, mts).1)
  {
    if mts == [] {
      n, at := 0, [];
    } else {
      var last := |mts| - 1;
      var front := mts[..last];
      n, at := MachinesExactly(cfg, table, front);
      var (sent, err) := ComposeAll(cfg, table, front);
      SentMore(cfg, table, mts, n, at, sent);
      FailsMore(cfg, table, mts, n, err);
      if n == last && !Compose(cfg, table, mts[last]).Failed? {
        n := last + 1;
        if IsSent(cfg, Compose(cfg, table, mts[last])) {
          at := at + [last];
        }
      }
    }
  }

  lemma SentMore(cfg: Config, table: Table, mts: seq<MachineType>, n: nat, at: seq<nat>, sent: seq<Emitted>)
    requires mts != [] && SentBefore(cfg, table, mts[..|mts| - 1], n, at, sent)
    ensures SentBefore(cfg, table, mts, n, at, sent)
    ensures n == |mts| - 1 ==>
              var c := Compose(cfg, table, mts[n]);
              if IsSent(cfg, c) then SentBefore(cfg, table, mts, n + 1, at + [n], sent + [c.Record])
              else SentBefore(cfg, table, mts, n + 1, at, sent)
  {
    assert forall i | 0 <= i < |mts| - 1 :: mts[..|mts| - 1][i] == mts[i];
    IncreasingNext(at, n);
  }

  lemma FailsMore(cfg: Config, table: Table, mts: seq<MachineType>, n: nat, err: Option<AddError>)
    requires mts != [] && n < |mts| && FailsFirst(cfg, table, mts[..|mts| - 1], n, err)
    ensures n < |mts| - 1 ==> FailsFirst(cfg, table, mts, n, err)
    ensures n == |mts| - 1 ==>
              var c := Compose(cfg, table, mts[n]);
              && err == None
              && if c.Failed? then FailsFirst(cfg, table, mts, n, Some(c.Error)) else FailsFirst(cfg, table, mts, n + 1, None)
  {
    assert forall i | 0 <= i < |mts| - 1 :: mts[..|mts| - 1][i] == mts[i];
  }

  /** The records of the SKUs are sent SKU by SKU, in order, and nothing else is. */
  lemma SkusInOrder(cfg: Config, skus: seq<Sku>, i: nat)
    requires i < |skus|
    ensures var upTo := AllSkuRecords(cfg, skus[..i]) + SkuRecords(cfg, skus[i], skus[i].ServiceRegions);
            && upTo <= AllSkuRecords(cfg, skus)
            && (i == 0 ==> AllSkuRecords(cfg, skus[..i]) == []) && (i + 1 == |skus| ==> upTo == AllSkuRecords(cfg, skus))
  {
    SkusNext(cfg, skus, i);
    SentPrefix(cfg, skus, i + 1);
    assert i + 1 == |skus| ==> skus[..i + 1] == skus;
  }

  lemma {:induction false} SentPrefix(cfg: Config, skus: seq<Sku>, n: nat)
    requires n <= |skus|
    ensures AllSkuRecords(cfg, skus[..n]) <= AllSkuRecords(cfg, skus)
    decreases |skus|
  {
    if n == |skus| {
      assert skus[..n] == skus;
    } else {
      SentPrefix(cfg, skus[..|skus| - 1], n);
      assert skus[..|skus| - 1][..n] == skus[..n];
    }
  }
}
