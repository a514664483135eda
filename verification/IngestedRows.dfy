/** What a run of ingestion leaves in the rows, read off the records it received
    (ingestion.go, mysql/product.go, mysql/price.go). */
module IngestedRows {
  import opened Wrappers
  import opened Prices
  import opened Store
  import opened Ingestion
  import opened CachedRuns

  // Record j is the first of the SKU of record i.
  ghost predicate FirstOfSKU(records: seq<WithProduct>, i: nat, j: nat) {
    && j <= i < |records| && records[j].Product.SKU == records[i].Product.SKU
    && forall l | 0 <= l < j :: records[l].Product.SKU != records[i].Product.SKU
  }

  // No later record of the SKU has its hash.
  ghost predicate LastOfPrice(env: Env, records: seq<WithProduct>, i: nat) {
    && i < |records|
    && forall l | i < l < |records| && records[l].Product.SKU == records[i].Product.SKU ::
         Hash(env.Digest, records[l].Price) != Hash(env.Digest, records[i].Price)
  }

  // ----- the writes of a run, by their index -----

  lemma {:induction false} FirstWithAt(records: seq<WithProduct>, sku: string)
    ensures FirstWith(records, sku).None? <==> forall r <- records :: r.Product.SKU != sku
    ensures forall j | 0 <= j < |records| && records[j].Product.SKU == sku
                         && (forall l | 0 <= l < j :: records[l].Product.SKU != sku) ::
              FirstWith(records, sku) == Some(records[j].Product)
  {
    if records != [] {
      var n := |records| - 1;
      FirstWithAt(records[..n], sku);
      assert records == records[..n] + [records[n]];
      assert forall l | 0 <= l < n :: records[..n][l] == records[l] && records[l] in records[..n];
    }
  }

  lemma {:induction false} PlanAt(records: seq<WithProduct>, i: nat)
    requires i < |records|
    ensures CachedPlan(records)[i] == NextWrite(records[..i], records[i])
    decreases |records|
  {
    var n := |records| - 1;
    if i < n {
      PlanAt(records[..n], i);
      assert records[..n][..i] == records[..i];
    }
  }

  // Write i goes under the key of the first record of its SKU, which alone upserts a product.
  lemma WriteAt(records: seq<WithProduct>, i: nat, j: nat)
    requires FirstOfSKU(records, i, j)
    ensures CachedPlan(records)[i] == Write(records[i], i == j, records[j].Product.Key())
  {
    PlanAt(records, i);
    var front, sku := records[..i], records[i].Product.SKU;
    FirstWithAt(front, sku);
    assert forall l | 0 <= l < i :: front[l] == records[l];
    if i == j {
      assert FirstWith(front, sku).None?;
    } else {
      assert front[j].Product.SKU == sku;
    }
  }

  lemma {:induction false} SomeFirst(records: seq<WithProduct>, i: nat) returns (j: nat)
    requires i < |records|
    ensures FirstOfSKU(records, i, j)
  {
    if l :| 0 <= l < i && records[l].Product.SKU == records[i].Product.SKU {
      j := SomeFirst(records, l);
    } else {
      j := i;
    }
  }

  lemma {:induction false} PriceAfterLast(env: Env, was: Option<PriceContent>, plan: seq<Write>, k: ProductKey, h: string, i: nat)
    requires i < |plan| && Writes(env, plan[i], k, h) && env.ParseISO(plan[i].Record.Price.Currency).Some?
    requires forall l | i < l < |plan| :: !Writes(env, plan[l], k, h)
    ensures var p := plan[i].Record.Price;
            PriceAfter(env, was, plan, k, h) ==
            Some(PriceContent(env.ParseISO(p.Currency).value, PriceColumn(p.Value), p.Unit, p.Attributes))
    decreases |plan|
  {
    var n := |plan| - 1;
    if i < n {
      PriceAfterLast(env, was, plan[..n], k, h, i);
    }
  }

  lemma {:induction false} ProductAfterNone(was: Option<ProductContent>, plan: seq<Write>, k: ProductKey)
    requires forall l | 0 <= l < |plan| :: !plan[l].Upserts(k)
    ensures ProductAfter(was, plan, k) == was
  {
    if plan != [] {
      ProductAfterNone(was, plan[..|plan| - 1], k);
    }
  }

  lemma {:induction false} ProductAfterOnce(was: Option<ProductContent>, plan: seq<Write>, k: ProductKey, j: nat)
    requires j < |plan| && plan[j].Upserts(k) && forall l | 0 <= l < |plan| && l != j :: !plan[l].Upserts(k)
    ensures var p := plan[j].Record.Product;
            ProductAfter(was, plan, k) == Some(if was.Some? then was.value.(Attributes := p.Attributes)
                                               else ProductContent(p.Service, p.Family, p.Attributes))
    decreases |plan|
  {
    var n := |plan| - 1;
    if j < n {
      ProductAfterOnce(was, plan[..n], k, j);
    } else {
      ProductAfterNone(was, plan[..n], k);
    }
  }

  // ----- what is stored of a record -----

  ghost function After(env: Env, db: Database, records: seq<WithProduct>): Tables {
    Consume(env, Consumer(db, map[]), records).0.DB.Tables
  }

  // A run that reported no error.
  ghost predicate ErrorFree(env: Env, db: Database, records: seq<WithProduct>) {
    Valid(db.Tables) && Consume(env, Consumer(db, map[]), records).1.None?
  }

  lemma TakenISO(env: Env, c: Consumer, pp: WithProduct)
    requires Take(env, c, pp).1.None?
    ensures env.ParseISO(pp.Price.Currency).Some?
  {
  }

  lemma LastTaken(env: Env, c: Consumer, records: seq<WithProduct>)
    requires records != [] && Consume(env, c, records).1.None?
    ensures Consume(env, c, records[..|records| - 1]).1.None?
    ensures env.ParseISO(records[|records| - 1].Price.Currency).Some?
  {
    TakenISO(env, Consume(env, c, records[..|records| - 1]).0, records[|records| - 1]);
  }

  lemma {:induction false} AllTaken(env: Env, c: Consumer, records: seq<WithProduct>, i: nat)
    requires Consume(env, c, records).1.None? && i < |records|
    ensures env.ParseISO(records[i].Price.Currency).Some?
    decreases |records|
  {
    LastTaken(env, c, records);
    if i < |records| - 1 {
      AllTaken(env, c, records[..|records| - 1], i);
    }
  }

  lemma ErrorFreeISO(env: Env, c: Consumer, records: seq<WithProduct>)
    requires Consume(env, c, records).1.None?
    ensures AllISO(env, records)
  {
    forall i: nat | i < |records| ensures env.ParseISO(records[i].Price.Currency).Some? {
      AllTaken(env, c, records, i);
    }
  }

  lemma RunAt(env: Env, db: Database, records: seq<WithProduct>, k: ProductKey, h: string)
    requires ErrorFree(env, db, records)
    ensures Valid(After(env, db, records)) && KeepsIDs(db.Tables, After(env, db, records))
    ensures ProductAt(After(env, db, records), k) == ProductAfter(ProductAt(db.Tables, k), CachedPlan(records), k)
    ensures PriceAt(After(env, db, records), k, h) == PriceAfter(env, PriceAt(db.Tables, k, h), CachedPlan(records), k, h)
  {
    ConsumeIsPlan(env, db, records);
    ApplyAllAt(env, db.Tables, CachedPlan(records), k, h);
  }

  // The row of a product upserted for `p`: an old one keeps its service and family.
  ghost predicate HoldsProduct(was: Tables, row: ProductRow, p: Product) {
    var k := ProductKey(p.Provider, p.SKU, p.Location);
    && row.Attributes == p.Attributes
    && (if k in was.Products then
          row.ID == was.Products[k].ID && row.Service == was.Products[k].Service && row.Family == was.Products[k].Family
        else row.Service == p.Service && row.Family == p.Family)
  }

  /** After a run without an error the first record of every SKU is stored as its product. */
  lemma StoredProduct(env: Env, db: Database, records: seq<WithProduct>, j: nat)
    requires ErrorFree(env, db, records) && FirstOfSKU(records, j, j)
    ensures var t, p := After(env, db, records), records[j].Product;
            var k := ProductKey(p.Provider, p.SKU, p.Location);
            k in t.Products && HoldsProduct(db.Tables, t.Products[k], p)
  {
    var k := records[j].Product.Key();
    RunAt(env, db, records, k, "");
    WriteAt(records, j, j);
    forall l | 0 <= l < |records| && l != j ensures !CachedPlan(records)[l].Upserts(k) {
      var first := SomeFirst(records, l);
      WriteAt(records, l, first);
    }
    ProductAfterOnce(ProductAt(db.Tables, k), CachedPlan(records), k, j);
  }

  lemma LaterWrites(env: Env, records: seq<WithProduct>, i: nat, j: nat, l: nat)
    requires FirstOfSKU(records, i, j) && LastOfPrice(env, records, i) && i < l < |records|
    ensures !Writes(env, CachedPlan(records)[l], records[j].Product.Key(), Hash(env.Digest, records[i].Price))
  {
    var first := SomeFirst(records, l);
    WriteAt(records, l, first);
  }

  /** And the last record of every price is stored under that product, with its own
      amount to ten places, currency, unit and attributes. */
  lemma StoredPrice(env: Env, db: Database, records: seq<WithProduct>, i: nat, j: nat)
    requires ErrorFree(env, db, records) && FirstOfSKU(records, i, j) && LastOfPrice(env, records, i)
    ensures var t, p, r := After(env, db, records), records[j].Product, records[i].Price;
            var k := ProductKey(p.Provider, p.SKU, p.Location);
            && k in t.Products
            && var key := PriceKey(t.Products[k].ID, Hash(env.Digest, r));
               key in t.Prices && HoldsPrice(env, t.Prices[key], r)
  {
    var k, h := records[j].Product.Key(), Hash(env.Digest, records[i].Price);
    RunAt(env, db, records, k, h);
    WriteAt(records, i, j);
    ErrorFreeISO(env, Consumer(db, map[]), records);
    assert records[i] in records;
    forall l | i < l < |records| ensures !Writes(env, CachedPlan(records)[l], k, h) {
      LaterWrites(env, records, i, j, l);
    }
    PriceAfterLast(env, PriceAt(db.Tables, k, h), CachedPlan(records), k, h, i);
    ColumnStores(records[i].Price.Value);
  }

  /** Two records of one SKU whose prices differ in an attribute value leave two rows,
      each with its own price, if the digest tells texts apart and one of them has no dash. */
  lemma TwoRows(env: Env, db: Database, records: seq<WithProduct>, i: nat, l: nat, j: nat)
    requires ErrorFree(env, db, records) && Injective(env.Digest)
    requires FirstOfSKU(records, i, j) && LastOfPrice(env, records, i) && FirstOfSKU(records, l, j) && LastOfPrice(env, records, l)
    requires var p, q := records[i].Price, records[l].Price;
             DashFree(p.Unit, p.Currency, p.Attributes) && p.Attributes.Keys == q.Attributes.Keys && p.Attributes != q.Attributes
    ensures exists x, y ::
              && x != y && x in After(env, db, records).Prices && y in After(env, db, records).Prices && x.ProductID == y.ProductID
              && HoldsPrice(env, After(env, db, records).Prices[x], records[i].Price)
              && HoldsPrice(env, After(env, db, records).Prices[y], records[l].Price)
  {
    var t, p, q := After(env, db, records), records[i].Price, records[l].Price;
    StoredPrice(env, db, records, i, j);
    StoredPrice(env, db, records, l, j);
    HashInjective(env.Digest, p, q);
    var id := t.Products[records[j].Product.Key()].ID;
    var x, y := PriceKey(id, Hash(env.Digest, p)), PriceKey(id, Hash(env.Digest, q));
    assert x != y && x in t.Prices && y in t.Prices;
  }

  // ----- every row comes from a record -----

  lemma {:induction false} PriceAfterWritten(env: Env, plan: seq<Write>, k: ProductKey, h: string) returns (i: nat)
    requires PriceAfter(env, None, plan, k, h).Some?
    ensures i < |plan| && Writes(env, plan[i], k, h) && env.ParseISO(plan[i].Record.Price.Currency).Some?
    ensures var p := plan[i].Record.Price;
            PriceAfter(env, None, plan, k, h) ==
            Some(PriceContent(env.ParseISO(p.Currency).value, PriceColumn(p.Value), p.Unit, p.Attributes))
  {
    var n := |plan| - 1;
    if Writes(env, plan[n], k, h) && env.ParseISO(plan[n].Record.Price.Currency).Some? {
      i := n;
    } else {
      i := PriceAfterWritten(env, plan[..n], k, h);
    }
  }

  /** Every price row that a run on empty tables left is that of a received record. */
  lemma RowFromRecord(env: Env, db: Database, records: seq<WithProduct>, key: PriceKey) returns (i: nat)
    requires ErrorFree(env, db, records) && db.Tables == Empty && key in After(env, db, records).Prices
    ensures i < |records| && HoldsPrice(env, After(env, db, records).Prices[key], records[i].Price)
  {
    var t := After(env, db, records);
    RunAt(env, db, records, ProductKey("", "", ""), "");
    assert HasProduct(t, key.ProductID);
    var k :| k in t.Products && t.Products[k].ID == key.ProductID;
    RunAt(env, db, records, k, key.Hash);
    assert PriceKey(t.Products[k].ID, key.Hash) == key;
    i := PriceAfterWritten(env, CachedPlan(records), k, key.Hash);
    PlanAt(records, i);
    ColumnStores(records[i].Price.Value);
  }
}
