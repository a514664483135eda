/** What a whole ingestion run does to the tables: the per-run SKU cache against
    upserting the product of every record, and running the same stream twice. */
module CachedRuns {
  import opened Wrappers
  import opened Prices
  import opened Store
  import opened Ingestion

  // ----- a run as a list of writes -----

  // Upsert the product if `Fresh`, then the price under the product with this key.
  datatype Write = Write(Record: WithProduct, Fresh: bool, Key: ProductKey) {
    predicate Upserts(k: ProductKey) {
      Fresh && Record.Product.Key() == k
    }
  }

  // The first record of a SKU.
  function FirstWith(records: seq<WithProduct>, sku: string): Option<Product> {
    if records == [] then None else
      var front, last := records[..|records| - 1], records[|records| - 1];
      if FirstWith(front, sku).Some? then FirstWith(front, sku)
      else if last.Product.SKU == sku then Some(last.Product) else None
  }

  // The consumer of ingestion.go: one product upsert per SKU.
  function CachedPlan(records: seq<WithProduct>): (plan: seq<Write>)
    ensures |plan| == |records|
  {
    if records == [] then [] else
      var front, last := records[..|records| - 1], records[|records| - 1];
      var first := FirstWith(front, last.Product.SKU);
      CachedPlan(front) + [Write(last, first.None?, if first.None? then last.Product.Key() else first.value.Key())]
  }

  // The simple form: the product of every record is upserted.
  function SimplePlan(records: seq<WithProduct>): (plan: seq<Write>)
    ensures |plan| == |records|
  {
    if records == [] then [] else
      var last := records[|records| - 1];
      SimplePlan(records[..|records| - 1]) + [Write(last, true, last.Product.Key())]
  }

  // None: a currency is not an ISO code, or the product row is missing.
  ghost function Apply(env: Env, t: Tables, w: Write): Option<Tables> {
    var u := if w.Fresh then UpsertedProduct(env, t, w.Record.Product) else t;
    var currency := env.ParseISO(w.Record.Price.Currency);
    if currency.None? || w.Key !in u.Products then None
    else Some(UpsertedPrice(env, u, PriceKey(u.Products[w.Key].ID, Hash(env.Digest, w.Record.Price)),
                            currency.value, w.Record.Price))
  }

  ghost function ApplyAll(env: Env, t: Tables, plan: seq<Write>): Option<Tables> {
    if plan == [] then Some(t) else
      match ApplyAll(env, t, plan[..|plan| - 1])
      case None => None
      case Some(u) => Apply(env, u, plan[|plan| - 1])
  }

  // ----- rows without their ids -----

  datatype ProductContent = ProductContent(Service: string, Family: string, Attributes: map<string, string>)

  datatype PriceContent = PriceContent(Currency: string, Value: real, Unit: string, Attributes: map<string, string>)

  function ProductAt(t: Tables, k: ProductKey): Option<ProductContent> {
    if k in t.Products then Some(ProductContent(t.Products[k].Service, t.Products[k].Family, t.Products[k].Attributes))
    else None
  }

  function PriceAt(t: Tables, k: ProductKey, hash: string): Option<PriceContent> {
    if k in t.Products && PriceKey(t.Products[k].ID, hash) in t.Prices then
      var row := t.Prices[PriceKey(t.Products[k].ID, hash)];
      Some(PriceContent(row.Currency, row.Value, row.Unit, row.Attributes))
    else None
  }

  // The same products, and the same prices under the same products.
  ghost predicate SameContents(t: Tables, u: Tables) {
    && (forall k :: ProductAt(t, k) == ProductAt(u, k))
    && (forall k, h :: PriceAt(t, k, h) == PriceAt(u, k, h))
  }

  // The effect of a run on one product key and on one price.
  function ProductAfter(was: Option<ProductContent>, plan: seq<Write>, k: ProductKey): Option<ProductContent> {
    if plan == [] then was else
      var before, w := ProductAfter(was, plan[..|plan| - 1], k), plan[|plan| - 1];
      if !w.Upserts(k) then before
      else if before.Some? then Some(before.value.(Attributes := w.Record.Product.Attributes))
      else Some(ProductContent(w.Record.Product.Service, w.Record.Product.Family, w.Record.Product.Attributes))
  }

  ghost predicate Writes(env: Env, w: Write, k: ProductKey, h: string) {
    w.Key == k && Hash(env.Digest, w.Record.Price) == h
  }

  ghost function PriceAfter(env: Env, was: Option<PriceContent>, plan: seq<Write>, k: ProductKey, h: string): Option<PriceContent> {
    if plan == [] then was else
      var w := plan[|plan| - 1];
      if Writes(env, w, k, h) && env.ParseISO(w.Record.Price.Currency).Some? then
        Some(PriceContent(env.ParseISO(w.Record.Price.Currency).value, PriceColumn(w.Record.Price.Value), w.Record.Price.Unit,
                          w.Record.Price.Attributes))
      else PriceAfter(env, was, plan[..|plan| - 1], k, h)
  }

  lemma PriceOwners(t: Tables)
    requires Valid(t)
    ensures forall k | k in t.Prices :: k.ProductID < t.NextProduct
  {
    forall k | k in t.Prices ensures k.ProductID < t.NextProduct {
      assert HasProduct(t, k.ProductID);
    }
  }

  lemma ProductUpsertAt(env: Env, t: Tables, p: Product, k: ProductKey, h: string)
    requires Valid(t)
    ensures var u := UpsertedProduct(env, t, p);
            && ProductAt(u, k) ==
               (if k != p.Key() then ProductAt(t, k)
                else if ProductAt(t, k).Some? then Some(ProductAt(t, k).value.(Attributes := p.Attributes))
                else Some(ProductContent(p.Service, p.Family, p.Attributes)))
            && PriceAt(u, k, h) == PriceAt(t, k, h)
  {
    PriceOwners(t);
  }

  lemma PriceUpsertAt(env: Env, t: Tables, key: ProductKey, hash: string, currency: string, p: Price, k: ProductKey, h: string)
    requires Valid(t) && key in t.Products
    ensures var u := UpsertedPrice(env, t, PriceKey(t.Products[key].ID, hash), currency, p);
            && ProductAt(u, k) == ProductAt(t, k)
            && PriceAt(u, k, h) ==
               if key == k && hash == h then Some(PriceContent(currency, PriceColumn(p.Value), p.Unit, p.Attributes))
                else PriceAt(t, k, h)
  {
  }

  ghost function FreshTables(env: Env, t: Tables, w: Write): Tables {
    if w.Fresh then UpsertedProduct(env, t, w.Record.Product) else t
  }

  lemma ApplyKeeps(env: Env, t: Tables, w: Write)
    requires Valid(t) && Apply(env, t, w).Some?
    ensures Valid(FreshTables(env, t, w))
    ensures Valid(Apply(env, t, w).value) && KeepsIDs(t, Apply(env, t, w).value)
  {
    var u := FreshTables(env, t, w);
    if w.Fresh {
      UpsertedProductValid(env, t, w.Record.Product);
    }
    assert HasProduct(u, u.Products[w.Key].ID);
    UpsertedPriceValid(env, u, PriceKey(u.Products[w.Key].ID, Hash(env.Digest, w.Record.Price)),
                       env.ParseISO(w.Record.Price.Currency).value, w.Record.Price);
  }

  lemma ApplyContents(env: Env, t: Tables, w: Write, k: ProductKey, h: string)
    requires Valid(t) && Valid(FreshTables(env, t, w)) && Apply(env, t, w).Some?
    ensures var u := Apply(env, t, w).value;
            && ProductAt(u, k) == ProductAfter(ProductAt(t, k), [w], k)
            && PriceAt(u, k, h) == PriceAfter(env, PriceAt(t, k, h), [w], k, h)
  {
    var u := FreshTables(env, t, w);
    if w.Fresh {
      ProductUpsertAt(env, t, w.Record.Product, k, h);
    }
    PriceUpsertAt(env, u, w.Key, Hash(env.Digest, w.Record.Price), env.ParseISO(w.Record.Price.Currency).value,
                  w.Record.Price, k, h);
    assert [w][..0] == [];
  }

  lemma ApplyAt(env: Env, t: Tables, w: Write, k: ProductKey, h: string)
    requires Valid(t) && Apply(env, t, w).Some?
    ensures var u := Apply(env, t, w).value;
            && Valid(u) && KeepsIDs(t, u)
            && ProductAt(u, k) == ProductAfter(ProductAt(t, k), [w], k)
            && PriceAt(u, k, h) == PriceAfter(env, PriceAt(t, k, h), [w], k, h)
  {
    ApplyKeeps(env, t, w);
    ApplyContents(env, t, w, k, h);
  }

  /** A run changes each product and each price as its list of writes says,
      whatever ids the rows have. */
  lemma {:induction false} ApplyAllAt(env: Env, t: Tables, plan: seq<Write>, k: ProductKey, h: string)
    requires Valid(t) && ApplyAll(env, t, plan).Some?
    ensures var u := ApplyAll(env, t, plan).value;
            && Valid(u) && KeepsIDs(t, u)
            && ProductAt(u, k) == ProductAfter(ProductAt(t, k), plan, k)
            && PriceAt(u, k, h) == PriceAfter(env, PriceAt(t, k, h), plan, k, h)
  {
    if plan != [] {
      var front, w := plan[..|plan| - 1], plan[|plan| - 1];
      ApplyAllAt(env, t, front, k, h);
      ApplyAt(env, ApplyAll(env, t, front).value, w, k, h);
      assert [w][..0] == [];
    }
  }

  // ----- the consumer runs the cached plan -----

  ghost predicate CacheMatches(c: Consumer, records: seq<WithProduct>) {
    forall s :: (s in c.SkuProductID <==> FirstWith(records, s).Some?)
                && (s in c.SkuProductID ==> CachedAt(c, s, FirstWith(records, s).value.Key()))
  }

  ghost predicate CachedAt(c: Consumer, s: string, k: ProductKey)
    requires s in c.SkuProductID
  {
    k in c.DB.Tables.Products && c.DB.Tables.Products[k].ID == c.SkuProductID[s]
  }

  lemma TakeKnown(env: Env, c: Consumer, pp: WithProduct, k: ProductKey)
    requires ConsumerValid(c) && pp.Product.SKU in c.SkuProductID && CachedAt(c, pp.Product.SKU, k)
    requires Take(env, c, pp).1.None?
    ensures Apply(env, c.DB.Tables, Write(pp, false, k)) == Some(Take(env, c, pp).0.DB.Tables)
    ensures Take(env, c, pp).0.SkuProductID == c.SkuProductID
  {
    PriceUpsertKeeps(env, c.DB, pp.Price, c.SkuProductID[pp.Product.SKU]);
  }

  lemma TakeNew(env: Env, c: Consumer, pp: WithProduct)
    requires ConsumerValid(c) && pp.Product.SKU !in c.SkuProductID && Take(env, c, pp).1.None?
    ensures var next := Take(env, c, pp).0;
            && Apply(env, c.DB.Tables, Write(pp, true, pp.Product.Key())) == Some(next.DB.Tables)
            && pp.Product.Key() in next.DB.Tables.Products
            && next.SkuProductID == c.SkuProductID[pp.Product.SKU := next.DB.Tables.Products[pp.Product.Key()].ID]
  {
    ProductUpsertKeeps(env, c.DB, pp.Product);
    var (db, r) := ProductUpsert(env, c.DB, pp.Product);
    PriceUpsertKeeps(env, db, pp.Price, r.value);
  }

  lemma CachedStays(c: Consumer, next: Consumer, s: string, k: ProductKey)
    requires s in c.SkuProductID && s in next.SkuProductID && next.SkuProductID[s] == c.SkuProductID[s]
    requires KeepsIDs(c.DB.Tables, next.DB.Tables) && CachedAt(c, s, k)
    ensures CachedAt(next, s, k)
  {
  }

  // The write that the cached plan adds for `pp`.
  function NextWrite(front: seq<WithProduct>, pp: WithProduct): Write {
    var first := FirstWith(front, pp.Product.SKU);
    Write(pp, first.None?, if first.None? then pp.Product.Key() else first.value.Key())
  }

  lemma TakeIsWrite(env: Env, c: Consumer, front: seq<WithProduct>, pp: WithProduct)
    requires ConsumerValid(c) && CacheMatches(c, front) && Take(env, c, pp).1.None?
    ensures var next, w := Take(env, c, pp).0, NextWrite(front, pp);
            && Apply(env, c.DB.Tables, w) == Some(next.DB.Tables)
            && next.SkuProductID.Keys == c.SkuProductID.Keys + {pp.Product.SKU}
            && (forall s | s in c.SkuProductID :: next.SkuProductID[s] == c.SkuProductID[s])
            && (w.Fresh ==> CachedAt(next, pp.Product.SKU, w.Key))
  {
    if pp.Product.SKU in c.SkuProductID {
      TakeKnown(env, c, pp, FirstWith(front, pp.Product.SKU).value.Key());
    } else {
      TakeNew(env, c, pp);
    }
  }

  lemma FirstNext(front: seq<WithProduct>, pp: WithProduct, s: string)
    ensures FirstWith(front + [pp], s) ==
            if FirstWith(front, s).Some? then FirstWith(front, s)
            else if pp.Product.SKU == s then Some(pp.Product) else None
  {
    assert (front + [pp])[..|front|] == front;
  }

  lemma TakeMatches(env: Env, c: Consumer, front: seq<WithProduct>, pp: WithProduct)
    requires ConsumerValid(c) && CacheMatches(c, front) && Take(env, c, pp).1.None?
    ensures CacheMatches(Take(env, c, pp).0, front + [pp])
  {
    TakeIsWrite(env, c, front, pp);
    TakeKeeps(env, c, pp);
    var next := Take(env, c, pp).0;
    forall s
      ensures s in next.SkuProductID <==> FirstWith(front + [pp], s).Some?
      ensures s in next.SkuProductID ==> CachedAt(next, s, FirstWith(front + [pp], s).value.Key())
    {
      MatchesNext(c, next, front, pp, s);
    }
  }

  lemma MatchesNext(c: Consumer, next: Consumer, front: seq<WithProduct>, pp: WithProduct, s: string)
    requires CacheMatches(c, front) && KeepsIDs(c.DB.Tables, next.DB.Tables)
    requires next.SkuProductID.Keys == c.SkuProductID.Keys + {pp.Product.SKU}
    requires forall t | t in c.SkuProductID :: next.SkuProductID[t] == c.SkuProductID[t]
    requires pp.Product.SKU !in c.SkuProductID ==> CachedAt(next, pp.Product.SKU, pp.Product.Key())
    ensures s in next.SkuProductID <==> FirstWith(front + [pp], s).Some?
    ensures s in next.SkuProductID ==> CachedAt(next, s, FirstWith(front + [pp], s).value.Key())
  {
    FirstNext(front, pp, s);
    if s in c.SkuProductID {
      CachedStays(c, next, s, FirstWith(front, s).value.Key());
    }
  }

  /** A run that reports no error has made exactly the writes of the cached plan. */
  lemma {:induction false} ConsumeIsPlan(env: Env, db: Database, records: seq<WithProduct>)
    requires Valid(db.Tables)
    ensures var (c, e) := Consume(env, Consumer(db, map[]), records);
            e.None? ==> CacheMatches(c, records) && ApplyAll(env, db.Tables, CachedPlan(records)) == Some(c.DB.Tables)
  {
    if records != [] {
      var front, pp := records[..|records| - 1], records[|records| - 1];
      assert records == front + [pp];
      ConsumeIsPlan(env, db, front);
      ConsumeKeeps(env, Consumer(db, map[]), front);
      var (c, e) := Consume(env, Consumer(db, map[]), front);
      if e.None? && Take(env, c, pp).1.None? {
        TakeIsWrite(env, c, front, pp);
        TakeMatches(env, c, front, pp);
        assert CachedPlan(records)[..|front|] == CachedPlan(front);
      }
    }
  }

  // ----- errors -----

  ghost predicate AllISO(env: Env, records: seq<WithProduct>) {
    forall r <- records :: env.ParseISO(r.Price.Currency).Some?
  }

  // The first record in a currency that is no ISO code.
  function FirstBad(env: Env, records: seq<WithProduct>): (n: nat)
    ensures n <= |records| && AllISO(env, records[..n])
    ensures n < |records| ==> env.ParseISO(records[n].Price.Currency).None?
  {
    if records == [] then 0 else
      var front, last := records[..|records| - 1], records[|records| - 1];
      var n := FirstBad(env, front);
      assert front[..n] == records[..n];
      assert n == |front| ==> records == front + [last];
      if n < |front| || env.ParseISO(last.Price.Currency).None? then n else |records|
  }

  lemma TakeFails(env: Env, c: Consumer, pp: WithProduct)
    requires ConsumerValid(c)
    ensures Take(env, c, pp).0.DB.Fails == c.DB.Fails
    ensures (forall n :: !c.DB.Fails(n)) ==>
              (Take(env, c, pp).1.None? <==> env.ParseISO(pp.Price.Currency).Some?)
    ensures Take(env, c, pp).1.Some? ==>
              var t := Take(env, c, pp).0.DB.Tables;
              t == c.DB.Tables || t == UpsertedProduct(env, c.DB.Tables, pp.Product)
  {
    if pp.Product.SKU !in c.SkuProductID {
      ProductUpsertKeeps(env, c.DB, pp.Product);
      var (db, r) := ProductUpsert(env, c.DB, pp.Product);
      if r.Ok? {
        assert HasProduct(db.Tables, r.value) by {
          assert db.Tables.Products[pp.Product.Key()].ID == r.value;
        }
      }
    }
  }

  /** While the database answers, ingestion never violates the foreign key: a run
      fails exactly when some currency is not an ISO code. */
  lemma {:induction false} ConsumeFails(env: Env, c: Consumer, records: seq<WithProduct>)
    requires ConsumerValid(c) && forall n :: !c.DB.Fails(n)
    ensures Consume(env, c, records).1.None? <==> AllISO(env, records)
    ensures Consume(env, c, records).0.DB.Fails == c.DB.Fails
  {
    if records != [] {
      var front, pp := records[..|records| - 1], records[|records| - 1];
      assert records == front + [pp];
      ConsumeFails(env, c, front);
      ConsumeKeeps(env, c, front);
      assert AllISO(env, records) <==> AllISO(env, front) && env.ParseISO(pp.Price.Currency).Some?;
      if AllISO(env, front) {
        TakeFails(env, Consume(env, c, front).0, pp);
      }
    }
  }

  /** A run that stops early leaves what its error-free prefix left, plus at most
      the product of the record that failed. */
  lemma {:induction false} ConsumeStops(env: Env, c: Consumer, records: seq<WithProduct>) returns (n: nat)
    requires ConsumerValid(c) && Consume(env, c, records).1.Some?
    ensures n < |records| && Consume(env, c, records[..n]).1.None?
    ensures var t, u := Consume(env, c, records[..n]).0.DB.Tables, Consume(env, c, records).0.DB.Tables;
            u == t || u == UpsertedProduct(env, t, records[n].Product)
  {
    var front := records[..|records| - 1];
    if Consume(env, c, front).1.Some? {
      n := ConsumeStops(env, c, front);
      assert front[..n] == records[..n];
    } else {
      n := |records| - 1;
      ConsumeKeeps(env, c, front);
      TakeFails(env, Consume(env, c, front).0, records[n]);
    }
  }

  // ----- the simple form -----

  // IngestPricing without the cache.
  ghost function ConsumeSimple(env: Env, db: Database, records: seq<WithProduct>): (Database, Option<StoreError>) {
    if records == [] then (db, None) else
      match ConsumeSimple(env, db, records[..|records| - 1])
      case (next, None) => TakeSimple(env, next, records[|records| - 1])
      case (stopped, Some(e)) => (stopped, Some(e))
  }

  ghost function TakeSimple(env: Env, db: Database, pp: WithProduct): (Database, Option<StoreError>) {
    match ProductUpsert(env, db, pp.Product)
    case (next, Err(e)) => (next, Some(e))
    case (next, Ok(id)) =>
      match PriceUpsert(env, next, pp.Price, id)
      case (last, Err(e)) => (last, Some(e))
      case (last, Ok(_)) => (last, None)
  }

  lemma TakeSimpleIsWrite(env: Env, db: Database, pp: WithProduct)
    requires Valid(db.Tables) && forall n :: !db.Fails(n)
    ensures TakeSimple(env, db, pp).0.Fails == db.Fails
    ensures TakeSimple(env, db, pp).1.None? <==> env.ParseISO(pp.Price.Currency).Some?
    ensures TakeSimple(env, db, pp).1.None? ==>
              Apply(env, db.Tables, Write(pp, true, pp.Product.Key())) == Some(TakeSimple(env, db, pp).0.Tables)
  {
    ProductUpsertKeeps(env, db, pp.Product);
    var (next, r) := ProductUpsert(env, db, pp.Product);
    assert HasProduct(next.Tables, r.value) by {
      assert next.Tables.Products[pp.Product.Key()].ID == r.value;
    }
    PriceUpsertKeeps(env, next, pp.Price, r.value);
  }

  lemma {:induction false} SimpleIsPlan(env: Env, db: Database, records: seq<WithProduct>)
    requires Valid(db.Tables) && AllISO(env, records) && forall n :: !db.Fails(n)
    ensures ConsumeSimple(env, db, records).1.None? && ConsumeSimple(env, db, records).0.Fails == db.Fails
    ensures ApplyAll(env, db.Tables, SimplePlan(records)) == Some(ConsumeSimple(env, db, records).0.Tables)
    ensures Valid(ConsumeSimple(env, db, records).0.Tables)
  {
    if records != [] {
      var front, pp := records[..|records| - 1], records[|records| - 1];
      assert records == front + [pp];
      SimpleIsPlan(env, db, front);
      var next := ConsumeSimple(env, db, front).0;
      TakeSimpleIsWrite(env, next, pp);
      assert SimplePlan(records)[..|front|] == SimplePlan(front);
      ApplyKeeps(env, next.Tables, Write(pp, true, pp.Product.Key()));
    }
  }
}
