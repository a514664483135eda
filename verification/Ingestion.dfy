/** The consumer that stores received prices (ingestion.go). */
module Ingestion {
  import opened Wrappers
  import opened Prices
  import opened Store

  // ----- the consumer loop -----

  datatype Consumer = Consumer(DB: Database, SkuProductID: map<string, nat>)

  // The product is upserted only for the first record of its SKU.
  ghost function TakeProduct(env: Env, c: Consumer, pp: WithProduct): (r: (Consumer, Option<StoreError>))
    ensures r.1.None? ==> pp.Product.SKU in r.0.SkuProductID
  {
    if pp.Product.SKU in c.SkuProductID then (c, None)
    else
      match ProductUpsert(env, c.DB, pp.Product)
      case (db, Err(e)) => (c.(DB := db), Some(e))
      case (db, Ok(id)) => (Consumer(db, c.SkuProductID[pp.Product.SKU := id]), None)
  }

  // One record: its product, then its price.
  ghost function Take(env: Env, c: Consumer, pp: WithProduct): (Consumer, Option<StoreError>) {
    match TakeProduct(env, c, pp)
    case (next, Some(e)) => (next, Some(e))
    case (next, None) => TakePrice(env, next, pp)
  }

  ghost function TakePrice(env: Env, c: Consumer, pp: WithProduct): (Consumer, Option<StoreError>)
    requires pp.Product.SKU in c.SkuProductID
  {
    match PriceUpsert(env, c.DB, pp.Price, c.SkuProductID[pp.Product.SKU])
    case (db, Err(e)) => (c.(DB := db), Some(e))
    case (db, Ok(_)) => (c.(DB := db), None)
  }

  // The first error ends the loop.
  ghost function Consume(env: Env, c: Consumer, records: seq<WithProduct>): (Consumer, Option<StoreError>) {
    if records == [] then (c, None) else
      match Consume(env, c, records[..|records| - 1])
      case (next, None) => Take(env, next, records[|records| - 1])
      case (stopped, Some(e)) => (stopped, Some(e))
  }

  lemma {:induction false} ConsumeStuck(env: Env, c: Consumer, records: seq<WithProduct>, n: nat)
    requires n <= |records| && Consume(env, c, records[..n]).1.Some?
    ensures Consume(env, c, records) == Consume(env, c, records[..n])
    decreases |records|
  {
    if n < |records| {
      assert records[..|records| - 1][..n] == records[..n];
      ConsumeStuck(env, c, records[..|records| - 1], n);
    } else {
      assert records[..n] == records;
    }
  }

  lemma ConsumeNext(env: Env, c: Consumer, records: seq<WithProduct>, pp: WithProduct)
    requires Consume(env, c, records).1.None?
    ensures Consume(env, c, records + [pp]) == Take(env, Consume(env, c, records).0, pp)
  {
    assert (records + [pp])[..|records|] == records;
  }

  datatype IngestError = UpsertFailed(error: StoreError) | IngesterFailed(message: string)

  /** Stores everything received until the channel closes or an upsert fails. */
  method IngestPricing(be: Backend, received: seq<WithProduct>, ingesterErr: Option<string>)
    returns (err: Option<IngestError>, ghost cache: map<string, nat>)
    modifies be`db
    ensures var (c, stopped) := Consume(be.env, Consumer(old(be.db), map[]), received);
            && c == Consumer(be.db, cache)
            && err == if stopped.Some? then Some(UpsertFailed(stopped.value))
                      else if ingesterErr.Some? then Some(IngesterFailed(ingesterErr.value)) else None
  {
    var skuProductID: map<string, nat> := map[];
    ghost var start := Consumer(be.db, map[]);
    for i := 0 to |received|
      invariant Consume(be.env, start, received[..i]) == (Consumer(be.db, skuProductID), None)
    {
      var pp := received[i];
      assert received[..i + 1][..i] == received[..i];
      if pp.Product.SKU !in skuProductID {
        var r := be.UpsertProduct(pp.Product);
        if r.Err? {
          ConsumeStuck(be.env, start, received, i + 1);
          return Some(UpsertFailed(r.error)), skuProductID;
        }
        skuProductID := skuProductID[pp.Product.SKU := r.value];
      }
      var r := be.UpsertPrice(pp.Price, skuProductID[pp.Product.SKU]);
      if r.Err? {
        ConsumeStuck(be.env, start, received, i + 1);
        return Some(UpsertFailed(r.error)), skuProductID;
      }
    }
    assert received[..|received|] == received;
    err := if ingesterErr.Some? then Some(IngesterFailed(ingesterErr.value)) else None;
    cache := skuProductID;
  }

  // ----- what every run keeps -----

  ghost predicate ConsumerValid(c: Consumer) {
    Valid(c.DB.Tables) && forall s | s in c.SkuProductID :: HasProduct(c.DB.Tables, c.SkuProductID[s])
  }

  // Rows are only added or rewritten in place: every id keeps its row.
  ghost predicate KeepsIDs(t: Tables, u: Tables) {
    && (forall k | k in t.Products :: k in u.Products && u.Products[k].ID == t.Products[k].ID)
    && (forall k | k in t.Prices :: k in u.Prices && u.Prices[k].ID == t.Prices[k].ID)
  }

  lemma ProductUpsertKeeps(env: Env, db: Database, p: Product)
    requires Valid(db.Tables)
    ensures var (next, r) := ProductUpsert(env, db, p);
            && Valid(next.Tables) && KeepsIDs(db.Tables, next.Tables)
            && (r.Ok? ==> p.Key() in next.Tables.Products && next.Tables.Products[p.Key()].ID == r.value)
  {
    UpsertedProductValid(env, db.Tables, p);
  }

  lemma PriceUpsertKeeps(env: Env, db: Database, p: Price, id: nat)
    requires Valid(db.Tables)
    ensures var (next, r) := PriceUpsert(env, db, p, id);
            && Valid(next.Tables) && KeepsIDs(db.Tables, next.Tables) && next.Tables.Products == db.Tables.Products
  {
    if env.ParseISO(p.Currency).Some? && HasProduct(db.Tables, id) {
      UpsertedPriceValid(env, db.Tables, PriceKey(id, Hash(env.Digest, p)), env.ParseISO(p.Currency).value, p);
    }
  }

  lemma TakeKeeps(env: Env, c: Consumer, pp: WithProduct)
    requires ConsumerValid(c)
    ensures ConsumerValid(Take(env, c, pp).0)
    ensures KeepsIDs(c.DB.Tables, Take(env, c, pp).0.DB.Tables)
  {
    if pp.Product.SKU in c.SkuProductID {
      TakePriceKeeps(env, c, pp);
    } else {
      ProductUpsertKeeps(env, c.DB, pp.Product);
      var (db, r) := ProductUpsert(env, c.DB, pp.Product);
      forall s | s in c.SkuProductID ensures HasProduct(db.Tables, c.SkuProductID[s]) {
        ProductStays(c.DB.Tables, db.Tables, c.SkuProductID[s]);
      }
      if r.Ok? {
        assert HasProduct(db.Tables, r.value) by {
          assert db.Tables.Products[pp.Product.Key()].ID == r.value;
        }
        TakePriceKeeps(env, Consumer(db, c.SkuProductID[pp.Product.SKU := r.value]), pp);
      }
    }
  }

  lemma TakePriceKeeps(env: Env, c: Consumer, pp: WithProduct)
    requires ConsumerValid(c) && pp.Product.SKU in c.SkuProductID
    ensures ConsumerValid(TakePrice(env, c, pp).0)
    ensures KeepsIDs(c.DB.Tables, TakePrice(env, c, pp).0.DB.Tables)
  {
    var id := c.SkuProductID[pp.Product.SKU];
    PriceUpsertKeeps(env, c.DB, pp.Price, id);
    var t := PriceUpsert(env, c.DB, pp.Price, id).0.Tables;
    forall s | s in c.SkuProductID ensures HasProduct(t, c.SkuProductID[s]) {
      ProductStays(c.DB.Tables, t, c.SkuProductID[s]);
    }
  }

  /** However the database fails, every run keeps the primary, unique and foreign
      keys of the tables and the id of every row. */
  lemma {:induction false} ConsumeKeeps(env: Env, c: Consumer, records: seq<WithProduct>)
    requires ConsumerValid(c)
    ensures ConsumerValid(Consume(env, c, records).0)
    ensures KeepsIDs(c.DB.Tables, Consume(env, c, records).0.DB.Tables)
  {
    if records != [] {
      ConsumeKeeps(env, c, records[..|records| - 1]);
      var (next, e) := Consume(env, c, records[..|records| - 1]);
      if e.None? {
        TakeKeeps(env, next, records[|records| - 1]);
      }
    }
  }
}
