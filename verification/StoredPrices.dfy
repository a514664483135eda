/** The pricing store as estimates see it: the tables that ingestion fills, read
    through filters (mysql/product.go, mysql/price.go, mysql/filters.go). */
module StoredPrices {
  import opened Wrappers
  import opened Queries
  import opened Costs
  import opened States
  import opened EndToEnd
  import opened Estimates
  import opened Filters
  import opened Ingestion
  import opened Store

  // ----- currencies -----

  ghost predicate IsISO(env: Env, currency: string) {
    exists raw :: env.ParseISO(raw) == Some(currency)
  }

  // Every stored currency is one the parser has written.
  ghost predicate ISOCurrencies(env: Env, t: Tables) {
    forall k | k in t.Prices :: IsISO(env, t.Prices[k].Currency)
  }

  lemma TakeISO(env: Env, c: Consumer, pp: WithProduct)
    requires ISOCurrencies(env, c.DB.Tables)
    ensures ISOCurrencies(env, Take(env, c, pp).0.DB.Tables)
  {
    var (next, e) := TakeProduct(env, c, pp);
    assert next.DB.Tables.Prices == c.DB.Tables.Prices;
    if e.None? {
      TakePriceISO(env, next, pp);
    }
  }

  lemma TakePriceISO(env: Env, c: Consumer, pp: WithProduct)
    requires ISOCurrencies(env, c.DB.Tables) && pp.Product.SKU in c.SkuProductID
    ensures ISOCurrencies(env, TakePrice(env, c, pp).0.DB.Tables)
  {
    var parsed := env.ParseISO(pp.Price.Currency);
    assert parsed.Some? ==> IsISO(env, parsed.value);
  }

  /** However a run of ingestion ends, every currency in the store is an ISO code
      if it was before: no other can be stored. */
  lemma {:induction false} ConsumeISO(env: Env, c: Consumer, records: seq<WithProduct>)
    requires ISOCurrencies(env, c.DB.Tables)
    ensures ISOCurrencies(env, Consume(env, c, records).0.DB.Tables)
  {
    if records != [] {
      ConsumeISO(env, c, records[..|records| - 1]);
      var (next, e) := Consume(env, c, records[..|records| - 1]);
      if e.None? {
        TakeISO(env, next, records[|records| - 1]);
      }
    }
  }

  // ----- reading the tables -----

  function ProductRecord(k: ProductKey, row: ProductRow): Row {
    Row(map["provider" := Text(k.Provider), "location" := Text(k.Location), "service" := Text(row.Service),
            "family" := Text(row.Family), "sku" := Text(k.SKU)],
        row.Attributes)
  }

  function PriceRecord(k: PriceKey, row: PriceRow): Row {
    Row(map["product_id" := Number(k.ProductID), "unit" := Text(row.Unit), "currency" := Text(row.Currency)], row.Attributes)
  }

  function ProductRecords(t: Tables, keys: seq<ProductKey>): seq<Row>
    requires forall k <- keys :: k in t.Products
  {
    if keys == [] then [] else
      var k := keys[|keys| - 1];
      ProductRecords(t, keys[..|keys| - 1]) + [ProductRecord(k, t.Products[k])]
  }

  function SelectProducts(like: Like, t: Tables, keys: seq<ProductKey>, filter: Option<ProductFilter>): (r: seq<ProductKey>)
    requires forall k <- keys :: k in t.Products
    ensures forall k <- r :: k in keys
  {
    if keys == [] then [] else
      var front, k := SelectProducts(like, t, keys[..|keys| - 1], filter), keys[|keys| - 1];
      if MatchesProduct(like, ProductRecord(k, t.Products[k]), filter) then front + [k] else front
  }

  /** The products a filter selects are the rows its query selects. */
  lemma {:induction false} SelectIsQuery(like: Like, t: Tables, keys: seq<ProductKey>, filter: Option<ProductFilter>)
    requires forall k <- keys :: k in t.Products
    ensures Selected(like, ProductRecords(t, keys), filter)
            == ProductRecords(t, SelectProducts(like, t, keys, filter))
  {
    if keys != [] {
      var n := |keys| - 1;
      var chosen := SelectProducts(like, t, keys[..n], filter);
      SelectIsQuery(like, t, keys[..n], filter);
      assert ProductRecords(t, keys)[..n] == ProductRecords(t, keys[..n]) by {
        RecordsLength(t, keys[..n]);
      }
      RecordsLength(t, keys);
      assert (chosen + [keys[n]])[..|chosen|] == chosen;
    }
  }

  lemma {:induction false} RecordsLength(t: Tables, keys: seq<ProductKey>)
    requires forall k <- keys :: k in t.Products
    ensures |ProductRecords(t, keys)| == |keys|
  {
    if keys != [] {
      RecordsLength(t, keys[..|keys| - 1]);
    }
  }

  function IDs(t: Tables, keys: seq<ProductKey>): seq<nat>
    requires forall k <- keys :: k in t.Products
  {
    seq(|keys|, i requires 0 <= i < |keys| => t.Products[keys[i]].ID)
  }

  function SelectPrices(like: Like, t: Tables, keys: seq<PriceKey>, id: nat, filter: Option<PriceFilter>): (r: seq<States.Price>)
    requires forall k <- keys :: k in t.Prices
    ensures forall p <- r :: exists k | k in t.Prices :: p.Currency == t.Prices[k].Currency
  {
    if keys == [] then [] else
      var front, k := SelectPrices(like, t, keys[..|keys| - 1], id, filter), keys[|keys| - 1];
      if MatchesPrice(like, PriceRecord(k, t.Prices[k]), filter, id)
      then front + [States.Price(Is(t.Prices[k].Value), t.Prices[k].Currency)] else front
  }

  // The store with its rows in these orders. Statements without a condition fail.
  function BackendOf(like: Like, t: Tables, products: seq<ProductKey>, prices: seq<PriceKey>): States.Backend
    requires forall k <- products :: k in t.Products
    requires forall k <- prices :: k in t.Prices
  {
    States.Backend(
      filter => if ProductClauses(filter) == [] then Err("syntax error") else Ok(IDs(t, SelectProducts(like, t, products, filter))),
      (id: nat, filter) =>
         if PriceClauses(filter, id) == [] then Err("syntax error") else Ok(SelectPrices(like, t, prices, id, filter)))
  }

  // No ISO code is empty.
  ghost predicate CodesNamed(env: Env) {
    forall raw :: env.ParseISO(raw) != Some("")
  }

  lemma StoreNamesPrices(env: Env, like: Like, t: Tables, products: seq<ProductKey>, prices: seq<PriceKey>,
                         queries: seq<ResourceQuery>)
    requires (forall k <- products :: k in t.Products) && forall k <- prices :: k in t.Prices
    requires ISOCurrencies(env, t) && CodesNamed(env)
    ensures NamedPrices(BackendOf(like, t, products, prices), queries)
  {
    var b := BackendOf(like, t, products, prices);
    forall q, comp | q in queries && comp in q.Components && PriceOf(b, comp).Some?
      ensures PriceOf(b, comp).value.Currency != ""
    {
      var id := b.Products(comp.ProductFilter).value[0];
      var found := SelectPrices(like, t, prices, id, comp.PriceFilter);
      assert PriceOf(b, comp).value == found[0] && found[0] in found;
      var k :| k in t.Prices && found[0].Currency == t.Prices[k].Currency;
      assert IsISO(env, t.Prices[k].Currency);
    }
  }

  /** From ingestion to the total: whatever was ingested, and however that ended,
      an estimate against the resulting tables is the flat sum over the kept
      components, and fails exactly on two currencies. */
  lemma IngestedEstimate(env: Env, db: Database, records: seq<WithProduct>, like: Like, products: seq<ProductKey>,
                         prices: seq<PriceKey>, queries: seq<ResourceQuery>, resources: Resources, total: Total)
    requires ISOCurrencies(env, db.Tables) && CodesNamed(env)
    requires var t := Consume(env, Consumer(db, map[]), records).0.DB.Tables;
             && (forall k <- products :: k in t.Products) && (forall k <- prices :: k in t.Prices)
             && Build(BackendOf(like, t, products, prices), queries) == Some(resources)
    requires CostOutcome(resources, total)
    ensures var b := BackendOf(like, Consume(env, Consumer(db, map[]), records).0.DB.Tables, products, prices);
            && (total.Err? <==> exists x, y | ChargedIn(b, queries, x) && ChargedIn(b, queries, y) :: x != y)
            && (total.Ok? ==> total.value.Decimal.Amount() == FlatSum(b, queries))
            && (total.Ok? ==> forall x | ChargedIn(b, queries, x) :: total.value.Currency == x)
  {
    var t := Consume(env, Consumer(db, map[]), records).0.DB.Tables;
    ConsumeISO(env, Consumer(db, map[]), records);
    StoreNamesPrices(env, like, t, products, prices, queries);
    EstimateIsFlatSum(BackendOf(like, t, products, prices), queries, resources, total);
  }
}
