/** The two pricing tables and their upserts (mysql/product.go, mysql/price.go,
    mysql/migrations/v0_initial.go, mysql/migrations/v1_name_indexes.go). */
module Store {
  import opened Wrappers
  import opened Prices
  import opened Rounding

  datatype Product = Product(Provider: string, SKU: string, Service: string, Family: string, Location: string,
                             Attributes: map<string, string>)
  {
    // The unique key (provider, sku, location).
    function Key(): ProductKey {
      ProductKey(Provider, SKU, Location)
    }
  }

  datatype ProductKey = ProductKey(Provider: string, SKU: string, Location: string)

  datatype ProductRow = ProductRow(ID: nat, Service: string, Family: string, Attributes: map<string, string>)

  // The unique key (product_id, hash).
  datatype PriceKey = PriceKey(ProductID: nat, Hash: string)

  datatype PriceRow = PriceRow(ID: nat, Currency: string, Value: real, Unit: string, Attributes: map<string, string>)

  // Rows by unique key, and the next automatic id of each table.
  datatype Tables = Tables(Products: map<ProductKey, ProductRow>, Prices: map<PriceKey, PriceRow>,
                           NextProduct: nat, NextPrice: nat)

  const Empty := Tables(map[], map[], 1, 1)

  // The digest of the price hash, the ISO currency parser, and how many ids an
  // upsert that only updates takes from the automatic counter.
  datatype Env = Env(Digest: string -> string, ParseISO: string -> Option<string>, Burn: nat)

  datatype WithProduct = WithProduct(Price: Price, Product: Product)

  // ----- what the tables always satisfy -----

  // Ids are primary keys, and every price belongs to a product.
  ghost predicate Valid(t: Tables) {
    ProductIDs(t.Products, t.NextProduct) && PriceIDs(t.Prices, t.NextPrice) && ForeignKeys(t)
  }

  ghost predicate ProductIDs(rows: map<ProductKey, ProductRow>, next: nat) {
    && (forall k | k in rows :: rows[k].ID < next)
    && (forall k, l | k in rows && l in rows && k != l :: rows[k].ID != rows[l].ID)
  }

  ghost predicate PriceIDs(rows: map<PriceKey, PriceRow>, next: nat) {
    && (forall k | k in rows :: rows[k].ID < next)
    && (forall k, l | k in rows && l in rows && k != l :: rows[k].ID != rows[l].ID)
  }

  ghost predicate ForeignKeys(t: Tables) {
    forall k | k in t.Prices :: HasProduct(t, k.ProductID)
  }

  predicate HasProduct(t: Tables, id: nat) {
    exists k | k in t.Products :: t.Products[k].ID == id
  }

  // ----- upserts -----

  // INSERT … ON DUPLICATE KEY UPDATE attributes: an existing row keeps its id,
  // service and family.
  function UpsertedProduct(env: Env, t: Tables, p: Product): Tables {
    if p.Key() in t.Products then
      t.(Products := t.Products[p.Key() := t.Products[p.Key()].(Attributes := p.Attributes)],
         NextProduct := t.NextProduct + env.Burn)
    else
      t.(Products := t.Products[p.Key() := ProductRow(t.NextProduct, p.Service, p.Family, p.Attributes)],
         NextProduct := t.NextProduct + 1)
  }

  // The price column has ten decimal places.
  function PriceColumn(value: real): real {
    Round(value, PLACES_10)
  }

  // A stored amount: a nearest one with ten decimal places, the one further from
  // zero on a tie, and the amount itself exactly when it has no more of them.
  ghost predicate StoredAs(stored: real, amount: real) {
    && -0.5 <= (stored - amount) * 10000000000.0 <= 0.5
    && (stored * 10000000000.0).Floor as real == stored * 10000000000.0
    && ((stored - amount) * 10000000000.0 == 0.5 ==> amount >= 0.0)
    && ((stored - amount) * 10000000000.0 == -0.5 ==> amount < 0.0)
    && (stored == amount <==> (amount * 10000000000.0).Floor as real == amount * 10000000000.0)
  }

  // The row of a price.
  ghost predicate HoldsPrice(env: Env, row: PriceRow, p: Price) {
    && Some(row.Currency) == env.ParseISO(p.Currency) && StoredAs(row.Value, p.Value)
    && row.Unit == p.Unit && row.Attributes == p.Attributes
  }

  lemma ColumnStores(amount: real)
    ensures StoredAs(PriceColumn(amount), amount)
  {
    RoundNear(amount, PLACES_10);
    RoundTies(amount, PLACES_10);
    RoundExactly(amount, PLACES_10);
  }

  // INSERT … ON DUPLICATE KEY UPDATE of everything but the id and the key.
  function UpsertedPrice(env: Env, t: Tables, key: PriceKey, currency: string, p: Price): Tables {
    if key in t.Prices then
      t.(Prices := t.Prices[key := PriceRow(t.Prices[key].ID, currency, PriceColumn(p.Value), p.Unit, p.Attributes)],
         NextPrice := t.NextPrice + env.Burn)
    else
      t.(Prices := t.Prices[key := PriceRow(t.NextPrice, currency, PriceColumn(p.Value), p.Unit, p.Attributes)],
         NextPrice := t.NextPrice + 1)
  }

  lemma ProductStays(t: Tables, u: Tables, id: nat)
    requires HasProduct(t, id)
    requires forall k | k in t.Products :: k in u.Products && u.Products[k].ID == t.Products[k].ID
    ensures HasProduct(u, id)
  {
    var k :| k in t.Products && t.Products[k].ID == id;
    assert u.Products[k].ID == id;
  }

  lemma UpsertedProductIDs(env: Env, t: Tables, p: Product)
    requires ProductIDs(t.Products, t.NextProduct)
    ensures var u := UpsertedProduct(env, t, p);
            && ProductIDs(u.Products, u.NextProduct)
            && p.Key() in u.Products
            && (forall k | k in t.Products :: k in u.Products && u.Products[k].ID == t.Products[k].ID)
  {
    ProductIDsStay(env, t, p);
  }

  lemma ProductIDsStay(env: Env, t: Tables, p: Product)
    ensures var u := UpsertedProduct(env, t, p);
            p.Key() in u.Products && forall k | k in t.Products :: k in u.Products && u.Products[k].ID == t.Products[k].ID
  {
  }

  lemma UpsertedPriceIDs(env: Env, t: Tables, key: PriceKey, currency: string, p: Price)
    requires PriceIDs(t.Prices, t.NextPrice)
    ensures var u := UpsertedPrice(env, t, key, currency, p);
            && PriceIDs(u.Prices, u.NextPrice)
            && (forall k | k in t.Prices :: k in u.Prices && u.Prices[k].ID == t.Prices[k].ID)
  {
    PriceIDsStay(env, t, key, currency, p);
  }

  lemma PriceIDsStay(env: Env, t: Tables, key: PriceKey, currency: string, p: Price)
    ensures var u := UpsertedPrice(env, t, key, currency, p);
            forall k | k in t.Prices :: k in u.Prices && u.Prices[k].ID == t.Prices[k].ID
  {
  }

  /** Upserting a product keeps the keys, and no row ever changes its id. */
  lemma UpsertedProductValid(env: Env, t: Tables, p: Product)
    requires Valid(t)
    ensures Valid(UpsertedProduct(env, t, p))
    ensures p.Key() in UpsertedProduct(env, t, p).Products
    ensures forall k | k in t.Products :: UpsertedProduct(env, t, p).Products[k].ID == t.Products[k].ID
  {
    var u := UpsertedProduct(env, t, p);
    UpsertedProductIDs(env, t, p);
    forall k | k in u.Prices ensures HasProduct(u, k.ProductID) {
      ProductStays(t, u, k.ProductID);
    }
  }

  /** Upserting a price of a known product keeps the keys, and no row ever changes its id. */
  lemma UpsertedPriceValid(env: Env, t: Tables, key: PriceKey, currency: string, p: Price)
    requires Valid(t) && HasProduct(t, key.ProductID)
    ensures Valid(UpsertedPrice(env, t, key, currency, p))
    ensures UpsertedPrice(env, t, key, currency, p).Products == t.Products
    ensures forall k | k in t.Prices :: UpsertedPrice(env, t, key, currency, p).Prices[k].ID == t.Prices[k].ID
  {
    var u := UpsertedPrice(env, t, key, currency, p);
    UpsertedPriceIDs(env, t, key, currency, p);
    forall k | k in u.Prices ensures HasProduct(u, k.ProductID) {
      ProductStays(t, u, k.ProductID);
    }
  }

  // ----- the database -----

  datatype StoreError = QueryFailed | BadCurrency

  // The database: its tables, and how many statements it has executed. Whether
  // a statement fails depends on when it is executed.
  datatype Database = Database(Tables: Tables, Statements: nat, Fails: nat -> bool)

  function ProductUpsert(env: Env, db: Database, p: Product): (Database, Result<nat, StoreError>) {
    var next := db.(Statements := db.Statements + 1);
    if db.Fails(db.Statements) then (next, Err(QueryFailed)) else
      var t := UpsertedProduct(env, db.Tables, p);
      (next.(Tables := t), Ok(t.Products[p.Key()].ID))
  }

  // newPrice rejects a currency that is not an ISO code before any statement is
  // executed; a product id without a row violates the foreign key.
  ghost function PriceUpsert(env: Env, db: Database, p: Price, productID: nat): (Database, Result<nat, StoreError>) {
    match env.ParseISO(p.Currency)
    case None => (db, Err(BadCurrency))
    case Some(currency) =>
      var next := db.(Statements := db.Statements + 1);
      if db.Fails(db.Statements) || !HasProduct(db.Tables, productID) then (next, Err(QueryFailed)) else
        var key := PriceKey(productID, Hash(env.Digest, p));
        var t := UpsertedPrice(env, db.Tables, key, currency, p);
        (next.(Tables := t), Ok(t.Prices[key].ID))
  }

  class Backend {
    const env: Env
    var db: Database

    constructor (env: Env, db: Database)
      ensures this.env == env && this.db == db
    {
      this.env := env;
      this.db := db;
    }

    method UpsertProduct(p: Product) returns (r: Result<nat, StoreError>)
      modifies this`db
      ensures (db, r) == ProductUpsert(env, old(db), p)
    {
      var n := db.Statements;
      db := db.(Statements := n + 1);
      if db.Fails(n) {
        return Err(QueryFailed);
      }
      var t, key := db.Tables, p.Key();
      if key in t.Products {
        var row := t.Products[key];
        t := t.(Products := t.Products[key := row.(Attributes := p.Attributes)], NextProduct := t.NextProduct + env.Burn);
        r := Ok(row.ID);
      } else {
        var row := ProductRow(t.NextProduct, p.Service, p.Family, p.Attributes);
        t := t.(Products := t.Products[key := row], NextProduct := row.ID + 1);
        r := Ok(row.ID);
      }
      db := db.(Tables := t);
    }

    method UpsertPrice(p: Price, productID: nat) returns (r: Result<nat, StoreError>)
      modifies this`db
      ensures (db, r) == PriceUpsert(env, old(db), p, productID)
      ensures r == Err(BadCurrency) <==> env.ParseISO(p.Currency).None?
      ensures r == Err(BadCurrency) ==> db == old(db)
      ensures r.Ok? ==> var key := PriceKey(productID, Hash(env.Digest, p));
                        && key in db.Tables.Prices && HoldsPrice(env, db.Tables.Prices[key], p) && r.value == db.Tables.Prices[key].ID
    {
      ColumnStores(p.Value);
      var currency := env.ParseISO(p.Currency);
      if currency.None? {
        return Err(BadCurrency);
      }
      var n := db.Statements;
      db := db.(Statements := n + 1);
      if db.Fails(n) || !HasProduct(db.Tables, productID) {
        return Err(QueryFailed);
      }
      var hash := GenerateHash(env.Digest, p);
      var t, key := db.Tables, PriceKey(productID, hash);
      if key in t.Prices {
        var row := PriceRow(t.Prices[key].ID, currency.value, PriceColumn(p.Value), p.Unit, p.Attributes);
        t := t.(Prices := t.Prices[key := row], NextPrice := t.NextPrice + env.Burn);
        r := Ok(row.ID);
      } else {
        var row := PriceRow(t.NextPrice, currency.value, PriceColumn(p.Value), p.Unit, p.Attributes);
        t := t.(Prices := t.Prices[key := row], NextPrice := row.ID + 1);
        r := Ok(row.ID);
      }
      db := db.(Tables := t);
    }
  }
}
