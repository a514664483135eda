/** From stored rows to an estimate: which row a component is charged by, and what
    it adds to the total (mysql/product.go, mysql/price.go, cost/state.go). */
module StoredCharges {
  import opened Wrappers
  import opened Costs
  import opened Orders
  import opened Queries
  import opened States
  import opened EndToEnd
  import opened Estimates
  import opened Filters
  import opened Ingestion
  import opened Store
  import opened StoredPrices
  import opened IngestedRows

  // ----- which rows a filter asks for -----

  ghost predicate AttributesAsked(like: Like, attributes: map<string, string>, filters: seq<AttributeFilter>) {
    forall f <- filters ::
      && (f.Value.Some? ==> f.Key in attributes && attributes[f.Key] == f.Value.value)
      && (f.Value.None? && f.ValueRegex.Some? ==> f.Key in attributes && like(attributes[f.Key], f.ValueRegex.value))
  }

  ghost predicate Asks(wanted: Option<string>, text: string) {
    wanted.None? || wanted.value == text
  }

  ghost predicate ProductAsked(like: Like, k: ProductKey, row: ProductRow, filter: Option<ProductFilter>) {
    filter.None? ||
    (&& Asks(filter.value.Provider, k.Provider) && Asks(filter.value.Location, k.Location) && Asks(filter.value.SKU, k.SKU)
     && Asks(filter.value.Service, row.Service) && Asks(filter.value.Family, row.Family)
     && AttributesAsked(like, row.Attributes, filter.value.AttributeFilters))
  }

  ghost predicate PriceAsked(like: Like, k: PriceKey, row: PriceRow, filter: Option<PriceFilter>, id: nat) {
    && (id == 0 || k.ProductID == id)
    && (filter.None? ||
        (&& Asks(filter.value.Unit, row.Unit) && Asks(filter.value.Currency, row.Currency)
         && AttributesAsked(like, row.Attributes, filter.value.AttributeFilters)))
  }

  /** The conditions generated for a product filter are true of exactly the product
      rows that have what it asks for. */
  lemma ProductRowsExactly(like: Like, k: ProductKey, row: ProductRow, filter: Option<ProductFilter>)
    ensures HoldAll(like, ProductRecord(k, row), Conditions(ProductClauses(filter)), Params(ProductClauses(filter))) == True
            <==> ProductAsked(like, k, row, filter)
  {
    ProductFilterExactly(like, ProductRecord(k, row), filter);
    ProductMatches(like, k, row, filter);
  }

  lemma ProductMatches(like: Like, k: ProductKey, row: ProductRow, filter: Option<ProductFilter>)
    ensures MatchesProduct(like, ProductRecord(k, row), filter) <==> ProductAsked(like, k, row, filter)
  {
  }

  /** The same for the prices of a product. */
  lemma PriceRowsExactly(like: Like, k: PriceKey, row: PriceRow, filter: Option<PriceFilter>, id: nat)
    ensures HoldAll(like, PriceRecord(k, row), Conditions(PriceClauses(filter, id)), Params(PriceClauses(filter, id))) == True
            <==> PriceAsked(like, k, row, filter, id)
  {
    PriceFilterExactly(like, PriceRecord(k, row), filter, id);
    PriceMatches(like, k, row, filter, id);
  }

  lemma PriceMatches(like: Like, k: PriceKey, row: PriceRow, filter: Option<PriceFilter>, id: nat)
    ensures MatchesPrice(like, PriceRecord(k, row), filter, id) <==> PriceAsked(like, k, row, filter, id)
  {
  }

  // ----- what is found -----

  /** The products found are those asked for, in table order. */
  lemma {:induction false} ProductsFound(like: Like, t: Tables, keys: seq<ProductKey>, filter: Option<ProductFilter>)
    returns (at: seq<nat>)
    requires forall k <- keys :: k in t.Products
    ensures Increasing(at, |keys|)
    ensures forall n | 0 <= n < |keys| :: n in at <==> ProductAsked(like, keys[n], t.Products[keys[n]], filter)
    ensures var found := SelectProducts(like, t, keys, filter);
            |found| == |at| && forall i | 0 <= i < |at| :: found[i] == keys[at[i]]
  {
    if keys == [] {
      at := [];
    } else {
      var n := |keys| - 1;
      at := ProductsFound(like, t, keys[..n], filter);
      IncreasingNext(at, n);
      assert forall m | 0 <= m < n :: keys[..n][m] == keys[m];
      ProductMatches(like, keys[n], t.Products[keys[n]], filter);
      if MatchesProduct(like, ProductRecord(keys[n], t.Products[keys[n]]), filter) {
        at := at + [n];
      }
    }
  }

  /** The prices found are those asked for, in table order, each with the amount and
      the currency of its row. */
  lemma {:induction false} PricesFound(like: Like, t: Tables, keys: seq<PriceKey>, id: nat, filter: Option<PriceFilter>)
    returns (at: seq<nat>)
    requires forall k <- keys :: k in t.Prices
    ensures Increasing(at, |keys|)
    ensures forall n | 0 <= n < |keys| :: n in at <==> PriceAsked(like, keys[n], t.Prices[keys[n]], filter, id)
    ensures var found := SelectPrices(like, t, keys, id, filter);
            && |found| == |at|
            && forall i | 0 <= i < |at| ::
                 found[i].Value == Is(t.Prices[keys[at[i]]].Value) && found[i].Currency == t.Prices[keys[at[i]]].Currency
  {
    if keys == [] {
      at := [];
    } else {
      var n := |keys| - 1;
      at := PricesFound(like, t, keys[..n], id, filter);
      IncreasingNext(at, n);
      assert forall m | 0 <= m < n :: keys[..n][m] == keys[m];
      PriceMatches(like, keys[n], t.Prices[keys[n]], filter, id);
      if MatchesPrice(like, PriceRecord(keys[n], t.Prices[keys[n]]), filter, id) {
        at := at + [n];
      }
    }
  }

  // ----- what a component is charged -----

  // The tables with their rows in these orders.
  datatype Stored = Stored(Like: Like, Tables: Tables, Products: seq<ProductKey>, Prices: seq<PriceKey>) {
    ghost predicate Valid() {
      (forall k <- Products :: k in Tables.Products) && forall k <- Prices :: k in Tables.Prices
    }

    function Backend(): States.Backend
      requires Valid()
    {
      BackendOf(Like, Tables, Products, Prices)
    }
  }

  ghost predicate FirstProduct(s: Stored, filter: Option<ProductFilter>, i: nat)
    requires s.Valid()
  {
    && i < |s.Products| && ProductAsked(s.Like, s.Products[i], s.Tables.Products[s.Products[i]], filter)
    && forall l | 0 <= l < i :: !ProductAsked(s.Like, s.Products[l], s.Tables.Products[s.Products[l]], filter)
  }

  ghost predicate FirstPrice(s: Stored, filter: Option<PriceFilter>, id: nat, i: nat)
    requires s.Valid()
  {
    && i < |s.Prices| && PriceAsked(s.Like, s.Prices[i], s.Tables.Prices[s.Prices[i]], filter, id)
    && forall l | 0 <= l < i :: !PriceAsked(s.Like, s.Prices[l], s.Tables.Prices[s.Prices[l]], filter, id)
  }

  // The row that a component is charged by: the first price asked for of the first
  // product asked for, if both queries have something to ask.
  ghost predicate ChargedBy(s: Stored, comp: ComponentQuery, i: nat, l: nat)
    requires s.Valid()
  {
    && !Blank(comp.ProductFilter) && FirstProduct(s, comp.ProductFilter, i)
    && var id := s.Tables.Products[s.Products[i]].ID;
       (id != 0 || !BlankPrice(comp.PriceFilter)) && FirstPrice(s, comp.PriceFilter, id, l)
  }

  lemma FirstFound(s: Stored, filter: Option<ProductFilter>)
    requires s.Valid()
    ensures var found := SelectProducts(s.Like, s.Tables, s.Products, filter);
            if found == [] then forall i: nat :: !FirstProduct(s, filter, i)
            else exists i: nat :: FirstProduct(s, filter, i) && found[0] == s.Products[i]
  {
    var at := ProductsFound(s.Like, s.Tables, s.Products, filter);
    if at != [] {
      FirstAt(at, |s.Products|);
      assert FirstProduct(s, filter, at[0]);
    }
  }

  lemma FirstPriceFound(s: Stored, filter: Option<PriceFilter>, id: nat)
    requires s.Valid()
    ensures var found := SelectPrices(s.Like, s.Tables, s.Prices, id, filter);
            if found == [] then forall i: nat :: !FirstPrice(s, filter, id, i)
            else exists i: nat :: FirstPrice(s, filter, id, i) && found[0].Value == Is(s.Tables.Prices[s.Prices[i]].Value) &&
                                  found[0].Currency == s.Tables.Prices[s.Prices[i]].Currency
  {
    var at := PricesFound(s.Like, s.Tables, s.Prices, id, filter);
    if at != [] {
      FirstAt(at, |s.Prices|);
      assert FirstPrice(s, filter, id, at[0]);
    }
  }

  lemma FirstOnce(s: Stored, filter: Option<ProductFilter>, i: nat, l: nat)
    requires s.Valid() && FirstProduct(s, filter, i) && FirstProduct(s, filter, l)
    ensures i == l
  {
  }

  lemma FirstPriceOnce(s: Stored, filter: Option<PriceFilter>, id: nat, i: nat, l: nat)
    requires s.Valid() && FirstPrice(s, filter, id, i) && FirstPrice(s, filter, id, l)
    ensures i == l
  {
  }

  // No row, or this one, and then its price is what NewState finds.
  ghost predicate PricedBy(s: Stored, comp: ComponentQuery, price: Option<States.Price>)
    requires s.Valid()
  {
    match price
    case None => forall i: nat, l: nat :: !ChargedBy(s, comp, i, l)
    case Some(p) =>
      && (exists i: nat, l: nat :: ChargedBy(s, comp, i, l))
      && forall i: nat, l: nat | ChargedBy(s, comp, i, l) ::
           p.Value == Is(s.Tables.Prices[s.Prices[l]].Value) && p.Currency == s.Tables.Prices[s.Prices[l]].Currency
  }

  lemma PricedAt(s: Stored, comp: ComponentQuery, i: nat)
    requires s.Valid() && !Blank(comp.ProductFilter) && FirstProduct(s, comp.ProductFilter, i)
    ensures var id := s.Tables.Products[s.Products[i]].ID;
            var found := SelectPrices(s.Like, s.Tables, s.Prices, id, comp.PriceFilter);
            PricedBy(s, comp, if (id == 0 && BlankPrice(comp.PriceFilter)) || found == [] then None else Some(found[0]))
  {
    var id := s.Tables.Products[s.Products[i]].ID;
    FirstPriceFound(s, comp.PriceFilter, id);
    forall m: nat, l: nat | ChargedBy(s, comp, m, l) ensures m == i && FirstPrice(s, comp.PriceFilter, id, l) {
      FirstOnce(s, comp.ProductFilter, i, m);
    }
    var found := SelectPrices(s.Like, s.Tables, s.Prices, id, comp.PriceFilter);
    if !(id == 0 && BlankPrice(comp.PriceFilter)) && found != [] {
      var first: nat :| FirstPrice(s, comp.PriceFilter, id, first) && found[0].Value == Is(s.Tables.Prices[s.Prices[first]].Value)
                        && found[0].Currency == s.Tables.Prices[s.Prices[first]].Currency;
      assert ChargedBy(s, comp, i, first);
      forall m: nat, l: nat | ChargedBy(s, comp, m, l) ensures l == first {
        FirstPriceOnce(s, comp.PriceFilter, id, first, l);
      }
    }
  }

  /** The price that NewState finds for a component is that of the row it is charged by. */
  lemma PriceFound(s: Stored, comp: ComponentQuery)
    requires s.Valid()
    ensures PricedBy(s, comp, PriceOf(s.Backend(), comp))
  {
    var found := SelectProducts(s.Like, s.Tables, s.Products, comp.ProductFilter);
    BlankExactly(comp.ProductFilter);
    FirstFound(s, comp.ProductFilter);
    if !Blank(comp.ProductFilter) && found != [] {
      var i: nat :| FirstProduct(s, comp.ProductFilter, i) && found[0] == s.Products[i];
      BlankPriceExactly(comp.PriceFilter, s.Tables.Products[s.Products[i]].ID);
      PricedAt(s, comp, i);
    }
  }

  function Times(x: real, y: real): real {
    x * y
  }

  // A month of the component: its monthly quantity, or else 730 times the hourly one.
  function Units(comp: ComponentQuery): (units: real)
    ensures comp.MonthlyQuantity.Amount() != 0.0 ==> units == comp.MonthlyQuantity.Amount()
    ensures comp.MonthlyQuantity.Amount() == 0.0 ==> units == comp.HourlyQuantity.Amount() * 730.0
  {
    MonthlyUnits(comp)
  }

  // What the component adds: the amount of its row times its monthly units.
  ghost predicate IsCharge(s: Stored, comp: ComponentQuery, amount: real, currency: string)
    requires s.Valid()
  {
    && (forall i: nat, l: nat | ChargedBy(s, comp, i, l) ::
          && amount == Times(s.Tables.Prices[s.Prices[l]].Value, Units(comp))
          && currency == s.Tables.Prices[s.Prices[l]].Currency)
    && ((forall i: nat, l: nat :: !ChargedBy(s, comp, i, l)) ==> amount == 0.0)
  }

  function CurrencyFor(b: States.Backend, comp: ComponentQuery): string {
    if PriceOf(b, comp).Some? then PriceOf(b, comp).value.Currency else ""
  }

  lemma ChargeIsRow(s: Stored, comp: ComponentQuery)
    requires s.Valid()
    ensures IsCharge(s, comp, Charge(s.Backend(), comp), CurrencyFor(s.Backend(), comp))
  {
    PriceFound(s, comp);
    ChargeIsTimes(s.Backend(), comp);
  }

  lemma ChargeIsTimes(b: States.Backend, comp: ComponentQuery)
    ensures PriceOf(b, comp).None? ==> Charge(b, comp) == 0.0
    ensures PriceOf(b, comp).Some? ==> Charge(b, comp) == Times(PriceOf(b, comp).value.Value.Amount(), Units(comp))
  {
  }

  // ----- the estimate -----

  // No stored currency is empty.
  ghost predicate Named(s: Stored) {
    forall k | k in s.Tables.Prices :: s.Tables.Prices[k].Currency != ""
  }

  // So it is whatever was ingested and however that ended.
  lemma IngestedNamed(env: Env, db: Database, records: seq<WithProduct>, s: Stored)
    requires ISOCurrencies(env, db.Tables) && CodesNamed(env) && s.Tables == After(env, db, records)
    ensures Named(s)
  {
    ConsumeISO(env, Consumer(db, map[]), records);
    forall k | k in s.Tables.Prices ensures s.Tables.Prices[k].Currency != "" {
      assert IsISO(env, s.Tables.Prices[k].Currency);
    }
  }

  lemma StoredNames(s: Stored, queries: seq<ResourceQuery>)
    requires s.Valid() && Named(s)
    ensures NamedPrices(s.Backend(), queries)
  {
    var b := s.Backend();
    forall q, comp | q in queries && comp in q.Components && PriceOf(b, comp).Some?
      ensures PriceOf(b, comp).value.Currency != ""
    {
      PriceFound(s, comp);
      var i: nat, l: nat :| ChargedBy(s, comp, i, l);
      assert s.Prices[l] in s.Tables.Prices;
    }
  }

  ghost predicate AreCharges(s: Stored, queries: seq<ResourceQuery>, amounts: seq<real>, currencies: seq<string>)
    requires s.Valid()
  {
    && |amounts| == |currencies| == |Kept(queries)|
    && forall i | 0 <= i < |amounts| :: IsCharge(s, Kept(queries)[i].Comp, amounts[i], currencies[i])
  }

  lemma ChargesAreRows(s: Stored, queries: seq<ResourceQuery>) returns (currencies: seq<string>)
    requires s.Valid()
    ensures AreCharges(s, queries, Charges(s.Backend(), Kept(queries)), currencies)
    ensures forall i | 0 <= i < |currencies| :: currencies[i] == CurrencyFor(s.Backend(), Kept(queries)[i].Comp)
  {
    var kept := Kept(queries);
    currencies := seq(|kept|, i requires 0 <= i < |kept| => CurrencyFor(s.Backend(), kept[i].Comp));
    forall i | 0 <= i < |kept| {
      ChargeIsRow(s, kept[i].Comp);
    }
  }

  lemma ChargedExactly(s: Stored, queries: seq<ResourceQuery>, amounts: seq<real>, currencies: seq<string>, x: string)
    requires s.Valid() && amounts == Charges(s.Backend(), Kept(queries)) && |currencies| == |amounts|
    requires forall i | 0 <= i < |currencies| :: currencies[i] == CurrencyFor(s.Backend(), Kept(queries)[i].Comp)
    ensures ChargedIn(s.Backend(), queries, x) <==> exists i | 0 <= i < |amounts| :: amounts[i] != 0.0 && currencies[i] == x
  {
    var b, kept := s.Backend(), Kept(queries);
    if a :| a in kept && Charge(b, a.Comp) != 0.0 && PriceOf(b, a.Comp).value.Currency == x {
      var i :| 0 <= i < |kept| && kept[i] == a;
      assert amounts[i] != 0.0 && currencies[i] == x;
    }
    if i :| 0 <= i < |amounts| && amounts[i] != 0.0 && currencies[i] == x {
      assert kept[i] in kept && Charge(b, kept[i].Comp) != 0.0;
    }
  }

  /** NewState and Cost on stored rows: every kept component adds the amount of the
      row it is charged by times its monthly units; the total is their sum, in their
      currency, and fails exactly when two that add something have different ones. */
  lemma EstimateFromRows(s: Stored, queries: seq<ResourceQuery>, resources: Resources, total: Total)
    returns (amounts: seq<real>, currencies: seq<string>)
    requires s.Valid() && Named(s) && Build(s.Backend(), queries) == Some(resources) && CostOutcome(resources, total)
    ensures AreCharges(s, queries, amounts, currencies)
    ensures total.Err? <==> exists i, j | 0 <= i < |amounts| && 0 <= j < |amounts| ::
              amounts[i] != 0.0 && amounts[j] != 0.0 && currencies[i] != currencies[j]
    ensures total.Ok? ==> total.value.Decimal.Amount() == Sum(amounts)
    ensures total.Ok? ==> forall i | 0 <= i < |amounts| && amounts[i] != 0.0 :: total.value.Currency == currencies[i]
  {
    StoredNames(s, queries);
    amounts := Charges(s.Backend(), Kept(queries));
    currencies := ChargesAreRows(s, queries);
    EstimateIsFlatSum(s.Backend(), queries, resources, total);
    CurrenciesDiffer(s, queries, amounts, currencies);
    forall i | 0 <= i < |amounts| && amounts[i] != 0.0 ensures ChargedIn(s.Backend(), queries, currencies[i]) {
      ChargedExactly(s, queries, amounts, currencies, currencies[i]);
    }
  }

  lemma CurrenciesDiffer(s: Stored, queries: seq<ResourceQuery>, amounts: seq<real>, currencies: seq<string>)
    requires s.Valid() && amounts == Charges(s.Backend(), Kept(queries)) && |currencies| == |amounts|
    requires forall i | 0 <= i < |currencies| :: currencies[i] == CurrencyFor(s.Backend(), Kept(queries)[i].Comp)
    ensures (exists x, y | ChargedIn(s.Backend(), queries, x) && ChargedIn(s.Backend(), queries, y) :: x != y) <==>
              exists i, j | 0 <= i < |amounts| && 0 <= j < |amounts| ::
                amounts[i] != 0.0 && amounts[j] != 0.0 && currencies[i] != currencies[j]
  {
    forall x ensures ChargedIn(s.Backend(), queries, x) <==>
                       exists i | 0 <= i < |amounts| :: amounts[i] != 0.0 && currencies[i] == x
    {
      ChargedExactly(s, queries, amounts, currencies, x);
    }
    if x, y :| ChargedIn(s.Backend(), queries, x) && ChargedIn(s.Backend(), queries, y) && x != y {
      var i :| 0 <= i < |amounts| && amounts[i] != 0.0 && currencies[i] == x;
      var j :| 0 <= j < |amounts| && amounts[j] != 0.0 && currencies[j] == y;
      assert currencies[i] != currencies[j];
    }
    if i, j :| 0 <= i < |amounts| && 0 <= j < |amounts| && amounts[i] != 0.0 && amounts[j] != 0.0 && currencies[i] != currencies[j] {
      assert ChargedIn(s.Backend(), queries, currencies[i]) && ChargedIn(s.Backend(), queries, currencies[j]);
    }
  }

  // ----- back to the received records -----

  // The charge is that of a received record, but for the rounding of its column.
  ghost predicate OfRecord(env: Env, records: seq<WithProduct>, comp: ComponentQuery, amount: real, currency: string) {
    exists r <- records :: Some(currency) == env.ParseISO(r.Price.Currency) && NearCharge(r.Price.Value, comp, amount)
  }

  ghost predicate NearCharge(price: real, comp: ComponentQuery, amount: real) {
    var off := (amount - Times(price, Units(comp))) * 10000000000.0;
    var most := if Units(comp) < 0.0 then -Units(comp) else Units(comp);
    -0.5 * most <= off <= 0.5 * most
  }

  lemma ScaledNear(stored: real, price: real, units: real)
    requires -0.5 <= (stored - price) * 10000000000.0 <= 0.5
    ensures var off, most := (Times(stored, units) - Times(price, units)) * 10000000000.0, if units < 0.0 then -units else units;
            -0.5 * most <= off <= 0.5 * most
  {
    Rearrange(stored, price, units, 10000000000.0);
    WithinHalf((stored - price) * 10000000000.0, units, (Times(stored, units) - Times(price, units)) * 10000000000.0);
  }

  lemma WithinHalf(d: real, units: real, off: real)
    requires -0.5 <= d <= 0.5 && off == Times(d, units)
    ensures var most := if units < 0.0 then -units else units; -0.5 * most <= off <= 0.5 * most
  {
    if units >= 0.0 {
      Between(d, units);
    } else {
      Between(-d, -units);
      assert d * units == (-d) * (-units);
    }
  }

  lemma Rearrange(x: real, y: real, units: real, scale: real)
    ensures (Times(x, units) - Times(y, units)) * scale == Times((x - y) * scale, units)
  {
    assert x * units - y * units == (x - y) * units;
  }

  lemma Between(d: real, units: real)
    requires -0.5 <= d <= 0.5 && units >= 0.0
    ensures -0.5 * units <= d * units <= 0.5 * units
  {
    assert (0.5 - d) * units >= 0.0 && (d + 0.5) * units >= 0.0;
  }

  /** From received records to what is charged: on the tables that a run without an
      error left, every component that a row is found for is charged the price of a
      received record, to ten places, times its monthly units. */
  lemma ChargedFromRecords(env: Env, db: Database, records: seq<WithProduct>, s: Stored, comp: ComponentQuery,
                           amount: real, currency: string)
    requires ErrorFree(env, db, records) && db.Tables == Empty && s.Tables == After(env, db, records)
    requires s.Valid() && IsCharge(s, comp, amount, currency)
    ensures OfRecord(env, records, comp, amount, currency) || ((forall i: nat, l: nat :: !ChargedBy(s, comp, i, l)) && amount == 0.0)
  {
    if i: nat, l: nat :| ChargedBy(s, comp, i, l) {
      var key := s.Prices[l];
      var n := RowFromRecord(env, db, records, key);
      ScaledNear(s.Tables.Prices[key].Value, records[n].Price.Value, Units(comp));
      assert records[n] in records && NearCharge(records[n].Price.Value, comp, amount);
    }
  }
}
