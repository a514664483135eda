/** What AzureRM ingestion stores, price by price and page by page
    (azurerm/ingester.go). */
module AzureRecords {
  import opened Wrappers
  import opened Orders
  import opened Store
  import opened IngestedRows
  import opened AzurePipeline

  // The record of a retail price, field by field.
  ghost predicate IsRecord(cfg: Config, rp: RetailPrice, r: WithProduct) {
    && r.Price.Unit == rp.UnitOfMeasure && r.Price.Currency == rp.CurrencyCode && r.Price.Value == rp.UnitPrice
    && r.Price.Attributes == map["type" := rp.Type]
    && r.Product.Provider == "azurerm" && r.Product.Service == rp.ServiceName && r.Product.Family == rp.ServiceFamily
    && r.Product.Location == rp.ArmRegionName
    && r.Product.SKU == rp.SkuID + "-" + rp.MeterID + "-" + rp.Type + "-" + cfg.TwoPlaces(rp.TierMinimumUnits)
    && r.Product.Attributes == map["armSkuName" := rp.ArmSkuName, "meterName" := rp.MeterName, "productName" := rp.ProductName,
                                   "skuName" := rp.SkuName, "tierMinimumUnits" := cfg.SixPlaces(rp.TierMinimumUnits)]
  }

  ghost predicate IsWanted(cfg: Config, rp: RetailPrice) {
    exists r :: IsRecord(cfg, rp, r) && cfg.Filter(r)
  }

  lemma ConvertIsRecord(cfg: Config, rp: RetailPrice)
    ensures IsRecord(cfg, rp, Convert(cfg, rp))
    ensures IsWanted(cfg, rp) <==> cfg.Filter(Convert(cfg, rp))
  {
    if r :| IsRecord(cfg, rp, r) && cfg.Filter(r) {
      assert r == WithProduct(r.Price, r.Product) && r == Convert(cfg, rp);
    }
  }

  /** The wanted records of a list of prices are those of the prices that are wanted, in order. */
  lemma {:induction false} WantedExactly(cfg: Config, items: seq<RetailPrice>) returns (at: seq<nat>)
    ensures Increasing(at, |items|) && |at| == |WantedOf(cfg, items)|
    ensures forall n | 0 <= n < |items| :: n in at <==> IsWanted(cfg, items[n])
    ensures forall i | 0 <= i < |at| :: IsRecord(cfg, items[at[i]], WantedOf(cfg, items)[i])
  {
    if items == [] {
      at := [];
    } else {
      var n := |items| - 1;
      at := WantedExactly(cfg, items[..n]);
      IncreasingNext(at, n);
      assert forall m | 0 <= m < n :: items[..n][m] == items[m];
      ConvertIsRecord(cfg, items[n]);
      if cfg.Filter(Convert(cfg, items[n])) {
        at := at + [n];
      }
    }
  }

  // ----- the pages -----

  ghost function PageItems(pages: seq<Response>): seq<RetailPrice> {
    if pages == [] then [] else
      PageItems(pages[..|pages| - 1]) + if pages[|pages| - 1].Page? then pages[|pages| - 1].Items else []
  }

  // The first n responses are pages that lead on.
  ghost predicate LeadOn(responses: seq<Response>, n: nat) {
    n <= |responses| && forall i | 0 <= i < n :: responses[i].Page? && responses[i].Next == NextPage
  }

  /** The prices fetched are those of the pages up to the first that does not lead to
      another, or to the first failure, whose error is reported. */
  lemma {:induction false} FetchExactly(responses: seq<Response>, n: nat)
    requires LeadOn(responses, n) && (n < |responses| ==> responses[n].Failed? || responses[n].Next != NextPage)
    ensures n == |responses| ==> Fetch(responses) == Fetched(PageItems(responses), None, true)
    ensures n < |responses| && responses[n].Page? ==> Fetch(responses) == Fetched(PageItems(responses[..n + 1]), None, false)
    ensures n < |responses| && responses[n].Failed? ==>
              Fetch(responses) == Fetched(PageItems(responses[..n]), Some(responses[n].Message), false)
    decreases |responses|
  {
    if responses != [] {
      var last := |responses| - 1;
      var front := responses[..last];
      if n < last {
        assert forall i | 0 <= i <= n :: front[i] == responses[i];
        FetchExactly(front, n);
        assert front[..n + 1] == responses[..n + 1] && front[..n] == responses[..n];
      } else {
        FetchExactly(front, last);
        assert responses[..last + 1] == responses;
      }
    }
  }

  /** From a page to the tables: when ingestion returns nil, the last record of a price
      is stored with the amount, unit, currency and type of its retail price. */
  lemma NilStoresPrice(p: Setup, states: seq<Sys>, steps: seq<Step>, i: nat, j: nat, rp: RetailPrice)
    requires Run(p, states, steps) && states[|steps|].Result == Some(None) && Valid(p.DB.Tables)
    requires FirstOfSKU(p.Wanted(), i, j) && LastOfPrice(p.Env, p.Wanted(), i) && IsRecord(p.Cfg, rp, p.Wanted()[i])
    ensures exists key | key in states[|steps|].Storing.Consumer.DB.Tables.Prices ::
              var row := states[|steps|].Storing.Consumer.DB.Tables.Prices[key];
              && StoredAs(row.Value, rp.UnitPrice) && row.Unit == rp.UnitOfMeasure && row.Attributes == map["type" := rp.Type]
              && Some(row.Currency) == p.Env.ParseISO(rp.CurrencyCode)
  {
    ReturnsSequential(p, states, steps);
    StoredPrice(p.Env, p.DB, p.Wanted(), i, j);
  }
}
