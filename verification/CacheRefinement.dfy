/** When the SKU cache of ingestion is faithful, and what a replay changes. */
module CacheRefinement {
  import opened Wrappers
  import opened Prices
  import opened Store
  import opened Ingestion
  import opened CachedRuns

  // The first and the last record of a product key.
  function FirstAt(records: seq<WithProduct>, k: ProductKey): Option<Product> {
    if records == [] then None else
      var front, last := records[..|records| - 1], records[|records| - 1];
      if FirstAt(front, k).Some? then FirstAt(front, k)
      else if last.Product.Key() == k then Some(last.Product) else None
  }

  function LastAt(records: seq<WithProduct>, k: ProductKey): Option<Product> {
    if records == [] then None else
      var last := records[|records| - 1];
      if last.Product.Key() == k then Some(last.Product) else LastAt(records[..|records| - 1], k)
  }

  function Rewritten(was: Option<ProductContent>, first: Product, last: Product): ProductContent {
    if was.Some? then was.value.(Attributes := last.Attributes)
    else ProductContent(first.Service, first.Family, last.Attributes)
  }

  lemma {:induction false} SimpleAfter(was: Option<ProductContent>, records: seq<WithProduct>, k: ProductKey)
    ensures FirstAt(records, k).Some? <==> LastAt(records, k).Some?
    ensures ProductAfter(was, SimplePlan(records), k) ==
            if LastAt(records, k).None? then was
            else Some(Rewritten(was, FirstAt(records, k).value, LastAt(records, k).value))
  {
    if records != [] {
      var front := records[..|records| - 1];
      SimpleAfter(was, front, k);
      assert SimplePlan(records)[..|front|] == SimplePlan(front);
    }
  }

  // The record whose product the cached run upserts under this key.
  function CachedFirst(records: seq<WithProduct>, k: ProductKey): Option<Product> {
    var first := FirstWith(records, k.SKU);
    if first.Some? && first.value.Key() == k then first else None
  }

  lemma {:induction false} CachedAfter(was: Option<ProductContent>, records: seq<WithProduct>, k: ProductKey)
    ensures FirstWith(records, k.SKU).Some? ==> FirstWith(records, k.SKU).value.SKU == k.SKU
    ensures ProductAfter(was, CachedPlan(records), k) ==
            if CachedFirst(records, k).None? then was
            else Some(Rewritten(was, CachedFirst(records, k).value, CachedFirst(records, k).value))
  {
    if records != [] {
      var front, last := records[..|records| - 1], records[|records| - 1];
      CachedAfter(was, front, k);
      assert CachedPlan(records)[..|front|] == CachedPlan(front);
    }
  }

  lemma {:induction false} CachedFirstIsFirst(records: seq<WithProduct>, k: ProductKey)
    ensures FirstWith(records, k.SKU).None? ==> FirstAt(records, k).None?
    ensures CachedFirst(records, k).Some? ==> CachedFirst(records, k) == FirstAt(records, k)
  {
    if records != [] {
      CachedFirstIsFirst(records[..|records| - 1], k);
    }
  }

  function AttributesOf(p: Option<Product>): Option<map<string, string>> {
    if p.None? then None else Some(p.value.Attributes)
  }

  // Records of one SKU have one provider and one location, and the last of them
  // has the attributes of the first.
  ghost predicate Consistent(records: seq<WithProduct>) {
    && SameKeys(records)
    && forall r <- records ::
         AttributesOf(FirstWith(records, r.Product.SKU)) == AttributesOf(LastAt(records, r.Product.Key()))
  }

  ghost predicate SameKeys(records: seq<WithProduct>) {
    forall r, s | r in records && s in records && r.Product.SKU == s.Product.SKU :: r.Product.Key() == s.Product.Key()
  }

  lemma {:induction false} FirstWithMember(records: seq<WithProduct>, s: string)
    ensures FirstWith(records, s).Some? ==> exists r <- records :: r.Product == FirstWith(records, s).value && r.Product.SKU == s
    ensures (exists r <- records :: r.Product.SKU == s) ==> FirstWith(records, s).Some?
  {
    if records != [] {
      var front, last := records[..|records| - 1], records[|records| - 1];
      assert records == front + [last];
      FirstWithMember(front, s);
    }
  }

  lemma {:induction false} LastAtMember(records: seq<WithProduct>, k: ProductKey)
    ensures LastAt(records, k).Some? ==> exists r <- records :: r.Product == LastAt(records, k).value && r.Product.Key() == k
    ensures (exists r <- records :: r.Product.Key() == k) ==> LastAt(records, k).Some?
  {
    if records != [] {
      var front, last := records[..|records| - 1], records[|records| - 1];
      assert records == front + [last];
      LastAtMember(front, k);
    }
  }

  lemma {:induction false} SamePrices(env: Env, was: Option<PriceContent>, records: seq<WithProduct>, k: ProductKey, h: string)
    requires SameKeys(records)
    ensures PriceAfter(env, was, CachedPlan(records), k, h) == PriceAfter(env, was, SimplePlan(records), k, h)
  {
    if records != [] {
      var front, last := records[..|records| - 1], records[|records| - 1];
      assert records == front + [last];
      assert SameKeys(front);
      SamePrices(env, was, front, k, h);
      FirstWithMember(front, last.Product.SKU);
      assert CachedPlan(records)[..|front|] == CachedPlan(front) && SimplePlan(records)[..|front|] == SimplePlan(front);
    }
  }

  // ----- error-free runs -----

  function Healthy(t: Tables): Database {
    Database(t, 0, (n: nat) => false)
  }

  ghost function Cached(env: Env, t: Tables, records: seq<WithProduct>): Tables {
    Consume(env, Consumer(Healthy(t), map[]), records).0.DB.Tables
  }

  ghost function Simple(env: Env, t: Tables, records: seq<WithProduct>): Tables {
    ConsumeSimple(env, Healthy(t), records).0.Tables
  }

  lemma RunsApply(env: Env, t: Tables, records: seq<WithProduct>)
    requires Valid(t) && AllISO(env, records)
    ensures ApplyAll(env, t, CachedPlan(records)) == Some(Cached(env, t, records))
    ensures ApplyAll(env, t, SimplePlan(records)) == Some(Simple(env, t, records))
  {
    ConsumeFails(env, Consumer(Healthy(t), map[]), records);
    ConsumeIsPlan(env, Healthy(t), records);
    SimpleIsPlan(env, Healthy(t), records);
  }

  lemma GoodRunsAt(env: Env, t: Tables, records: seq<WithProduct>, k: ProductKey, h: string)
    requires Valid(t) && AllISO(env, records)
    ensures ProductAt(Cached(env, t, records), k) == ProductAfter(ProductAt(t, k), CachedPlan(records), k)
    ensures ProductAt(Simple(env, t, records), k) == ProductAfter(ProductAt(t, k), SimplePlan(records), k)
    ensures PriceAt(Cached(env, t, records), k, h) == PriceAfter(env, PriceAt(t, k, h), CachedPlan(records), k, h)
    ensures PriceAt(Simple(env, t, records), k, h) == PriceAfter(env, PriceAt(t, k, h), SimplePlan(records), k, h)
    ensures Valid(Cached(env, t, records)) && Valid(Simple(env, t, records))
  {
    RunsApply(env, t, records);
    ApplyAllAt(env, t, CachedPlan(records), k, h);
    ApplyAllAt(env, t, SimplePlan(records), k, h);
  }

  // ----- runs that a currency stops -----

  // The records up to the first in a currency that is no ISO code: there the run stops, after its product.
  function Reached(env: Env, records: seq<WithProduct>): (reached: seq<WithProduct>)
    ensures reached <= records && (AllISO(env, records) ==> reached == records)
  {
    var n := FirstBad(env, records);
    if n < |records| then
      assert !AllISO(env, records) by {
        assert records[n] in records;
      }
      records[..n + 1]
    else records
  }

  lemma CachedReaches(env: Env, t: Tables, records: seq<WithProduct>, n: nat)
    requires Valid(t) && n < |records| && AllISO(env, records[..n]) && env.ParseISO(records[n].Price.Currency).None?
    ensures Cached(env, t, records) == FreshTables(env, Cached(env, t, records[..n]), NextWrite(records[..n], records[n]))
  {
    var start, front := Consumer(Healthy(t), map[]), records[..n];
    ConsumeFails(env, start, front);
    ConsumeIsPlan(env, Healthy(t), front);
    ConsumeKeeps(env, start, front);
    TakeStops(env, Consume(env, start, front).0, front, records[n]);
    ConsumeNext(env, start, front, records[n]);
    OneMore(records, n);
    ConsumeStuck(env, start, records, n + 1);
  }

  lemma OneMore(records: seq<WithProduct>, n: nat)
    requires n < |records|
    ensures records[..n + 1] == records[..n] + [records[n]]
  {
  }

  lemma TakeStops(env: Env, c: Consumer, front: seq<WithProduct>, pp: WithProduct)
    requires ConsumerValid(c) && CacheMatches(c, front) && (forall n :: !c.DB.Fails(n))
    requires env.ParseISO(pp.Price.Currency).None?
    ensures Take(env, c, pp).1.Some?
    ensures Take(env, c, pp).0.DB.Tables == FreshTables(env, c.DB.Tables, NextWrite(front, pp))
  {
    assert pp.Product.SKU in c.SkuProductID <==> FirstWith(front, pp.Product.SKU).Some?;
  }

  lemma SimpleReaches(env: Env, t: Tables, records: seq<WithProduct>, n: nat)
    requires Valid(t) && n < |records| && AllISO(env, records[..n]) && env.ParseISO(records[n].Price.Currency).None?
    ensures Simple(env, t, records) ==
            FreshTables(env, Simple(env, t, records[..n]), Write(records[n], true, records[n].Product.Key()))
  {
    SimpleIsPlan(env, Healthy(t), records[..n]);
    SimpleStops(env, ConsumeSimple(env, Healthy(t), records[..n]).0, records[n]);
    assert records[..n + 1][..n] == records[..n];
    SimpleStuck(env, Healthy(t), records, n + 1);
  }

  lemma SimpleStops(env: Env, db: Database, pp: WithProduct)
    requires (forall n :: !db.Fails(n)) && env.ParseISO(pp.Price.Currency).None?
    ensures TakeSimple(env, db, pp).1.Some?
    ensures TakeSimple(env, db, pp).0.Tables == UpsertedProduct(env, db.Tables, pp.Product)
  {
  }

  lemma {:induction false} SimpleStuck(env: Env, db: Database, records: seq<WithProduct>, n: nat)
    requires n <= |records| && ConsumeSimple(env, db, records[..n]).1.Some?
    ensures ConsumeSimple(env, db, records) == ConsumeSimple(env, db, records[..n])
    decreases |records|
  {
    if n < |records| {
      assert records[..|records| - 1][..n] == records[..n];
      SimpleStuck(env, db, records[..|records| - 1], n);
    } else {
      assert records[..n] == records;
    }
  }

  lemma StopsAt(env: Env, t: Tables, w: Write, k: ProductKey, h: string)
    requires Valid(t) && env.ParseISO(w.Record.Price.Currency).None?
    ensures ProductAt(FreshTables(env, t, w), k) == ProductAfter(ProductAt(t, k), [w], k)
    ensures PriceAt(FreshTables(env, t, w), k, h) == PriceAt(t, k, h)
  {
    assert [w][..0] == [];
    if w.Fresh {
      ProductUpsertAt(env, t, w.Record.Product, k, h);
    }
  }

  lemma PlansNext(env: Env, records: seq<WithProduct>, n: nat)
    requires n < |records|
    ensures CachedPlan(records[..n + 1]) == CachedPlan(records[..n]) + [NextWrite(records[..n], records[n])]
    ensures SimplePlan(records[..n + 1]) == SimplePlan(records[..n]) + [Write(records[n], true, records[n].Product.Key())]
  {
    assert records[..n + 1][..n] == records[..n];
  }

  lemma AfterNext(env: Env, pw: Option<ProductContent>, cw: Option<PriceContent>, plan: seq<Write>, w: Write, k: ProductKey, h: string)
    ensures ProductAfter(pw, plan + [w], k) == ProductAfter(ProductAfter(pw, plan, k), [w], k)
    ensures env.ParseISO(w.Record.Price.Currency).None? ==> PriceAfter(env, cw, plan + [w], k, h) == PriceAfter(env, cw, plan, k, h)
  {
    assert (plan + [w])[..|plan|] == plan && [w][..0] == [];
  }

  lemma RunsAt(env: Env, t: Tables, records: seq<WithProduct>, k: ProductKey, h: string)
    requires Valid(t)
    ensures var reached := Reached(env, records);
            && ProductAt(Cached(env, t, records), k) == ProductAfter(ProductAt(t, k), CachedPlan(reached), k)
            && ProductAt(Simple(env, t, records), k) == ProductAfter(ProductAt(t, k), SimplePlan(reached), k)
            && PriceAt(Cached(env, t, records), k, h) == PriceAfter(env, PriceAt(t, k, h), CachedPlan(reached), k, h)
            && PriceAt(Simple(env, t, records), k, h) == PriceAfter(env, PriceAt(t, k, h), SimplePlan(reached), k, h)
  {
    var n := FirstBad(env, records);
    GoodRunsAt(env, t, records[..n], k, h);
    if n < |records| {
      var w, s := NextWrite(records[..n], records[n]), Write(records[n], true, records[n].Product.Key());
      CachedReaches(env, t, records, n);
      SimpleReaches(env, t, records, n);
      StopsAt(env, Cached(env, t, records[..n]), w, k, h);
      StopsAt(env, Simple(env, t, records[..n]), s, k, h);
      PlansNext(env, records, n);
      AfterNext(env, ProductAt(t, k), PriceAt(t, k, h), CachedPlan(records[..n]), w, k, h);
      AfterNext(env, ProductAt(t, k), PriceAt(t, k, h), SimplePlan(records[..n]), s, k, h);
    } else {
      assert records[..n] == records;
    }
  }

  lemma ConsistentSuffices(env: Env, t: Tables, records: seq<WithProduct>)
    requires Valid(t) && Consistent(Reached(env, records))
    ensures SameContents(Cached(env, t, records), Simple(env, t, records))
  {
    var reached := Reached(env, records);
    forall k ensures ProductAt(Cached(env, t, records), k) == ProductAt(Simple(env, t, records), k) {
      RunsAt(env, t, records, k, "");
      SameProducts(ProductAt(t, k), reached, k);
    }
    forall k, h ensures PriceAt(Cached(env, t, records), k, h) == PriceAt(Simple(env, t, records), k, h) {
      RunsAt(env, t, records, k, h);
      SamePrices(env, PriceAt(t, k, h), reached, k, h);
    }
  }

  lemma SameProducts(was: Option<ProductContent>, records: seq<WithProduct>, k: ProductKey)
    requires Consistent(records)
    ensures ProductAfter(was, CachedPlan(records), k) == ProductAfter(was, SimplePlan(records), k)
  {
    SimpleAfter(was, records, k);
    CachedAfter(was, records, k);
    CachedFirstIsFirst(records, k);
    LastAtMember(records, k);
    FirstWithMember(records, k.SKU);
    if LastAt(records, k).Some? {
      var r :| r in records && r.Product == LastAt(records, k).value && r.Product.Key() == k;
      assert r.Product.SKU == k.SKU;
      var s :| s in records && s.Product == FirstWith(records, k.SKU).value && s.Product.SKU == k.SKU;
      assert s.Product.Key() == k;
    }
  }

  lemma ConsistentNeeded(env: Env, records: seq<WithProduct>)
    requires SameContents(Cached(env, Empty, records), Simple(env, Empty, records))
    ensures Consistent(Reached(env, records))
  {
    var reached := Reached(env, records);
    forall r | r in reached
      ensures CachedFirst(reached, r.Product.Key()).Some?
      ensures AttributesOf(FirstWith(reached, r.Product.SKU)) == AttributesOf(LastAt(reached, r.Product.Key()))
    {
      var k := r.Product.Key();
      RunsAt(env, Empty, records, k, "");
      SimpleAfter(None, reached, k);
      CachedAfter(None, reached, k);
      LastAtMember(reached, k);
    }
    forall r, s | r in reached && s in reached && r.Product.SKU == s.Product.SKU
      ensures r.Product.Key() == s.Product.Key()
    {
      assert CachedFirst(reached, r.Product.Key()).Some? && CachedFirst(reached, s.Product.Key()).Some?;
    }
  }

  /** The SKU cache leaves the contents that upserting every product would leave,
      from every starting store, exactly when the records that the run reaches are
      consistent: all of them, or those up to the first that is not in an ISO currency. */
  lemma CacheRefinesExactly(env: Env, records: seq<WithProduct>)
    ensures Consistent(Reached(env, records)) <==>
              forall t | Valid(t) :: SameContents(Cached(env, t, records), Simple(env, t, records))
  {
    if Consistent(Reached(env, records)) {
      forall t | Valid(t) ensures SameContents(Cached(env, t, records), Simple(env, t, records)) {
        ConsistentSuffices(env, t, records);
      }
    }
    if forall t | Valid(t) :: SameContents(Cached(env, t, records), Simple(env, t, records)) {
      assert Valid(Empty);
      ConsistentNeeded(env, records);
    }
  }

  /** One SKU in two places: the second place never gets a product, and its price
      ends up under the first. */
  lemma SecondPlaceIsLost(env: Env, r: WithProduct, s: WithProduct)
    requires AllISO(env, [r, s]) && r.Product.SKU == s.Product.SKU && r.Product.Key() != s.Product.Key()
    ensures ProductAt(Simple(env, Empty, [r, s]), s.Product.Key()).Some?
    ensures ProductAt(Cached(env, Empty, [r, s]), s.Product.Key()).None?
    ensures PriceAt(Cached(env, Empty, [r, s]), r.Product.Key(), Hash(env.Digest, s.Price)).Some?
  {
    SecondProduct(env, r, s);
    SecondPrice(env, r, s);
  }

  lemma FirstOfTwo(r: WithProduct, s: WithProduct)
    requires r.Product.SKU == s.Product.SKU
    ensures FirstWith([r], r.Product.SKU) == FirstWith([r, s], r.Product.SKU) == Some(r.Product)
  {
    assert [r, s] == [] + [r] + [s] && [r] == [] + [r];
    FirstNext([], r, r.Product.SKU);
    FirstNext([r], s, r.Product.SKU);
  }

  lemma SecondProduct(env: Env, r: WithProduct, s: WithProduct)
    requires AllISO(env, [r, s]) && r.Product.SKU == s.Product.SKU && r.Product.Key() != s.Product.Key()
    ensures ProductAt(Simple(env, Empty, [r, s]), s.Product.Key()).Some?
    ensures ProductAt(Cached(env, Empty, [r, s]), s.Product.Key()).None?
  {
    var both, k := [r, s], s.Product.Key();
    RunsAt(env, Empty, both, k, "");
    FirstOfTwo(r, s);
    SimpleAfter(None, both, k);
    CachedAfter(None, both, k);
    assert both[1] == s;
  }

  lemma SecondPrice(env: Env, r: WithProduct, s: WithProduct)
    requires AllISO(env, [r, s]) && r.Product.SKU == s.Product.SKU
    ensures PriceAt(Cached(env, Empty, [r, s]), r.Product.Key(), Hash(env.Digest, s.Price)).Some?
  {
    var both := [r, s];
    RunsAt(env, Empty, both, r.Product.Key(), Hash(env.Digest, s.Price));
    FirstOfTwo(r, s);
    assert both[..1] == [r] && both[1] == s && s in both;
    PlansNext(env, both, 1);
    assert both[..2] == both;
    assert Writes(env, NextWrite([r], s), r.Product.Key(), Hash(env.Digest, s.Price));
  }

  // ----- replay -----

  lemma {:induction false} ProductAfterTwice(was: Option<ProductContent>, plan: seq<Write>, k: ProductKey)
    ensures ProductAfter(ProductAfter(was, plan, k), plan, k) == ProductAfter(was, plan, k)
  {
    ProductAfterShape(was, plan, k);
    if ProductAfter(was, plan, k).Some? {
      ProductAfterShape(ProductAfter(was, plan, k), plan, k);
    }
  }

  // The last upsert of a key decides the attributes, whatever was there.
  function LastUpsert(plan: seq<Write>, k: ProductKey): Option<Product> {
    if plan == [] then None else
      var w := plan[|plan| - 1];
      if w.Upserts(k) then Some(w.Record.Product) else LastUpsert(plan[..|plan| - 1], k)
  }

  lemma {:induction false} ProductAfterShape(was: Option<ProductContent>, plan: seq<Write>, k: ProductKey)
    ensures LastUpsert(plan, k).None? ==> ProductAfter(was, plan, k) == was
    ensures LastUpsert(plan, k).Some? ==>
              && ProductAfter(was, plan, k).Some?
              && ProductAfter(was, plan, k).value.Attributes == LastUpsert(plan, k).value.Attributes
              && (was.Some? ==> ProductAfter(was, plan, k).value == was.value.(Attributes := LastUpsert(plan, k).value.Attributes))
  {
    if plan != [] {
      ProductAfterShape(was, plan[..|plan| - 1], k);
    }
  }

  lemma {:induction false} PriceAfterTwice(env: Env, was: Option<PriceContent>, plan: seq<Write>, k: ProductKey, h: string)
    ensures PriceAfter(env, PriceAfter(env, was, plan, k, h), plan, k, h) == PriceAfter(env, was, plan, k, h)
  {
    PriceAfterForgets(env, was, PriceAfter(env, was, plan, k, h), plan, k, h);
  }

  lemma {:induction false} PriceAfterForgets(env: Env, a: Option<PriceContent>, b: Option<PriceContent>, plan: seq<Write>,
                                             k: ProductKey, h: string)
    ensures PriceAfter(env, a, plan, k, h) == PriceAfter(env, b, plan, k, h)
            || (PriceAfter(env, a, plan, k, h) == a && PriceAfter(env, b, plan, k, h) == b)
  {
    if plan != [] {
      PriceAfterForgets(env, a, b, plan[..|plan| - 1], k, h);
    }
  }

  lemma SameRows(t: Tables, u: Tables)
    requires Valid(t) && Valid(u) && KeepsIDs(t, u) && SameContents(t, u)
    ensures t.Products == u.Products && t.Prices == u.Prices
  {
    forall k | k in u.Products ensures k in t.Products && t.Products[k] == u.Products[k] {
      assert ProductAt(t, k) == ProductAt(u, k);
    }
    forall k | k in u.Prices ensures k in t.Prices && t.Prices[k] == u.Prices[k] {
      assert HasProduct(u, k.ProductID);
      var pk :| pk in u.Products && u.Products[pk].ID == k.ProductID;
      assert PriceAt(t, pk, k.Hash) == PriceAt(u, pk, k.Hash);
      assert PriceKey(u.Products[pk].ID, k.Hash) == k;
    }
  }

  /** Ingesting the same stream again, while the database answers, leaves every row
      and every id as the first run left them, even if a currency stops both. */
  lemma ReplayIsIdempotent(env: Env, t: Tables, records: seq<WithProduct>)
    requires Valid(t)
    ensures var once := Cached(env, t, records);
            var twice := Cached(env, once, records);
            twice.Products == once.Products && twice.Prices == once.Prices
  {
    var once, reached := Cached(env, t, records), Reached(env, records);
    RunKeeps(env, t, records);
    RunKeeps(env, once, records);
    var twice := Cached(env, once, records);
    forall k ensures ProductAt(once, k) == ProductAt(twice, k) {
      RunsAt(env, t, records, k, "");
      RunsAt(env, once, records, k, "");
      ProductAfterTwice(ProductAt(t, k), CachedPlan(reached), k);
    }
    forall k, h ensures PriceAt(once, k, h) == PriceAt(twice, k, h) {
      RunsAt(env, t, records, k, h);
      RunsAt(env, once, records, k, h);
      PriceAfterTwice(env, PriceAt(t, k, h), CachedPlan(reached), k, h);
    }
    SameRows(once, twice);
  }

  lemma RunKeeps(env: Env, t: Tables, records: seq<WithProduct>)
    requires Valid(t)
    ensures Valid(Cached(env, t, records)) && KeepsIDs(t, Cached(env, t, records))
  {
    ConsumeKeeps(env, Consumer(Healthy(t), map[]), records);
  }

  // ----- how many products are upserted -----

  function SKUs(records: seq<WithProduct>): set<string> {
    set r | r in records :: r.Product.SKU
  }

  lemma TakeCounts(env: Env, c: Consumer, pp: WithProduct)
    requires Take(env, c, pp).1.None?
    ensures var next := Take(env, c, pp).0;
            next.DB.Statements == c.DB.Statements + 1 + |next.SkuProductID.Keys| - |c.SkuProductID.Keys|
    ensures Take(env, c, pp).0.SkuProductID.Keys == c.SkuProductID.Keys + {pp.Product.SKU}
  {
    var next := Take(env, c, pp).0;
    if pp.Product.SKU in c.SkuProductID {
      assert next.SkuProductID == c.SkuProductID;
    } else {
      assert next.SkuProductID.Keys == c.SkuProductID.Keys + {pp.Product.SKU};
    }
  }

  /** An error-free run executes one price upsert per record and one product
      upsert per distinct SKU. */
  lemma {:induction false} OneUpsertPerSKU(env: Env, db: Database, records: seq<WithProduct>)
    ensures var (c, e) := Consume(env, Consumer(db, map[]), records);
            e.None? ==> && c.SkuProductID.Keys == SKUs(records)
                        && c.DB.Statements == db.Statements + |records| + |SKUs(records)|
  {
    if records != [] {
      var front, pp := records[..|records| - 1], records[|records| - 1];
      OneUpsertPerSKU(env, db, front);
      var (c, e) := Consume(env, Consumer(db, map[]), front);
      SKUsNext(records);
      if e.None? && Take(env, c, pp).1.None? {
        TakeCounts(env, c, pp);
      }
    }
  }

  lemma SKUsNext(records: seq<WithProduct>)
    requires records != []
    ensures SKUs(records) == SKUs(records[..|records| - 1]) + {records[|records| - 1].Product.SKU}
  {
    assert records == records[..|records| - 1] + [records[|records| - 1]];
  }
}
