/** The consumer loop one action at a time: a record is received, its product is
    upserted, then its price, and others may move in between (ingestion.go). */
module ConsumerSteps {
  import opened Wrappers
  import opened Store
  import opened Ingestion

  // What the consumer is about to do; `Failing` is the return it has decided on.
  datatype Stage = Idle | Got(Record: WithProduct) | Known(Record: WithProduct) | Failing(Record: WithProduct, Error: StoreError)

  // The records whose product and price are stored, and the one in hand.
  datatype Storing = Storing(Stored: seq<WithProduct>, Consumer: Consumer, Stage: Stage) {
    function InHand(): seq<WithProduct> {
      if Stage.Idle? then [] else [Stage.Record]
    }

    // Everything that has left the channel.
    function Taken(): seq<WithProduct> {
      Stored + InHand()
    }

    predicate CanUpsertProduct() {
      Stage.Got?
    }

    predicate CanUpsertPrice() {
      Stage.Known? && Stage.Record.Product.SKU in Consumer.SkuProductID
    }

    function Pick(pp: WithProduct): Storing
      requires Stage.Idle?
    {
      this.(Stage := Got(pp))
    }

    ghost function WithProductStored(env: Env): Storing
      requires CanUpsertProduct()
    {
      var (c, e) := TakeProduct(env, Consumer, Stage.Record);
      this.(Consumer := c, Stage := if e.Some? then Failing(Stage.Record, e.value) else Known(Stage.Record))
    }

    ghost function WithPriceStored(env: Env): Storing
      requires CanUpsertPrice()
    {
      var (c, e) := TakePrice(env, Consumer, Stage.Record);
      if e.Some? then this.(Consumer := c, Stage := Failing(Stage.Record, e.value))
      else Storing(Stored + [Stage.Record], c, Idle)
    }

    // What the consumer has left in the database at this stage.
    ghost predicate Follows(env: Env, start: Consumer) {
      var (c, e) := Consume(env, start, Stored);
      && e.None?
      && match Stage
         case Idle => Consumer == c
         case Got(_) => Consumer == c
         case Known(pp) => TakeProduct(env, c, pp) == (Consumer, None)
         case Failing(pp, err) => Take(env, c, pp) == (Consumer, Some(err))
    }

    // Steps until the record in hand is dealt with.
    function Weight(): nat {
      if Stage.Got? then 2 else if Stage.Known? then 1 else 0
    }
  }

  function Fresh(db: Database): Storing {
    Storing([], Consumer(db, map[]), Idle)
  }

  lemma ProductFollows(env: Env, start: Consumer, st: Storing)
    requires st.Follows(env, start) && st.CanUpsertProduct()
    ensures st.WithProductStored(env).Follows(env, start)
    ensures st.WithProductStored(env).Taken() == st.Taken()
  {
  }

  lemma PriceFollows(env: Env, start: Consumer, st: Storing)
    requires st.Follows(env, start) && st.CanUpsertPrice()
    ensures st.WithPriceStored(env).Follows(env, start)
    ensures st.WithPriceStored(env).Taken() == st.Taken()
  {
    ConsumeNext(env, start, st.Stored, st.Stage.Record);
  }

  lemma FailingFollows(env: Env, start: Consumer, st: Storing)
    requires st.Follows(env, start) && st.Stage.Failing?
    ensures Consume(env, start, st.Taken()) == (st.Consumer, Some(st.Stage.Error))
  {
    ConsumeNext(env, start, st.Stored, st.Stage.Record);
  }

  lemma ProductTables(env: Env, c: Consumer, pp: WithProduct)
    ensures var (next, e) := TakeProduct(env, c, pp);
            && (e.Some? ==> next.DB.Tables == c.DB.Tables)
            && (next.DB.Tables == c.DB.Tables || next.DB.Tables == UpsertedProduct(env, c.DB.Tables, pp.Product))
  {
  }

  lemma FailedPriceTables(env: Env, c: Consumer, pp: WithProduct)
    requires pp.Product.SKU in c.SkuProductID && TakePrice(env, c, pp).1.Some?
    ensures TakePrice(env, c, pp).0.DB.Tables == c.DB.Tables
  {
  }

  /** Between any two statements the tables are those of the stored records, plus
      at most the product of the record in hand. */
  lemma TablesFollow(env: Env, start: Consumer, st: Storing)
    requires st.Follows(env, start)
    ensures var t := Consume(env, start, st.Stored).0.DB.Tables;
            || st.Consumer.DB.Tables == t
            || (!st.Stage.Idle? && st.Consumer.DB.Tables == UpsertedProduct(env, t, st.Stage.Record.Product))
  {
    if st.Stage.Known? || st.Stage.Failing? {
      var c, pp := Consume(env, start, st.Stored).0, st.Stage.Record;
      ProductTables(env, c, pp);
      var (next, e) := TakeProduct(env, c, pp);
      if st.Stage.Failing? && e.None? {
        FailedPriceTables(env, next, pp);
      }
    }
  }
}
