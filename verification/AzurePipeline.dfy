/** AzureRM ingestion: pages of retail prices flow through two channels, a
    fetcher and a converter, to the storing consumer (azurerm/ingester.go). */
module AzurePipeline {
  import opened Wrappers
  import opened Prices
  import opened Store
  import opened Ingestion
  import opened ConsumerSteps

  datatype RetailPrice = RetailPrice(
    SkuID: string, MeterID: string, Type: string, TierMinimumUnits: real, ServiceName: string, ServiceFamily: string,
    ArmRegionName: string, ArmSkuName: string, MeterName: string, ProductName: string, SkuName: string,
    UnitOfMeasure: string, UnitPrice: real, CurrencyCode: string)

  // The link to the next page; a link that makes no request ends the paging without an error.
  datatype Link = LastPage | NextPage | BadLink

  datatype Response = Failed(Message: string) | Page(Items: seq<RetailPrice>, Next: Link)

  // Number formats ("%.2f" and "%f") and the ingestion filter.
  datatype Config = Config(TwoPlaces: real -> string, SixPlaces: real -> string, Filter: WithProduct -> bool)

  function Convert(cfg: Config, rp: RetailPrice): WithProduct {
    var product := Product("azurerm",
                           rp.SkuID + "-" + rp.MeterID + "-" + rp.Type + "-" + cfg.TwoPlaces(rp.TierMinimumUnits),
                           rp.ServiceName, rp.ServiceFamily, rp.ArmRegionName,
                           map["armSkuName" := rp.ArmSkuName, "meterName" := rp.MeterName,
                               "productName" := rp.ProductName, "skuName" := rp.SkuName,
                               "tierMinimumUnits" := cfg.SixPlaces(rp.TierMinimumUnits)]);
    WithProduct(Price.Price(rp.UnitOfMeasure, rp.CurrencyCode, rp.UnitPrice, map["type" := rp.Type]), product)
  }

  // The wanted records of a list of retail prices.
  function WantedOf(cfg: Config, items: seq<RetailPrice>): seq<WithProduct> {
    if items == [] then [] else
      var front, pwp := WantedOf(cfg, items[..|items| - 1]), Convert(cfg, items[|items| - 1]);
      if cfg.Filter(pwp) then front + [pwp] else front
  }

  // What a list of responses amounts to: the prices, the error, and whether another page follows.
  datatype Fetched = Fetched(Items: seq<RetailPrice>, Err: Option<string>, More: bool)

  function FetchOne(f: Fetched, r: Response): Fetched {
    if !f.More then f else
      match r
      case Failed(m) => f.(Err := Some(m), More := false)
      case Page(items, link) => f.(Items := f.Items + items, More := link.NextPage?)
  }

  function Fetch(responses: seq<Response>): Fetched {
    if responses == [] then Fetched([], None, true)
    else FetchOne(Fetch(responses[..|responses| - 1]), responses[|responses| - 1])
  }

  // A request without a response fails.
  function FetchError(responses: seq<Response>): Option<string> {
    if Fetch(responses).More then Some("no response") else Fetch(responses).Err
  }

  // ----- the system -----

  datatype Fetcher = Requesting | Emitting(Items: seq<RetailPrice>, Next: Link) | FetchDone

  datatype Worker = Waiting | Sending(Held: WithProduct) | WorkDone

  // Why the fetcher ended with an error. Requests carry the context, so that
  // none succeeds once it is cancelled.
  datatype Cause = Interrupted | FetchFailed(Message: string) {
    function Text(): string {
      if Interrupted? then "context canceled" else Message
    }
  }

  const FETCH_CAPACITY := 100

  datatype Sys = Sys(
    Pending: seq<Response>,
    Seen: seq<Response>,
    Fetcher: Fetcher,
    Err: Option<Cause>,
    Fetched: seq<RetailPrice>,
    Converted: seq<RetailPrice>,
    Worker: Worker,
    Cap: nat,
    Buffer: seq<WithProduct>,
    Storing: Storing,
    Result: Option<Option<IngestError>>,
    Cancelled: bool)

  datatype Setup = Setup(Cfg: Config, Env: Env, DB: Database, Responses: seq<Response>, Cap: nat) {
    function Start(): Consumer {
      Consumer(DB, map[])
    }

    function Wanted(): seq<WithProduct> {
      WantedOf(Cfg, Fetch(Responses).Items)
    }
  }

  function Init(p: Setup): Sys {
    Sys(p.Responses, [], Requesting, None, [], [], Waiting, p.Cap, [], Fresh(p.DB), None, false)
  }

  datatype Step =
    | Request | Emit | Turn | Work | FinishWork | Send | HandOver | Receive | UpsertProduct | UpsertPrice | Return | Cancel

  predicate Enabled(s: Sys, step: Step) {
    match step
    case Request => s.Fetcher.Requesting?
    case Emit => s.Fetcher.Emitting? && s.Fetcher.Items != [] && |s.Fetched| < FETCH_CAPACITY
    case Turn => s.Fetcher.Emitting? && s.Fetcher.Items == []
    case Work => s.Worker.Waiting? && s.Fetched != []
    case FinishWork => s.Worker.Waiting? && s.Fetched == [] && s.Fetcher.FetchDone?
    case Send => s.Worker.Sending? && |s.Buffer| < s.Cap
    case HandOver => s.Worker.Sending? && s.Buffer == [] && Listens(s)
    case Receive => s.Buffer != [] && Listens(s)
    case UpsertProduct => s.Storing.CanUpsertProduct()
    case UpsertPrice => s.Storing.CanUpsertPrice()
    case Return => s.Result.None? && (s.Storing.Stage.Failing? || Drained(s))
    case Cancel => !s.Cancelled
  }

  predicate Listens(s: Sys) {
    s.Storing.Stage.Idle? && s.Result.None?
  }

  predicate Drained(s: Sys) {
    s.Storing.Stage.Idle? && s.Buffer == [] && s.Worker.WorkDone?
  }

  function Quit(s: Sys, cause: Cause): Sys {
    s.(Fetcher := FetchDone, Err := Some(cause))
  }

  function DoRequest(s: Sys): Sys {
    if s.Cancelled then Quit(s, Interrupted)
    else if s.Pending == [] then Quit(s, FetchFailed("no response")) else
      var next := s.(Pending := s.Pending[1..], Seen := s.Seen + [s.Pending[0]]);
      match s.Pending[0]
      case Failed(m) => Quit(next, FetchFailed(m))
      case Page(items, link) => next.(Fetcher := Emitting(items, link))
  }

  function ReturnOf(s: Sys): Option<IngestError> {
    if s.Storing.Stage.Failing? then Some(UpsertFailed(s.Storing.Stage.Error))
    else if s.Err.Some? then Some(IngesterFailed(s.Err.value.Text()))
    else None
  }

  ghost function Do(p: Setup, s: Sys, step: Step): Sys
    requires Enabled(s, step)
  {
    match step
    case Request => DoRequest(s)
    case Emit => s.(Fetched := s.Fetched + [s.Fetcher.Items[0]], Fetcher := s.Fetcher.(Items := s.Fetcher.Items[1..]))
    case Turn => s.(Fetcher := if s.Fetcher.Next.NextPage? then Requesting else FetchDone)
    case Work =>
      var pwp := Convert(p.Cfg, s.Fetched[0]);
      s.(Fetched := s.Fetched[1..], Converted := s.Converted + [s.Fetched[0]],
         Worker := if p.Cfg.Filter(pwp) then Sending(pwp) else Waiting)
    case FinishWork => s.(Worker := WorkDone)
    case Send => s.(Buffer := s.Buffer + [s.Worker.Held], Worker := Waiting)
    case HandOver => s.(Worker := Waiting, Storing := s.Storing.Pick(s.Worker.Held))
    case Receive => s.(Buffer := s.Buffer[1..], Storing := s.Storing.Pick(s.Buffer[0]))
    case UpsertProduct => s.(Storing := s.Storing.WithProductStored(p.Env))
    case UpsertPrice => s.(Storing := s.Storing.WithPriceStored(p.Env))
    case Return => s.(Result := Some(ReturnOf(s)), Cancelled := true)
    case Cancel => s.(Cancelled := true)
  }

  ghost predicate Run(p: Setup, states: seq<Sys>, steps: seq<Step>) {
    && |states| == |steps| + 1
    && states[0] == Init(p)
    && forall i | 0 <= i < |steps| :: Enabled(states[i], steps[i]) && states[i + 1] == Do(p, states[i], steps[i])
  }

  // ----- what every reachable state satisfies -----

  // What has not reached the converter yet.
  function Unconverted(s: Sys): seq<RetailPrice> {
    s.Fetched + if s.Fetcher.Emitting? then s.Fetcher.Items else []
  }

  function HeldBy(worker: Worker): seq<WithProduct> {
    if worker.Sending? then [worker.Held] else []
  }

  function Upstream(s: Sys): seq<RetailPrice> {
    s.Converted + Unconverted(s)
  }

  function Downstream(s: Sys): seq<WithProduct> {
    s.Storing.Taken() + s.Buffer + HeldBy(s.Worker)
  }

  // Each channel conserves what flows through it, in order.
  ghost predicate Conserves(p: Setup, s: Sys) {
    && s.Seen + s.Pending == p.Responses
    && Upstream(s) == Fetch(s.Seen).Items
    && Downstream(s) == WantedOf(p.Cfg, s.Converted)
    && |s.Fetched| <= FETCH_CAPACITY
    && |s.Buffer| <= s.Cap == p.Cap
  }

  ghost predicate Tracks(p: Setup, s: Sys) {
    var f := Fetch(s.Seen);
    && (s.Fetcher.Requesting? ==> f.More && s.Err.None?)
    && (s.Fetcher.Emitting? ==> f.More == s.Fetcher.Next.NextPage? && f.Err.None? && s.Err.None?)
    && (s.Fetcher.FetchDone? && s.Err != Some(Interrupted) ==>
          && FetchError(s.Seen) == (if s.Err.Some? then Some(s.Err.value.Message) else None)
          && (f.More ==> s.Pending == []))
    && (s.Err == Some(Interrupted) ==> s.Cancelled)
    && (s.Worker.WorkDone? ==> s.Fetcher.FetchDone? && s.Fetched == [])
  }

  ghost predicate Stores(p: Setup, s: Sys) {
    && s.Storing.Follows(p.Env, p.Start())
    && (s.Result.Some? ==> s.Result.value == ReturnOf(s) && s.Cancelled && (s.Storing.Stage.Failing? || Drained(s)))
  }

  ghost predicate Inv(p: Setup, s: Sys) {
    Conserves(p, s) && Tracks(p, s) && Stores(p, s)
  }

  lemma FetchNext(seen: seq<Response>, r: Response)
    ensures Fetch(seen + [r]) == FetchOne(Fetch(seen), r)
  {
    assert (seen + [r])[..|seen|] == seen;
  }

  lemma {:induction false} MoreMeansNoError(seen: seq<Response>)
    ensures Fetch(seen).More ==> Fetch(seen).Err.None?
  {
    if seen != [] {
      MoreMeansNoError(seen[..|seen| - 1]);
    }
  }

  lemma WantedNext(cfg: Config, items: seq<RetailPrice>, rp: RetailPrice)
    ensures WantedOf(cfg, items + [rp]) ==
            WantedOf(cfg, items) + if cfg.Filter(Convert(cfg, rp)) then [Convert(cfg, rp)] else []
  {
    assert (items + [rp])[..|items|] == items;
  }

  lemma RequestConserves(p: Setup, s: Sys)
    requires Inv(p, s) && Enabled(s, Request)
    ensures Conserves(p, DoRequest(s))
  {
    RequestUpstream(s);
    if s.Pending != [] {
      FetchedNext(s.Seen, s.Pending[0]);
      MoveFirst(s.Seen, s.Pending);
    }
  }

  lemma MoveFirst(seen: seq<Response>, pending: seq<Response>)
    requires pending != []
    ensures (seen + [pending[0]]) + pending[1..] == seen + pending
  {
  }

  lemma FetchedNext(seen: seq<Response>, r: Response)
    requires Fetch(seen).More
    ensures Fetch(seen + [r]).Items == Fetch(seen).Items + if r.Page? then r.Items else []
  {
    FetchNext(seen, r);
  }

  lemma RequestTracks(p: Setup, s: Sys)
    requires Inv(p, s) && Enabled(s, Request)
    ensures Tracks(p, DoRequest(s))
  {
    MoreMeansNoError(s.Seen);
    if s.Pending != [] {
      FetchNext(s.Seen, s.Pending[0]);
    }
  }

  lemma RequestStores(p: Setup, s: Sys)
    requires Inv(p, s) && Enabled(s, Request)
    ensures Stores(p, DoRequest(s))
  {
  }

  // A page adds its items upstream.
  lemma RequestUpstream(s: Sys)
    requires s.Fetcher.Requesting?
    ensures var next := DoRequest(s);
            Upstream(next) == Upstream(s) + if next.Fetcher.Emitting? then next.Fetcher.Items else []
  {
    var next := DoRequest(s);
    var more := if next.Fetcher.Emitting? then next.Fetcher.Items else [];
    assert s.Fetched + [] == s.Fetched;
    assert s.Converted + (s.Fetched + more) == (s.Converted + s.Fetched) + more;
  }

  lemma WorkKeeps(p: Setup, s: Sys)
    requires Inv(p, s) && Enabled(s, Work)
    ensures Inv(p, Do(p, s, Work))
  {
    WantedNext(p.Cfg, s.Converted, s.Fetched[0]);
    WorkUpstream(p, s);
    assert Downstream(s) == s.Storing.Taken() + s.Buffer;
  }

  lemma WorkUpstream(p: Setup, s: Sys)
    requires Enabled(s, Work)
    ensures Upstream(Do(p, s, Work)) == Upstream(s)
  {
  }

  lemma MoveKeeps(p: Setup, s: Sys, step: Step)
    requires Inv(p, s) && Enabled(s, step) && step in {Emit, Turn}
    ensures Inv(p, Do(p, s, step))
  {
    assert Unconverted(Do(p, s, step)) == Unconverted(s);
  }

  lemma SendKeeps(p: Setup, s: Sys)
    requires Inv(p, s) && Enabled(s, Send)
    ensures Inv(p, Do(p, s, Send))
  {
    assert Downstream(Do(p, s, Send)) == Downstream(s);
  }

  lemma FirstOut(taken: seq<WithProduct>, buffer: seq<WithProduct>, held: seq<WithProduct>)
    requires buffer != []
    ensures taken + [] + buffer + held == taken + [buffer[0]] + buffer[1..] + held
  {
  }

  lemma ReceiveKeeps(p: Setup, s: Sys)
    requires Inv(p, s) && Enabled(s, Receive)
    ensures Inv(p, Do(p, s, Receive))
  {
    FirstOut(s.Storing.Stored, s.Buffer, HeldBy(s.Worker));
  }

  lemma HandOverKeeps(p: Setup, s: Sys)
    requires Inv(p, s) && Enabled(s, HandOver)
    ensures Inv(p, Do(p, s, HandOver))
  {
    assert Downstream(Do(p, s, HandOver)) == Downstream(s);
  }

  lemma UpsertKeeps(p: Setup, s: Sys, step: Step)
    requires Inv(p, s) && Enabled(s, step) && step in {UpsertProduct, UpsertPrice}
    ensures Inv(p, Do(p, s, step))
  {
    if step == UpsertProduct {
      ProductFollows(p.Env, p.Start(), s.Storing);
    } else {
      PriceFollows(p.Env, p.Start(), s.Storing);
    }
  }

  lemma EndKeeps(p: Setup, s: Sys, step: Step)
    requires Inv(p, s) && Enabled(s, step) && step in {FinishWork, Return, Cancel}
    ensures Inv(p, Do(p, s, step))
  {
  }

  /** Every step keeps the invariant. */
  lemma StepKeeps(p: Setup, s: Sys, step: Step)
    requires Inv(p, s) && Enabled(s, step)
    ensures Inv(p, Do(p, s, step))
  {
    match step
    case Request =>
      RequestConserves(p, s);
      RequestTracks(p, s);
      RequestStores(p, s);
    case Emit | Turn => MoveKeeps(p, s, step);
    case Work => WorkKeeps(p, s);
    case Send => SendKeeps(p, s);
    case HandOver => HandOverKeeps(p, s);
    case Receive => ReceiveKeeps(p, s);
    case UpsertProduct | UpsertPrice => UpsertKeeps(p, s, step);
    case FinishWork | Return | Cancel => EndKeeps(p, s, step);
  }

  lemma {:induction false} RunKeeps(p: Setup, states: seq<Sys>, steps: seq<Step>)
    requires Run(p, states, steps)
    ensures Inv(p, states[|steps|])
  {
    if steps == [] {
      assert Upstream(Init(p)) == [] && Downstream(Init(p)) == [];
    } else {
      var n := |steps| - 1;
      assert Run(p, states[..n + 1], steps[..n]);
      RunKeeps(p, states[..n + 1], steps[..n]);
      StepKeeps(p, states[n], steps[n]);
    }
  }

  lemma {:induction false} WantedMore(cfg: Config, items: seq<RetailPrice>, more: seq<RetailPrice>)
    ensures WantedOf(cfg, items + more) == WantedOf(cfg, items) + WantedOf(cfg, more)
    decreases |more|
  {
    if more == [] {
      assert items + more == items;
    } else {
      assert (items + more)[..|items + more| - 1] == items + more[..|more| - 1];
      WantedMore(cfg, items, more[..|more| - 1]);
    }
  }

  /** Across both channels, what was stored, what is in hand, buffered or held, and
      what the rest will be converted to are, in order, the wanted records of the pages seen. */
  lemma BothChannelsConserve(p: Setup, states: seq<Sys>, steps: seq<Step>)
    requires Run(p, states, steps)
    ensures var s := states[|steps|];
            && Downstream(s) + WantedOf(p.Cfg, Unconverted(s)) == WantedOf(p.Cfg, Fetch(s.Seen).Items)
            && |s.Fetched| <= 100 && |s.Buffer| <= p.Cap
  {
    var s := states[|steps|];
    RunKeeps(p, states, steps);
    WantedMore(p.Cfg, s.Converted, Unconverted(s));
  }

  lemma {:induction false} FetchMore(seen: seq<Response>, more: seq<Response>)
    ensures Fetch(seen).Items <= Fetch(seen + more).Items
    ensures !Fetch(seen).More ==> Fetch(seen + more) == Fetch(seen)
    decreases |more|
  {
    if more == [] {
      assert seen + more == seen;
    } else {
      assert (seen + more)[..|seen + more| - 1] == seen + more[..|more| - 1];
      FetchMore(seen, more[..|more| - 1]);
    }
  }

  // What fetching, converting and storing in turn would give.
  ghost function Sequential(p: Setup): (Consumer, Option<IngestError>) {
    var (c, e) := Consume(p.Env, p.Start(), p.Wanted());
    if e.Some? then (c, Some(UpsertFailed(e.value)))
    else if FetchError(p.Responses).Some? then (c, Some(IngesterFailed(FetchError(p.Responses).value)))
    else (c, None)
  }

  // The fetcher saw a cancelled context, and no failed upsert is to blame.
  predicate CutShort(s: Sys) {
    s.Err == Some(Interrupted) && !s.Storing.Stage.Failing?
  }

  lemma WantedPrefix(cfg: Config, items: seq<RetailPrice>, all: seq<RetailPrice>)
    requires items <= all
    ensures WantedOf(cfg, items) <= WantedOf(cfg, all)
  {
    assert all == items + all[|items|..];
    WantedMore(cfg, items, all[|items|..]);
  }

  lemma TakenIsPrefix(p: Setup, s: Sys)
    requires Inv(p, s)
    ensures s.Storing.Taken() <= p.Wanted() && s.Storing.Stored <= p.Wanted()
  {
    FetchMore(s.Seen, s.Pending);
    assert s.Converted <= Upstream(s);
    WantedPrefix(p.Cfg, s.Converted, Fetch(p.Responses).Items);
    assert s.Storing.Stored <= s.Storing.Taken() <= Downstream(s);
  }

  lemma DrainedMeansAll(p: Setup, s: Sys)
    requires Inv(p, s) && Drained(s) && s.Err != Some(Interrupted)
    ensures s.Storing.Stored == p.Wanted()
    ensures FetchError(p.Responses) == if s.Err.Some? then Some(s.Err.value.Message) else None
  {
    FetchMore(s.Seen, s.Pending);
    assert Downstream(s) == s.Storing.Stored && Upstream(s) == s.Converted;
    assert s.Pending == [] ==> s.Seen == p.Responses;
  }

  /** However the three goroutines interleave and whatever the capacity, ingestion
      returns what the sequential run returns and leaves the same store, unless a
      cancelled context cut it short: then it says so, and has stored a prefix. */
  lemma ReturnsSequential(p: Setup, states: seq<Sys>, steps: seq<Step>)
    requires Run(p, states, steps) && states[|steps|].Result.Some?
    ensures var s := states[|steps|];
            if CutShort(s) then
              && s.Result.value == Some(IngesterFailed("context canceled"))
              && s.Storing.Stored <= p.Wanted()
              && Consume(p.Env, p.Start(), s.Storing.Stored) == (s.Storing.Consumer, None)
            else (s.Storing.Consumer, s.Result.value) == Sequential(p)
  {
    var s := states[|steps|];
    RunKeeps(p, states, steps);
    TakenIsPrefix(p, s);
    if s.Storing.Stage.Failing? {
      FailingFollows(p.Env, p.Start(), s.Storing);
      assert p.Wanted()[..|s.Storing.Taken()|] == s.Storing.Taken();
      ConsumeStuck(p.Env, p.Start(), p.Wanted(), |s.Storing.Taken()|);
    } else if !CutShort(s) {
      DrainedMeansAll(p, s);
    }
  }

  /** What ingestion returns: the first failed upsert, or else that the context was
      cancelled, or else the error of the pages, or nil. */
  lemma ResultExactly(p: Setup, states: seq<Sys>, steps: seq<Step>)
    requires Run(p, states, steps) && states[|steps|].Result.Some?
    ensures var s := states[|steps|];
            var stored, broken := Consume(p.Env, p.Start(), p.Wanted()).1, FetchError(p.Responses);
            && (s.Result.value.None? <==> !CutShort(s) && stored.None? && broken.None?)
            && (forall e :: s.Result.value == Some(UpsertFailed(e)) <==> !CutShort(s) && stored == Some(e))
            && (forall m :: s.Result.value == Some(IngesterFailed(m)) <==>
                              if CutShort(s) then m == "context canceled" else stored.None? && broken == Some(m))
  {
    ReturnsSequential(p, states, steps);
  }

  // The page on which the paging ends.
  ghost predicate EndsAt(responses: seq<Response>, i: nat, link: Link) {
    && i < |responses| && responses[i].Page? && responses[i].Next == link
    && forall j | 0 <= j < i :: responses[j].Page? && responses[j].Next == NextPage
  }

  lemma {:induction false} EndsExactly(responses: seq<Response>)
    ensures FetchError(responses).None? <==> EndsSomewhere(responses)
    ensures Fetch(responses).More <==> forall j | 0 <= j < |responses| :: responses[j].Page? && responses[j].Next == NextPage
  {
    if responses != [] {
      var n := |responses| - 1;
      var front := responses[..n];
      EndsExactly(front);
      MoreMeansNoError(front);
      if EndsSomewhere(front) {
        EndsEarlier(responses, front);
      }
      if i :| 0 <= i < |responses| && (EndsAt(responses, i, LastPage) || EndsAt(responses, i, BadLink)) {
        assert forall j | 0 <= j < n :: front[j] == responses[j];
        if i < n {
          assert EndsAt(front, i, responses[i].Next);
        } else {
          assert Fetch(front).More;
        }
      }
      if Fetch(front).More && FetchError(responses).None? {
        assert EndsAt(responses, n, responses[n].Next);
      }
    }
  }

  ghost predicate EndsSomewhere(responses: seq<Response>) {
    exists i | 0 <= i < |responses| :: EndsAt(responses, i, LastPage) || EndsAt(responses, i, BadLink)
  }

  lemma EndsEarlier(responses: seq<Response>, front: seq<Response>)
    requires front <= responses && EndsSomewhere(front)
    ensures EndsSomewhere(responses)
  {
    var i :| 0 <= i < |front| && (EndsAt(front, i, LastPage) || EndsAt(front, i, BadLink));
    assert EndsAt(responses, i, front[i].Next);
  }

  /** A bad next-page link ends ingestion without an error: nil is returned
      exactly when nothing cut ingestion short, every upsert succeeds and the pages
      lead, without a failure, to a last page or to a bad link, whatever would have
      followed it. */
  lemma NilExactly(p: Setup, states: seq<Sys>, steps: seq<Step>)
    requires Run(p, states, steps) && states[|steps|].Result.Some?
    ensures states[|steps|].Result.value.None? <==>
              && !CutShort(states[|steps|])
              && Consume(p.Env, p.Start(), p.Wanted()).1.None?
              && exists i | 0 <= i < |p.Responses| :: EndsAt(p.Responses, i, LastPage) || EndsAt(p.Responses, i, BadLink)
  {
    ReturnsSequential(p, states, steps);
    EndsExactly(p.Responses);
  }

  // ----- progress -----

  function PendingWeight(responses: seq<Response>): nat {
    if responses == [] then 0 else
      (if responses[0].Page? then 9 * |responses[0].Items| + 3 else 3) + PendingWeight(responses[1..])
  }

  function FetcherWeight(f: Fetcher): nat {
    match f
    case Requesting => 1
    case Emitting(items, _) => 9 * |items| + 2
    case FetchDone => 0
  }

  function WorkerWeight(w: Worker): nat {
    match w
    case Waiting => 1
    case Sending(_) => 6
    case WorkDone => 0
  }

  // Every step, cancellation included, makes this smaller.
  function Measure(s: Sys): nat {
    PendingWeight(s.Pending) + FetcherWeight(s.Fetcher) + 8 * |s.Fetched| + WorkerWeight(s.Worker) + 3 * |s.Buffer| +
    s.Storing.Weight() + (if s.Result.None? then 1 else 0) + (if s.Cancelled then 0 else 1)
  }

  lemma StepDecreases(p: Setup, s: Sys, step: Step)
    requires Enabled(s, step)
    ensures Measure(Do(p, s, step)) < Measure(s)
  {
  }

  /** No run is longer than its starting measure: ingestion always ends. */
  lemma {:induction false} RunsAreBounded(p: Setup, states: seq<Sys>, steps: seq<Step>)
    requires Run(p, states, steps)
    ensures |steps| + Measure(states[|steps|]) <= Measure(Init(p))
  {
    if steps != [] {
      var n := |steps| - 1;
      assert Run(p, states[..n + 1], steps[..n]);
      RunsAreBounded(p, states[..n + 1], steps[..n]);
      StepDecreases(p, states[n], steps[n]);
    }
  }

  /** There is no deadlock across the two channels: until ingestion returns, the
      fetcher, the converter or the consumer can move. */
  lemma NoDeadlock(p: Setup, s: Sys) returns (step: Step)
    requires Inv(p, s) && s.Result.None?
    ensures !step.Cancel? && Enabled(s, step)
  {
    if s.Storing.Stage.Got? {
      step := UpsertProduct;
    } else if s.Storing.Stage.Known? {
      step := UpsertPrice;
    } else if s.Storing.Stage.Failing? {
      step := Return;
    } else if s.Buffer != [] {
      step := Receive;
    } else if s.Worker.Sending? {
      step := HandOver;
    } else if s.Worker.WorkDone? {
      step := Return;
    } else if s.Fetched != [] {
      step := Work;
    } else {
      match s.Fetcher
      case Requesting => step := Request;
      case FetchDone => step := FinishWork;
      case Emitting(items, _) => step := if items == [] then Turn else Emit;
    }
  }
}
