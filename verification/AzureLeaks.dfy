/** Goroutines that AzureRM ingestion leaves behind: when it returns early, the
    converter may be sending into a full channel, and the fetcher into the one
    that the converter no longer reads (ingestion.go, azurerm/ingester.go). */
module AzureLeaks {
  import opened Store
  import opened Ingestion
  import opened ConsumerSteps
  import opened Failures
  import opened AzurePipeline

  ghost predicate Reachable(p: Setup, s: Sys) {
    exists states, steps :: Run(p, states, steps) && states[|steps|] == s
  }

  predicate ConverterBlocked(s: Sys) {
    s.Result.Some? && s.Worker.Sending? && |s.Buffer| == s.Cap
  }

  predicate FetcherBlocked(s: Sys) {
    ConverterBlocked(s) && s.Fetcher.Emitting? && s.Fetcher.Items != [] && |s.Fetched| == FETCH_CAPACITY
  }

  // Nothing can happen any more.
  ghost predicate Over(s: Sys) {
    forall step :: !Enabled(s, step)
  }

  /** A run that is over has left its converter or its fetcher behind exactly when
      they are blocked; the fetcher is only ever left behind with the converter. */
  lemma LeftBehindExactly(p: Setup, s: Sys)
    requires Inv(p, s)
    ensures Over(s) ==> (!s.Worker.WorkDone? <==> ConverterBlocked(s)) && (!s.Fetcher.FetchDone? <==> FetcherBlocked(s))
    ensures FetcherBlocked(s) ==> Over(s)
  {
    if Over(s) {
      if s.Result.None? {
        var step := NoDeadlock(p, s);
      }
      assert !Enabled(s, Request) && !Enabled(s, Emit) && !Enabled(s, Turn) && !Enabled(s, Work)
             && !Enabled(s, FinishWork) && !Enabled(s, Send);
    }
  }

  lemma StaysBlocked(p: Setup, s: Sys, step: Step)
    requires ConverterBlocked(s) && Enabled(s, step)
    ensures ConverterBlocked(Do(p, s, step))
  {
  }

  /** Once the converter is blocked it stays so in every run, and once the fetcher
      is nothing happens any more. */
  lemma {:induction false} BlockedForever(p: Setup, states: seq<Sys>, steps: seq<Step>, i: nat)
    requires Run(p, states, steps) && i <= |steps| && ConverterBlocked(states[i])
    ensures ConverterBlocked(states[|steps|])
    ensures FetcherBlocked(states[i]) ==> i == |steps|
  {
    if i < |steps| {
      var n := |steps| - 1;
      var front, taken := states[..n + 1], steps[..n];
      assert Run(p, front, taken);
      BlockedForever(p, front, taken, i);
      StaysBlocked(p, states[n], steps[n]);
      RunKeeps(p, front, taken);
      LeftBehindExactly(p, states[n]);
    }
  }

  // ----- when they can be left behind -----

  function Prices(p: Setup): seq<RetailPrice> {
    Fetch(p.Responses).Items
  }

  // The prices without the last ones: as many as the fetcher's channel holds, and
  // the one it is sending.
  function EarlyPrices(p: Setup): (early: seq<RetailPrice>)
    ensures early <= Prices(p)
  {
    if |Prices(p)| <= FETCH_CAPACITY then [] else Prices(p)[..|Prices(p)| - FETCH_CAPACITY - 1]
  }

  function EarlyWanted(p: Setup): (early: seq<WithProduct>)
    ensures early <= p.Wanted()
  {
    WantedPrefix(p.Cfg, EarlyPrices(p), Prices(p));
    WantedOf(p.Cfg, EarlyPrices(p))
  }

  lemma ReachKeeps(p: Setup, s: Sys)
    requires Reachable(p, s)
    ensures Inv(p, s)
  {
    var states, steps :| Run(p, states, steps) && states[|steps|] == s;
    RunKeeps(p, states, steps);
  }

  lemma ConvertedIsPrefix(p: Setup, s: Sys)
    requires Inv(p, s)
    ensures Upstream(s) <= Prices(p) && s.Converted <= Prices(p)
    ensures Downstream(s) <= p.Wanted()
  {
    FetchMore(s.Seen, s.Pending);
    assert s.Converted <= Upstream(s);
    WantedPrefix(p.Cfg, s.Converted, Prices(p));
  }

  lemma ConverterNeeds(p: Setup, s: Sys)
    requires Reachable(p, s) && ConverterBlocked(s)
    ensures Inv(p, s) && |Downstream(s)| == |s.Storing.Stored| + p.Cap + 2
    ensures FailsAt(p.Env, p.Start(), p.Wanted(), |s.Storing.Stored|) && |Downstream(s)| <= |p.Wanted()|
  {
    ReachKeeps(p, s);
    ConvertedIsPrefix(p, s);
    FailingFollows(p.Env, p.Start(), s.Storing);
    var n, all := |s.Storing.Stored|, p.Wanted();
    assert s.Storing.Stored <= s.Storing.Taken() <= Downstream(s);
    assert all[..n] == s.Storing.Stored && all[..n + 1] == s.Storing.Taken();
  }

  lemma FetcherNeeds(p: Setup, s: Sys)
    requires Inv(p, s) && FetcherBlocked(s)
    ensures |Downstream(s)| <= |EarlyWanted(p)|
  {
    ConvertedIsPrefix(p, s);
    UpstreamLength(s);
    EarlyEnough(p, s.Converted);
  }

  lemma UpstreamLength(s: Sys)
    requires s.Fetcher.Emitting?
    ensures |Upstream(s)| == |s.Converted| + |s.Fetched| + |s.Fetcher.Items|
  {
  }

  lemma EarlyEnough(p: Setup, items: seq<RetailPrice>)
    requires items <= Prices(p) && |items| + FETCH_CAPACITY < |Prices(p)|
    ensures WantedOf(p.Cfg, items) <= EarlyWanted(p)
  {
    ShorterPrefix(items, EarlyPrices(p), Prices(p));
    WantedPrefix(p.Cfg, items, EarlyPrices(p));
  }

  lemma ShorterPrefix(x: seq<RetailPrice>, y: seq<RetailPrice>, all: seq<RetailPrice>)
    requires x <= all && y <= all
    ensures if |x| <= |y| then x <= y else y <= x
  {
  }

  // ----- runs that leave them behind -----

  // Reached without any cancellation.
  ghost predicate Live(p: Setup, s: Sys) {
    Reachable(p, s) && !s.Cancelled
  }

  lemma InitLive(p: Setup)
    ensures Live(p, Init(p))
  {
    assert Run(p, [Init(p)], []);
  }

  lemma RunNext(p: Setup, states: seq<Sys>, steps: seq<Step>, step: Step)
    requires Run(p, states, steps) && Enabled(states[|steps|], step)
    ensures Run(p, states + [Do(p, states[|steps|], step)], steps + [step])
  {
  }

  lemma ReachNext(p: Setup, s: Sys, step: Step)
    requires Reachable(p, s) && Enabled(s, step)
    ensures Reachable(p, Do(p, s, step))
  {
    var states, steps :| Run(p, states, steps) && states[|steps|] == s;
    RunNext(p, states, steps, step);
    assert (states + [Do(p, s, step)])[|steps + [step]|] == Do(p, s, step);
  }

  lemma Uncancelled(p: Setup, s: Sys, step: Step)
    requires Enabled(s, step) && step !in {Return, Cancel}
    ensures Do(p, s, step).Cancelled == s.Cancelled
  {
  }

  lemma Go(p: Setup, s: Sys, step: Step) returns (t: Sys)
    requires Live(p, s) && Enabled(s, step)
    ensures t == Do(p, s, step) && Reachable(p, t)
    ensures step !in {Return, Cancel} ==> Live(p, t)
  {
    t := Do(p, s, step);
    ReachNext(p, s, step);
    if step !in {Return, Cancel} {
      Uncancelled(p, s, step);
    }
  }

  lemma FetchedAll(p: Setup, s: Sys)
    requires Live(p, s) && s.Fetcher.FetchDone?
    ensures Upstream(s) == Prices(p)
  {
    ReachKeeps(p, s);
    FetchMore(s.Seen, s.Pending);
    assert s.Pending == [] ==> s.Seen == p.Responses;
  }

  lemma NotFetched(p: Setup, s: Sys)
    requires Live(p, s) && |s.Converted| + |s.Fetched| < |Prices(p)|
    ensures !s.Fetcher.FetchDone?
  {
    if s.Fetcher.FetchDone? {
      FetchedAll(p, s);
    }
  }

  // The fetcher alone moves on.
  lemma FetcherGoes(p: Setup, s: Sys) returns (t: Sys)
    requires Live(p, s) && !s.Fetcher.FetchDone? && (s.Fetcher.Emitting? && s.Fetcher.Items != [] ==> |s.Fetched| < FETCH_CAPACITY)
    ensures Live(p, t) && Measure(t) < Measure(s)
    ensures t.Storing == s.Storing && t.Buffer == s.Buffer && t.Worker == s.Worker && t.Converted == s.Converted
  {
    var step := if s.Fetcher.Requesting? then Request else if s.Fetcher.Items == [] then Turn else Emit;
    t := Go(p, s, step);
    StepDecreases(p, s, step);
  }

  // The converter holds wanted record i, the last one it has come to.
  ghost predicate Holds(p: Setup, s: Sys, i: nat) {
    i < |p.Wanted()| && s.Worker == Sending(p.Wanted()[i]) && LastTaken(p, s.Converted, i)
  }

  ghost predicate LastTaken(p: Setup, converted: seq<RetailPrice>, i: nat) {
    converted != [] && |WantedOf(p.Cfg, converted[..|converted| - 1])| == i
  }

  // Fetcher and converter go on to the next wanted record.
  lemma {:induction false} ToSending(p: Setup, s: Sys) returns (t: Sys)
    requires Live(p, s) && s.Worker.Waiting? && |Downstream(s)| < |p.Wanted()|
    ensures Live(p, t) && t.Storing == s.Storing && t.Buffer == s.Buffer
    ensures Holds(p, t, |Downstream(s)|)
    decreases Measure(s)
  {
    var next := NextPrice(p, s);
    if next.Worker.Sending? {
      t := next;
    } else {
      t := ToSending(p, next);
    }
  }

  lemma NextPrice(p: Setup, s: Sys) returns (t: Sys)
    requires Live(p, s) && s.Worker.Waiting? && |Downstream(s)| < |p.Wanted()|
    ensures Live(p, t) && t.Storing == s.Storing && t.Buffer == s.Buffer && Measure(t) < Measure(s)
    ensures if t.Worker.Sending? then Holds(p, t, |Downstream(s)|) else t.Worker.Waiting? && Downstream(t) == Downstream(s)
  {
    if s.Fetched != [] {
      t := Go(p, s, Work);
      StepDecreases(p, s, Work);
      WorkHolds(p, s);
    } else {
      ReachKeeps(p, s);
      ConvertedIsPrefix(p, s);
      assert s.Converted != Prices(p);
      NotFetched(p, s);
      t := FetcherGoes(p, s);
    }
  }

  lemma WorkHolds(p: Setup, s: Sys)
    requires Live(p, s) && Enabled(s, Work)
    ensures var t := Do(p, s, Work);
            if t.Worker.Sending? then Holds(p, t, |Downstream(s)|) else t.Worker.Waiting? && Downstream(t) == Downstream(s)
  {
    var t := Do(p, s, Work);
    ReachKeeps(p, s);
    StepKeeps(p, s, Work);
    ConvertedIsPrefix(p, t);
    if t.Worker.Sending? {
      assert Downstream(s) == s.Storing.Taken() + s.Buffer;
      assert Downstream(t)[|Downstream(s)|] == t.Worker.Held;
      assert t.Converted[..|t.Converted| - 1] == s.Converted;
    }
  }

  // Exactly the first i wanted records are stored and nothing is under way.
  ghost predicate AtRest(p: Setup, s: Sys, i: nat) {
    && Live(p, s) && s.Worker.Waiting? && s.Buffer == [] && s.Storing.Stage.Idle? && s.Result.None?
    && i <= |p.Wanted()| && s.Storing.Stored == p.Wanted()[..i]
  }

  lemma ToHand(p: Setup, s: Sys, i: nat) returns (t: Sys)
    requires AtRest(p, s, i) && i < |p.Wanted()|
    ensures Live(p, t) && t.Worker.Waiting? && t.Buffer == [] && t.Result.None?
    ensures t.Storing == s.Storing.Pick(p.Wanted()[i])
  {
    assert Downstream(s) == p.Wanted()[..i];
    var u := ToSending(p, s);
    LiveKeeps(p, u);
    t := Go(p, u, HandOver);
  }

  lemma LiveKeeps(p: Setup, s: Sys)
    requires Live(p, s)
    ensures s.Result.None? && s.Cap == p.Cap && s.Storing.Follows(p.Env, p.Start()) && |s.Fetched| <= FETCH_CAPACITY
  {
    ReachKeeps(p, s);
  }

  lemma StoreNext(p: Setup, s: Sys, i: nat) returns (t: Sys)
    requires AtRest(p, s, i) && i < |p.Wanted()|
    requires Consume(p.Env, p.Start(), p.Wanted()[..i + 1]).1.None?
    ensures AtRest(p, t, i + 1)
  {
    t := ToHand(p, s, i);
    LiveKeeps(p, t);
    TakeNext(p.Env, p.Start(), p.Wanted(), t.Storing, i);
    t := StoreInHand(p, t);
    NextPrefix(p.Wanted(), i);
  }

  lemma StoreInHand(p: Setup, s: Sys) returns (t: Sys)
    requires Live(p, s) && s.Storing.Stage.Got?
    requires Take(p.Env, s.Storing.Consumer, s.Storing.Stage.Record).1.None?
    ensures Live(p, t) && t.Worker == s.Worker && t.Buffer == s.Buffer && t.Result.None?
    ensures t.Storing.Stage.Idle? && t.Storing.Stored == s.Storing.Taken()
  {
    t := Go(p, s, UpsertProduct);
    t := Go(p, t, UpsertPrice);
    LiveKeeps(p, t);
  }

  lemma {:induction false} StoreFirst(p: Setup, n: nat) returns (s: Sys)
    requires n <= |p.Wanted()| && Consume(p.Env, p.Start(), p.Wanted()[..n]).1.None?
    ensures AtRest(p, s, n)
  {
    if n == 0 {
      s := Init(p);
      InitLive(p);
      LiveKeeps(p, s);
    } else {
      assert p.Wanted()[..n][..n - 1] == p.Wanted()[..n - 1];
      s := StoreFirst(p, n - 1);
      s := StoreNext(p, s, n - 1);
    }
  }

  // Meanwhile the converter fills its channel.
  lemma {:induction false} Fill(p: Setup, s: Sys, k: nat) returns (t: Sys)
    requires Live(p, s) && s.Worker.Waiting? && s.Buffer == [] && s.Storing.Stage.Got?
    requires k <= p.Cap && |s.Storing.Taken()| + k <= |p.Wanted()|
    ensures Live(p, t) && t.Worker.Waiting? && |t.Buffer| == k && t.Storing == s.Storing
  {
    t := s;
    if k > 0 {
      t := Fill(p, s, k - 1);
      t := ToSending(p, t);
      LiveKeeps(p, t);
      t := Go(p, t, Send);
    }
  }

  // And the fetcher the other one.
  lemma {:induction false} FillFetched(p: Setup, s: Sys) returns (t: Sys)
    requires Live(p, s) && s.Worker.Sending? && |s.Converted| + FETCH_CAPACITY < |Prices(p)|
    ensures Live(p, t) && t.Storing == s.Storing && t.Buffer == s.Buffer && t.Worker == s.Worker
    ensures t.Fetcher.Emitting? && t.Fetcher.Items != [] && |t.Fetched| == FETCH_CAPACITY
    decreases Measure(s)
  {
    if s.Fetcher.Emitting? && s.Fetcher.Items != [] && |s.Fetched| == FETCH_CAPACITY {
      t := s;
    } else {
      LiveKeeps(p, s);
      NotFetched(p, s);
      t := FetcherGoes(p, s);
      t := FillFetched(p, t);
    }
  }

  // Record n, which fails, is in the consumer's hand.
  ghost predicate Doomed(p: Setup, st: Storing, n: nat) {
    st.Stage.Got? && |st.Stored| == n && Take(p.Env, st.Consumer, st.Stage.Record).1.Some?
  }

  // The record in hand fails, and ingestion returns.
  lemma FailAndReturn(p: Setup, s: Sys, n: nat) returns (t: Sys)
    requires Live(p, s) && Doomed(p, s.Storing, n)
    ensures Reachable(p, t) && t.Result.Some? && t.Worker == s.Worker && t.Buffer == s.Buffer && t.Cap == s.Cap
    ensures t.Fetcher == s.Fetcher && t.Fetched == s.Fetched
  {
    LiveKeeps(p, s);
    t := Go(p, s, UpsertProduct);
    if t.Storing.Stage.Known? {
      t := Go(p, t, UpsertPrice);
    }
    t := Go(p, t, Return);
  }

  lemma ToFailure(p: Setup, n: nat) returns (s: Sys)
    requires FailsAt(p.Env, p.Start(), p.Wanted(), n)
    ensures Live(p, s) && Doomed(p, s.Storing, n) && s.Worker.Waiting? && s.Buffer == []
  {
    var t := StoreFirst(p, n);
    s := ToHand(p, t, n);
    LiveKeeps(p, s);
    TakeNext(p.Env, p.Start(), p.Wanted(), s.Storing, n);
  }

  // Its channel is full.
  lemma FullChannel(p: Setup, n: nat) returns (s: Sys)
    requires FailsAt(p.Env, p.Start(), p.Wanted(), n) && n + p.Cap + 1 <= |p.Wanted()|
    ensures Live(p, s) && Doomed(p, s.Storing, n) && |s.Buffer| == s.Cap && s.Worker.Waiting? && |Downstream(s)| == n + p.Cap + 1
  {
    var t := ToFailure(p, n);
    s := Fill(p, t, p.Cap);
    LiveKeeps(p, s);
  }

  // And the converter holds one more.
  lemma Crowd(p: Setup, n: nat) returns (s: Sys)
    requires FailsAt(p.Env, p.Start(), p.Wanted(), n) && n + p.Cap + 2 <= |p.Wanted()|
    ensures Live(p, s) && Doomed(p, s.Storing, n) && |s.Buffer| == s.Cap
    ensures s.Worker.Sending? && LastTaken(p, s.Converted, n + p.Cap + 1)
  {
    var t := FullChannel(p, n);
    s := ToSending(p, t);
    SameCap(p, t, s);
  }

  lemma LeavesConverter(p: Setup, n: nat) returns (s: Sys)
    requires FailsAt(p.Env, p.Start(), p.Wanted(), n) && n + p.Cap + 2 <= |p.Wanted()|
    ensures Reachable(p, s) && ConverterBlocked(s)
  {
    var t := Crowd(p, n);
    s := FailAndReturn(p, t, n);
  }

  // And the fetcher's channel is full too.
  lemma DoubleCrowd(p: Setup, n: nat) returns (s: Sys)
    requires FailsAt(p.Env, p.Start(), p.Wanted(), n) && n + p.Cap + 2 <= |EarlyWanted(p)|
    ensures Live(p, s) && Doomed(p, s.Storing, n) && |s.Buffer| == s.Cap && s.Worker.Sending?
    ensures s.Fetcher.Emitting? && s.Fetcher.Items != [] && |s.Fetched| == FETCH_CAPACITY
  {
    var t := Crowd(p, n);
    ConvertedFew(p, t, n + p.Cap + 1);
    s := FillFetched(p, t);
    SameCap(p, t, s);
  }

  lemma SameCap(p: Setup, s: Sys, t: Sys)
    requires Live(p, s) && Live(p, t)
    ensures s.Cap == t.Cap
  {
    LiveKeeps(p, s);
    LiveKeeps(p, t);
  }

  lemma LeavesFetcher(p: Setup, n: nat) returns (s: Sys)
    requires FailsAt(p.Env, p.Start(), p.Wanted(), n) && n + p.Cap + 2 <= |EarlyWanted(p)|
    ensures Reachable(p, s) && FetcherBlocked(s)
  {
    var t := DoubleCrowd(p, n);
    s := FailAndReturn(p, t, n);
  }

  // Enough prices follow those that the converter has taken.
  lemma ConvertedFew(p: Setup, s: Sys, i: nat)
    requires Live(p, s) && LastTaken(p, s.Converted, i) && i < |EarlyWanted(p)|
    ensures |s.Converted| + FETCH_CAPACITY < |Prices(p)|
  {
    ReachKeeps(p, s);
    ConvertedIsPrefix(p, s);
    var front := s.Converted[..|s.Converted| - 1];
    ShorterPrefix(front, EarlyPrices(p), Prices(p));
    if EarlyPrices(p) <= front {
      WantedPrefix(p.Cfg, EarlyPrices(p), front);
    }
  }

  /** Some run leaves its converter blocked for ever exactly when the sequential
      run fails on a record that at least Cap + 1 wanted ones follow. */
  lemma ConverterLeaksExactly(p: Setup)
    ensures (exists s :: Reachable(p, s) && ConverterBlocked(s)) <==>
              exists n: nat :: FailsAt(p.Env, p.Start(), p.Wanted(), n) && n + p.Cap + 2 <= |p.Wanted()|
  {
    if s :| Reachable(p, s) && ConverterBlocked(s) {
      ConverterNeeds(p, s);
    }
    if n: nat :| FailsAt(p.Env, p.Start(), p.Wanted(), n) && n + p.Cap + 2 <= |p.Wanted()| {
      var s := LeavesConverter(p, n);
    }
  }

  /** It leaves its fetcher blocked too exactly when that is so even without the
      last 101 prices: 100 of them fill the other channel, and the fetcher holds one more. */
  lemma FetcherLeaksExactly(p: Setup)
    ensures (exists s :: Reachable(p, s) && FetcherBlocked(s)) <==>
              exists n: nat :: FailsAt(p.Env, p.Start(), p.Wanted(), n) && n + p.Cap + 2 <= |EarlyWanted(p)|
  {
    if s :| Reachable(p, s) && FetcherBlocked(s) {
      ConverterNeeds(p, s);
      FetcherNeeds(p, s);
    }
    if n: nat :| FailsAt(p.Env, p.Start(), p.Wanted(), n) && n + p.Cap + 2 <= |EarlyWanted(p)| {
      var s := LeavesFetcher(p, n);
    }
  }

  /** Those are the wanted records of all prices but the last 101, if there are so many. */
  lemma EarlyExactly(p: Setup)
    ensures EarlyWanted(p) == WantedOf(p.Cfg, if |Prices(p)| <= 100 then [] else Prices(p)[..|Prices(p)| - 101])
  {
  }

  /** While the database answers, a wanted record in a currency that is no ISO code
      decides whether the converter can be left behind. */
  lemma CurrencyLeaksConverter(p: Setup)
    requires Valid(p.DB.Tables) && forall n :: !p.DB.Fails(n)
    ensures (exists s :: Reachable(p, s) && ConverterBlocked(s)) <==>
              exists i: nat :: BadCurrencyAt(p.Env, p.Wanted(), i) && i + p.Cap + 2 <= |p.Wanted()|
  {
    ConverterLeaksExactly(p);
    FailuresAreCurrencies(p.Env, p.Start(), p.Wanted(), p.Cap + 2);
  }

  /** And whether the fetcher can. */
  lemma CurrencyLeaksFetcher(p: Setup)
    requires Valid(p.DB.Tables) && forall n :: !p.DB.Fails(n)
    ensures (exists s :: Reachable(p, s) && FetcherBlocked(s)) <==>
              exists i: nat :: BadCurrencyAt(p.Env, p.Wanted(), i) && i + p.Cap + 2 <= |EarlyWanted(p)|
  {
    FetcherLeaksExactly(p);
    FailuresAreCurrencies(p.Env, p.Start(), p.Wanted(), p.Cap + 2 + |p.Wanted()| - |EarlyWanted(p)|);
  }
}
