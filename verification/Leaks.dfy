/** Producers that are left behind: when ingestion returns early, the producer may
    be sending into a channel that nobody will read again (ingestion.go,
    aws/ingester.go). */
module Leaks {
  import opened Wrappers
  import opened Store
  import opened Ingestion
  import opened ConsumerSteps
  import opened Failures
  import opened Pipeline

  ghost predicate Reachable(p: Setup, s: Sys) {
    exists states, steps :: Run(p, states, steps) && states[|steps|] == s
  }

  // Ingestion has returned, and the producer sends into a full channel.
  predicate Blocked(s: Sys) {
    s.Result.Some? && s.Producer.Sending? && |s.Buffer| == s.Cap
  }

  // Nothing can happen any more.
  ghost predicate Over(s: Sys) {
    forall step :: !Enabled(s, step)
  }

  /** A run that is over has left its producer behind exactly when it is blocked. */
  lemma LeftBehindExactly(p: Setup, s: Sys)
    requires Inv(p, s)
    ensures Over(s) && !s.Producer.Closed? <==> Blocked(s)
  {
    if Over(s) && !s.Producer.Closed? {
      if s.Result.None? {
        var step := NoDeadlock(p, s);
      }
      assert !Enabled(s, Seek) && !Enabled(s, Check) && !Enabled(s, ReadRow) && !Enabled(s, Send);
    }
  }

  /** No run goes on from a blocked producer: its goroutine never ends. */
  lemma BlockedForever(p: Setup, states: seq<Sys>, steps: seq<Step>, later: seq<Sys>, more: seq<Step>)
    requires Run(p, states, steps) && Blocked(states[|steps|])
    requires Run(p, states + later, steps + more)
    ensures more == []
  {
    RunKeeps(p, states, steps);
    LeftBehindExactly(p, states[|steps|]);
    if |steps + more| > |steps| {
      StepTaken(p, states + later, steps + more, |steps|);
    }
  }

  lemma StepTaken(p: Setup, states: seq<Sys>, steps: seq<Step>, i: nat)
    requires Path(p, states, steps) && i < |steps|
    ensures Enabled(states[i], steps[i])
  {
  }

  // ----- when a producer can be left behind -----

  lemma BlockedNeeds(p: Setup, s: Sys)
    requires Reachable(p, s) && Blocked(s)
    ensures FailsAt(p.Env, p.Start(), p.Wanted(), |s.Storing.Stored|) && |s.Storing.Stored| + p.Cap + 2 <= |p.Wanted()|
  {
    ReachKeeps(p, s);
    InFlightIsPrefix(p, s);
    FailingFollows(p.Env, p.Start(), s.Storing);
    var n, all := |s.Storing.Stored|, p.Wanted();
    assert all[..n] == s.Storing.Stored && all[..n + 1] == s.Storing.Taken();
    assert |InFlight(s)| == n + 1 + p.Cap + 1;
  }

  lemma ReachKeeps(p: Setup, s: Sys)
    requires Reachable(p, s)
    ensures Inv(p, s)
  {
    var states, steps :| Run(p, states, steps) && states[|steps|] == s;
    RunKeeps(p, states, steps);
  }

  // ----- a run that leaves it behind -----

  // Reached without any cancellation.
  ghost predicate Live(p: Setup, s: Sys) {
    Reachable(p, s) && Inv(p, s) && !s.Cancelled
  }

  lemma InitLive(p: Setup)
    ensures Live(p, Init(p))
  {
    assert Run(p, [Init(p)], []);
    RunKeeps(p, [Init(p)], []);
  }

  lemma RunNext(p: Setup, states: seq<Sys>, steps: seq<Step>, step: Step)
    requires Run(p, states, steps) && Enabled(states[|steps|], step)
    ensures Run(p, states + [Do(p, states[|steps|], step)], steps + [step])
  {
  }

  lemma Go(p: Setup, s: Sys, step: Step) returns (t: Sys)
    requires Live(p, s) && Enabled(s, step)
    ensures t == Do(p, s, step) && Reachable(p, t) && Inv(p, t)
    ensures step !in {Return, Cancel} ==> Live(p, t)
  {
    t := Do(p, s, step);
    var states, steps :| Run(p, states, steps) && states[|steps|] == s;
    RunNext(p, states, steps, step);
    assert (states + [t])[|steps + [step]|] == t;
    StepKeeps(p, s, step);
    assert step !in {Return, Cancel} ==> t.Cancelled == s.Cancelled;
  }

  // The producer is between two records.
  predicate Between(s: Sys) {
    !s.Producer.Sending? && !s.Producer.Closed?
  }

  lemma ProducerGoes(p: Setup, s: Sys) returns (t: Sys)
    requires Live(p, s) && Between(s)
    ensures Live(p, t) && t.Storing == s.Storing && t.Buffer == s.Buffer && Measure(t) < Measure(s)
    ensures InFlight(t) == InFlight(s) + HeldBy(t.Producer)
  {
    var step := if s.Producer.Seeking? then Seek else if s.Producer.Checking? then Check else ReadRow;
    t := Go(p, s, step);
    StepDecreases(p, s, step);
    assert InFlight(s) == s.Storing.Taken() + s.Buffer;
  }

  // The producer alone goes on to its next wanted record.
  lemma {:induction false} ToSending(p: Setup, s: Sys) returns (t: Sys)
    requires Live(p, s) && Between(s) && |InFlight(s)| < |p.Wanted()|
    ensures Live(p, t) && t.Storing == s.Storing && t.Buffer == s.Buffer
    ensures t.Producer == Sending(p.Wanted()[|InFlight(s)|])
    decreases Measure(s)
  {
    var next := ProducerGoes(p, s);
    InFlightIsPrefix(p, next);
    if next.Producer.Sending? {
      t := next;
      assert InFlight(t)[|InFlight(s)|] == t.Producer.Held;
    } else {
      NotClosedYet(p, next);
      t := ToSending(p, next);
    }
  }

  lemma NotClosedYet(p: Setup, s: Sys)
    requires Live(p, s) && |InFlight(s)| < |p.Wanted()|
    ensures !s.Producer.Closed?
  {
    if s.Producer.Closed? {
      ClosedMeansAll(p, s);
    }
  }

  // Exactly the first i wanted records are stored and nothing is under way.
  ghost predicate AtRest(p: Setup, s: Sys, i: nat) {
    && Live(p, s) && Between(s) && s.Buffer == [] && s.Storing.Stage.Idle?
    && i <= |p.Wanted()| && s.Storing.Stored == p.Wanted()[..i]
  }

  // The next record reaches the consumer's hand.
  lemma ToHand(p: Setup, s: Sys, i: nat) returns (t: Sys)
    requires AtRest(p, s, i) && i < |p.Wanted()|
    ensures Live(p, t) && Between(t) && t.Buffer == []
    ensures t.Storing == s.Storing.Pick(p.Wanted()[i])
  {
    assert InFlight(s) == p.Wanted()[..i];
    t := ToSending(p, s);
    t := Go(p, t, HandOver);
  }

  lemma StoreNext(p: Setup, s: Sys, i: nat) returns (t: Sys)
    requires AtRest(p, s, i) && i < |p.Wanted()|
    requires Consume(p.Env, p.Start(), p.Wanted()[..i + 1]).1.None?
    ensures AtRest(p, t, i + 1)
  {
    t := ToHand(p, s, i);
    TakeNext(p.Env, p.Start(), p.Wanted(), t.Storing, i);
    t := StoreInHand(p, t);
    NextPrefix(p.Wanted(), i);
  }

  lemma StoreInHand(p: Setup, s: Sys) returns (t: Sys)
    requires Live(p, s) && s.Storing.Stage.Got?
    requires Take(p.Env, s.Storing.Consumer, s.Storing.Stage.Record).1.None?
    ensures Live(p, t) && t.Producer == s.Producer && t.Buffer == s.Buffer
    ensures t.Storing.Stage.Idle? && t.Storing.Stored == s.Storing.Taken()
  {
    t := Go(p, s, UpsertProduct);
    t := Go(p, t, UpsertPrice);
  }

  lemma {:induction false} StoreFirst(p: Setup, n: nat) returns (s: Sys)
    requires n <= |p.Wanted()| && Consume(p.Env, p.Start(), p.Wanted()[..n]).1.None?
    ensures AtRest(p, s, n)
  {
    if n == 0 {
      s := Init(p);
      InitLive(p);
    } else {
      assert p.Wanted()[..n][..n - 1] == p.Wanted()[..n - 1];
      s := StoreFirst(p, n - 1);
      s := StoreNext(p, s, n - 1);
    }
  }

  // Meanwhile the producer fills the channel.
  lemma {:induction false} Fill(p: Setup, s: Sys, k: nat) returns (t: Sys)
    requires Live(p, s) && Between(s) && s.Buffer == [] && s.Storing.Stage.Got?
    requires k <= p.Cap && |s.Storing.Taken()| + k <= |p.Wanted()|
    ensures Live(p, t) && Between(t) && |t.Buffer| == k && t.Storing == s.Storing
  {
    t := s;
    if k > 0 {
      t := Fill(p, s, k - 1);
      t := ToSending(p, t);
      t := Go(p, t, Send);
    }
  }

  // The record in hand fails, and ingestion returns.
  lemma FailAndReturn(p: Setup, s: Sys) returns (t: Sys)
    requires Live(p, s) && s.Storing.Stage.Got?
    requires Take(p.Env, s.Storing.Consumer, s.Storing.Stage.Record).1.Some?
    ensures Reachable(p, t) && t.Result.Some? && t.Producer == s.Producer && t.Buffer == s.Buffer && t.Cap == s.Cap
  {
    t := Go(p, s, UpsertProduct);
    if t.Storing.Stage.Known? {
      t := Go(p, t, UpsertPrice);
    }
    t := Go(p, t, Return);
  }

  lemma LeavesBehind(p: Setup, n: nat) returns (s: Sys)
    requires FailsAt(p.Env, p.Start(), p.Wanted(), n) && n + p.Cap + 2 <= |p.Wanted()|
    ensures Reachable(p, s) && Blocked(s)
  {
    s := StoreFirst(p, n);
    s := ToHand(p, s, n);
    TakeNext(p.Env, p.Start(), p.Wanted(), s.Storing, n);
    s := Fill(p, s, p.Cap);
    s := ToSending(p, s);
    s := FailAndReturn(p, s);
  }

  /** Some run leaves its producer blocked for ever exactly when the sequential run
      fails on a record that at least Cap + 1 wanted ones follow: Cap of them fill
      the channel, and the producer holds one more. */
  lemma LeaksExactly(p: Setup)
    ensures (exists s :: Reachable(p, s) && Blocked(s)) <==>
              exists n: nat :: FailsAt(p.Env, p.Start(), p.Wanted(), n) && n + p.Cap + 2 <= |p.Wanted()|
  {
    if s :| Reachable(p, s) && Blocked(s) {
      BlockedNeeds(p, s);
    }
    if n: nat :| FailsAt(p.Env, p.Start(), p.Wanted(), n) && n + p.Cap + 2 <= |p.Wanted()| {
      var s := LeavesBehind(p, n);
    }
  }

  /** While the database answers that is so exactly when a wanted record in a
      currency that is no ISO code is followed by Cap + 1 wanted ones. */
  lemma CurrencyLeaksExactly(p: Setup)
    requires Valid(p.DB.Tables) && forall n :: !p.DB.Fails(n)
    ensures (exists s :: Reachable(p, s) && Blocked(s)) <==>
              exists i: nat :: BadCurrencyAt(p.Env, p.Wanted(), i) && i + p.Cap + 2 <= |p.Wanted()|
  {
    LeaksExactly(p);
    FailuresAreCurrencies(p.Env, p.Start(), p.Wanted(), p.Cap + 2);
  }

  // ----- one such run -----

  // The capacity that IngestPricing asks for.
  const CAPACITY := 8

  // Every row holds this record, and it is wanted.
  function Always(pp: WithProduct): Config {
    Config((header, cells) => Record(pp), wanted => true)
  }

  const HEADER := Row(["SKU", "Unit", "Currency"])

  function OfferFile(rows: nat): (lines: seq<Line>)
    ensures |lines| == rows + 1
  {
    if rows == 0 then [HEADER] else OfferFile(rows - 1) + [Row([])]
  }

  function Copies(pp: WithProduct, n: nat): (records: seq<WithProduct>)
    ensures |records| == n && forall i | 0 <= i < n :: records[i] == pp
  {
    if n == 0 then [] else Copies(pp, n - 1) + [pp]
  }

  lemma {:induction false} OfferWanted(pp: WithProduct, rows: nat)
    ensures ReadLines(Always(pp), OfferFile(rows)) == Reader(Some(HEADER.Cells), Copies(pp, rows), None)
  {
    if rows == 0 {
      assert [HEADER][..0] == [];
    } else {
      OfferWanted(pp, rows - 1);
      ReadNext(Always(pp), OfferFile(rows - 1), Row([]));
      RowWanted(pp, ReadLines(Always(pp), OfferFile(rows - 1)));
    }
  }

  lemma RowWanted(pp: WithProduct, r: Reader)
    requires r.Header.Some? && r.Stop.None?
    ensures ReadLine(Always(pp), r, Row([])) == r.(Accepted := r.Accepted + [pp])
  {
  }

  /** With the capacity that ingestion uses, a file with ten records in a currency
      that is no ISO code can leave its producer behind. */
  lemma TenRowsLeak(env: Env, db: Database, pp: WithProduct) returns (s: Sys)
    requires env.ParseISO(pp.Price.Currency).None?
    ensures Reachable(Setup(Always(pp), env, db, OfferFile(10), CAPACITY), s) && Blocked(s)
  {
    var p := Setup(Always(pp), env, db, OfferFile(10), CAPACITY);
    OfferWanted(pp, 10);
    var all := p.Wanted();
    assert all[..0] == [] && all[..1] == [] + [pp];
    ConsumeNext(env, p.Start(), [], pp);
    s := LeavesBehind(p, 0);
  }
}
