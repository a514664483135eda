/** The record that ends a sequential run (ingestion.go). */
module Failures {
  import opened Store
  import opened Ingestion
  import opened CachedRuns
  import opened ConsumerSteps

  // Storing the records one after the other fails on record n.
  ghost predicate FailsAt(env: Env, start: Consumer, all: seq<WithProduct>, n: nat) {
    && n < |all|
    && Consume(env, start, all[..n]).1.None?
    && Consume(env, start, all[..n + 1]).1.Some?
  }

  lemma NextPrefix(all: seq<WithProduct>, i: nat)
    requires i < |all|
    ensures all[..i + 1] == all[..i] + [all[i]]
  {
  }

  // What happens to record i in the consumer's hand is what the sequential run makes of it.
  lemma TakeNext(env: Env, start: Consumer, all: seq<WithProduct>, st: Storing, i: nat)
    requires i < |all| && st.Follows(env, start) && st.Stored == all[..i] && st.Stage.Got? && st.Stage.Record == all[i]
    ensures Consume(env, start, all[..i + 1]) == Take(env, st.Consumer, st.Stage.Record)
  {
    NextPrefix(all, i);
    ConsumeNext(env, start, all[..i], all[i]);
  }

  // Record i is in a currency that is no ISO code.
  ghost predicate BadCurrencyAt(env: Env, all: seq<WithProduct>, i: nat) {
    i < |all| && env.ParseISO(all[i].Price.Currency).None?
  }

  lemma NoneBefore(env: Env, all: seq<WithProduct>, i: nat)
    requires BadCurrencyAt(env, all, i)
    ensures FirstBad(env, all) <= i
  {
    var front := all[..FirstBad(env, all)];
    assert forall j | 0 <= j < |front| :: front[j] in front;
  }

  lemma ISOUntil(env: Env, all: seq<WithProduct>, n: nat)
    requires n <= |all|
    ensures AllISO(env, all[..n]) <==> n <= FirstBad(env, all)
  {
    var bad := FirstBad(env, all);
    if bad < n {
      assert all[..n][bad] == all[bad];
    } else {
      assert forall r <- all[..n] :: r in all[..bad];
    }
  }

  lemma FailsAtFirstBad(env: Env, start: Consumer, all: seq<WithProduct>, n: nat)
    requires ConsumerValid(start) && (forall k :: !start.DB.Fails(k)) && n < |all|
    ensures FailsAt(env, start, all, n) <==> n == FirstBad(env, all)
  {
    ConsumeFails(env, start, all[..n]);
    ConsumeFails(env, start, all[..n + 1]);
    ISOUntil(env, all, n);
    ISOUntil(env, all, n + 1);
  }

  /** While the database answers, a run fails early enough exactly when a currency
      that is no ISO code comes early enough. */
  lemma FailuresAreCurrencies(env: Env, start: Consumer, all: seq<WithProduct>, room: nat)
    requires ConsumerValid(start) && forall k :: !start.DB.Fails(k)
    ensures (exists n: nat :: FailsAt(env, start, all, n) && n + room <= |all|) <==>
              exists i: nat :: BadCurrencyAt(env, all, i) && i + room <= |all|
  {
    var first := FirstBad(env, all);
    forall n | 0 <= n < |all| ensures FailsAt(env, start, all, n) <==> n == first {
      FailsAtFirstBad(env, start, all, n);
    }
    forall i: nat | BadCurrencyAt(env, all, i) ensures first <= i && BadCurrencyAt(env, all, first) {
      NoneBefore(env, all, i);
    }
    assert first < |all| ==> FailsAt(env, start, all, first) && BadCurrencyAt(env, all, first);
  }
}
