/** Orders in which a Go `range` loop may visit a map, and quantities that do
    not depend on the order. Go leaves the order unspecified, so every loop of
    the model takes an arbitrary remaining key, and the lemmas below turn
    "for this order" into "for every order". */
module Orders {

  // `order` lists every key once and nothing else.
  ghost predicate Visits<K(!new)>(order: seq<K>, keys: set<K>) {
    multiset(order) == multiset(keys)
  }

  lemma VisitsMembers<K(!new)>(order: seq<K>, keys: set<K>)
    requires Visits(order, keys)
    ensures forall k :: k in order <==> k in keys
    ensures forall i, j | 0 <= i < j < |order| :: order[i] != order[j]
  {
    forall k ensures k in order <==> k in keys {
      assert k in multiset(order) <==> k in multiset(keys);
    }
    forall i, j | 0 <= i < j < |order| ensures order[i] != order[j] {
      assert order == order[..j] + [order[j]] + order[j + 1..];
      assert multiset(order) == multiset(order[..j]) + multiset{order[j]} + multiset(order[j + 1..]);
      assert multiset(keys)[order[j]] == 1;
      assert order[i] in order[..j];
    }
  }

  lemma DistinctVisits<K(!new)>(order: seq<K>, keys: set<K>)
    requires forall k :: k in order <==> k in keys
    requires forall i, j | 0 <= i < j < |order| :: order[i] != order[j]
    ensures Visits(order, keys)
  {
    forall k ensures multiset(order)[k] == multiset(keys)[k] {
      if k in order {
        var i :| 0 <= i < |order| && order[i] == k;
        assert order == order[..i] + [k] + order[i + 1..];
        assert k !in order[..i] && k !in order[i + 1..];
        assert multiset(order)[k] == multiset(order[..i])[k] + 1 + multiset(order[i + 1..])[k];
      }
    }
  }

  // Some order of the keys a loop has not reached when it stops early.
  ghost function AnyOrder<K(!new)>(keys: set<K>): (order: seq<K>)
    ensures Visits(order, keys)
  {
    if keys == {} then [] else
      var k :| k in keys;
      [k] + AnyOrder(keys - {k})
  }

  lemma VisitNext<K(!new)>(visited: seq<K>, rest: set<K>, k: K, keys: set<K>)
    requires k in rest && multiset(visited) + multiset(rest) == multiset(keys)
    ensures multiset(visited + [k]) + multiset(rest - {k}) == multiset(keys)
  {
    assert multiset(rest) == multiset(rest - {k}) + multiset{k};
  }

  function Drop<K>(s: seq<K>, i: nat): (r: seq<K>)
    requires i < |s|
    ensures |r| == |s| - 1
    ensures multiset(r) + multiset{s[i]} == multiset(s)
  {
    assert s == s[..i] + [s[i]] + s[i + 1..];
    s[..i] + s[i + 1..]
  }

  lemma FrontAndLast<K>(s: seq<K>)
    requires s != []
    ensures s == s[..|s| - 1] + [s[|s| - 1]]
  {
  }

  lemma DropPieces<K>(s: seq<K>, i: nat)
    requires i < |s|
    ensures s == s[..i] + [s[i]] + s[i + 1..] && Drop(s, i) == s[..i] + s[i + 1..]
  {
  }

  lemma Occurrence<K>(s: seq<K>, k: K) returns (i: nat)
    requires k in multiset(s)
    ensures i < |s| && s[i] == k
  {
    i :| i < |s| && s[i] == k;
  }

  lemma LastOf<K>(s: seq<K>)
    requires |s| > 0
    ensures multiset(s) == multiset(s[..|s| - 1]) + multiset{s[|s| - 1]}
  {
    assert s == s[..|s| - 1] + [s[|s| - 1]];
  }

  lemma Cancel<K(!new)>(a: multiset<K>, b: multiset<K>, k: K)
    requires a + multiset{k} == b + multiset{k}
    ensures a == b
  {
    forall x: K ensures a[x] == b[x] {
      assert (a + multiset{k})[x] == (b + multiset{k})[x];
    }
  }

  // ----- images -----

  function Along<K, V>(m: map<K, V>, order: seq<K>): (vs: seq<V>)
    requires forall k <- order :: k in m
    ensures |vs| == |order|
    ensures forall i | 0 <= i < |vs| :: vs[i] == m[order[i]]
  {
    if order == [] then [] else Along(m, order[..|order| - 1]) + [m[order[|order| - 1]]]
  }

  lemma AlongNext<K, V>(m: map<K, V>, order: seq<K>, k: K)
    requires k in m && forall j <- order :: j in m
    ensures forall j <- order + [k] :: j in m
    ensures Along(m, order + [k]) == Along(m, order) + [m[k]]
  {
    assert (order + [k])[..|order|] == order;
  }

  lemma AlongAgrees<K, V>(m: map<K, V>, n: map<K, V>, order: seq<K>)
    requires forall k <- order :: k in m && k in n && m[k] == n[k]
    ensures Along(m, order) == Along(n, order)
  {
    forall i | 0 <= i < |order| ensures Along(m, order)[i] == Along(n, order)[i] {
      assert order[i] in order;
    }
  }

  lemma {:induction false} AlongConcat<K, V>(m: map<K, V>, a: seq<K>, b: seq<K>)
    requires forall j <- a :: j in m
    requires forall j <- b :: j in m
    ensures forall j <- a + b :: j in m
    ensures Along(m, a + b) == Along(m, a) + Along(m, b)
  {
  }

  lemma {:induction false} AlongDrop<K, V>(m: map<K, V>, order: seq<K>, i: nat)
    requires i < |order| && forall k <- order :: k in m
    ensures forall k <- Drop(order, i) :: k in m
    ensures multiset(Along(m, order)) == multiset(Along(m, Drop(order, i))) + multiset{m[order[i]]}
  {
    var vs := Along(m, order);
    assert Along(m, Drop(order, i)) == Drop(vs, i);
  }

  lemma {:induction false} AlongPermutes<K(!new), V>(m: map<K, V>, a: seq<K>, b: seq<K>)
    requires multiset(a) == multiset(b)
    requires forall k <- a :: k in m
    requires forall k <- b :: k in m
    ensures multiset(Along(m, a)) == multiset(Along(m, b))
    decreases |a|
  {
    if a == [] {
      assert |multiset(b)| == 0;
    } else {
      var n := |a| - 1;
      LastOf(a);
      var i := Occurrence(b, a[n]);
      var rest := Drop(b, i);
      Cancel(multiset(a[..n]), multiset(rest), a[n]);
      AlongPermutes(m, a[..n], rest);
      AlongDrop(m, b, i);
    }
  }

  // ----- sums -----

  function Sum(xs: seq<real>): real {
    if xs == [] then 0.0 else Sum(xs[..|xs| - 1]) + xs[|xs| - 1]
  }

  lemma {:induction false} SumConcat(xs: seq<real>, ys: seq<real>)
    ensures Sum(xs + ys) == Sum(xs) + Sum(ys)
    decreases |ys|
  {
    if ys == [] {
      assert xs + ys == xs;
    } else {
      assert (xs + ys)[..|xs + ys| - 1] == xs + ys[..|ys| - 1];
      SumConcat(xs, ys[..|ys| - 1]);
    }
  }

  lemma SumSplit(xs: seq<real>, i: nat)
    requires i < |xs|
    ensures Sum(xs) == Sum(xs[..i]) + xs[i] + Sum(xs[i + 1..])
  {
    var upTo := xs[..i + 1];
    assert upTo[..i] == xs[..i];
    assert xs == upTo + xs[i + 1..];
    SumConcat(upTo, xs[i + 1..]);
  }

  lemma SumDrop(xs: seq<real>, i: nat)
    requires i < |xs|
    ensures Sum(xs) == Sum(Drop(xs, i)) + xs[i]
  {
    SumSplit(xs, i);
    SumConcat(xs[..i], xs[i + 1..]);
  }

  function SumNat(xs: seq<nat>): nat {
    if xs == [] then 0 else SumNat(xs[..|xs| - 1]) + xs[|xs| - 1]
  }

  lemma {:induction false} SumNatDrop(xs: seq<nat>, i: nat)
    requires i < |xs|
    ensures SumNat(xs) == SumNat(Drop(xs, i)) + xs[i]
    decreases |xs|
  {
    var n := |xs| - 1;
    if i == n {
      assert Drop(xs, i) == xs[..n];
    } else {
      SumNatDrop(xs[..n], i);
      assert Drop(xs, i)[..n - 1] == Drop(xs[..n], i);
      assert Drop(xs, i)[n - 1] == xs[n];
    }
  }

  lemma {:induction false} SumNatPermutes(xs: seq<nat>, ys: seq<nat>)
    requires multiset(xs) == multiset(ys)
    ensures SumNat(xs) == SumNat(ys)
    decreases |xs|
  {
    if xs == [] {
      assert |multiset(ys)| == 0;
    } else {
      var n := |xs| - 1;
      LastOf(xs);
      var i := Occurrence(ys, xs[n]);
      var rest := Drop(ys, i);
      Cancel(multiset(xs[..n]), multiset(rest), xs[n]);
      SumNatPermutes(xs[..n], rest);
      SumNatDrop(ys, i);
    }
  }

  // ----- the indices that a loop selects -----

  ghost predicate Increasing(at: seq<nat>, n: nat) {
    (forall i | 0 <= i < |at| :: at[i] < n) && forall i, j | 0 <= i < j < |at| :: at[i] < at[j]
  }

  lemma IncreasingNext(at: seq<nat>, n: nat)
    requires Increasing(at, n)
    ensures Increasing(at + [n], n + 1) && Increasing(at, n + 1) && n !in at
    ensures forall m: nat :: m in at + [n] <==> m in at || m == n
  {
  }

  lemma FirstAt(at: seq<nat>, n: nat)
    requires Increasing(at, n) && at != []
    ensures at[0] in at && forall l | 0 <= l < at[0] :: l !in at
  {
  }
}
