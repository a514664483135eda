/** Strings joined with a separator and split again. */
module Strings {

  lemma Reassociate(x: string, y: string, z: string)
    ensures x + y + z == x + (y + z)
  {
  }

  function Join(parts: seq<string>, sep: char): string {
    if parts == [] then ""
    else if |parts| == 1 then parts[0]
    else parts[0] + [sep] + Join(parts[1..], sep)
  }

  // The inverse: always at least one part.
  function Split(s: string, sep: char): (parts: seq<string>)
    ensures |parts| > 0
  {
    if s == "" then [""]
    else
      var rest := Split(s[1..], sep);
      if s[0] == sep then [""] + rest else [[s[0]] + rest[0]] + rest[1..]
  }

  lemma {:induction false} SplitOne(part: string, sep: char)
    requires sep !in part
    ensures Split(part, sep) == [part]
  {
    if part != "" {
      SplitOne(part[1..], sep);
      assert [part[0]] + part[1..] == part;
    }
  }

  /** Splitting undoes joining when no part contains the separator. */
  lemma {:induction false} SplitJoin(parts: seq<string>, sep: char)
    requires parts != [] && forall p <- parts :: sep !in p
    ensures Split(Join(parts, sep), sep) == parts
  {
    assert parts[0] in parts;
    if |parts| == 1 {
      SplitOne(parts[0], sep);
    } else {
      assert forall p <- parts[1..] :: p in parts;
      SplitJoin(parts[1..], sep);
      SplitOne(parts[0], sep);
      SplitConcat(parts[0], Join(parts[1..], sep), sep);
    }
  }

  /** Splitting cuts a text at every separator: nothing is lost, and the pieces
      of a text are those of what stands on either side of one. */
  lemma {:induction false} JoinSplit(s: string, sep: char)
    ensures Join(Split(s, sep), sep) == s
    ensures forall p <- Split(s, sep) :: sep !in p
  {
    if s != "" {
      var rest := Split(s[1..], sep);
      JoinSplit(s[1..], sep);
      assert s == [s[0]] + s[1..];
      if s[0] == sep {
        assert ([""] + rest)[1..] == rest;
      } else {
        JoinHead(s[0], rest, sep);
      }
    }
  }

  lemma JoinHead(c: char, parts: seq<string>, sep: char)
    requires parts != []
    ensures Join([[c] + parts[0]] + parts[1..], sep) == [c] + Join(parts, sep)
  {
    var longer := [[c] + parts[0]] + parts[1..];
    assert longer[1..] == parts[1..];
    if |parts| > 1 {
      assert [c] + (parts[0] + [sep] + Join(parts[1..], sep)) == ([c] + parts[0]) + [sep] + Join(parts[1..], sep);
    }
  }

  lemma {:induction false} SplitConcat(s: string, t: string, sep: char)
    ensures Split(s + [sep] + t, sep) == Split(s, sep) + Split(t, sep)
  {
    if s == "" {
      assert ("" + [sep] + t)[1..] == t;
    } else {
      assert (s + [sep] + t)[1..] == s[1..] + [sep] + t;
      SplitConcat(s[1..], t, sep);
      var x, y := Split(s[1..], sep), Split(t, sep);
      if s[0] == sep {
        assert [""] + (x + y) == ([""] + x) + y;
      } else {
        assert [[s[0]] + x[0]] + (x + y)[1..] == ([[s[0]] + x[0]] + x[1..]) + y;
      }
    }
  }

  lemma JoinCons(part: string, parts: seq<string>, sep: char)
    requires parts != []
    ensures Join([part] + parts, sep) == part + [sep] + Join(parts, sep)
  {
    assert ([part] + parts)[1..] == parts;
  }

  // The pieces of a join are those of its parts, so at least as many.
  lemma {:induction false} SplitAtLeast(parts: seq<string>, sep: char)
    requires parts != []
    ensures |Split(Join(parts, sep), sep)| >= |parts|
  {
    if |parts| > 1 {
      SplitAtLeast(parts[1..], sep);
      SplitConcat(parts[0], Join(parts[1..], sep), sep);
    }
  }

  // The pieces in n groups: all but the last of one piece each.
  function Grouped(pieces: seq<string>, n: nat, sep: char): (parts: seq<string>)
    requires 1 <= n <= |pieces|
    ensures |parts| == n
  {
    if n == 1 then [Join(pieces, sep)] else [pieces[0]] + Grouped(pieces[1..], n - 1, sep)
  }

  lemma {:induction false} GroupedJoin(pieces: seq<string>, n: nat, sep: char)
    requires 1 <= n <= |pieces|
    ensures Join(Grouped(pieces, n, sep), sep) == Join(pieces, sep)
  {
    if n > 1 {
      GroupedJoin(pieces[1..], n - 1, sep);
      assert Grouped(pieces, n, sep)[1..] == Grouped(pieces[1..], n - 1, sep);
    }
  }

  lemma JoinInjective(a: seq<string>, b: seq<string>, sep: char)
    requires a != [] && b != []
    requires forall p <- a :: sep !in p
    requires forall p <- b :: sep !in p
    ensures Join(a, sep) == Join(b, sep) <==> a == b
  {
    if Join(a, sep) == Join(b, sep) {
      SplitJoin(a, sep);
      SplitJoin(b, sep);
    }
  }

  // ----- other lists with the same join -----

  function Count(s: string, sep: char): nat {
    if s == "" then 0 else (if s[0] == sep then 1 else 0) + Count(s[1..], sep)
  }

  function CountAll(parts: seq<string>, sep: char): nat {
    if parts == [] then 0 else Count(parts[0], sep) + CountAll(parts[1..], sep)
  }

  lemma {:induction false} CountConcat(s: string, t: string, sep: char)
    ensures Count(s + t, sep) == Count(s, sep) + Count(t, sep)
  {
    if s == "" {
      assert s + t == t;
    } else {
      assert (s + t)[1..] == s[1..] + t;
      CountConcat(s[1..], t, sep);
    }
  }

  lemma {:induction false} CountZero(s: string, sep: char)
    ensures Count(s, sep) == 0 <==> sep !in s
  {
    if s != "" {
      CountZero(s[1..], sep);
      assert s == [s[0]] + s[1..];
    }
  }

  lemma {:induction false} CountAllZero(parts: seq<string>, sep: char)
    ensures CountAll(parts, sep) == 0 <==> forall p <- parts :: sep !in p
  {
    if parts != [] {
      CountZero(parts[0], sep);
      CountAllZero(parts[1..], sep);
      assert parts == [parts[0]] + parts[1..];
    }
  }

  lemma {:induction false} CountJoin(parts: seq<string>, sep: char)
    requires parts != []
    ensures Count(Join(parts, sep), sep) == CountAll(parts, sep) + |parts| - 1
  {
    if |parts| == 1 {
      assert parts[1..] == [];
    } else {
      CountJoin(parts[1..], sep);
      CountConcat(parts[0] + [sep], Join(parts[1..], sep), sep);
      CountConcat(parts[0], [sep], sep);
      assert [sep][1..] == "";
    }
  }

  // Two neighbours may be cut anywhere, and the join stays.
  lemma {:induction false} JoinRecut(parts: seq<string>, i: nat, x: string, y: string, sep: char)
    requires i + 1 < |parts| && x + [sep] + y == parts[i] + [sep] + parts[i + 1]
    ensures Join(parts[i := x][i + 1 := y], sep) == Join(parts, sep)
  {
    var other := parts[i := x][i + 1 := y];
    if i > 0 {
      assert other[1..] == parts[1..][i - 1 := x][i := y];
      JoinRecut(parts[1..], i - 1, x, y, sep);
    } else if |parts| > 2 {
      RecutHead(parts, x, y, sep);
    } else {
      assert Join(parts[1..], sep) == parts[1] && Join(other[1..], sep) == y;
    }
  }

  lemma RecutHead(parts: seq<string>, x: string, y: string, sep: char)
    requires |parts| > 2 && x + [sep] + y == parts[0] + [sep] + parts[1]
    ensures Join(parts[0 := x][1 := y], sep) == Join(parts, sep)
  {
    var rest := Join(parts[2..], sep);
    JoinTwo(parts, sep);
    JoinTwo(parts[0 := x][1 := y], sep);
    assert parts[0 := x][1 := y][2..] == parts[2..];
  }

  lemma JoinTwo(parts: seq<string>, sep: char)
    requires |parts| > 2
    ensures Join(parts, sep) == (parts[0] + [sep] + parts[1]) + [sep] + Join(parts[2..], sep)
  {
    assert parts[1..][1..] == parts[2..];
  }

  // The first part with a separator in it, cut there.
  lemma Cut(s: string, sep: char) returns (x: string, y: string)
    requires sep in s
    ensures s == x + [sep] + y && sep !in x
    decreases |s|
  {
    if s[0] == sep {
      x, y := "", s[1..];
    } else {
      assert s == [s[0]] + s[1..];
      x, y := Cut(s[1..], sep);
      x := [s[0]] + x;
    }
  }

  /** A list of two or more parts is the only one of its length with its join
      exactly when no part has the separator. */
  lemma JoinUniqueExactly(parts: seq<string>, sep: char)
    requires |parts| >= 2
    ensures (forall p <- parts :: sep !in p) <==>
              forall other | |other| == |parts| && Join(other, sep) == Join(parts, sep) :: other == parts
  {
    if forall p <- parts :: sep !in p {
      forall other | |other| == |parts| && Join(other, sep) == Join(parts, sep) ensures other == parts {
        JoinUnique(parts, other, sep);
      }
    } else {
      var i :| 0 <= i < |parts| && sep in parts[i];
      var other := Recut(parts, i, sep);
    }
  }

  lemma JoinUnique(parts: seq<string>, other: seq<string>, sep: char)
    requires parts != [] && |other| == |parts| && Join(other, sep) == Join(parts, sep)
    requires forall p <- parts :: sep !in p
    ensures other == parts
  {
    CountJoin(parts, sep);
    CountJoin(other, sep);
    CountAllZero(parts, sep);
    CountAllZero(other, sep);
    JoinInjective(parts, other, sep);
  }

  // Another list with the same join: the part is cut at a separator, and one
  // piece goes to its neighbour.
  lemma Recut(parts: seq<string>, i: nat, sep: char) returns (other: seq<string>)
    requires i < |parts| && |parts| >= 2 && sep in parts[i]
    ensures |other| == |parts| && Join(other, sep) == Join(parts, sep) && other != parts
    ensures i + 1 < |parts| ==> other == parts[i := other[i]][i + 1 := other[i + 1]]
    ensures i + 1 == |parts| ==> other == parts[i - 1 := other[i - 1]][i := other[i]]
  {
    var x, y := Cut(parts[i], sep);
    if i + 1 < |parts| {
      other := parts[i := x][i + 1 := y + [sep] + parts[i + 1]];
      assert x + [sep] + (y + [sep] + parts[i + 1]) == parts[i] + [sep] + parts[i + 1];
      JoinRecut(parts, i, x, y + [sep] + parts[i + 1], sep);
    } else {
      other := parts[i - 1 := parts[i - 1] + [sep] + x][i := y];
      assert (parts[i - 1] + [sep] + x) + [sep] + y == parts[i - 1] + [sep] + parts[i];
      JoinRecut(parts, i - 1, parts[i - 1] + [sep] + x, y, sep);
    }
  }

  // ----- the order of sort.Strings -----

  predicate Before(a: string, b: string) {
    if b == "" then false
    else if a == "" then true
    else if a[0] != b[0] then a[0] < b[0]
    else Before(a[1..], b[1..])
  }

  // They first differ at i, or the first one ends there.
  ghost predicate DifferAt(a: string, b: string, i: nat) {
    i <= |a| && i < |b| && (forall l | 0 <= l < i :: a[l] == b[l]) && (i < |a| ==> a[i] < b[i])
  }

  /** It is the lexicographic order of the characters. */
  lemma {:induction false} BeforeExactly(a: string, b: string)
    ensures Before(a, b) <==> exists i: nat :: DifferAt(a, b, i)
  {
    if a != "" && b != "" && a[0] == b[0] {
      BeforeExactly(a[1..], b[1..]);
      if i: nat :| DifferAt(a, b, i) {
        assert i > 0;
        DifferLater(a, b, i - 1);
      }
      if i: nat :| DifferAt(a[1..], b[1..], i) {
        DifferLater(a, b, i);
      }
    } else if b != "" && (a == "" || a[0] < b[0]) {
      assert DifferAt(a, b, 0);
    }
  }

  lemma DifferLater(a: string, b: string, i: nat)
    requires a != "" && b != "" && a[0] == b[0]
    ensures DifferAt(a, b, i + 1) <==> DifferAt(a[1..], b[1..], i)
  {
    if DifferAt(a[1..], b[1..], i) {
      forall l | 0 <= l < i + 1 ensures a[l] == b[l] {
        assert l > 0 ==> a[1..][l - 1] == b[1..][l - 1];
      }
    }
  }

  lemma {:induction false} BeforeIrreflexive(a: string)
    ensures !Before(a, a)
  {
    if a != "" {
      BeforeIrreflexive(a[1..]);
    }
  }

  lemma {:induction false} BeforeTransitive(a: string, b: string, c: string)
    requires Before(a, b) && Before(b, c)
    ensures Before(a, c)
  {
    if a != "" && a[0] == b[0] == c[0] {
      BeforeTransitive(a[1..], b[1..], c[1..]);
    }
  }

  lemma {:induction false} BeforeTotal(a: string, b: string)
    ensures Before(a, b) || Before(b, a) || a == b
  {
    if a != "" && b != "" && a[0] == b[0] {
      BeforeTotal(a[1..], b[1..]);
      assert a == [a[0]] + a[1..] && b == [b[0]] + b[1..];
    }
  }

  ghost predicate Sorted(s: seq<string>) {
    forall i, j | 0 <= i < j < |s| :: Before(s[i], s[j])
  }

  /** Two sorted sequences of the same strings are the same sequence. */
  lemma {:induction false} SortedUnique(a: seq<string>, b: seq<string>)
    requires Sorted(a) && Sorted(b)
    requires forall s :: s in a <==> s in b
    ensures a == b
  {
    if a == [] {
      SomeMember(b);
    } else {
      assert a[0] in a && b != [];
      assert a[0] == b[0] by {
        SameHead(a, b);
      }
      HeadOnce(a);
      HeadOnce(b);
      forall s ensures s in a[1..] <==> s in b[1..] {
        TailMember(a, s);
        TailMember(b, s);
      }
      SortedUnique(a[1..], b[1..]);
      assert a == [a[0]] + a[1..] && b == [b[0]] + b[1..];
    }
  }

  lemma SomeMember(a: seq<string>)
    ensures a != [] ==> exists s :: s in a
  {
    if a != [] {
      assert a[0] in a;
    }
  }

  lemma TailMember(a: seq<string>, s: string)
    requires a != []
    ensures s in a <==> s == a[0] || s in a[1..]
  {
    assert a == [a[0]] + a[1..];
  }

  lemma HeadOnce(a: seq<string>)
    requires a != [] && Sorted(a)
    ensures a[0] !in a[1..]
  {
    BeforeIrreflexive(a[0]);
  }

  lemma SameHead(a: seq<string>, b: seq<string>)
    requires a != [] && b != [] && Sorted(a) && Sorted(b)
    requires forall s :: s in a <==> s in b
    ensures a[0] == b[0]
  {
    assert a[0] in b && b[0] in a;
    if a[0] != b[0] {
      assert Before(b[0], a[0]) && Before(a[0], b[0]);
      BeforeTransitive(a[0], b[0], a[0]);
      BeforeIrreflexive(a[0]);
    }
  }

  // sort.Strings, on strings that do not repeat.
  method Sort(keys: seq<string>) returns (sorted: seq<string>)
    requires forall i, j | 0 <= i < j < |keys| :: keys[i] != keys[j]
    ensures Sorted(sorted)
    ensures forall s :: s in sorted <==> s in keys
  {
    sorted := [];
    for i := 0 to |keys|
      invariant Sorted(sorted)
      invariant forall s :: s in sorted <==> s in keys[..i]
    {
      var at := Position(sorted, keys[i]);
      assert keys[i] !in keys[..i];
      assert keys[..i + 1] == keys[..i] + [keys[i]];
      sorted := Inserted(sorted, at, keys[i]);
    }
    assert keys[..|keys|] == keys;
  }

  method Position(sorted: seq<string>, key: string) returns (at: nat)
    ensures at <= |sorted|
    ensures forall i | 0 <= i < at :: Before(sorted[i], key)
    ensures at < |sorted| ==> !Before(sorted[at], key)
  {
    at := 0;
    while at < |sorted| && Before(sorted[at], key)
      invariant at <= |sorted|
      invariant forall i | 0 <= i < at :: Before(sorted[i], key)
    {
      at := at + 1;
    }
  }

  // Everything from the insertion point on comes after the new key.
  lemma KeyBefore(sorted: seq<string>, at: nat, key: string, i: nat)
    requires at <= i < |sorted| && Sorted(sorted) && key !in sorted && !Before(sorted[at], key)
    ensures Before(key, sorted[i])
  {
    BeforeTotal(sorted[at], key);
    assert sorted[at] in sorted;
    if i > at {
      BeforeTransitive(key, sorted[at], sorted[i]);
    }
  }

  lemma InsertMembers(sorted: seq<string>, at: nat, key: string)
    requires at <= |sorted|
    ensures forall s :: s in sorted[..at] + [key] + sorted[at..] <==> s in sorted || s == key
  {
    assert sorted == sorted[..at] + sorted[at..];
  }

  lemma InsertSorted(sorted: seq<string>, at: nat, key: string)
    requires at <= |sorted| && Sorted(sorted)
    requires forall i | 0 <= i < at :: Before(sorted[i], key)
    requires forall i | at <= i < |sorted| :: Before(key, sorted[i])
    ensures Sorted(sorted[..at] + [key] + sorted[at..])
  {
  }

  function Inserted(sorted: seq<string>, at: nat, key: string): (r: seq<string>)
    requires at <= |sorted| && Sorted(sorted) && key !in sorted
    requires forall i | 0 <= i < at :: Before(sorted[i], key)
    requires at < |sorted| ==> !Before(sorted[at], key)
    ensures Sorted(r) && |r| == |sorted| + 1
    ensures forall s :: s in r <==> s in sorted || s == key
  {
    assert Sorted(sorted[..at] + [key] + sorted[at..]) by {
      forall i | at <= i < |sorted| ensures Before(key, sorted[i]) {
        KeyBefore(sorted, at, key, i);
      }
      InsertSorted(sorted, at, key);
    }
    InsertMembers(sorted, at, key);
    sorted[..at] + [key] + sorted[at..]
  }
}
