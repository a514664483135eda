/** Prices and the hash that identifies one price of a product (price/price.go). */
module Prices {
  import opened Orders
  import opened Strings

  datatype Price = Price(Unit: string, Currency: string, Value: real, Attributes: map<string, string>)

  // The attribute names in ascending order.
  ghost function SortedKeys(keys: set<string>): (sorted: seq<string>)
    ensures Sorted(sorted) && forall k :: k in sorted <==> k in keys
  {
    if keys == {} then [] else
      var k :| k in keys;
      var rest := SortedKeys(keys - {k});
      var at := PositionOf(rest, k);
      Inserted(rest, at, k)
  }

  ghost function PositionOf(sorted: seq<string>, key: string): (at: nat)
    ensures at <= |sorted|
    ensures forall i | 0 <= i < at :: Before(sorted[i], key)
    ensures at < |sorted| ==> !Before(sorted[at], key)
  {
    if sorted == [] || !Before(sorted[0], key) then 0 else 1 + PositionOf(sorted[1..], key)
  }

  // The parts of the hashed text: the values of the attributes, without their names.
  ghost function Parts(unit: string, currency: string, attributes: map<string, string>): seq<string> {
    [unit, currency] + Along(attributes, SortedKeys(attributes.Keys))
  }

  ghost function PreImage(unit: string, currency: string, attributes: map<string, string>): string {
    Join(Parts(unit, currency, attributes), '-')
  }

  // The hash of a price for a given digest function (MD5, in hexadecimal).
  ghost function Hash(digest: string -> string, p: Price): string {
    digest(PreImage(p.Unit, p.Currency, p.Attributes))
  }

  method CollectKeys(attributes: map<string, string>) returns (keys: seq<string>)
    ensures forall k :: k in keys <==> k in attributes
    ensures forall i, j | 0 <= i < j < |keys| :: keys[i] != keys[j]
  {
    keys := [];
    var rest := attributes.Keys;
    while rest != {}
      invariant rest <= attributes.Keys
      invariant forall k :: k in keys <==> k in attributes.Keys - rest
      invariant forall i, j | 0 <= i < j < |keys| :: keys[i] != keys[j]
    {
      var k :| k in rest;
      assert forall i | 0 <= i < |keys| :: keys[i] in keys;
      keys, rest := keys + [k], rest - {k};
    }
  }

  method CollectValues(p: Price, keys: seq<string>) returns (values: seq<string>)
    requires forall k <- keys :: k in p.Attributes
    ensures values == [p.Unit, p.Currency] + Along(p.Attributes, keys)
  {
    values := [p.Unit, p.Currency];
    for i := 0 to |keys|
      invariant |values| == 2 + i && values[..2] == [p.Unit, p.Currency]
      invariant forall j | 0 <= j < i :: values[2 + j] == p.Attributes[keys[j]]
    {
      assert keys[i] in keys;
      values := values + [p.Attributes[keys[i]]];
    }
  }

  // Unit, currency and the attribute values in the order of their names, joined.
  ghost predicate IsText(p: Price, text: string) {
    exists names :: IsTextBy(p, names, text)
  }

  ghost predicate IsTextBy(p: Price, names: seq<string>, text: string) {
    && Sorted(names) && (forall k :: k in names <==> k in p.Attributes)
    && text == Join([p.Unit, p.Currency] + Along(p.Attributes, names), '-')
  }

  /** The hash is the same for every order in which the attributes are visited. */
  method GenerateHash(digest: string -> string, p: Price) returns (hash: string)
    ensures hash == Hash(digest, p)
    ensures exists text :: IsText(p, text) && hash == digest(text)
  {
    HashOfText(digest, p);
    var keys := CollectKeys(p.Attributes);
    keys := Sort(keys);
    SortedUnique(keys, SortedKeys(p.Attributes.Keys));
    var values := CollectValues(p, keys);
    hash := digest(Join(values, '-'));
  }

  lemma HashOfText(digest: string -> string, p: Price)
    ensures IsText(p, PreImage(p.Unit, p.Currency, p.Attributes))
    ensures Hash(digest, p) == digest(PreImage(p.Unit, p.Currency, p.Attributes))
  {
    assert IsTextBy(p, SortedKeys(p.Attributes.Keys), PreImage(p.Unit, p.Currency, p.Attributes));
  }

  lemma TextUnique(p: Price, text: string)
    requires IsText(p, text)
    ensures text == PreImage(p.Unit, p.Currency, p.Attributes)
  {
    var names :| IsTextBy(p, names, text);
    SortedUnique(names, SortedKeys(p.Attributes.Keys));
  }

  ghost predicate Injective(digest: string -> string) {
    forall s, t :: digest(s) == digest(t) ==> s == t
  }

  /** With a digest that tells texts apart, two prices have one hash exactly when
      their joined texts are the same: the amount plays no part. */
  lemma HashExactly(digest: string -> string, p: Price, q: Price, s: string, t: string)
    requires Injective(digest) && IsText(p, s) && IsText(q, t)
    ensures Hash(digest, p) == Hash(digest, q) <==> s == t
  {
    TextUnique(p, s);
    TextUnique(q, t);
    HashOfText(digest, p);
    HashOfText(digest, q);
  }

  ghost predicate DashFree(unit: string, currency: string, attributes: map<string, string>) {
    '-' !in unit && '-' !in currency && forall k | k in attributes :: '-' !in attributes[k]
  }

  lemma DashFreeParts(unit: string, currency: string, attributes: map<string, string>)
    requires DashFree(unit, currency, attributes)
    ensures forall p <- Parts(unit, currency, attributes) :: '-' !in p
  {
    var order := SortedKeys(attributes.Keys);
    var values := Along(attributes, order);
    forall p | p in Parts(unit, currency, attributes) ensures '-' !in p {
      if p in values {
        var i :| 0 <= i < |values| && values[i] == p;
        assert order[i] in order;
      }
    }
  }

  /** Among texts without dashes, the hashed text determines exactly the unit,
      the currency and the attribute values in name order. */
  lemma PreImageDetermines(u: string, c: string, a: map<string, string>, u': string, c': string, a': map<string, string>)
    requires DashFree(u, c, a) && DashFree(u', c', a')
    ensures PreImage(u, c, a) == PreImage(u', c', a') <==>
              u == u' && c == c' && Along(a, SortedKeys(a.Keys)) == Along(a', SortedKeys(a'.Keys))
  {
    DashFreeParts(u, c, a);
    DashFreeParts(u', c', a');
    JoinInjective(Parts(u, c, a), Parts(u', c', a'), '-');
    if Parts(u, c, a) == Parts(u', c', a') {
      assert Parts(u, c, a)[2..] == Along(a, SortedKeys(a.Keys));
      assert Parts(u', c', a')[2..] == Along(a', SortedKeys(a'.Keys));
      assert u == Parts(u, c, a)[0] && c == Parts(u, c, a)[1];
    }
  }

  // ----- which prices share their hashed text with another -----

  function IndexOf(order: seq<string>, k: string): (i: nat)
    requires k in order
    ensures i < |order| && order[i] == k
  {
    if order[0] == k then 0 else 1 + IndexOf(order[1..], k)
  }

  // The map that holds the values in this order of its names.
  function Assign(order: seq<string>, values: seq<string>): map<string, string>
    requires |order| == |values|
  {
    map k | k in order :: values[IndexOf(order, k)]
  }

  lemma AssignAlong(order: seq<string>, values: seq<string>)
    requires |order| == |values| && forall i, j | 0 <= i < j < |order| :: order[i] != order[j]
    ensures Along(Assign(order, values), order) == values
  {
    var along := Along(Assign(order, values), order);
    forall i | 0 <= i < |order| ensures along[i] == values[i] {
      assert IndexOf(order, order[i]) == i;
    }
  }

  lemma SortedDistinct(order: seq<string>)
    requires Sorted(order)
    ensures forall i, j | 0 <= i < j < |order| :: order[i] != order[j]
  {
    forall i, j | 0 <= i < j < |order| ensures order[i] != order[j] {
      BeforeIrreflexive(order[i]);
    }
  }

  // Any list of the right length is the parts of some price with these names.
  lemma PriceWith(keys: set<string>, parts: seq<string>) returns (a: map<string, string>)
    requires |parts| == 2 + |SortedKeys(keys)|
    ensures a.Keys == keys && Parts(parts[0], parts[1], a) == parts
  {
    var order, values := SortedKeys(keys), parts[2..];
    SortedDistinct(order);
    a := Assign(order, values);
    AssignAlong(order, values);
    AssignKeys(order, values, keys);
    PartsAre(parts[0], parts[1], a, keys, values);
    FirstTwo(parts);
  }

  lemma FirstTwo(parts: seq<string>)
    requires |parts| >= 2
    ensures parts == [parts[0], parts[1]] + parts[2..]
  {
  }

  lemma AssignKeys(order: seq<string>, values: seq<string>, keys: set<string>)
    requires |order| == |values| && forall k :: k in order <==> k in keys
    ensures Assign(order, values).Keys == keys
  {
  }

  lemma PartsAre(u: string, c: string, a: map<string, string>, keys: set<string>, values: seq<string>)
    requires a.Keys == keys && Along(a, SortedKeys(keys)) == values
    ensures Parts(u, c, a) == [u, c] + values
  {
  }

  /** With the same attribute names, a price without dashes shares its hashed text
      with no other price, whatever that one holds. */
  lemma PreImageInjective(u: string, c: string, a: map<string, string>, u': string, c': string, a': map<string, string>)
    requires DashFree(u, c, a) && a.Keys == a'.Keys
    ensures PreImage(u, c, a) == PreImage(u', c', a') <==> u == u' && c == c' && a == a'
  {
    if PreImage(u, c, a) == PreImage(u', c', a') {
      DashFreeParts(u, c, a);
      JoinUnique(Parts(u, c, a), Parts(u', c', a'), '-');
      SameParts(u, c, a, u', c', a');
    }
  }

  /** So with the same attribute names and no dash in one of them, they have one hash
      exactly when unit, currency and attributes are equal. */
  lemma HashInjective(digest: string -> string, p: Price, q: Price)
    requires Injective(digest) && DashFree(p.Unit, p.Currency, p.Attributes) && p.Attributes.Keys == q.Attributes.Keys
    ensures Hash(digest, p) == Hash(digest, q) <==> p.Unit == q.Unit && p.Currency == q.Currency && p.Attributes == q.Attributes
  {
    HashOfText(digest, p);
    HashOfText(digest, q);
    PreImageInjective(p.Unit, p.Currency, p.Attributes, q.Unit, q.Currency, q.Attributes);
  }

  lemma SameParts(u: string, c: string, a: map<string, string>, u': string, c': string, a': map<string, string>)
    requires a.Keys == a'.Keys && Parts(u, c, a) == Parts(u', c', a')
    ensures u == u' && c == c' && a == a'
  {
    var order := SortedKeys(a.Keys);
    TwoAndRest(u, c, Along(a, order));
    TwoAndRest(u', c', Along(a', order));
    AlongDetermines(a, a', order);
  }

  lemma TwoAndRest(u: string, c: string, values: seq<string>)
    ensures var parts := [u, c] + values; parts[0] == u && parts[1] == c && parts[2..] == values
  {
  }

  lemma AlongDetermines(a: map<string, string>, b: map<string, string>, order: seq<string>)
    requires a.Keys == b.Keys && (forall k :: k in order <==> k in a) && Along(a, order) == Along(b, order)
    ensures a == b
  {
    forall k | k in a ensures a[k] == b[k] {
      assert Along(a, order)[IndexOf(order, k)] == Along(b, order)[IndexOf(order, k)];
    }
  }

  // Another price with these names and this hashed text.
  ghost predicate Twin(u: string, c: string, a: map<string, string>, u': string, c': string, a': map<string, string>) {
    a'.Keys == a.Keys && PreImage(u', c', a') == PreImage(u, c, a) && !(u' == u && c' == c && a' == a)
  }

  lemma DashInValues(u: string, c: string, a: map<string, string>, k: string) returns (i: nat)
    requires k in a && '-' in a[k]
    ensures 2 <= i < |Parts(u, c, a)| && '-' in Parts(u, c, a)[i]
  {
    var order := SortedKeys(a.Keys);
    var values, j := Along(a, order), IndexOf(order, k);
    i := j + 2;
    assert values[j] == a[k];
    PartAt(u, c, values, j);
    assert Parts(u, c, a) == [u, c] + values;
  }

  lemma PartAt(u: string, c: string, values: seq<string>, j: nat)
    requires j < |values|
    ensures j + 2 < |[u, c] + values| && ([u, c] + values)[j + 2] == values[j]
  {
  }

  lemma DashSomewhere(u: string, c: string, a: map<string, string>) returns (i: nat)
    requires !DashFree(u, c, a)
    ensures i < |Parts(u, c, a)| && '-' in Parts(u, c, a)[i] && ('-' !in c ==> i != 1)
  {
    if '-' in u {
      i := 0;
    } else if '-' in c {
      i := 1;
    } else {
      var k :| k in a && '-' in a[k];
      i := DashInValues(u, c, a, k);
    }
  }

  /** A price shares its hashed text with another one of the same attribute names
      exactly when its unit, its currency or a value has a dash. */
  lemma TwinExactly(u: string, c: string, a: map<string, string>)
    ensures (exists u', c', a' :: Twin(u, c, a, u', c', a')) <==> !DashFree(u, c, a)
  {
    if u', c', a' :| Twin(u, c, a, u', c', a') {
      if DashFree(u, c, a) {
        PreImageInjective(u, c, a, u', c', a');
      }
    }
    if !DashFree(u, c, a) {
      var i := DashSomewhere(u, c, a);
      var other := Recut(Parts(u, c, a), i, '-');
      var a' := PriceWith(a.Keys, other);
      assert Twin(u, c, a, other[0], other[1], a');
    }
  }

  /** Among prices whose currency has no dash that takes an attribute: one without
      any shares its hashed text with no other. */
  lemma TwinAmongCurrenciesExactly(u: string, c: string, a: map<string, string>)
    requires '-' !in c
    ensures (exists u', c', a' :: '-' !in c' && Twin(u, c, a, u', c', a')) <==> !DashFree(u, c, a) && a != map[]
  {
    if u', c', a' :| '-' !in c' && Twin(u, c, a, u', c', a') {
      if DashFree(u, c, a) {
        PreImageInjective(u, c, a, u', c', a');
      } else if a == map[] {
        NoAttributes(u, c, u', c');
      }
    }
    if !DashFree(u, c, a) && a != map[] {
      var i := DashSomewhere(u, c, a);
      assert exists k :: k in SortedKeys(a.Keys) by {
        var k :| k in a;
        assert k in a.Keys;
      }
      var other := RecutKeepingCurrency(Parts(u, c, a), i);
      var a' := PriceWith(a.Keys, other);
      assert Twin(u, c, a, other[0], other[1], a');
    }
  }

  lemma NoAttributes(u: string, c: string, u': string, c': string)
    requires '-' !in c && '-' !in c'
    ensures PreImage(u, c, map[]) == PreImage(u', c', map[]) ==> u == u' && c == c'
  {
    JoinPair(u, c);
    JoinPair(u', c');
    LastDash(u, c);
    LastDash(u', c');
  }

  lemma JoinPair(u: string, c: string)
    ensures Parts(u, c, map[]) == [u, c] && Join([u, c], '-') == u + ['-'] + c
  {
    var none: map<string, string> := map[];
    assert none.Keys == {} && SortedKeys(none.Keys) == [];
    assert [u, c][1..] == [c];
  }

  lemma LastDash(u: string, c: string)
    requires '-' !in c
    ensures var s := u + ['-'] + c;
            && s[..|u|] == u && s[|u|] == '-' && s[|u| + 1..] == c
            && forall i | |u| < i < |s| :: s[i] != '-'
  {
    var s := u + ['-'] + c;
    assert forall i | |u| < i < |s| :: s[i] == c[i - |u| - 1];
  }

  // The last dash of a text, cut there.
  lemma CutLast(s: string) returns (x: string, y: string)
    requires '-' in s
    ensures s == x + ['-'] + y && '-' !in y
    decreases |s|
  {
    var n := |s| - 1;
    if s[n] == '-' {
      x, y := s[..n], "";
    } else {
      assert s == s[..n] + [s[n]];
      x, y := CutLast(s[..n]);
      y := y + [s[n]];
    }
  }

  // Another list with the same join whose second part has no dash either.
  lemma RecutKeepingCurrency(parts: seq<string>, i: nat) returns (other: seq<string>)
    requires |parts| >= 3 && i < |parts| && i != 1 && '-' in parts[i] && '-' !in parts[1]
    ensures |other| == |parts| && Join(other, '-') == Join(parts, '-') && other != parts && '-' !in other[1]
  {
    if i == 0 {
      other := RecutUnit(parts);
    } else if |parts| == 3 {
      other := RecutOnly(parts);
    } else {
      other := Recut(parts, i, '-');
    }
  }

  lemma RecutUnit(parts: seq<string>) returns (other: seq<string>)
    requires |parts| >= 3 && '-' in parts[0]
    ensures |other| == |parts| && Join(other, '-') == Join(parts, '-') && other != parts && '-' !in other[1]
  {
    var x, y := CutLast(parts[0]);
    var mid := parts[0 := x][1 := y + ['-'] + parts[1]];
    assert x + ['-'] + (y + ['-'] + parts[1]) == parts[0] + ['-'] + parts[1];
    JoinRecut(parts, 0, x, y + ['-'] + parts[1], '-');
    other := mid[1 := y][2 := parts[1] + ['-'] + parts[2]];
    assert y + ['-'] + (parts[1] + ['-'] + parts[2]) == mid[1] + ['-'] + mid[2];
    JoinRecut(mid, 1, y, parts[1] + ['-'] + parts[2], '-');
  }

  // With a single attribute the unit takes the currency, and the value gives one.
  lemma RecutOnly(parts: seq<string>) returns (other: seq<string>)
    requires |parts| == 3 && '-' in parts[2]
    ensures |other| == 3 && Join(other, '-') == Join(parts, '-') && other != parts && '-' !in other[1]
  {
    var x, y := Cut(parts[2], '-');
    var mid := parts[1 := parts[1] + ['-'] + x][2 := y];
    assert (parts[1] + ['-'] + x) + ['-'] + y == parts[1] + ['-'] + parts[2];
    JoinRecut(parts, 1, parts[1] + ['-'] + x, y, '-');
    other := mid[0 := parts[0] + ['-'] + parts[1]][1 := x];
    assert (parts[0] + ['-'] + parts[1]) + ['-'] + x == mid[0] + ['-'] + mid[1];
    JoinRecut(mid, 0, parts[0] + ['-'] + parts[1], x, '-');
  }

  // ----- prices in currencies that the store accepts -----

  function Pieces(s: string): seq<string> {
    Split(s, '-')
  }

  ghost predicate DashInValue(a: map<string, string>) {
    exists k | k in a :: '-' in a[k]
  }

  // Piece t of the hashed text is a currency other than the one of the price:
  // there is a unit before it, and a piece for every attribute after it.
  ghost predicate OtherCode(code: string -> bool, u: string, c: string, a: map<string, string>, t: nat) {
    var pieces := Pieces(PreImage(u, c, a));
    t != |Pieces(u)| && 1 <= t && t + |a| < |pieces| && code(pieces[t])
  }

  ghost predicate TwinIn(code: string -> bool, u: string, c: string, a: map<string, string>,
                         u': string, c': string, a': map<string, string>) {
    code(c') && Twin(u, c, a, u', c', a')
  }

  lemma {:induction false} SortedCount(sorted: seq<string>, keys: set<string>)
    requires Sorted(sorted) && forall k :: k in sorted <==> k in keys
    ensures |sorted| == |keys|
  {
    if sorted == [] {
      assert keys == {};
    } else {
      assert sorted[0] in sorted;
      HeadOnce(sorted);
      forall k ensures k in sorted[1..] <==> k in keys - {sorted[0]} {
        TailMember(sorted, k);
      }
      SortedCount(sorted[1..], keys - {sorted[0]});
    }
  }

  ghost function ValuesOf(a: map<string, string>): (values: seq<string>)
    ensures |values| == |a|
  {
    SortedCount(SortedKeys(a.Keys), a.Keys);
    Along(a, SortedKeys(a.Keys))
  }

  lemma DashFreePieces(s: string)
    requires '-' !in s
    ensures Pieces(s) == [s]
  {
    SplitOne(s, '-');
  }

  // The unit gives the first pieces, then comes the currency, then the values.
  lemma PiecesOf(u: string, c: string, values: seq<string>)
    requires '-' !in c && values != []
    ensures Pieces(Join([u, c] + values, '-')) == Pieces(u) + ([c] + Pieces(Join(values, '-')))
  {
    assert [u, c] + values == [u] + ([c] + values);
    JoinCons(u, [c] + values, '-');
    JoinCons(c, values, '-');
    SplitConcat(u, c + ['-'] + Join(values, '-'), '-');
    SplitConcat(c, Join(values, '-'), '-');
    DashFreePieces(c);
  }

  lemma PriceTextPieces(u: string, c: string, a: map<string, string>)
    requires '-' !in c && a != map[]
    ensures Pieces(PreImage(u, c, a)) == Pieces(u) + ([c] + Pieces(Join(ValuesOf(a), '-')))
  {
    assert |a| > 0;
    PiecesOf(u, c, ValuesOf(a));
  }

  lemma EnoughPieces(a: map<string, string>)
    requires a != map[]
    ensures |Pieces(Join(ValuesOf(a), '-'))| >= |a|
  {
    assert |a| > 0;
    SplitAtLeast(ValuesOf(a), '-');
  }

  lemma MiddlePiece(x: seq<string>, c: string, y: seq<string>)
    ensures var all := x + ([c] + y); all[|x|] == c && all[..|x|] == x && all[|x| + 1..] == y
  {
  }

  lemma PiecesDetermine(s: string, t: string)
    requires Pieces(s) == Pieces(t)
    ensures s == t
  {
    JoinSplit(s, '-');
    JoinSplit(t, '-');
  }

  lemma TwinHasAttributes(u: string, c: string, a: map<string, string>, u': string, c': string, a': map<string, string>)
    requires '-' !in c && '-' !in c' && Twin(u, c, a, u', c', a')
    ensures a != map[] && a' != map[] && |a'| == |a|
  {
    if a == map[] {
      NoAttributes(u, c, u', c');
    }
    assert |a.Keys| == |a| && |a'.Keys| == |a'|;
  }

  // A twin has its currency elsewhere, or other values with the same join.
  lemma TwinGives(code: string -> bool, u: string, c: string, a: map<string, string>,
                  u': string, c': string, a': map<string, string>)
    requires '-' !in c && '-' !in c' && TwinIn(code, u, c, a, u', c', a')
    ensures OtherCode(code, u, c, a, |Pieces(u')|) || (|a| >= 2 && DashInValue(a))
  {
    TwinHasAttributes(u, c, a, u', c', a');
    PriceTextPieces(u, c, a);
    PriceTextPieces(u', c', a');
    EnoughPieces(a');
    MiddlePiece(Pieces(u), c, Pieces(Join(ValuesOf(a), '-')));
    MiddlePiece(Pieces(u'), c', Pieces(Join(ValuesOf(a'), '-')));
    if |Pieces(u)| == |Pieces(u')| {
      PiecesDetermine(u, u');
      PiecesDetermine(Join(ValuesOf(a), '-'), Join(ValuesOf(a'), '-'));
      OtherValues(a, a');
    }
  }

  lemma OtherValues(a: map<string, string>, a': map<string, string>)
    requires a'.Keys == a.Keys && a != a' && a != map[] && Join(ValuesOf(a), '-') == Join(ValuesOf(a'), '-')
    ensures |a| >= 2 && DashInValue(a)
  {
    var values := ValuesOf(a);
    assert |a| > 0;
    if !DashInValue(a) {
      NoDashes(a);
      JoinUnique(values, ValuesOf(a'), '-');
    } else if |a| == 1 {
      OnlyOne(values, ValuesOf(a'));
    }
    if values == ValuesOf(a') {
      AlongDetermines(a, a', SortedKeys(a.Keys));
    }
  }

  lemma NoDashes(a: map<string, string>)
    requires !DashInValue(a)
    ensures forall p <- ValuesOf(a) :: '-' !in p
  {
    var order, values := SortedKeys(a.Keys), ValuesOf(a);
    forall p | p in values ensures '-' !in p {
      var i :| 0 <= i < |values| && values[i] == p;
      assert order[i] in order;
    }
  }

  lemma OnlyOne(x: seq<string>, y: seq<string>)
    requires |x| == 1 && |y| == 1 && Join(x, '-') == Join(y, '-')
    ensures x == y
  {
  }

  lemma RecutValue(u: string, c: string, values: seq<string>, i: nat) returns (other: seq<string>)
    requires |values| >= 2 && 2 <= i < |values| + 2 && '-' in ([u, c] + values)[i]
    ensures |other| == |values| + 2 && other != [u, c] + values && other[0] == u && other[1] == c
    ensures Join(other, '-') == Join([u, c] + values, '-')
  {
    other := Recut([u, c] + values, i, '-');
  }

  // The same unit and currency, with two values cut elsewhere.
  lemma TwinByValues(u: string, c: string, a: map<string, string>) returns (a': map<string, string>)
    requires |a| >= 2 && DashInValue(a)
    ensures Twin(u, c, a, u, c, a')
  {
    var k :| k in a && '-' in a[k];
    var i := DashInValues(u, c, a, k);
    var other := RecutValue(u, c, ValuesOf(a), i);
    a' := PriceWith(a.Keys, other);
  }

  // The currency at piece t, the unit before it and the values after it.
  lemma TwinAt(code: string -> bool, u: string, c: string, a: map<string, string>, t: nat)
    returns (u': string, c': string, a': map<string, string>)
    requires '-' !in c && a != map[] && OtherCode(code, u, c, a, t)
    ensures TwinIn(code, u, c, a, u', c', a')
  {
    var pieces := Pieces(PreImage(u, c, a));
    JoinSplit(PreImage(u, c, a), '-');
    assert |a| > 0 && pieces[t] in pieces;
    a' := PriceFrom(pieces, t, a.Keys);
    u', c' := Join(pieces[..t], '-'), pieces[t];
    SplitJoin(pieces[..t], '-');
    PiecesDetermine(PreImage(u, c, a), PreImage(u', c', a'));
  }

  // A price whose hashed text has these pieces, with the currency at piece t.
  lemma PriceFrom(pieces: seq<string>, t: nat, keys: set<string>) returns (a: map<string, string>)
    requires 1 <= t && keys != {} && t + |keys| < |pieces| && forall p <- pieces :: '-' !in p
    ensures a.Keys == keys && Pieces(PreImage(Join(pieces[..t], '-'), pieces[t], a)) == pieces
  {
    assert |keys| > 0;
    var parts := PartsFrom(pieces, t, |keys|);
    SortedCount(SortedKeys(keys), keys);
    a := PriceWith(keys, parts);
  }

  lemma PartsFrom(pieces: seq<string>, t: nat, n: nat) returns (parts: seq<string>)
    requires 1 <= t && 1 <= n && t + n < |pieces| && forall p <- pieces :: '-' !in p
    ensures |parts| == 2 + n && parts[0] == Join(pieces[..t], '-') && parts[1] == pieces[t]
    ensures Pieces(Join(parts, '-')) == pieces
  {
    var u, c, rest := Join(pieces[..t], '-'), pieces[t], pieces[t + 1..];
    var values := Grouped(rest, n, '-');
    parts := [u, c] + values;
    assert c in pieces;
    PiecesOf(u, c, values);
    GroupedJoin(rest, n, '-');
    SplitJoin(pieces[..t], '-');
    SplitJoin(rest, '-');
    ThreeCuts(pieces, t);
  }

  lemma ThreeCuts(pieces: seq<string>, t: nat)
    requires t < |pieces|
    ensures pieces == pieces[..t] + ([pieces[t]] + pieces[t + 1..])
  {
  }

  /** Among the currencies that the store accepts, a price shares its hashed text
      with another one of the same names exactly when it has two attributes and a
      dash in a value, or another piece of its text is such a currency, with a unit
      before it and a piece for every attribute after it. */
  lemma TwinAmongCodesExactly(code: string -> bool, u: string, c: string, a: map<string, string>)
    requires code(c) && forall x | code(x) :: '-' !in x
    ensures (exists u', c', a' :: TwinIn(code, u, c, a, u', c', a')) <==>
              (|a| >= 2 && DashInValue(a)) || (a != map[] && exists t :: OtherCode(code, u, c, a, t))
  {
    if u', c', a' :| TwinIn(code, u, c, a, u', c', a') {
      TwinGives(code, u, c, a, u', c', a');
      TwinHasAttributes(u, c, a, u', c', a');
    }
    if |a| >= 2 && DashInValue(a) {
      var a' := TwinByValues(u, c, a);
      assert TwinIn(code, u, c, a, u, c, a');
    }
    if a != map[] {
      if t :| OtherCode(code, u, c, a, t) {
        var u', c', a' := TwinAt(code, u, c, a, t);
      }
    }
  }

  /** With one dash in the unit, as in GB-Mo, and none in the values, that is when
      what follows the dash is such a currency. */
  lemma DashedUnitExactly(code: string -> bool, x: string, y: string, c: string, a: map<string, string>)
    requires code(c) && (forall s | code(s) :: '-' !in s) && a != map[]
    requires '-' !in x && '-' !in y && !DashInValue(a)
    ensures (exists u', c', a' :: TwinIn(code, x + ['-'] + y, c, a, u', c', a')) <==> code(y)
  {
    TwinAmongCodesExactly(code, x + ['-'] + y, c, a);
    DashedCodes(code, x, y, c, a);
  }

  lemma DashedCodes(code: string -> bool, x: string, y: string, c: string, a: map<string, string>)
    requires '-' !in x && '-' !in y && '-' !in c && !DashInValue(a) && a != map[]
    ensures (exists t :: OtherCode(code, x + ['-'] + y, c, a, t)) <==> code(y)
  {
    DashedPieces(x, y, c, a);
    OnlySecond(x, y, c, ValuesOf(a));
    if code(y) {
      assert OtherCode(code, x + ['-'] + y, c, a, 1);
    }
  }

  lemma DashedPieces(x: string, y: string, c: string, a: map<string, string>)
    requires '-' !in x && '-' !in y && '-' !in c && !DashInValue(a) && a != map[]
    ensures |Pieces(x + ['-'] + y)| == 2
    ensures Pieces(PreImage(x + ['-'] + y, c, a)) == [x, y] + ([c] + ValuesOf(a))
  {
    SplitConcat(x, y, '-');
    DashFreePieces(x);
    DashFreePieces(y);
    PriceTextPieces(x + ['-'] + y, c, a);
    assert |a| > 0;
    NoDashes(a);
    SplitJoin(ValuesOf(a), '-');
  }

  lemma OnlySecond(x: string, y: string, c: string, values: seq<string>)
    ensures var pieces := [x, y] + ([c] + values); |pieces| == 3 + |values| && pieces[1] == y
  {
  }

  lemma SortedKeysOne(k: string)
    ensures SortedKeys({k}) == [k]
  {
    SortedUnique(SortedKeys({k}), [k]);
  }

  /** The names are not hashed: two prices whose one attribute differs only in
      its name always collide. */
  lemma NamesCollide(u: string, c: string, k: string, k': string, v: string)
    ensures PreImage(u, c, map[k := v]) == PreImage(u, c, map[k' := v])
  {
    SortedKeysOne(k);
    SortedKeysOne(k');
    assert map[k := v].Keys == {k} && map[k' := v].Keys == {k'};
    assert Along(map[k := v], [k]) == Along(map[k' := v], [k']);
  }

  /** A dash in a value can be read as a separator: whatever the unit and the
      currency, these two prices collide. */
  lemma DashesCollide(u: string, c: string, x: string, y: string, z: string)
    ensures PreImage(u, c, map["a" := x + "-" + y, "b" := z]) == PreImage(u, c, map["a" := x, "b" := y + "-" + z])
  {
    PartsOfTwo(u, c, x + "-" + y, z);
    PartsOfTwo(u, c, x, y + "-" + z);
    var parts, other := [u, c, x + "-" + y, z], [u, c, x, y + "-" + z];
    assert "-" == ['-'];
    assert x + ['-'] + (y + "-" + z) == parts[2] + ['-'] + parts[3];
    assert other == parts[2 := x][3 := y + "-" + z];
    JoinRecut(parts, 2, x, y + "-" + z, '-');
  }

  lemma PartsOfTwo(u: string, c: string, v: string, w: string)
    ensures Parts(u, c, map["a" := v, "b" := w]) == [u, c, v, w]
  {
    var a := map["a" := v, "b" := w];
    assert Before("a", "b");
    SortedUnique(SortedKeys(a.Keys), ["a", "b"]);
    assert Along(a, ["a", "b"]) == [v, w];
  }
}
