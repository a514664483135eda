/** Monthly costs and their addition (cost/cost.go, cost/component.go). */
module Costs {
  import opened Wrappers
  import opened Orders

  // A Go decimal is a struct around a pointer. `Unset` is the literal empty
  // struct; every computed decimal, zero included, is `Is`.
  datatype Decimal = Unset | Is(v: real) {
    function Amount(): real {
      if Unset? then 0.0 else v
    }

    predicate IsZero() {
      Amount() == 0.0
    }
  }

  datatype Cost = Cost(Decimal: Decimal, Currency: string)

  datatype CurrencyMismatch = CurrencyMismatch(expected: string, got: string)

  type Total = Result<Cost, CurrencyMismatch>

  const Zero := Cost(Unset, "")

  const HOURS_PER_MONTH := 730.0

  function NewMonthly(monthly: Decimal, currency: string): Cost {
    Cost(monthly, currency)
  }

  function NewHourly(hourly: Decimal, currency: string): Cost {
    Cost(Is(hourly.Amount() * HOURS_PER_MONTH), currency)
  }

  // `c2 == Zero` is struct equality: a computed 0 is not ignored.
  function Add(c: Cost, c2: Cost): Total {
    if c2 == Zero then Ok(c) else
      var currency := if c.Currency == "" then c2.Currency else c.Currency;
      if currency != c2.Currency then Err(CurrencyMismatch(currency, c2.Currency))
      else Ok(Cost(Is(c.Decimal.Amount() + c2.Decimal.Amount()), currency))
  }

  function MulDecimal(c: Cost, d: Decimal): Cost {
    Cost(Is(c.Decimal.Amount() * d.Amount()), c.Currency)
  }

  datatype Component = Component(Quantity: Decimal, Unit: string, Rate: Cost, Details: seq<string>, Usage: bool,
                                 Error: Option<string>)
  {
    function Cost(): Cost {
      if Rate.Decimal.IsZero() || Quantity.IsZero() then Zero else MulDecimal(Rate, Quantity)
    }
  }

  // ----- adding a list of costs, left to right -----

  function AddAll(costs: seq<Cost>): Total {
    if costs == [] then Ok(Zero) else
      match AddAll(costs[..|costs| - 1])
      case Ok(total) => Add(total, costs[|costs| - 1])
      case Err(e) => Err(e)
  }

  lemma AddAllNext(costs: seq<Cost>, c: Cost)
    requires AddAll(costs).Ok?
    ensures AddAll(costs + [c]) == Add(AddAll(costs).value, c)
  {
    assert (costs + [c])[..|costs|] == costs;
  }

  // The first failure ends the loop, whatever would have followed.
  lemma {:induction false} AddAllStuck(costs: seq<Cost>, more: seq<Cost>)
    requires AddAll(costs).Err?
    ensures AddAll(costs + more) == AddAll(costs)
    decreases |more|
  {
    if more == [] {
      assert costs + more == costs;
    } else {
      assert (costs + more)[..|costs + more| - 1] == costs + more[..|more| - 1];
      AddAllStuck(costs, more[..|more| - 1]);
    }
  }

  function Amounts(costs: seq<Cost>): seq<real> {
    seq(|costs|, i requires 0 <= i < |costs| => costs[i].Decimal.Amount())
  }

  ghost predicate Conflict(c: Cost, d: Cost) {
    c != Zero && d != Zero && c.Currency != "" && d.Currency != c.Currency
  }

  // A cost that fixed a currency is followed by a cost in another one.
  ghost predicate Clash(costs: seq<Cost>) {
    exists i, j | 0 <= i < j < |costs| :: Conflict(costs[i], costs[j])
  }

  ghost predicate ConflictsWithSome(costs: seq<Cost>, d: Cost) {
    exists c | c in costs :: Conflict(c, d)
  }

  // The currency of the last cost that is not the literal Zero.
  function CurrencyOf(costs: seq<Cost>): string {
    if costs == [] then "" else
      if costs[|costs| - 1] != Zero then costs[|costs| - 1].Currency else CurrencyOf(costs[..|costs| - 1])
  }

  lemma ClashStep(costs: seq<Cost>, d: Cost)
    ensures Clash(costs + [d]) <==> Clash(costs) || ConflictsWithSome(costs, d)
  {
    var more := costs + [d];
    if i, j :| 0 <= i < j < |costs| && Conflict(costs[i], costs[j]) {
      assert Conflict(more[i], more[j]);
    }
    if c :| c in costs && Conflict(c, d) {
      var i :| 0 <= i < |costs| && costs[i] == c;
      assert Conflict(more[i], more[|costs|]);
    }
    if i, j :| 0 <= i < j < |more| && Conflict(more[i], more[j]) {
      if j < |costs| {
        assert Conflict(costs[i], costs[j]);
      } else {
        assert costs[i] in costs;
      }
    }
  }

  lemma {:induction false} CurrencyOfMember(costs: seq<Cost>)
    ensures CurrencyOf(costs) != "" ==> exists c <- costs :: c != Zero && c.Currency == CurrencyOf(costs)
    ensures !Clash(costs) ==> forall c <- costs | c != Zero && c.Currency != "" :: c.Currency == CurrencyOf(costs)
  {
    if costs != [] {
      var front, d := costs[..|costs| - 1], costs[|costs| - 1];
      assert costs == front + [d];
      CurrencyOfMember(front);
      ClashStep(front, d);
      if d == Zero && CurrencyOf(costs) != "" {
        var c :| c in front && c != Zero && c.Currency == CurrencyOf(front);
        assert c in costs;
      }
    }
  }

  lemma ConflictsExactly(costs: seq<Cost>, d: Cost)
    requires !Clash(costs)
    ensures ConflictsWithSome(costs, d) <==> d != Zero && CurrencyOf(costs) !in ["", d.Currency]
  {
    CurrencyOfMember(costs);
  }

  predicate AllZero(costs: seq<Cost>) {
    forall i | 0 <= i < |costs| :: costs[i] == Zero
  }

  function TotalOf(costs: seq<Cost>): Cost {
    if AllZero(costs) then Zero else Cost(Is(Sum(Amounts(costs))), CurrencyOf(costs))
  }

  lemma AllZeroMembers(costs: seq<Cost>)
    ensures AllZero(costs) <==> forall c <- costs :: c == Zero
  {
    if forall c <- costs :: c == Zero {
      forall i | 0 <= i < |costs| ensures costs[i] == Zero {
        assert costs[i] in costs;
      }
    }
  }

  lemma AmountsStep(costs: seq<Cost>, d: Cost)
    ensures Sum(Amounts(costs + [d])) == Sum(Amounts(costs)) + d.Decimal.Amount()
  {
    assert Amounts(costs + [d])[..|costs|] == Amounts(costs);
  }

  lemma {:induction false} AllZeroTotal(costs: seq<Cost>)
    requires AllZero(costs)
    ensures CurrencyOf(costs) == "" && Sum(Amounts(costs)) == 0.0
  {
    if costs != [] {
      var front := costs[..|costs| - 1];
      assert costs == front + [Zero];
      AllZeroTotal(front);
      AmountsStep(front, Zero);
    }
  }

  lemma TotalStep(costs: seq<Cost>, d: Cost)
    requires !Clash(costs)
    ensures if ConflictsWithSome(costs, d) then Add(TotalOf(costs), d).Err?
            else Add(TotalOf(costs), d) == Ok(TotalOf(costs + [d]))
  {
    ConflictsExactly(costs, d);
    var more := costs + [d];
    assert more[..|costs|] == costs && more[|costs|] == d;
    if AllZero(costs) {
      AllZeroTotal(costs);
    }
    if d == Zero {
      assert AllZero(costs) ==> AllZero(more);
      if !AllZero(costs) {
        var i :| 0 <= i < |costs| && costs[i] != Zero;
        assert more[i] != Zero;
      }
    }
    AmountsStep(costs, d);
  }

  /** Adding any list of costs fails exactly when a cost with a currency is
      followed by one in another currency; otherwise the amounts are summed and
      the result is the literal Zero only if every cost is. */
  lemma {:induction false} AddAllExact(costs: seq<Cost>)
    ensures AddAll(costs).Err? <==> Clash(costs)
    ensures !Clash(costs) ==> AddAll(costs) == Ok(TotalOf(costs))
  {
    if costs != [] {
      var front, d := costs[..|costs| - 1], costs[|costs| - 1];
      assert costs == front + [d];
      AddAllExact(front);
      ClashStep(front, d);
      if !Clash(front) {
        TotalStep(front, d);
      }
    }
  }

  // The error expects the currency of an earlier cost and got that of a later one.
  ghost predicate Names(e: CurrencyMismatch, costs: seq<Cost>) {
    exists i, j | 0 <= i < j < |costs| ::
      Conflict(costs[i], costs[j]) && e.expected == costs[i].Currency && e.got == costs[j].Currency
  }

  lemma {:induction false} CurrencyComes(costs: seq<Cost>) returns (i: nat)
    requires !AllZero(costs)
    ensures i < |costs| && costs[i] != Zero && costs[i].Currency == CurrencyOf(costs)
  {
    var n := |costs| - 1;
    if costs[n] != Zero {
      i := n;
    } else {
      i := CurrencyComes(costs[..n]);
    }
  }

  lemma {:induction false} ErrorNames(costs: seq<Cost>)
    requires AddAll(costs).Err?
    ensures Names(AddAll(costs).error, costs)
  {
    var front, d := costs[..|costs| - 1], costs[|costs| - 1];
    AddAllExact(front);
    if AddAll(front).Err? {
      ErrorNames(front);
      var i, j :| 0 <= i < j < |front| && Conflict(front[i], front[j])
        && AddAll(front).error == CurrencyMismatch(front[i].Currency, front[j].Currency);
      assert Conflict(costs[i], costs[j]);
    } else {
      var i := CurrencyComes(front);
      assert Conflict(costs[i], costs[|costs| - 1]);
    }
  }

  // ----- the order of the costs -----

  // Every cost that counts names a currency, as stored prices do.
  ghost predicate Priced(costs: seq<Cost>) {
    forall c <- costs | c != Zero :: c.Currency != ""
  }

  ghost predicate TwoCurrencies(costs: seq<Cost>) {
    exists c, d | c in costs && d in costs :: Conflict(c, d)
  }

  ghost predicate SameTotal(a: Total, b: Total) {
    if a.Ok? then a == b else b.Err?
  }

  lemma PricedClash(costs: seq<Cost>)
    requires Priced(costs)
    ensures Clash(costs) <==> TwoCurrencies(costs)
  {
    if c, d :| c in costs && d in costs && Conflict(c, d) {
      var i :| 0 <= i < |costs| && costs[i] == c;
      var j :| 0 <= j < |costs| && costs[j] == d;
      if i < j {
        assert Conflict(costs[i], costs[j]);
      } else {
        assert Conflict(costs[j], costs[i]);
      }
    }
  }

  lemma AmountsDrop(costs: seq<Cost>, i: nat)
    requires i < |costs|
    ensures Sum(Amounts(costs)) == Sum(Amounts(Drop(costs, i))) + costs[i].Decimal.Amount()
  {
    assert Amounts(Drop(costs, i)) == Drop(Amounts(costs), i);
    SumDrop(Amounts(costs), i);
  }

  lemma {:induction false} AmountsPermute(a: seq<Cost>, b: seq<Cost>)
    requires multiset(a) == multiset(b)
    ensures Sum(Amounts(a)) == Sum(Amounts(b))
    decreases |a|
  {
    if a == [] {
      assert |multiset(b)| == 0;
    } else {
      var n := |a| - 1;
      LastOf(a);
      var i := Occurrence(b, a[n]);
      var rest := Drop(b, i);
      Cancel(multiset(a[..n]), multiset(rest), a[n]);
      AmountsPermute(a[..n], rest);
      assert Amounts(a)[..n] == Amounts(a[..n]);
      AmountsDrop(b, i);
    }
  }

  lemma MultisetMembers(a: seq<Cost>, b: seq<Cost>)
    requires multiset(a) == multiset(b)
    ensures forall c :: c in a <==> c in b
  {
    forall c ensures c in a <==> c in b {
      assert c in multiset(a) <==> c in multiset(b);
    }
  }

  /** When every cost names a currency, neither the outcome nor the total
      depends on the order in which the costs are added. */
  lemma AddAllPermutes(a: seq<Cost>, b: seq<Cost>)
    requires multiset(a) == multiset(b) && Priced(a)
    ensures Priced(b)
    ensures SameTotal(AddAll(a), AddAll(b))
  {
    MultisetMembers(a, b);
    AddAllExact(a);
    AddAllExact(b);
    PricedClash(a);
    PricedClash(b);
    if AddAll(a).Ok? {
      AmountsPermute(a, b);
      SameCurrency(a, b);
      AllZeroMembers(a);
      AllZeroMembers(b);
    }
  }

  lemma SameCurrency(a: seq<Cost>, b: seq<Cost>)
    requires forall c :: c in a <==> c in b
    requires Priced(a) && !Clash(a) && !Clash(b)
    ensures CurrencyOf(a) == CurrencyOf(b)
  {
    CurrencyOfMember(a);
    CurrencyOfMember(b);
  }

  // Some cost names no currency, some does, and those that do agree.
  ghost predicate Mixed(costs: seq<Cost>) {
    && (exists c <- costs :: c != Zero && c.Currency == "")
    && (exists c <- costs :: c.Currency != "")
    && !TwoNames(costs)
  }

  ghost predicate TwoNames(costs: seq<Cost>) {
    exists c, d | c in costs && d in costs :: Conflict(c, d) && d.Currency != ""
  }

  function WithCurrency(costs: seq<Cost>, named: bool): (r: seq<Cost>)
    ensures forall c <- r :: (c.Currency != "") == named
  {
    if costs == [] then [] else
      var front, c := WithCurrency(costs[..|costs| - 1], named), costs[|costs| - 1];
      if (c.Currency != "") == named then front + [c] else front
  }

  lemma {:induction false} WithCurrencyPermutes(costs: seq<Cost>)
    ensures multiset(WithCurrency(costs, false) + WithCurrency(costs, true)) == multiset(costs)
  {
    if costs != [] {
      LastOf(costs);
      WithCurrencyPermutes(costs[..|costs| - 1]);
    }
  }

  lemma NamesClash(costs: seq<Cost>)
    requires TwoNames(costs)
    ensures Clash(costs)
  {
    var c, d :| c in costs && d in costs && Conflict(c, d) && d.Currency != "";
    var i :| 0 <= i < |costs| && costs[i] == c;
    var j :| 0 <= j < |costs| && costs[j] == d;
    assert Conflict(costs[i], costs[j]) && Conflict(costs[j], costs[i]);
  }

  lemma BlankLast(costs: seq<Cost>) returns (other: seq<Cost>)
    requires Mixed(costs) && !Clash(costs)
    ensures multiset(other) == multiset(costs) && Clash(other)
  {
    var c :| c in costs && c != Zero && c.Currency == "";
    var d :| d in costs && d.Currency != "";
    var i :| 0 <= i < |costs| && costs[i] == c;
    var j :| 0 <= j < |costs| && costs[j] == d;
    assert Conflict(costs[j], costs[i]);
    other := costs[i := d][j := c];
    assert Conflict(other[i], other[j]);
  }

  lemma BlankFirst(costs: seq<Cost>) returns (other: seq<Cost>)
    requires Mixed(costs)
    ensures multiset(other) == multiset(costs) && !Clash(other)
  {
    var blank := WithCurrency(costs, false);
    other := blank + WithCurrency(costs, true);
    WithCurrencyPermutes(costs);
    MultisetMembers(costs, other);
    forall i, j | 0 <= i < j < |other| ensures !Conflict(other[i], other[j]) {
      assert other[i] in other && other[j] in other;
      if i < |blank| {
        assert other[i] == blank[i];
      } else {
        assert other[j] == WithCurrency(costs, true)[j - |blank|];
      }
    }
  }

  /** The order of the additions matters exactly for lists that mix costs
      without a currency and costs in one currency. */
  lemma OrderMattersExactly(costs: seq<Cost>)
    ensures Mixed(costs) <==>
              exists other :: multiset(other) == multiset(costs) && !SameTotal(AddAll(costs), AddAll(other))
  {
    AddAllExact(costs);
    if Mixed(costs) {
      var other: seq<Cost>;
      if Clash(costs) {
        other := BlankFirst(costs);
      } else {
        other := BlankLast(costs);
      }
      AddAllExact(other);
    } else {
      forall other | multiset(other) == multiset(costs) ensures SameTotal(AddAll(costs), AddAll(other)) {
        UnmixedPermutes(costs, other);
      }
    }
  }

  lemma UnmixedPermutes(a: seq<Cost>, b: seq<Cost>)
    requires multiset(a) == multiset(b) && !Mixed(a)
    ensures SameTotal(AddAll(a), AddAll(b))
  {
    MultisetMembers(a, b);
    AddAllExact(a);
    AddAllExact(b);
    if TwoNames(a) {
      NamesClash(a);
      NamesClash(b);
    } else if Priced(a) {
      AddAllPermutes(a, b);
    } else {
      AllBlank(a);
      AllBlank(b);
      AmountsPermute(a, b);
      AllZeroMembers(a);
      AllZeroMembers(b);
    }
  }

  lemma AllBlank(costs: seq<Cost>)
    requires forall c <- costs :: c.Currency == ""
    ensures !Clash(costs) && CurrencyOf(costs) == ""
  {
    CurrencyOfMember(costs);
  }

  // ----- costs added in groups -----

  // Add up every group, then the group totals; the first failure wins.
  function AddGroups(groups: seq<seq<Cost>>): Total {
    if groups == [] then Ok(Zero) else
      match AddGroups(groups[..|groups| - 1])
      case Err(e) => Err(e)
      case Ok(total) =>
        match AddAll(groups[|groups| - 1])
        case Err(e) => Err(e)
        case Ok(sum) => Add(total, sum)
  }

  lemma AddGroupsNext(groups: seq<seq<Cost>>, group: seq<Cost>)
    requires AddGroups(groups).Ok?
    ensures AddGroups(groups + [group]) == AddTotals(AddGroups(groups), AddAll(group))
  {
    assert (groups + [group])[..|groups|] == groups;
  }

  lemma {:induction false} AddGroupsStuck(groups: seq<seq<Cost>>, more: seq<seq<Cost>>)
    requires AddGroups(groups).Err?
    ensures AddGroups(groups + more) == AddGroups(groups)
    decreases |more|
  {
    if more == [] {
      assert groups + more == groups;
    } else {
      assert (groups + more)[..|groups + more| - 1] == groups + more[..|more| - 1];
      AddGroupsStuck(groups, more[..|more| - 1]);
    }
  }

  function Flatten(groups: seq<seq<Cost>>): seq<Cost> {
    if groups == [] then [] else Flatten(groups[..|groups| - 1]) + groups[|groups| - 1]
  }

  predicate Named(c: Cost) {
    c == Zero || c.Currency != ""
  }

  function AddTotals(a: Total, b: Total): Total {
    if a.Err? then a else if b.Err? then b else Add(a.value, b.value)
  }

  lemma AddAssociates(a: Cost, b: Cost, c: Cost)
    requires Named(a) && Named(b) && Named(c)
    ensures SameTotal(AddTotals(Add(a, b), Ok(c)), AddTotals(Ok(a), Add(b, c)))
  {
  }

  lemma {:induction false} AddAllNamed(costs: seq<Cost>)
    requires Priced(costs)
    ensures AddAll(costs).Ok? ==> Named(AddAll(costs).value)
  {
    if costs != [] {
      assert costs[|costs| - 1] in costs;
      AddAllNamed(costs[..|costs| - 1]);
    }
  }

  lemma {:induction false} AddAllConcat(a: seq<Cost>, b: seq<Cost>)
    requires Priced(a) && Priced(b)
    ensures SameTotal(AddAll(a + b), AddTotals(AddAll(a), AddAll(b)))
    decreases |b|
  {
    if b == [] {
      assert a + b == a;
    } else {
      var front, d := b[..|b| - 1], b[|b| - 1];
      assert (a + b)[..|a + b| - 1] == a + front;
      assert d in b;
      AddAllConcat(a, front);
      AddAllNamed(a);
      AddAllNamed(front);
      if AddAll(a).Ok? && AddAll(front).Ok? {
        AddAssociates(AddAll(a).value, AddAll(front).value, d);
      }
    }
  }

  /** When every cost names a currency, adding group by group gives the outcome
      and the total of adding every cost in one list. */
  lemma {:induction false} AddGroupsIsFlat(groups: seq<seq<Cost>>)
    requires Priced(Flatten(groups))
    ensures SameTotal(AddGroups(groups), AddAll(Flatten(groups)))
  {
    if groups != [] {
      var front, last := groups[..|groups| - 1], groups[|groups| - 1];
      assert forall c <- Flatten(front) + last :: c in Flatten(groups);
      AddGroupsIsFlat(front);
      AddAllConcat(Flatten(front), last);
    }
  }

  lemma {:induction false} FlattenMembers(groups: seq<seq<Cost>>, c: Cost)
    ensures c in Flatten(groups) <==> exists i | 0 <= i < |groups| :: c in groups[i]
  {
    if groups != [] {
      var n := |groups| - 1;
      FlattenMembers(groups[..n], c);
      if i :| 0 <= i < |groups| && c in groups[i] {
        assert i < n ==> c in groups[..n][i];
      }
      if i :| 0 <= i < n && c in groups[..n][i] {
        assert c in groups[i];
      }
    }
  }

  lemma {:induction false} FlattenConcat(a: seq<seq<Cost>>, b: seq<seq<Cost>>)
    ensures Flatten(a + b) == Flatten(a) + Flatten(b)
    decreases |b|
  {
    if b == [] {
      assert a + b == a;
    } else {
      assert (a + b)[..|a + b| - 1] == a + b[..|b| - 1];
      FlattenConcat(a, b[..|b| - 1]);
    }
  }

  lemma FlattenDrop(groups: seq<seq<Cost>>, i: nat)
    requires i < |groups|
    ensures multiset(Flatten(groups)) == multiset(Flatten(Drop(groups, i))) + multiset(groups[i])
  {
    DropPieces(groups, i);
    FlattenAround(groups[..i], groups[i], groups[i + 1..]);
  }

  lemma FlattenAround(before: seq<seq<Cost>>, group: seq<Cost>, after: seq<seq<Cost>>)
    ensures multiset(Flatten(before + [group] + after)) == multiset(Flatten(before + after)) + multiset(group)
  {
    FlattenConcat(before + [group], after);
    FlattenNext(before, group);
    FlattenConcat(before, after);
    Middle(Flatten(before), group, Flatten(after));
  }

  lemma FlattenNext(groups: seq<seq<Cost>>, group: seq<Cost>)
    ensures Flatten(groups + [group]) == Flatten(groups) + group
  {
    assert (groups + [group])[..|groups|] == groups;
  }

  lemma Middle(x: seq<Cost>, y: seq<Cost>, z: seq<Cost>)
    ensures multiset(x + y + z) == multiset(x + z) + multiset(y)
  {
  }

  lemma {:induction false} FlattenPermutes(a: seq<seq<Cost>>, b: seq<seq<Cost>>)
    requires multiset(a) == multiset(b)
    ensures multiset(Flatten(a)) == multiset(Flatten(b))
    decreases |a|
  {
    if a == [] {
      assert |multiset(b)| == 0;
    } else {
      var n := |a| - 1;
      LastOf(a);
      var i := Occurrence(b, a[n]);
      var rest := Drop(b, i);
      Cancel(multiset(a[..n]), multiset(rest), a[n]);
      FlattenPermutes(a[..n], rest);
      FlattenDrop(b, i);
    }
  }

  lemma {:induction false} FlattenPointwise(a: seq<seq<Cost>>, b: seq<seq<Cost>>)
    requires |a| == |b| && forall i | 0 <= i < |a| :: multiset(a[i]) == multiset(b[i])
    ensures multiset(Flatten(a)) == multiset(Flatten(b))
  {
    if a != [] {
      FlattenPointwise(a[..|a| - 1], b[..|b| - 1]);
    }
  }
}
