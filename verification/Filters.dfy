/** Filters as SQL conditions with positional parameters (mysql/filters.go). */
module Filters {
  import opened Wrappers
  import opened Queries

  datatype Param = Text(s: string) | Number(n: nat)

  // Every condition has exactly one placeholder.
  datatype Condition =
    | ColumnIs(column: string)
    | AttributeIs(key: string)
    | AttributeLike(key: string)

  // A row: its columns, where a missing one is NULL, and its JSON attributes.
  datatype Row = Row(columns: map<string, Param>, attributes: map<string, string>)

  // ----- three-valued logic -----

  datatype Truth = True | False | Unknown

  function Both(a: Truth, b: Truth): Truth {
    if a.False? || b.False? then False else if a.Unknown? || b.Unknown? then Unknown else True
  }

  function Known(b: bool): Truth {
    if b then True else False
  }

  // RLIKE is left abstract: does this text match this pattern?
  type Like = (string, string) -> bool

  // A condition on a row once its placeholder has a value; NULL compares as unknown.
  function Holds(like: Like, row: Row, c: Condition, p: Param): Truth {
    match c
    case ColumnIs(column) => if column !in row.columns then Unknown else Known(row.columns[column] == p)
    case AttributeIs(key) => if key !in row.attributes then Unknown else Known(Text(row.attributes[key]) == p)
    case AttributeLike(key) =>
      if key !in row.attributes || !p.Text? then Unknown else Known(like(row.attributes[key], p.s))
  }

  // The clause "c0 AND c1 AND …", condition i reading parameter i.
  function HoldAll(like: Like, row: Row, conditions: seq<Condition>, params: seq<Param>): Truth
    requires |conditions| == |params|
  {
    if conditions == [] then True else
      var n := |conditions| - 1;
      Both(HoldAll(like, row, conditions[..n], params[..n]), Holds(like, row, conditions[n], params[n]))
  }

  // ----- the WHERE clause -----

  class Where {
    var conditions: seq<Condition>
    var params: seq<Param>

    constructor ()
      ensures conditions == [] && params == []
    {
      conditions, params := [], [];
    }

    method Add(condition: Condition, param: Param)
      modifies this
      ensures conditions == old(conditions) + [condition]
      ensures params == old(params) + [param]
    {
      conditions := conditions + [condition];
      params := params + [param];
    }

    method AddFields(fields: seq<(string, Option<string>)>)
      modifies this
      ensures conditions == old(conditions) + Conditions(FieldClauses(fields))
      ensures params == old(params) + Params(FieldClauses(fields))
    {
      for i := 0 to |fields|
        invariant conditions == old(conditions) + Conditions(FieldClauses(fields[..i]))
        invariant params == old(params) + Params(FieldClauses(fields[..i]))
      {
        assert fields[..i + 1][..i] == fields[..i];
        if fields[i].1.Some? {
          Add(ColumnIs(fields[i].0), Text(fields[i].1.value));
        }
      }
      assert fields[..|fields|] == fields;
    }

    method AddAttribute(f: AttributeFilter)
      modifies this
      ensures conditions == old(conditions) + Conditions(AttributeClause(f))
      ensures params == old(params) + Params(AttributeClause(f))
    {
      assert forall c: Clause :: [c][..0] == [];
      if f.Value.Some? {
        Add(AttributeIs(f.Key), Text(f.Value.value));
      } else if f.ValueRegex.Some? {
        Add(AttributeLike(f.Key), Text(f.ValueRegex.value));
      }
    }

    method AddAttributes(filters: seq<AttributeFilter>)
      modifies this
      ensures conditions == old(conditions) + Conditions(AttributeClauses(filters))
      ensures params == old(params) + Params(AttributeClauses(filters))
    {
      for i := 0 to |filters|
        invariant conditions == old(conditions) + Conditions(AttributeClauses(filters[..i]))
        invariant params == old(params) + Params(AttributeClauses(filters[..i]))
      {
        AddAttribute(filters[i]);
        AttributeNext(old(conditions), old(params), filters, i);
      }
      assert filters[..|filters|] == filters;
    }
  }

  type Clause = (Condition, Param)

  function Conditions(clauses: seq<Clause>): (r: seq<Condition>)
    ensures |r| == |clauses|
  {
    if clauses == [] then [] else Conditions(clauses[..|clauses| - 1]) + [clauses[|clauses| - 1].0]
  }

  function Params(clauses: seq<Clause>): (r: seq<Param>)
    ensures |r| == |clauses|
  {
    if clauses == [] then [] else Params(clauses[..|clauses| - 1]) + [clauses[|clauses| - 1].1]
  }

  function FieldClauses(fields: seq<(string, Option<string>)>): seq<Clause> {
    if fields == [] then [] else
      var front, last := FieldClauses(fields[..|fields| - 1]), fields[|fields| - 1];
      if last.1.Some? then front + [(ColumnIs(last.0), Text(last.1.value))] else front
  }

  function AttributeClause(f: AttributeFilter): seq<Clause> {
    if f.Value.Some? then [(AttributeIs(f.Key), Text(f.Value.value))]
    else if f.ValueRegex.Some? then [(AttributeLike(f.Key), Text(f.ValueRegex.value))]
    else []
  }

  function AttributeClauses(filters: seq<AttributeFilter>): seq<Clause> {
    if filters == [] then []
    else AttributeClauses(filters[..|filters| - 1]) + AttributeClause(filters[|filters| - 1])
  }

  // ----- what a filter means -----

  predicate FieldMatches(row: Row, column: string, wanted: Option<string>) {
    wanted.None? || (column in row.columns && row.columns[column] == Text(wanted.value))
  }

  // An exact value counts before a pattern; a missing attribute never matches.
  predicate AttributeMatches(like: Like, row: Row, f: AttributeFilter) {
    if f.Value.Some? then f.Key in row.attributes && row.attributes[f.Key] == f.Value.value
    else if f.ValueRegex.Some? then f.Key in row.attributes && like(row.attributes[f.Key], f.ValueRegex.value)
    else true
  }

  predicate AttributesMatch(like: Like, row: Row, filters: seq<AttributeFilter>) {
    forall f <- filters :: AttributeMatches(like, row, f)
  }

  predicate MatchesProduct(like: Like, row: Row, filter: Option<ProductFilter>) {
    filter.None? ||
    (&& FieldMatches(row, "provider", filter.value.Provider)
     && FieldMatches(row, "location", filter.value.Location)
     && FieldMatches(row, "service", filter.value.Service)
     && FieldMatches(row, "family", filter.value.Family)
     && FieldMatches(row, "sku", filter.value.SKU)
     && AttributesMatch(like, row, filter.value.AttributeFilters))
  }

  predicate MatchesPrice(like: Like, row: Row, filter: Option<PriceFilter>, productID: nat) {
    && (productID == 0 || ("product_id" in row.columns && row.columns["product_id"] == Number(productID)))
    && (filter.None? ||
        (&& FieldMatches(row, "unit", filter.value.Unit)
         && FieldMatches(row, "currency", filter.value.Currency)
         && AttributesMatch(like, row, filter.value.AttributeFilters)))
  }

  function ProductFields(f: ProductFilter): seq<(string, Option<string>)> {
    [("provider", f.Provider), ("location", f.Location), ("service", f.Service), ("family", f.Family), ("sku", f.SKU)]
  }

  function PriceFields(f: PriceFilter): seq<(string, Option<string>)> {
    [("unit", f.Unit), ("currency", f.Currency)]
  }

  function ProductClauses(filter: Option<ProductFilter>): seq<Clause> {
    if filter.None? then []
    else FieldClauses(ProductFields(filter.value)) + AttributeClauses(filter.value.AttributeFilters)
  }

  function PriceClauses(filter: Option<PriceFilter>, productID: nat): seq<Clause> {
    ProductIDClause(productID) +
    if filter.None? then []
    else FieldClauses(PriceFields(filter.value)) + AttributeClauses(filter.value.AttributeFilters)
  }

  method ParseProductFilter(filter: Option<ProductFilter>) returns (w: Where)
    ensures fresh(w)
    ensures w.conditions == Conditions(ProductClauses(filter)) && w.params == Params(ProductClauses(filter))
  {
    w := new Where();
    if filter.None? {
      return;
    }
    var fields, attributes := ProductFields(filter.value), filter.value.AttributeFilters;
    ClausesConcat(FieldClauses(fields), AttributeClauses(attributes));
    w.AddFields(fields);
    assert w.conditions == Conditions(FieldClauses(fields)) && w.params == Params(FieldClauses(fields)) by {
      NothingBefore(Conditions(FieldClauses(fields)));
      NothingBefore(Params(FieldClauses(fields)));
    }
    w.AddAttributes(attributes);
  }

  function ProductIDClause(productID: nat): seq<Clause> {
    if productID != 0 then [(ColumnIs("product_id"), Number(productID))] else []
  }

  method StartPriceFilter(productID: nat) returns (w: Where)
    ensures fresh(w)
    ensures w.conditions == Conditions(ProductIDClause(productID)) && w.params == Params(ProductIDClause(productID))
  {
    w := new Where();
    if productID != 0 {
      w.Add(ColumnIs("product_id"), Number(productID));
      assert ProductIDClause(productID)[..0] == [];
    }
  }

  method ParsePriceFilter(filter: Option<PriceFilter>, productID: nat) returns (w: Where)
    ensures fresh(w)
    ensures w.conditions == Conditions(PriceClauses(filter, productID)) && w.params == Params(PriceClauses(filter, productID))
  {
    w := StartPriceFilter(productID);
    if filter.Some? {
      w.AddFields(PriceFields(filter.value));
      w.AddAttributes(filter.value.AttributeFilters);
    }
    PriceClausesSplit(filter, productID);
  }

  lemma PriceClausesSplit(filter: Option<PriceFilter>, productID: nat)
    ensures filter.None? ==> PriceClauses(filter, productID) == ProductIDClause(productID)
    ensures filter.Some? ==>
              var id, fields := ProductIDClause(productID), FieldClauses(PriceFields(filter.value));
              var attributes := AttributeClauses(filter.value.AttributeFilters);
              && Conditions(PriceClauses(filter, productID)) == Conditions(id) + Conditions(fields) + Conditions(attributes)
              && Params(PriceClauses(filter, productID)) == Params(id) + Params(fields) + Params(attributes)
  {
    if filter.Some? {
      var id, fields := ProductIDClause(productID), FieldClauses(PriceFields(filter.value));
      var attributes := AttributeClauses(filter.value.AttributeFilters);
      ClausesSplit(id, fields, attributes);
    }
  }

  lemma ClausesSplit(a: seq<Clause>, b: seq<Clause>, c: seq<Clause>)
    ensures Conditions(a + (b + c)) == Conditions(a) + Conditions(b) + Conditions(c)
    ensures Params(a + (b + c)) == Params(a) + Params(b) + Params(c)
  {
    ClausesConcat(a, b + c);
    ClausesConcat(b, c);
    Regroup(Conditions(a), Conditions(b), Conditions(c));
    Regroup(Params(a), Params(b), Params(c));
  }

  lemma AttributeNext(cs: seq<Condition>, ps: seq<Param>, filters: seq<AttributeFilter>, i: nat)
    requires i < |filters|
    ensures var front, last := AttributeClauses(filters[..i]), AttributeClause(filters[i]);
            && cs + Conditions(AttributeClauses(filters[..i + 1])) == cs + Conditions(front) + Conditions(last)
            && ps + Params(AttributeClauses(filters[..i + 1])) == ps + Params(front) + Params(last)
  {
    assert filters[..i + 1][..i] == filters[..i];
    var front, last := AttributeClauses(filters[..i]), AttributeClause(filters[i]);
    ClausesConcat(front, last);
    Regroup(cs, Conditions(front), Conditions(last));
    Regroup(ps, Params(front), Params(last));
  }

  lemma NothingBefore<T>(a: seq<T>)
    ensures [] + a == a
  {
  }

  lemma Regroup<T>(a: seq<T>, b: seq<T>, c: seq<T>)
    ensures a + (b + c) == a + b + c
  {
  }

  lemma {:induction false} ClausesConcat(a: seq<Clause>, b: seq<Clause>)
    ensures Conditions(a + b) == Conditions(a) + Conditions(b)
    ensures Params(a + b) == Params(a) + Params(b)
    decreases |b|
  {
    if b == [] {
      assert a + b == a;
    } else {
      assert (a + b)[..|a + b| - 1] == a + b[..|b| - 1];
      ClausesConcat(a, b[..|b| - 1]);
    }
  }

  // ----- the translation keeps the meaning -----

  ghost predicate ClausesHold(like: Like, row: Row, clauses: seq<Clause>) {
    forall c <- clauses :: Holds(like, row, c.0, c.1) == True
  }

  lemma ClausesLast(clauses: seq<Clause>)
    requires clauses != []
    ensures var n := |clauses| - 1;
            && Conditions(clauses)[..n] == Conditions(clauses[..n]) && Params(clauses)[..n] == Params(clauses[..n])
            && Conditions(clauses)[n] == clauses[n].0 && Params(clauses)[n] == clauses[n].1
  {
  }

  lemma HoldNext(like: Like, row: Row, clauses: seq<Clause>)
    requires clauses != []
    ensures var front, c := clauses[..|clauses| - 1], clauses[|clauses| - 1];
            ClausesHold(like, row, clauses) <==> ClausesHold(like, row, front) && Holds(like, row, c.0, c.1) == True
  {
    assert clauses == clauses[..|clauses| - 1] + [clauses[|clauses| - 1]];
  }

  // Condition i reads parameter i, and the conjunction is true when each condition is.
  lemma {:induction false} HoldAllEach(like: Like, row: Row, clauses: seq<Clause>)
    ensures HoldAll(like, row, Conditions(clauses), Params(clauses)) == True <==> ClausesHold(like, row, clauses)
  {
    if clauses != [] {
      var n := |clauses| - 1;
      HoldAllEach(like, row, clauses[..n]);
      ClausesLast(clauses);
      HoldNext(like, row, clauses);
    }
  }

  lemma HoldConcat(like: Like, row: Row, a: seq<Clause>, b: seq<Clause>)
    ensures ClausesHold(like, row, a + b) <==> ClausesHold(like, row, a) && ClausesHold(like, row, b)
  {
    assert forall c :: c in a + b <==> c in a || c in b;
  }

  lemma {:induction false} FieldsHold(like: Like, row: Row, fields: seq<(string, Option<string>)>)
    ensures ClausesHold(like, row, FieldClauses(fields)) <==> forall f <- fields :: FieldMatches(row, f.0, f.1)
  {
    if fields != [] {
      var n := |fields| - 1;
      FieldsHold(like, row, fields[..n]);
      assert fields == fields[..n] + [fields[n]];
    }
  }

  lemma {:induction false} AttributesHold(like: Like, row: Row, filters: seq<AttributeFilter>)
    ensures ClausesHold(like, row, AttributeClauses(filters)) <==> AttributesMatch(like, row, filters)
  {
    if filters != [] {
      var n := |filters| - 1;
      AttributesHold(like, row, filters[..n]);
      HoldConcat(like, row, AttributeClauses(filters[..n]), AttributeClause(filters[n]));
      AttributeHolds(like, row, filters[n]);
      MatchNext(like, row, filters);
    }
  }

  lemma AttributeHolds(like: Like, row: Row, f: AttributeFilter)
    ensures ClausesHold(like, row, AttributeClause(f)) <==> AttributeMatches(like, row, f)
  {
  }

  lemma MatchNext(like: Like, row: Row, filters: seq<AttributeFilter>)
    requires filters != []
    ensures var n := |filters| - 1;
            AttributesMatch(like, row, filters) <==>
              AttributesMatch(like, row, filters[..n]) && AttributeMatches(like, row, filters[n])
  {
    var n := |filters| - 1;
    assert filters == filters[..n] + [filters[n]];
  }

  lemma ProductFieldsHold(like: Like, row: Row, f: ProductFilter)
    ensures ClausesHold(like, row, FieldClauses(ProductFields(f))) <==>
              && FieldMatches(row, "provider", f.Provider) && FieldMatches(row, "location", f.Location)
              && FieldMatches(row, "service", f.Service) && FieldMatches(row, "family", f.Family)
              && FieldMatches(row, "sku", f.SKU)
  {
    var fs := ProductFields(f);
    FieldsHold(like, row, fs);
    assert fs[0] in fs && fs[1] in fs && fs[2] in fs && fs[3] in fs && fs[4] in fs;
  }

  lemma PriceFieldsHold(like: Like, row: Row, f: PriceFilter)
    ensures ClausesHold(like, row, FieldClauses(PriceFields(f))) <==>
              FieldMatches(row, "unit", f.Unit) && FieldMatches(row, "currency", f.Currency)
  {
    var fs := PriceFields(f);
    FieldsHold(like, row, fs);
    assert fs[0] in fs && fs[1] in fs;
  }

  /** The conditions generated for a product filter, given their parameters by
      position, are true of exactly the rows that match the filter. */
  lemma ProductFilterExactly(like: Like, row: Row, filter: Option<ProductFilter>)
    ensures HoldAll(like, row, Conditions(ProductClauses(filter)), Params(ProductClauses(filter))) == True
            <==> MatchesProduct(like, row, filter)
  {
    HoldAllEach(like, row, ProductClauses(filter));
    if filter.Some? {
      var f := filter.value;
      HoldConcat(like, row, FieldClauses(ProductFields(f)), AttributeClauses(f.AttributeFilters));
      ProductFieldsHold(like, row, f);
      AttributesHold(like, row, f.AttributeFilters);
    }
  }

  lemma IDHolds(like: Like, row: Row, productID: nat)
    ensures ClausesHold(like, row, ProductIDClause(productID)) <==>
              productID == 0 || ("product_id" in row.columns && row.columns["product_id"] == Number(productID))
  {
  }

  /** The same for the prices of a product. */
  lemma PriceFilterExactly(like: Like, row: Row, filter: Option<PriceFilter>, productID: nat)
    ensures HoldAll(like, row, Conditions(PriceClauses(filter, productID)), Params(PriceClauses(filter, productID))) == True
            <==> MatchesPrice(like, row, filter, productID)
  {
    HoldAllEach(like, row, PriceClauses(filter, productID));
    var first := ProductIDClause(productID);
    IDHolds(like, row, productID);
    if filter.None? {
      assert first + [] == first;
    } else {
      var f := filter.value;
      HoldConcat(like, row, first, FieldClauses(PriceFields(f)) + AttributeClauses(f.AttributeFilters));
      HoldConcat(like, row, FieldClauses(PriceFields(f)), AttributeClauses(f.AttributeFilters));
      PriceFieldsHold(like, row, f);
      AttributesHold(like, row, f.AttributeFilters);
    }
  }

  // ----- the query -----

  // Nothing to filter by.
  predicate Blank(filter: Option<ProductFilter>) {
    filter.None? ||
    (&& filter.value.Provider.None? && filter.value.Location.None? && filter.value.Service.None?
     && filter.value.Family.None? && filter.value.SKU.None?
     && forall f <- filter.value.AttributeFilters :: f.Value.None? && f.ValueRegex.None?)
  }

  lemma {:induction false} NoAttributeClauses(filters: seq<AttributeFilter>)
    ensures AttributeClauses(filters) == [] <==> forall f <- filters :: f.Value.None? && f.ValueRegex.None?
  {
    if filters != [] {
      var n := |filters| - 1;
      NoAttributeClauses(filters[..n]);
      assert filters == filters[..n] + [filters[n]];
    }
  }

  lemma {:induction false} NoFieldClauses(fields: seq<(string, Option<string>)>)
    ensures FieldClauses(fields) == [] <==> forall i | 0 <= i < |fields| :: fields[i].1.None?
  {
    if fields != [] {
      var n := |fields| - 1;
      NoFieldClauses(fields[..n]);
      assert forall i | 0 <= i < n :: fields[..n][i] == fields[i];
    }
  }

  lemma BlankExactly(filter: Option<ProductFilter>)
    ensures ProductClauses(filter) == [] <==> Blank(filter)
  {
    if filter.Some? {
      var fs := ProductFields(filter.value);
      NoFieldClauses(fs);
      NoAttributeClauses(filter.value.AttributeFilters);
      assert (forall i | 0 <= i < |fs| :: fs[i].1.None?) <==>
             fs[0].1.None? && fs[1].1.None? && fs[2].1.None? && fs[3].1.None? && fs[4].1.None?;
    }
  }

  predicate BlankPrice(filter: Option<PriceFilter>) {
    filter.None? ||
    (&& filter.value.Unit.None? && filter.value.Currency.None?
     && forall f <- filter.value.AttributeFilters :: f.Value.None? && f.ValueRegex.None?)
  }

  lemma BlankPriceExactly(filter: Option<PriceFilter>, productID: nat)
    ensures PriceClauses(filter, productID) == [] <==> productID == 0 && BlankPrice(filter)
  {
    if filter.Some? {
      var fs := PriceFields(filter.value);
      NoFieldClauses(fs);
      NoAttributeClauses(filter.value.AttributeFilters);
      assert (forall i | 0 <= i < |fs| :: fs[i].1.None?) <==> fs[0].1.None? && fs[1].1.None?;
    }
  }

  function Selected(like: Like, table: seq<Row>, filter: Option<ProductFilter>): seq<Row> {
    if table == [] then [] else
      var front, row := Selected(like, table[..|table| - 1], filter), table[|table| - 1];
      if MatchesProduct(like, row, filter) then front + [row] else front
  }

  /** ProductRepository.Filter: the rows that match, in table order. A filter
      with nothing to filter by does not select every row: its query ends after
      WHERE and fails. */
  method FilterProducts(like: Like, table: seq<Row>, filter: Option<ProductFilter>) returns (r: Result<seq<Row>, string>)
    ensures r == if Blank(filter) then Err("syntax error") else Ok(Selected(like, table, filter))
  {
    var w := ParseProductFilter(filter);
    BlankExactly(filter);
    if w.conditions == [] {
      return Err("syntax error");
    }
    var rows, conditions, params := [], w.conditions, w.params;
    for i := 0 to |table|
      invariant rows == Selected(like, table[..i], filter)
    {
      assert table[..i + 1][..i] == table[..i];
      ProductFilterExactly(like, table[i], filter);
      if HoldAll(like, table[i], conditions, params) == True {
        rows := rows + [table[i]];
      }
    }
    assert table[..|table|] == table;
    r := Ok(rows);
  }
}
