/** Filters and queries passed from the plan reader to the pricing store
    (query/query.go, product/filter.go, price/filter.go). */
module Queries {
  import opened Wrappers
  import opened Costs

  datatype AttributeFilter = AttributeFilter(Key: string, Value: Option<string>, ValueRegex: Option<string>)

  datatype ProductFilter = ProductFilter(Provider: Option<string>, SKU: Option<string>, Service: Option<string>,
                                         Family: Option<string>, Location: Option<string>,
                                         AttributeFilters: seq<AttributeFilter>)

  datatype PriceFilter = PriceFilter(Unit: Option<string>, Currency: Option<string>,
                                     AttributeFilters: seq<AttributeFilter>)

  datatype ComponentQuery = ComponentQuery(Name: string, HourlyQuantity: Decimal, MonthlyQuantity: Decimal,
                                           Unit: string, Details: seq<string>, Usage: bool,
                                           ProductFilter: Option<ProductFilter>, PriceFilter: Option<PriceFilter>)

  datatype ResourceQuery = ResourceQuery(Address: string, Provider: string, Type: string,
                                         Components: seq<ComponentQuery>)

  function AddressesOf(queries: seq<ResourceQuery>): (addresses: seq<string>)
    ensures |addresses| == |queries|
  {
    if queries == [] then [] else AddressesOf(queries[..|queries| - 1]) + [queries[|queries| - 1].Address]
  }
}
