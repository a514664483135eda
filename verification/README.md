# TerraCost in Dafny

This project models the parts of TerraCost whose behaviour spans several functions,
and proves what they are for: that pricing data reaches the store complete and once,
that an estimate is the sum it claims to be, that a diff loses nothing, that resources
of a plan are found under their addresses, that filters mean what they say, and
that rounding and tiers stay within bounds. `dafny verify dfyconfig.toml` checks all of it.

Loops of the source are loops here, maps that Go visits in arbitrary order are visited
by taking an arbitrary remaining key, objects that are updated in place are classes,
and goroutines with channels are step systems whose runs interleave in every possible way.

| part | files |
|---|---|
| pricing store and ingestion | `Store`, `Ingestion`, `CachedRuns`, `CacheRefinement`, `IngestedRows`, `Prices`, `Strings` |
| the ingesters | `ConsumerSteps`, `Failures`, `Pipeline`, `OfferFiles` and `Leaks` (AWS), `AzurePipeline`, `AzureRecords` and `AzureLeaks`, `GoogleIngester`, `GoogleRecords`, `LivePrices` |
| costs, states and plans | `Costs`, `States`, `FlatStates`, `EndToEnd`, `Estimates`, `BuiltStates`, `StoredPrices`, `StoredCharges`, `Diffs`, `Queries`, `Orders` |
| reading a Terraform plan | `Addresses`, `Merge`, `PlanQueries`, `PlanComponents` |
| reading HCL | `CountExpansion`, `ModuleTrees`, `HclQueries`, `CtyConversion`, `Numerals` |
| filters and arithmetic | `Filters`, `Rounding`, `StorageTiers` |

## What turned out not to hold

Each of these is a lemma with an exact condition or a concrete input.

- `NewState` writes to a nil map exactly when an address is first queried without components
  and later with some (`EndToEnd.NilMapWriteExactly`).
- The SKU cache leaves what upserting every product would leave exactly when, among the records up to
  the first one in a currency that is no ISO code, those of one SKU share one provider and location and
  the last of them carries the attributes of the first (`CacheRefinement.CacheRefinesExactly`): the unique
  key of a product is not its SKU alone. With one SKU in two places the second never gets a product and
  its price ends up under the first (`CacheRefinement.SecondPlaceIsLost`).
- A price shares its hashed text with another one of the same attribute names exactly when its unit,
  its currency or a value has a dash (`Prices.TwinExactly`, `Prices.DashesCollide`). Among the currencies
  that the store accepts it does so exactly when it has two attributes and a dash in a value, or another
  piece of its text between dashes is such a currency, with a unit before it and a piece for every
  attribute after it (`Prices.TwinAmongCodesExactly`); so a price per GB-Mo with no dash in its values
  has no such twin unless Mo is one (`Prices.DashedUnitExactly`). The names are not hashed
  (`Prices.NamesCollide`).
- Adding costs depends on the order exactly when a cost without a currency meets costs in one
  currency (`Costs.OrderMattersExactly`).
- Some run of AWS ingestion leaves its producer blocked for ever exactly when the sequential run fails
  on a wanted record that at least capacity + 1 wanted ones follow (`Leaks.LeaksExactly`); ten records
  in a bad currency are enough at the capacity that ingestion uses (`Leaks.TenRowsLeak`).
- AzureRM ingestion leaves its converter blocked for ever under the same condition, and its fetcher as
  well exactly when that holds even without the last 101 prices (`AzureLeaks.ConverterLeaksExactly`,
  `AzureLeaks.FetcherLeaksExactly`).
- A next-page link that AzureRM ingestion cannot parse ends it silently, without an error
  (`AzurePipeline.NilExactly`).
- A product filter with nothing set produces a statement that ends after `WHERE`
  (`Filters.BlankExactly`, `Filters.FilterProducts`).
- Stripping instance keys from an address goes wrong exactly when a key has a closing bracket that
  is not followed by an opening one (`Addresses.CleanGivesConfigKey`). An address then never finds its
  own resource in the configuration, and finds another one exactly when one is configured under what is
  left (`PlanQueries.FoundExactly`, `PlanQueries.MisfoundExactly`); one `for_each` key is enough to give a
  resource the provider and the values of another module's (`PlanQueries.ForEachKeyMisleads`).
- Merging a configuration crashes exactly when its shape clashes with that of the values
  (`Merge.CrashExactly`).
- Converting a value to a type twice is converting it once exactly when it is stable: wherever a number
  is expected there is a float, and wherever the type is dynamic the value lands in the type that its
  own becomes (`CtyConversion.ConvertTwiceExactly`).
- The converted value is of the type returned with it exactly when every number that type expects is
  given as a float, a string or a bool, and, if objects must have exactly the attributes of their type,
  the value already has those (`CtyConversion.ConvertConformsExactly`).
- A counted module is expanded as so many copies of itself exactly when its count is 1 or nothing with
  a known provider is below it: calls inside it are expanded by their own count alone
  (`ModuleTrees.CopiesExactly`).
- A resource is expanded if the provider it refers to is known, but queried from the provider under its
  type. The extraction crashes exactly when some resource that expands has none under its type
  (`HclQueries.Extract`), and the right provider builds every query exactly when no such resource has
  another one there (`HclQueries.RightProvidersExactly`); `provider = aws.west` does either
  (`HclQueries.AliasMisleads`).
- Between 10240 and 153600 GB the outbound ranges of a bucket add up to 40960 GB too much
  (`StorageTiers.OvercountExactly`).

## Model

| member | source | states |
|---|---|---|
| Costs.AddAllExact | cost/cost.go:46-62 | adding any list of costs fails exactly when a cost with a currency comes before one in another currency; otherwise the amounts are summed, and the literal Zero results only from literal Zeros |
| Costs.ErrorNames | cost/cost.go:57-59 | the error names two currencies that clash: it expects the one of an earlier cost and got that of a later one |
| Costs.AddAllPermutes | cost/cost.go:44-62 | when every cost names a currency, outcome and total are the same in every order |
| Costs.OrderMattersExactly | cost/cost.go:52-59 | some other order gives another outcome exactly when costs without a currency are mixed with costs in a single currency |
| Costs.AddGroupsIsFlat | cost/state.go:80-95 | adding group by group gives the outcome and total of adding one flat list |
| States.ResourceCost | cost/resource.go:14-26 | the total of a resource is the left-to-right sum of its component costs in some order that visits each once, stopping at the first failure |
| States.NewState | cost/state.go:26-77 | no queries is an error; otherwise the maps are those built query by query, or the program crashes on a nil map |
| States.State.EnsureResource | cost/state.go:98-112 | only a new address gets an entry, with a component map only if it is not skipped |
| States.State.AddComponent | cost/state.go:115-117 | the component is stored under its label, last one wins; a resource without a component map crashes |
| States.State.AddQuery | cost/state.go:32-74 | ensures the resource, then stores one component per component query, priced or failed |
| States.State.Cost | cost/state.go:81-95 | the total is that of some visiting order of resources and of their components |
| States.GroupsPermute | cost/state.go:83-92 | every visiting order adds the same collection of component costs |
| States.StateCostIsFlat | cost/state.go:80-95 | with priced components the two-level total equals the flat sum, whatever the orders |
| States.StateCostFails | cost/state.go:80-95 | with priced components the total fails exactly when two costs that count are in different currencies |
| States.StateCostStable | cost/state.go:80-95 | two runs that visit the maps differently agree on outcome and total |
| FlatStates.StateCostIsPairs | cost/state.go:80-95 | the total is the sum over (address, component) pairs in any order |
| FlatStates.PaddingIsFree | cost/component.go:19-25 | components without a cost change neither the outcome nor the total |
| EndToEnd.NilMapWriteExactly | cost/state.go:98-117 | the nil component map is written exactly when an address is first queried without components and later with some |
| EndToEnd.EstimateBuilds | cost/state.go:26-77 | queries with distinct addresses always build a state, one resource per query with exactly its components |
| Estimates.EstimateIsFlatSum | cost/state.go:26-95 | on any queries that build a state, NewState then Cost fails exactly when two kept components are charged in different currencies; otherwise it is the flat sum of price times monthly quantity, or hourly quantity times 730 when that is zero, over the components that no later query overwrites and whose product and price were found, in the currency charged |
| Estimates.AllKept | cost/state.go:32-74 | with distinct addresses, and distinct component names in each resource, every component counts |
| StoredPrices.ConsumeISO | mysql/price.go:57-64 | however a run of ingestion ends, every stored currency is one that the ISO parser wrote |
| StoredCharges.IngestedNamed | mysql/price.go:57-64 | so every price that a run stored is charged in a named currency |
| StoredPrices.SelectIsQuery | mysql/product.go:65-91 | the products that NewState gets for a filter are the rows its query selects |
| StoredPrices.IngestedEstimate | cost/state.go:37-62 | against the tables that any run of ingestion left, the estimate is that flat sum, with nothing assumed of the stored prices |
| StoredCharges.ProductRowsExactly | mysql/filters.go:32-66 | the conditions generated for a product filter are true of exactly the product rows whose key, columns and attributes are those it asks for |
| StoredCharges.PriceRowsExactly | mysql/filters.go:68-103 | the same for price rows, which are those of the product when it has an id |
| StoredCharges.ProductsFound | mysql/product.go:65-91 | the products found are those asked for, in table order |
| StoredCharges.PricesFound | mysql/price.go:76-101 | the prices found are those asked for, in table order, each with the amount and the currency of its row |
| StoredCharges.PriceFound | cost/state.go:37-52 | a component is priced by the first price row asked for of the first product row asked for, or not at all |
| StoredCharges.EstimateFromRows | cost/state.go:26-95 | every kept component adds the amount of that row times its monthly units, or nothing; the total is their sum in their currency and fails exactly when two that add something differ in it |
| StoredCharges.ChargedFromRecords | cost/state.go:55-70 | on tables that a run without an error filled, every charge is the price of a received record, to ten places, times the monthly units |
| BuiltStates.ComponentsExactly | cost/state.go:32-74 | a state holds a component exactly where a query asks for one, and it is what the last of these gives: quantity, rate, unit, details and usage, or the error |
| BuiltStates.ResourcesExactly | cost/state.go:98-112 | a resource has the provider and type of the first query for its address and is skipped exactly when that has no components |
| EndToEnd.BuiltSkippedIsNil | cost/state.go:97-112 | in every state that is built, the skipped resources are exactly those without a component map |
| Diffs.DiffTable.EnsureAddress | cost/plan.go:92-99 | a new address gets an empty diff with the resource's provider and type, an old one is left as it is |
| Diffs.DiffTable.CellFor | cost/plan.go:104-108 | a component that has no cell gets an empty one of its own, and every other cell keeps what it holds |
| Diffs.DiffTable.Point | cost/plan.go:110-114 | one side of one cell points to a private copy of the component; nothing else changes |
| Diffs.DiffTable.MergeState | cost/plan.go:86-117 | in any order, every component of every resource that was not skipped is on its side of its cell, and all else is kept |
| Diffs.ResourceDifferences | cost/plan.go:39-56 | one diff per address either side estimated, in some order; each cell holds exactly the component that each side has |
| Diffs.NoSharing | cost/plan.go:101-115 | no cell and no component copy is shared between components or between the two sides |
| Diffs.ComponentDiffCost | cost/component.go:32-46 | a missing side costs nothing, the other costs what its component does |
| Diffs.ResourceDiffCost | cost/resource.go:37-63 | the cost of one side of a diff is the sum over its cells in some order |
| Diffs.PlanCost | cost/plan.go:23-37 | a side of the plan costs what its state does, and nothing when it is missing |
| Diffs.DiffsConserve | cost/plan.go:39-56 | one side's costs of all diffs add up, in any order, to the cost of that side's state, and fail exactly when it does |
| Prices.GenerateHash | price/price.go:36-52 | the hash does not depend on the order in which the attributes are visited |
| Prices.HashExactly | price/price.go:36-52 | with a digest that tells texts apart, two prices have one hash exactly when unit, currency and attribute values in name order join to one text; the amount plays no part |
| Prices.HashInjective | price/price.go:36-52 | with the same attribute names and no dash in one of them, exactly when unit, currency and attributes are equal |
| Prices.PreImageDetermines | price/price.go:37-50 | without dashes the hashed text determines exactly unit, currency and the attribute values in name order |
| Prices.PreImageInjective | price/price.go:36-50 | for equal attribute names, a price without dashes shares its hashed text with no other price, whatever that one holds |
| Prices.TwinExactly | price/price.go:36-50 | a price shares its hashed text with another one of the same names exactly when unit, currency or a value has a dash |
| Prices.TwinAmongCurrenciesExactly | price/price.go:36-50 | among currencies without a dash it does so exactly when there is a dash and at least one attribute |
| Prices.TwinAmongCodesExactly | mysql/price.go:57-64 | among any set of dash-free currency codes it does so exactly when a value has a dash and there are two attributes, or another piece of the text is a code with a piece before it and one per attribute after it |
| Prices.DashedUnitExactly | aws/terraform/s3_bucket.go:115-127 | with one dash in the unit and none in the values, it does so exactly when the end of the unit is a code |
| Prices.NamesCollide | price/price.go:46-48 | two prices whose one attribute differs only in its name collide |
| Prices.DashesCollide | price/price.go:50-50 | for every unit and currency, a dash at the end of one value and at the start of the next give one hashed text |
| Strings.BeforeExactly | price/price.go:45-45 | the names are sorted in the lexicographic order of their characters |
| Strings.SortedUnique | price/price.go:45-45 | two sorted sequences of the same strings are the same sequence |
| Strings.SplitJoin | price/price.go:50-50 | splitting undoes joining when no part has the separator |
| Strings.JoinSplit | price/price.go:50-50 | joining undoes splitting on every text |
| Strings.JoinUniqueExactly | price/price.go:50-50 | a list of two or more parts is the only one of its length with its join exactly when no part has the separator |
| LivePrices.PriceVar.Add | price/price.go:57-70 | a mismatch in unit, then currency, is an error that changes nothing; otherwise the values add up and the new attributes win in the shared map, or the program crashes on a nil map that is given an attribute |
| Store.UpsertedProductValid | mysql/product.go:105-130 | upserting a product keeps the unique key, the ids and the foreign key, and changes no id |
| Store.UpsertedPriceValid | mysql/price.go:101-129 | upserting a price of a known product keeps the unique key, the ids and the foreign key, and changes no id |
| Store.Backend.UpsertProduct | mysql/product.go:106-130 | an insert, or an update of the attributes alone, and the id of the row |
| Store.Backend.UpsertPrice | mysql/price.go:102-129 | an unknown currency is refused before any statement; a known price keeps its id and takes the new values, the amount rounded to the ten places of its column: the nearest such amount, the one further from zero on a tie |
| IngestedRows.StoredProduct | ingestion.go:31-40 | after a run without an error the first record of every SKU is stored as its product, keeping service, family and id of an old row |
| IngestedRows.StoredPrice | ingestion.go:42-44 | and the last record of every price under that product: its amount to ten places, exactly when it has no more, its currency, unit and attributes |
| IngestedRows.TwoRows | price/price.go:45-50 | two records of a SKU that differ in an attribute value leave two rows, each with its own price |
| IngestedRows.RowFromRecord | mysql/price.go:54-72 | every price row that a run on empty tables left is that of a received record |
| Ingestion.IngestPricing | ingestion.go:25-51 | what is received is stored record by record until the first failed upsert; then the ingester's error is reported |
| Ingestion.ConsumeKeeps | mysql/migrations/v1_name_indexes.go:10-26 | however the database fails, a run keeps both unique keys, the foreign key and every id |
| CachedRuns.ApplyAllAt | ingestion.go:30-45 | a run changes each product and each price as its list of writes says, whatever the ids are |
| CachedRuns.ConsumeIsPlan | ingestion.go:29-45 | a run without an error made exactly one price upsert per record and one product upsert per first use of a SKU, in order |
| CachedRuns.ConsumeFails | ingestion.go:42-44 | while the database answers, a run fails exactly when some currency is no ISO code: the foreign key is never violated |
| CachedRuns.ConsumeStops | ingestion.go:34-44 | a run that stops early leaves what its error-free prefix left, plus at most the product of the failed record |
| CacheRefinement.CacheRefinesExactly | ingestion.go:29-40 | the cache leaves the contents that upserting every product would leave, from every store, exactly when the records that the run reaches, up to the first that is in no ISO currency, are consistent |
| CacheRefinement.SecondPlaceIsLost | ingestion.go:31-42 | of one SKU in two places the second gets no product, and its price is stored under the first |
| CacheRefinement.ReplayIsIdempotent | ingestion.go:30-45 | while the database answers, ingesting the same stream twice leaves the rows and the ids of once, from every store and even if a currency stops both runs |
| CacheRefinement.OneUpsertPerSKU | ingestion.go:31-40 | an error-free run executes one price statement per record and one product statement per distinct SKU |
| Pipeline.ReadFile | aws/ingester.go:110-158 | without interruption the goroutine sends exactly the wanted records up to the first unreadable or malformed row, in order, and reports that error |
| OfferFiles.ReadsExactly | aws/ingester.go:110-158 | rows of at most two cells are skipped, the next is the header, then the records of the wanted rows follow in order up to the first row that is unreadable or malformed, whose error is reported, or that the header is missing |
| OfferFiles.NilStoresRow | ingestion.go:30-51 | when ingestion returns nil, the first record of a SKU and the last one of a price are stored as they were read |
| ConsumerSteps.TablesFollow | ingestion.go:30-45 | between any two statements the tables are those of the stored records, plus at most the product of the record in hand |
| Pipeline.StepKeeps | aws/ingester.go:113-158 | every step of producer, channel and consumer keeps the invariant: receiving, the product upsert, the price upsert and returning are steps of their own |
| Pipeline.RunKeeps | aws/ingester.go:74-162 | for every interleaving and capacity: records stored, in hand, buffered and held are, in order, the wanted records of the rows read; the buffer stays within its capacity |
| Pipeline.ReturnsSequential | ingestion.go:25-51 | ingestion returns and stores what the sequential fold over the file does, or was cut short by a cancelled context, says so and has stored a prefix |
| Pipeline.ResultExactly | ingestion.go:34-50 | what is returned is the first failed upsert, else that the context was cancelled, else the error of the file, else nil |
| Pipeline.StoresPrefix | ingestion.go:30-45 | at any moment the tables are those of a prefix of the wanted records, plus at most the product of the next one |
| Pipeline.RunsAreBounded | aws/ingester.go:113-158 | no run is longer than its starting measure, so ingestion ends |
| Pipeline.NoDeadlock | ingestion.go:30-30 | until ingestion returns, the producer or the consumer can move |
| Leaks.LeftBehindExactly | ingestion.go:30-51 | when no step is left, the producer has not closed exactly when ingestion has returned and the producer sends into a full channel |
| Leaks.BlockedForever | aws/ingester.go:155-157 | no run goes on from there |
| Leaks.LeaksExactly | ingestion.go:30-44 | some run gets there exactly when the sequential run fails on record n of the wanted ones and there are at least n + capacity + 2 of them |
| Leaks.TenRowsLeak | ingestion.go:30-30 | with capacity 8, ten records in a currency that is no ISO code are enough |
| Leaks.CurrencyLeaksExactly | ingestion.go:30-44 | while the database answers, some run gets there exactly when a wanted record in a currency that is no ISO code has capacity + 1 wanted ones after it |
| Failures.FailuresAreCurrencies | ingestion.go:30-44 | while the database answers, a run fails with so many records to come exactly when one in a currency that is no ISO code has as many after it |
| AzurePipeline.StepKeeps | azurerm/ingester.go:69-161 | every step of fetcher, converter and consumer keeps the invariant, under cancellation too |
| AzurePipeline.BothChannelsConserve | azurerm/ingester.go:74-151 | across both channels nothing is lost, repeated or reordered, and neither exceeds its capacity |
| AzurePipeline.ReturnsSequential | azurerm/ingester.go:69-161 | whatever the interleaving, ingestion returns and stores what the sequential run over the pages does, or was cut short by a cancelled context, says so and has stored a prefix |
| AzurePipeline.ResultExactly | ingestion.go:34-50 | what is returned is the first failed upsert, else that the context was cancelled, else the error of the pages, else nil |
| AzurePipeline.RunsAreBounded | azurerm/ingester.go:133-157 | no run is longer than its starting measure, so ingestion ends |
| AzurePipeline.NoDeadlock | azurerm/ingester.go:74-105 | until ingestion returns, the fetcher, the converter or the consumer can move |
| AzurePipeline.NilExactly | azurerm/ingester.go:152-156 | nil is returned exactly when nothing was cut short, all upserts succeed and the pages lead to a last page or to a bad link |
| AzureRecords.WantedExactly | azurerm/ingester.go:76-104 | the records sent are those of the wanted prices, in order, each with the fields of its price |
| AzureRecords.FetchExactly | azurerm/ingester.go:133-157 | the prices fetched are those of the pages up to the first that leads no further, or to the first failure, which is reported |
| AzureRecords.NilStoresPrice | azurerm/ingester.go:76-104 | when ingestion returns nil, the last record of a price is stored with amount, unit, currency and type of the retail price |
| AzureLeaks.LeftBehindExactly | azurerm/ingester.go:71-105 | when no step is left, the converter has not ended exactly when it sends into a full channel after ingestion returned, and the fetcher exactly when its channel is full too |
| AzureLeaks.BlockedForever | azurerm/ingester.go:102-149 | a blocked converter stays blocked in every run, and nothing happens once the fetcher is |
| AzureLeaks.ConverterLeaksExactly | ingestion.go:30-44 | some run blocks the converter for ever exactly when the sequential run fails on wanted record n and there are at least n + capacity + 2 of them |
| AzureLeaks.EarlyExactly | azurerm/ingester.go:110-149 | the wanted records without the last 101 prices: 100 fit into the channel of the fetcher and it holds one more |
| AzureLeaks.FetcherLeaksExactly | azurerm/ingester.go:110-149 | some run blocks the fetcher too exactly when there are as many even without the last 101 prices |
| AzureLeaks.CurrencyLeaksConverter | azurerm/ingester.go:69-105 | while the database answers, the first in terms of a wanted record in a currency that is no ISO code |
| AzureLeaks.CurrencyLeaksFetcher | azurerm/ingester.go:110-149 | and the second |
| GoogleIngester.IngestSku | google/ingester.go:142-213 | one SKU sends its wanted records and sets the price of its machine family, in-region only |
| GoogleIngester.IngestSkus | google/ingester.go:134-214 | phase one sends the wanted records of every SKU in order and leaves the table that the SKUs set one after the other, up to the first one at which the context is done |
| GoogleIngester.TableHoldsLast | google/ingester.go:186-209 | that table holds, per machine family and group, the last in-region priced SKU that sets it, and nothing when none does |
| GoogleIngester.KeyInjective | google/ingester.go:207-209 | no two pairs of family and group share a table key |
| GoogleIngester.ComposeMachine | google/ingester.go:216-272 | composing a machine type computes its price from two table entries and changes no existing object |
| GoogleIngester.MachinePriceExactly | google/ingester.go:239-272 | a machine type is priced exactly when both parts are known, in the right units and one currency; the price is RAM times whole thousands of MB plus CPU times processors |
| GoogleRecords.SkuRecordsExactly | google/ingester.go:150-213 | a SKU sends its record, field by field, once per region that is the ingester's or global, if it has a rate and is wanted: units plus nanos over a billion |
| GoogleRecords.SkusInOrder | google/ingester.go:134-214 | the records of the SKUs follow each other, and nothing else is sent |
| GoogleRecords.LastSetExactly | google/ingester.go:186-209 | the price of a family and group is that of the last SKU of that group whose description starts with the family, in a region of the ingester and with a rate |
| GoogleRecords.MachineExactly | google/ingester.go:216-272 | a machine type becomes a record with the price of its parts, rate by rate, a mismatch, or nothing, in terms of the SKUs |
| GoogleRecords.MachinesExactly | google/ingester.go:216-272 | machine types are handled in order up to the first mismatch, and the wanted records are sent |
| GoogleIngester.Ingest | google/ingester.go:121-325 | a done context stops phase one; otherwise the SKU records, then the wanted machine types up to the first mismatch, all priced from the one table of phase one, even when fetching failed; the error left is the mismatch, or the last failed fetch |
| Filters.Where.Add | mysql/filters.go:27-30 | one condition and its parameter are appended together |
| Filters.ParseProductFilter | mysql/filters.go:32-66 | one condition per field set and per attribute filter, each with its own parameter |
| Filters.ParsePriceFilter | mysql/filters.go:68-103 | the product id first when it is not zero, then the fields and attributes of the filter |
| Filters.ProductFilterExactly | mysql/filters.go:32-66 | the generated conditions, parameters taken by position, are true of exactly the rows that match the filter |
| Filters.PriceFilterExactly | mysql/filters.go:68-103 | the same for prices |
| Filters.BlankExactly | mysql/filters.go:18-20 | no condition is generated exactly when nothing is filtered by |
| Filters.FilterProducts | mysql/product.go:65-91 | the matching rows in table order, or a failing statement for a blank filter |
| Addresses.CleanIdempotent | terraform/plan.go:171-177 | cleaning is idempotent on every string |
| Addresses.KeyVanishesExactly | terraform/plan.go:171-171 | a rendered key vanishes exactly when each closing bracket in it is followed by an opening one |
| Addresses.CleanGivesConfigKey | terraform/plan.go:138-177 | at every depth, cleaning gives the configuration key exactly under that condition on every key |
| Addresses.PlainKeysClean | terraform/plan.go:171-177 | keys without a closing bracket are cleaned at every depth |
| Addresses.ConfigKeyInjective | terraform/plan.go:138-162 | different module paths or names have different keys |
| Addresses.MisleadingKey | terraform/plan.go:171-177 | a key that closes early and spells a module call leaves the configuration key of that module's resource |
| Merge.MergeInto | terraform/plan.go:193-243 | the merge gives one result in every order, or crashes |
| Merge.CrashExactly | terraform/plan.go:203-236 | it crashes exactly when a map meets no map, or a block meets no block before the first item that is none |
| Merge.BlocksExactly | terraform/plan.go:212-236 | a list of blocks crashes exactly when the resource lacks a block at some position |
| Merge.MixedExactly | terraform/plan.go:212-236 | a list with an item that is no block replaces the value, unless a block before that item meets none |
| Merge.MergeIdempotent | terraform/plan.go:193-243 | merging the same configuration again changes nothing |
| Merge.MergeKeys | terraform/plan.go:193-243 | the keys are the old ones and the non-nil configured ones; new keys take the configured value |
| Merge.MergePrecedence | terraform/plan.go:193-243 | scalars of the resource win, entries of configured maps win, blocks only gain what they miss |
| PlanQueries.ExtractModuleConfiguration | terraform/plan.go:130-169 | in any order of the module calls, every configured resource with a known provider is assigned that provider and its evaluated expressions, and nothing else; it fails exactly when an evaluation does |
| PlanQueries.Gather | terraform/plan.go:184-246 | the resources to query are those that are managed and assigned, with their values merged, the last one of each address; a crash is a crash of a merge |
| PlanQueries.GatheredUnique | terraform/plan.go:184-246 | and they are determined by the resources of the module |
| PlanQueries.QueriesOf | terraform/plan.go:248-259 | one query per gathered resource, in any order, with the provider's components |
| PlanQueries.ExtractModuleQueries | terraform/plan.go:181-266 | over the whole tree, one query per qualified address of each module and no other, each built by the assigned provider from the merged resources of its module; it crashes exactly when a merge does |
| PlanComponents.QueryBuilt | terraform/plan.go:181-260 | every query belongs to a module of the tree: it has the type of the merged resource at its address, the name of the assigned provider and the components that this one makes of the resource among those of the module |
| PlanComponents.ProviderKeyEnds | terraform/plan.go:132-136 | the provider key of a resource is what follows the last colon |
| PlanComponents.QueriesAskFor | terraform/plan.go:106-260 | on a tree of rendered addresses the provider is the one configured for the resource, and what is merged in is what its expressions evaluate to in the module at its path |
| PlanQueries.OneQueryEach | terraform/plan.go:181-266 | with distinct addresses per module these are exactly the qualified resources, once each |
| PlanQueries.FoundExactly | terraform/plan.go:184-190 | an address finds the entry of its own resource exactly when that is configured, at its module path and with a known provider, and every closing bracket in an instance key is followed by an opening one |
| PlanQueries.MisfoundExactly | terraform/plan.go:171-190 | it finds another resource's exactly when some closing bracket is not, and a resource is configured under what cleaning leaves |
| PlanQueries.ForEachKeyMisleads | terraform/plan.go:171-190 | with such a key a resource of one module is taken for one of the module below it |
| PlanQueries.QueriesExactly | terraform/plan.go:106-115 | on a tree of rendered addresses, distinct in each module, there is one query for every managed resource that is configured with a known provider, and no other |
| PlanQueries.ProviderExactly | terraform/plan.go:138-158 | the provider and the values found for an address are those configured for it |
| PlanQueries.AssignmentsUnique | terraform/plan.go:153-167 | the assignments do not depend on the order in which module calls are visited |
| PlanQueries.ExtractQueries | terraform/plan.go:106-115 | it fails exactly when an evaluation does; otherwise the queries are those of the values tree under the assignments of the configuration, and it crashes exactly when a merge does |
| CountExpansion.AddressInjective | terraform/hcl.go:184-226 | two instances share an address only if they are the same copy of the module, the same resource and the same instance |
| CountExpansion.AddInstances | terraform/hcl.go:193-243 | a resource adds one entry per count or key under a new address, overwriting none |
| CountExpansion.ExpandResource | terraform/hcl.go:184-245 | module count times resource count entries, each at its own address |
| CountExpansion.Expand | terraform/hcl.go:107-247 | in any order, the entries are exactly the instances of the resources with a known provider, and as many as the counts say |
| CountExpansion.TotalPermutes | terraform/hcl.go:107-107 | that number does not depend on the order |
| HclQueries.PassProviders | terraform/hcl.go:391-403 | a child gets the providers of its parent, or those of them that it is passed, under its own names |
| HclQueries.PassedOnExactly | terraform/hcl.go:391-403 | passed nothing it has its parent's; otherwise exactly those it is passed and the parent knows, each under the name it is given last |
| HclQueries.Extract | terraform/hcl.go:104-422 | over the whole tree of module calls, in any order: a crash exactly when a resource that expands has no provider under its type; otherwise exactly one query per instance, copy of its own module and resource with a known provider, all at different addresses, as many as the counts of the modules themselves say, each built by the provider of its type for an entry with address, index, type and name of that instance |
| HclQueries.RightProvidersExactly | terraform/hcl.go:109-113 | all are built by the providers that their resources refer to exactly when no resource that expands has another one under its type |
| HclQueries.AliasMisleads | terraform/hcl.go:292-298 | a resource with an aliased provider crashes the extraction, or is queried from the other provider |
| ModuleTrees.LocatedOnce | terraform/hcl.go:184-192 | no address belongs to resources of two modules |
| ModuleTrees.CallsApart | terraform/hcl.go:405-418 | a module and each of its calls expand to different addresses |
| ModuleTrees.CopiesExactly | terraform/hcl.go:380-414 | a module counted n makes n times its own entries exactly when n is 1 or nothing with a known provider is below it |
| CtyConversion.ScalarsExactly | terraform/hcl.go:573-635 | what strings, numbers and bools are made of: the text of any value, numerals and bools as numbers, "true" and positive numbers as true |
| CtyConversion.CompositesExactly | terraform/hcl.go:636-690 | maps keep their keys and lists their length, every part converted to the type expected of it, and anything else becomes null |
| CtyConversion.ReturnedType | terraform/hcl.go:628-637 | the type returned is the expected one, or under the dynamic type that of the value, if it has one |
| CtyConversion.ConvertKeepsExactly | terraform/hcl.go:568-693 | a value is kept exactly when it fits the type |
| CtyConversion.DynamicKeepsRegular | terraform/hcl.go:891-922 | under the dynamic type, strings, floats, bools, maps and non-empty homogeneous lists of them are kept |
| CtyConversion.ConvertTwiceExactly | terraform/hcl.go:568-693 | for every value and type, dynamic parts included, converting twice is converting once exactly when the value is stable |
| CtyConversion.ConvertConformsExactly | terraform/hcl.go:497-498 | the converted value is of the returned type exactly when every number that type expects is a float, a string or a bool; strictly, exactly when besides the objects have the attributes of their types and no others |
| CtyConversion.NumeralsAreLost | terraform/hcl.go:585-609 | a numeric string becomes an int and then false |
| Numerals.NumeralInjective | terraform/hcl.go:209-209 | different counts are written differently |
| Numerals.AtoiNumeral | terraform/hcl.go:589-597 | reading back a written number gives the number |
| Numerals.NumeralDigits | terraform/hcl.go:209-209 | a count is written with its decimal digits in order |
| Numerals.AtoiSigned | terraform/hcl.go:589-597 | a sign in front changes the sign, and what exceeds 64 bits is not read |
| Rounding.NearestBeats | cost/cost.go:40-42 | rounding picks a nearest integer, the one further from zero on a tie |
| Rounding.NearestUnique | cost/cost.go:40-42 | and no other integer has that property |
| Rounding.HourlyRoundTrip | cost/cost.go:30-42 | Hourly of NewHourly is the price rounded to 6 places, unchanged exactly when it has no more |
| Rounding.HourlyTimesMonth | cost/cost.go:40-42 | 730 times Hourly is within 0.000365 of the month |
| Rounding.HourlyBoundIsTight | cost/cost.go:40-42 | a monthly cost of 0.000365 reaches that bound |
| Rounding.HourlyTotalDrift | cost/cost.go:40-42 | n hourly costs drift from the hourly total by at most (n + 1) / 2 millionths |
| Rounding.BillableNear | aws/terraform/efs_file_system.go:108-118 | the billable throughput is max(0, throughput - storage / 20) within half a unit of the 16th place |
| Rounding.BillableZeroExactly | aws/terraform/efs_file_system.go:113-117 | nothing is billed exactly when the excess is below half a unit |
| Rounding.BillableMonotone | aws/terraform/efs_file_system.go:108-118 | more throughput is never billed less, more storage never more |
| StorageTiers.S3Bucket.Components | aws/terraform/s3_bucket.go:70-107 | storage is split at 51200 and 512000; outbound data at 10240, 51200 and 153600 but for an overcounted first range |
| StorageTiers.SplitCovers | aws/terraform/s3_bucket.go:70-107 | every range gets exactly what lies in it |
| StorageTiers.SplitConserves | aws/terraform/s3_bucket.go:70-107 | the ranges add up to the quantity |
| StorageTiers.OvercountExactly | aws/terraform/s3_bucket.go:87-104 | the outbound ranges agree with the split, and add up, exactly at or below 10240 and above 153600; in between they exceed the quantity by 40960 |

## Left out

- Decoding of HTTP, CSV and JSON responses and the execution of MySQL: rows, pages and tables are sequences and maps, and which statement fails is a parameter.
- Pipeline.ReadFile: does not model `newPriceWithProduct` and `newProduct`, which are one function from header and row to a record or an error, nor a row shorter than its header, on which the source panics.
- GoogleIngester.Ingest: does not model the channels of the two fetching goroutines, which are what they send and their error, nor that their error may be written after that of the loop.
- `SkippedAddresses`, `ResourceDiff.Errors` and `Valid`, `DeleteByProductWithKeep`, `FindByVendorAndSKU`: single loops and statements that no larger property needs.
- Widths of ids, lengths of columns, amounts beyond the price column and collations: ids and columns are unbounded and strings are compared by character.
- MD5 and `RLIKE`: uninterpreted functions, so hash collisions of different texts are possible in every result about the store.
- The decimal library is not part of this model: amounts are reals, sums and products are exact as they are there, and division rounds half away from zero as it documents.
- `AUTO_INCREMENT` may or may not skip ids when a row is updated; cached and uncached runs are therefore compared up to ids, while a replay is shown to keep them.
- The backend of `NewState` is a function from a filter to the products and prices found, or an error; `StoredPrices.BackendOf` is the one over the tables, in any fixed order of their rows and without failing statements but those of blank filters.
- `evaluateResourceExpressions`, `isArray`, `extractProviders` and provider configuration: functions that return values or an error.
- Aliasing of configuration maps between resources during the merge, and the text of JSON paths with special characters: the merge is modelled on values.
- CountExpansion.Expand: a resource with both `count` and `for_each`, and `for_each` entries whose value cannot be converted, are not modelled, and the loops over keys and over copies of the module are nested the other way round, which changes no entry as none is overwritten.
- HclQueries.Extract: loading, the evaluation of a call's arguments and `validateProviders` are not modelled; what a provider builds of an entry is the provider and the entry.
- Evaluation of HCL expressions, `getBodyJSON`, `convertCtyValue` and the resolution of references between resources: they rest on the hcl and cty libraries or depend on map order.
- `estimation.go`, Terragrunt, git and remote modules: calls into libraries that are not part of this model.
- The component builders of single resources, region tables, ingestion filters and number formats: finite tables or parameters.
