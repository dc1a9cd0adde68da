# Verification of the pharmacy analytics platform

A Dafny model of the stateful core of the pharmacy ERP's API, with proofs of
what that core promises. It is centred on the analytics warehouse and adds four
smaller protocols.

**Warehouse.** A refresh deletes and reloads the facts of a window, adds them up
again into seven daily grains, syncs the versioned dimensions and the versioned
indicator catalogue, and raises the data version, all in one transaction.

- `Payloads`, `Sums`: measure objects, their addition, totals over sets of rows.
- `Facts`: facts, grains, group-by as maps; conservation and roll-up.
- `Rebuild`: the statements of a refresh for any window, and the rebuild of a
  set of days that they amount to when the window is aligned to midnight.
- `Consistency`: which refreshes leave the rows of a day the sums of its facts.
- `Dimensions`, `Catalog`: the two versioned tables.
- `ChangingSource`: refreshes of a source that changes between them.
- `Lineage`: what is recorded of each fact's origin, and the quality score.
- `Warehouse`: the class whose refresh updates all of it, or nothing.

**Queries.** Requests fold aggregate rows into measures, series and rankings,
behind a cache keyed by question and data version.

- `Filters`, `Snapshot`, `Prices`, `Series`: row selection, the one-pass fold,
  the price deviation, the daily series.
- `Sorting`, `Products`, `Stock`, `Ranking`: largest sums, concentration, cover
  counters, rankings with rounded shares.
- `SourceToQuery`: what a query reports after refreshes, told from the source.
- `KpiCache`: requests interleaved statement by statement with commits, goal
  changes and expiring entries.
- `KpiMeasures`: the measures of a whole request, composed from all its
  sections, and the cache protocol for the questions that use them.
- `Reports`: the measures of such a request, each told from the rows that it read.
- `TornAnswer`: a run in which one of these questions is answered from two versions.

**Smaller cores.** `LoginLimiter` (failure counter with exponential expiry),
`Base64Cursor`, `CursorText` and `Pagination` (opaque cursors, their text and
the walk along them),
`Uploads` (store, insert, commit or compensate, interleaved), `BatchStates` (the
guarded state column), `Goals` (versioned goals with history).

## Conventions

Tables are maps from their unique key to the row. A loop over query results
takes the rows in an arbitrary order (`Enumerates`) and is specified by the
table alone, so its result does not depend on that order; where it does, the
order is named. Decimals are `real`;
only explicit rounding steps round. Instants are integers (microseconds, in the
limiter milliseconds) and dates are taken in UTC. The formula evaluator, the
square root, the current time and the visible rows are parameters. Hashes that
keys are made of are taken to be injective.

Concurrent protocols are step systems: a state, an action for every statement
or store call of every request, and runs over arbitrary sequences of actions.
Fields marked "history only" record provenance; no step depends on them.

## Where the code does not meet the wish

Each of these is a lemma, with the exact condition beside it.

- A refresh keeps every touched day consistent only for windows bounded by
  midnight. Requested refreshes have such windows; a refresh after an import
  reaches back from the first event itself, so its first day is cut unless that
  event was at midnight (`Consistency.AlignmentIsExact`, `Consistency.ImportWindowsAligned`).
- A promotion that began before the window is reloaded, but its day is not
  aggregated again (`Consistency.EarlyPromotionIsNotAggregated`). From empty
  tables and over a source that does not change, all days are consistent after
  refreshes exactly if every row with a number that one of them loads falls on
  a day that one of them covers (`Consistency.ConsistencyIsExact`).
- A row that moves to another day in the source, as a lot does whenever it is
  updated, takes its fact along when the new day is refreshed, and the rows of
  the old day go on counting it (`Consistency.MovedRowIsNotTakenBack`). Once the
  old and the new day of every change are refreshed again, the tables are the
  rebuild from the last source (`ChangingSource.ChangesAreCaughtUp`), and the
  condition above is exact for that source
  (`Consistency.SettledConsistencyIsExact`). In any tables, a consistent day
  stays so while refreshes of other days leave its facts alone
  (`Consistency.QuietDaysStayConsistent`).
- A dimension that turns back to an earlier content is refused, and with it the
  whole refresh, or it is lost without an error if its start instant is taken
  too (`Dimensions.RevertedContentIsLost`, `Dimensions.RevertedContentLostSilently`).
  Which syncs work is `Dimensions.FreshIsExact`.
- A catalogue that registers an older version of a code leaves two versions
  open (`Catalog.OlderVersionStaysOpen`, `Catalog.AscendingIsExact`).
- At product and category grain the series omits two substitutions of the
  snapshot, and the ranking one of them (`Series.ProductGrainDisagreement`,
  `Ranking.GroupAgreesWithSnapshot`).
- The stock cover of a product with rows under two categories on its latest day
  depends on the row order (`Stock.CoverDependsOnOrder`,
  `Products.DerivedCoverDependsOnOrder`). The counters are independent of the
  order exactly if all rows of each stock's latest day put it on the same cover
  levels (`Stock.CoverIsDetermined`), and under that condition the whole snapshot
  is, `freshness_seconds` aside (`KpiMeasures.DeterminationIsExact`). Which rows
  are kept is independent of it exactly if no stock has two such rows
  (`Stock.OrderIsIrrelevant`). Every loader
  takes the category from the product as it is when its statement runs, so two
  categories meet on one day when a product's category changes between two
  loader statements of one refresh; otherwise they cannot
  (`Stock.OneCategoryOneRow`).
- Above the row cap the series ends early, and its last day may be cut, where
  the snapshot reports an error (`Series.TruncationIsExact`).
- A cached answer can mix two versions if a refresh commits between its reads.
  Only requests that read the version before that commit can be served it
  (`TornAnswer.TornHit`, `KpiCache.ServedIsTornExactlyByCommits`,
  `KpiCache.HitIsRecomputation`).
- With a cap below N base lockouts the limiter admits more than N + T / b
  failures; the settings allow such caps (`LoginLimiter.BoundIsExact`).
- An upload whose copy breaks after the exclusive creation leaves its object,
  which blocks the same file for that day (`Uploads.BrokenCopyLeavesObject`,
  `Uploads.UploadsAreSafe`).

The generated indicator documentation says that results round half up; shares
in rankings are rounded half to even, as the code does.

## Model

| member | source | states |
|---|---|---|
| `Facts.RowsAreGroups` | apps/api/src/pharma_api/application/analytics/processing.py:494-547 | Two facts fall into one row of a grain exactly when they share the day and the columns listed for the grain. |
| `Facts.KeyHoldsColumns` | apps/api/src/pharma_api/application/analytics/processing.py:494-512 | A row carries the fact's value in each column of its grain and null in the others; channel, payment method and movement type share the dimension value; the day is the UTC day of the fact. |
| `Facts.AggregatedByGrain` | apps/api/src/pharma_api/application/analytics/processing.py:493-547 | A row of the seven grains exists exactly for the keys to which some fact with a numeric measure belongs, and holds the totals and the latest source update of those facts; each row belongs to its own grain. |
| `Facts.RowsAreSums` | apps/api/src/pharma_api/application/analytics/processing.py:494-547 | The row of a key exists exactly if a fact with a number falls on it; it carries the measures that these facts carry as numbers, sums each of them over these facts, and has their latest source update. |
| `Facts.RollUp` | apps/api/src/pharma_api/application/analytics/processing.py:539-547 | Product rows add up, measure by measure, to their category row, and the rows of any grain to their scope row. |
| `Facts.GrainConserves` | apps/api/src/pharma_api/application/analytics/processing.py:493-547 | In each of the seven grains, the rows of one day, company and branch add up to the numbers of all facts of that day, company and branch: aggregation conserves every measure. |
| `Warehouse.LoadFacts` | apps/api/src/pharma_api/application/analytics/processing.py:582-592 | Deleting the window and running every loader leaves the untouched facts overridden by exactly the loaders' rows; needs distinct fact identifiers across loaders. |
| `Warehouse.Reaggregate` | apps/api/src/pharma_api/application/analytics/processing.py:593-609 | Deleting the window's days and inserting grain after grain leaves the other days' rows overridden by all seven grains of the window's facts. |
| `Warehouse.Warehouse.ExecuteRefresh` | apps/api/src/pharma_api/application/analytics/processing.py:550-668 | A refresh replaces facts, aggregates, lineage, dimensions and catalogue as their specifications say, sets watermark, freshness and quality score, raises the data version by one, and reports to the job the rows that each loader, the aggregation, the dimension sync and the catalogue brought; or it fails and changes nothing, exactly when the dimension sync is refused or a registered definition changed. |
| `Warehouse.WatermarkIsLatest` | apps/api/src/pharma_api/application/analytics/processing.py:631-636 | The watermark that a refresh sets is the latest source update among all facts, and missing exactly without facts. |
| `Lineage.RefreshTraces` | apps/api/src/pharma_api/application/analytics/processing.py:570-622 | After a refresh no lineage row names a missing fact, every fact in the window is traced to its present origin, batch and version by this job, and the lineage of other facts stays. |
| `Lineage.Quality` | apps/api/src/pharma_api/application/analytics/processing.py:624-630 | The quality score is the average over the facts that carry a score, and missing without any. |
| `Lineage.QualityIsAverage` | apps/api/src/pharma_api/application/analytics/processing.py:624-630 | The score times the number of facts that carry one is the sum of theirs, and it is missing exactly if none does. |
| `Rebuild.LoadedInWindow` | apps/api/src/pharma_api/application/analytics/processing.py:582-592 | After an aligned refresh the facts inside the window are exactly what the loaders give, whatever was there before. |
| `Rebuild.AlignedRefreshRebuilds` | apps/api/src/pharma_api/application/analytics/processing.py:574-609 | A refresh over midnight-aligned bounds equals the rebuild of its set of days. |
| `Rebuild.RebuildCompose` | apps/api/src/pharma_api/application/analytics/processing.py:574-609 | Rebuilding some days and then others is rebuilding their union. |
| `Rebuild.RunRebuilds` | apps/api/src/pharma_api/application/analytics/processing.py:574-609 | Any sequence of aligned refreshes over a fixed source equals one rebuild of all days covered. |
| `Rebuild.SameDaysSameStore` | apps/api/src/pharma_api/application/analytics/processing.py:574-609 | Two sequences of refreshes that cover the same days end in the same tables, in whatever order and number. |
| `Rebuild.RefreshesCommute` | apps/api/src/pharma_api/application/analytics/processing.py:574-609 | Aligned refreshes commute and are idempotent. |
| `Rebuild.CoveringRunIsFullRebuild` | apps/api/src/pharma_api/application/analytics/processing.py:574-609 | An incremental sequence that covers a span equals one refresh of the whole span. |
| `ChangingSource.ChangesAreCaughtUp` | apps/api/src/pharma_api/application/analytics/processing.py:574-609 | Refreshes of a source that changes between them leave the rebuild from the last source, provided that whenever a row changes its old and its new day are refreshed once more. |
| `Consistency.WholeDaysConsistent` | apps/api/src/pharma_api/application/analytics/processing.py:593-609 | For any window and any earlier tables, a refresh makes every day wholly inside the window consistent: its rows are the group sums of all facts of that day. |
| `Consistency.UntouchedDays` | apps/api/src/pharma_api/application/analytics/processing.py:593-599 | Rows of days outside the window stay as they are. |
| `Consistency.QuietDaysStayConsistent` | apps/api/src/pharma_api/application/analytics/processing.py:582-609 | A consistent day outside the window stays consistent if the loaders bring it nothing and change none of its facts. |
| `Consistency.EarlyPromotionIsNotAggregated` | apps/api/src/pharma_api/application/analytics/processing.py:322-332 | A concrete failure: a promotion that began before the window and reaches into it is loaded without its day being aggregated again. |
| `Consistency.ConsistencyIsExact` | apps/api/src/pharma_api/application/analytics/processing.py:574-609 | From empty tables and over a fixed source, any sequence of aligned refreshes leaves every day consistent if and only if no source row with a number is loaded by one of them while its own day is covered by none. |
| `Consistency.SettledConsistencyIsExact` | apps/api/src/pharma_api/application/analytics/processing.py:574-609 | The same holds for a source that changes between the refreshes, of its last state, if every change was caught up with: the old and the new day of the row were refreshed once more. |
| `Consistency.MovedRowIsNotTakenBack` | apps/api/src/pharma_api/application/analytics/processing.py:104-119 | A concrete failure: a row moves to another day in the source and only its new day is refreshed again; the conflict clause takes its fact away from the old day, whose rows still count it. |
| `Consistency.AlignmentIsExact` | apps/api/src/pharma_api/application/analytics/processing.py:574-609 | Every touched day ends consistent, for all tables and sources, if and only if both window bounds are at midnight. |
| `Consistency.QueuedWindowsAligned` | apps/api/src/pharma_api/application/analytics/service.py:281-287 | The windows of requested refreshes are always safe. |
| `Consistency.QueuedWindowDays` | apps/api/src/pharma_api/application/analytics/service.py:286-287 | A requested refresh covers exactly the days from the first to the last. |
| `Consistency.ImportWindowCovers` | apps/api/src/pharma_api/infrastructure/analytics/tasks.py:51-64 | A refresh after an import covers every event of the batch, seven days before the first, and the day the batch was created. |
| `Consistency.ImportWindowIsExact` | apps/api/src/pharma_api/infrastructure/analytics/tasks.py:51-64 | Exactly which instants the window of a refresh after an import holds: from seven days before the first event, else before the first day of the period or of creation, through the last day of the events, else of the period, and of creation. |
| `Consistency.ImportWindowsAligned` | apps/api/src/pharma_api/infrastructure/analytics/tasks.py:35-64 | The window of a refresh after an import is safe if and only if the batch has no dated event or its first one falls exactly on midnight. |
| `SourceToQuery.FlowIsSourceSum` | apps/api/src/pharma_api/application/analytics/queries.py:397-441 | After refreshes that cover the days asked for and have caught up with a changing source, a flow that a query reports, at any grain and with any filters, is the sum over the matching source rows of the measure behind it, whatever the tables held before. |
| `SourceToQuery.DeviationIsSourceDeviation` | apps/api/src/pharma_api/application/analytics/queries.py:448-458 | Likewise the reported price deviation is the root of the population variance of the matching prices in the source. |
| `SourceToQuery.AskedByColumns` | apps/api/src/pharma_api/application/analytics/queries.py:147-224 | The matching source rows are, at every grain that a request reads, those of the days asked for that the caller may see and whose own columns agree with every filter: a brand through its products, an economic group through its companies. |
| `SourceToQuery.SectionsAnswer` | apps/api/src/pharma_api/application/analytics/queries.py:236-260 | Each of the sections that a request reads has a column for every filter that it applies. |
| `Dimensions.SyncKeepsValid` | apps/api/src/pharma_api/application/analytics/processing.py:392-428 | Every accepted sync keeps at most one current row per key, distinct start instants, and open current rows. |
| `Dimensions.FreshIsExact` | apps/api/src/pharma_api/application/analytics/processing.py:392-428 | A sync is accepted and leaves each source key with exactly one current row of its present content if and only if every changed key comes with a start instant and a content that none of its rows has had, and replaces a row that started before now. |
| `Dimensions.RefusalIsExact` | apps/api/src/pharma_api/application/analytics/processing.py:392-428 | A sync is refused exactly if it would end a row no later than it began, or would insert a row under an identifier that an earlier row of the same content has. |
| `Dimensions.SyncEndsValidity` | apps/api/src/pharma_api/application/analytics/processing.py:392-428 | An accepted sync ends each outdated row at the load instant, after its start, and leaves the validity of all other rows; a row that appears is current, open, and holds the source's content from the source's update time. |
| `Dimensions.MissingAreNotUpToDate` | apps/api/src/pharma_api/application/analytics/processing.py:399-428 | The number of dimension rows that a refresh reports is that of the source keys whose present content has no current row. |
| `Dimensions.RevertedContentIsLost` | apps/api/src/pharma_api/application/analytics/processing.py:413-423 | Turning a dimension back to a content it once had never works: the sync is refused, because the old row's identifier is taken, unless a row of the key starts at the source's update time; then an accepted sync leaves the key without a current row. |
| `Dimensions.RevertedContentLostSilently` | apps/api/src/pharma_api/application/analytics/processing.py:413-423 | A concrete accepted sync that loses a dimension in this way. |
| `Dimensions.FreshKeepsHistory` | apps/api/src/pharma_api/application/analytics/processing.py:392-428 | A fresh sync deletes no row and leaves closed rows unchanged. |
| `Dimensions.SecondSyncIsIdle` | apps/api/src/pharma_api/application/analytics/processing.py:392-428 | An immediate second sync changes nothing. |
| `Dimensions.FreshRunsTrackTheSource` | apps/api/src/pharma_api/application/analytics/processing.py:392-428 | Over any run of fresh syncs all of this holds: every sync is accepted, closed rows never change, and the table tracks the source. |
| `Dimensions.ClosedRowsEndAtTheirSync` | apps/api/src/pharma_api/application/analytics/processing.py:392-428 | After any accepted run every closed row has an interval that is not empty and ends at the instant of the sync that closed it. |
| `Catalog.SyncCatalog` | apps/api/src/pharma_api/application/analytics/processing.py:431-472 | The sync registers exactly the new definitions and ends exactly the open earlier versions of their codes, or reports a registered definition that changed. |
| `Catalog.EndEarlier` | apps/api/src/pharma_api/application/analytics/processing.py:452-458 | The inner loop ends exactly the open registered rows of lower version. |
| `Catalog.SyncRegisters` | apps/api/src/pharma_api/application/analytics/processing.py:431-472 | After an accepted sync each definition is registered with its digest, open from now on if new; a registered row changes only by ending now, and exactly if a new definition of its code has a higher version. |
| `Catalog.SecondSyncIsIdle` | apps/api/src/pharma_api/application/analytics/processing.py:431-472 | A second sync of the same definitions is accepted and changes nothing. |
| `Catalog.SyncPreserves` | apps/api/src/pharma_api/application/analytics/processing.py:431-472 | A registered definition and its start never change. |
| `Catalog.AscendingIsExact` | apps/api/src/pharma_api/application/analytics/processing.py:431-472 | A sync keeps the validity intervals gap-free and non-overlapping, with only the highest version of each code open, if and only if it registers no version older than a registered one. |
| `Catalog.OlderVersionStaysOpen` | apps/api/src/pharma_api/application/analytics/processing.py:452-472 | A concrete failure: version 1 of a code, registered after version 2, leaves both open. |
| `Catalog.OneOpenVersion` | apps/api/src/pharma_api/application/analytics/processing.py:431-472 | Each registered code has exactly one open version. |
| `Catalog.RunsStayWellFormed` | apps/api/src/pharma_api/application/analytics/processing.py:431-472 | Both hold over every run of ascending deployments from the empty catalogue. |
| `Filters.AggregatesAreWellKeyed` | apps/api/src/pharma_api/application/analytics/processing.py:493-547 | Rows of the scope, product, category and supplier grains carry no dimension value. |
| `Filters.SelectionIsOnePerDay` | apps/api/src/pharma_api/application/analytics/queries.py:147-224 | A query never reads two rows of one entity on one day. |
| `Filters.GrainIsExact` | apps/api/src/pharma_api/application/analytics/queries.py:209-224 | The grain read is that of the one dimension that the filters name, scope for none, and an error exactly if they name two; product and brand are one dimension. |
| `Snapshot.Fold` | apps/api/src/pharma_api/application/analytics/queries.py:397-432 | The one-pass loop, for every row order, yields flows summed over all rows, point-in-time measures summed over entities at each entity's latest row, the period totals, the days and the freshness. |
| `Snapshot.AddPoints` | apps/api/src/pharma_api/application/analytics/queries.py:430-432 | The second loop adds each entity's latest point-in-time measures once. |
| `Snapshot.Accumulate` | apps/api/src/pharma_api/application/analytics/queries.py:780-782 | `target[key] = target.get(key, 0) + value` for a whole payload adds the two payloads. |
| `Reports.BaseIsExact` | apps/api/src/pharma_api/application/analytics/queries.py:48-61 | The ten point-in-time measures are summed over each entity's last row, all other measures over all rows. |
| `Snapshot.MeasureSnapshot` | apps/api/src/pharma_api/application/analytics/queries.py:367-474 | The snapshot of the own rows is the fold followed by the derivation steps, or the cardinality error exactly above the row cap. |
| `KpiMeasures.FullSnapshot` | apps/api/src/pharma_api/application/analytics/queries.py:226-477 | The whole snapshot composes the own rows with the product rows (counts, optimal top ten, deviation, cover) and the supplier rows, each read exactly for the filters that the code names, and fails exactly if one of them exceeds the cap of ten thousand. |
| `Reports.RowsReported` | apps/api/src/pharma_api/application/analytics/queries.py:397-440 | What a whole snapshot reports under any name that is not derived: the sum over each entity's last row for the ten point-in-time measures, over all rows for the others, and at product and category grain the product measure in place of five general ones. |
| `Reports.DerivedReported` | apps/api/src/pharma_api/application/analytics/queries.py:441-470 | The active days are the number of dates, at least one; average units and average inventory cost times these days are the sums over all rows; availability for sale is the last available stock plus the units sold. |
| `Reports.ProfitReported` | apps/api/src/pharma_api/application/analytics/queries.py:433-467 | Gross profit, network and scoped revenue and scoped profit: what the rows give under that name, at product and category grain the scoped ones from the products, and otherwise what follows from reported revenue and cost. |
| `Reports.PricesReported` | apps/api/src/pharma_api/application/analytics/queries.py:448-457 | Mean price and deviation are reported exactly with prices, or if the rows give them; the mean times the number of prices is their sum. |
| `Reports.FreshnessReported` | apps/api/src/pharma_api/application/analytics/queries.py:471-475 | The age of the data is the number of whole seconds since the latest update of the rows read, zero without rows and never negative. |
| `Reports.ProductsReported` | apps/api/src/pharma_api/application/analytics/queries.py:236-298 | Unless the request asks for a supplier or a channel: how many products sold, the largest revenue of ten products, and the population deviation of the daily units, over the product rows. |
| `Reports.CoverReported` | apps/api/src/pharma_api/application/analytics/queries.py:287-322 | The cover counters count, for some last row of each stock, those that last less than 7, more than 60 and more than 90 of the reported days' average sales, and those on hand without sales; the latter count as excess too. |
| `Reports.SuppliersReported` | apps/api/src/pharma_api/application/analytics/queries.py:321-364 | Unless the request asks for a product, a category or a channel: how many suppliers have positive purchases, the largest value of one and of five of them, and the sum of their product counts. |
| `KpiMeasures.MeasuresDetermined` | apps/api/src/pharma_api/application/analytics/queries.py:226-477 | Two requests over the same rows have the same measures, `freshness_seconds` aside, at any times and in any row orders, if all rows of each stock's latest day put it on the same cover levels. |
| `KpiMeasures.DeterminationIsExact` | apps/api/src/pharma_api/application/analytics/queries.py:226-477 | All snapshots of the same rows have the same measures, `freshness_seconds` aside, if and only if the product rows are not read or all rows of each stock's latest day put it on the same cover levels. |
| `Snapshot.FlowOfBase` | apps/api/src/pharma_api/application/analytics/queries.py:397-432 | A flow measure of the snapshot is its total over all rows; point-in-time rows never contribute to it. |
| `Snapshot.ReportedFlow` | apps/api/src/pharma_api/application/analytics/queries.py:397-441 | A reported flow is the total, over all rows, of the measure that stands behind it at that grain. |
| `Snapshot.ReportedDeviation` | apps/api/src/pharma_api/application/analytics/queries.py:448-458 | With some price, the reported deviation is the root of the variance and the reported average is the mean price. |
| `Snapshot.SplitComposes` | apps/api/src/pharma_api/application/analytics/queries.py:397-432 | Splitting the period at any day composes: flows add up and later entities override earlier ones. |
| `Snapshot.WindowsCompose` | apps/api/src/pharma_api/application/analytics/queries.py:367-432 | The same for queries: the rows read for a window are those read for its two parts, at any grain and with any filters, and the measures compose. |
| `Snapshot.FinishedKeeps` | apps/api/src/pharma_api/application/analytics/queries.py:433-477 | Outside the derived measures, derivation changes only what the product substitution changes. |
| `Snapshot.DerivedMeasures` | apps/api/src/pharma_api/application/analytics/queries.py:441-464 | The averages times the active days recover the totals, availability for sale adds stock and sales, and a gross profit not given is revenue less cost, after product substitution. |
| `Prices.RowsHoldTheirFacts` | apps/api/src/pharma_api/application/analytics/processing.py:493-547 | Any rows of one grain hold the numbers of exactly the facts behind them. |
| `Prices.VarianceOfFacts` | apps/api/src/pharma_api/application/analytics/processing.py:307-320 | The three moment measures of price facts give, before any clamping, the two-pass population variance, which is not negative. |
| `Prices.SnapshotDeviation` | apps/api/src/pharma_api/application/analytics/queries.py:448-458 | The deviation that the snapshot reports is the root of the population variance of the prices behind its rows, however they were spread, and the clamp at zero never bites. |
| `Series.TimeSeries` | apps/api/src/pharma_api/application/analytics/queries.py:762-806 | The series has one point per day of the rows read, in order, each the formula on that day's finished total. |
| `Series.TruncationIsExact` | apps/api/src/pharma_api/application/analytics/queries.py:770-785 | Above the row cap the series has exactly the days up to that of the last row read, each in full except the last one, which is cut exactly if the first row not read falls on it. |
| `Series.OneDayAgreement` | apps/api/src/pharma_api/application/analytics/queries.py:786-800 | On one day series and snapshot agree at every grain on the five derived measures both set and on every other measure that is not derived, sales tax and purchase value at product and category grain excepted. |
| `Series.DailyFlowsAddUp` | apps/api/src/pharma_api/application/analytics/queries.py:762-806 | On any window and at every grain the daily flows of the series add up to the flow that the snapshot reports; for sales tax and purchase value at product and category grain, exactly if the general and the product measure have the same total. |
| `Series.DaysConserve` | apps/api/src/pharma_api/application/analytics/queries.py:777-782 | The per-day totals add up to the total of the period. |
| `Series.ProductGrainDisagreement` | apps/api/src/pharma_api/application/analytics/queries.py:786-791 | At product and category grain the series leaves sales tax and purchase value unsubstituted, and agrees with the snapshot on them exactly when the two totals coincide. |
| `Series.DayMeasures` | apps/api/src/pharma_api/application/analytics/queries.py:786-800 | The substitutions of the series and its five derived measures, from the day's totals. |
| `Series.DayDerivesFive` | apps/api/src/pharma_api/application/analytics/queries.py:786-800 | The series changes no other measure, so the scope measures, prices, stock for sale and age of the data that the snapshot derives are missing from it. |
| `Sorting.TopSumIsOptimal` | apps/api/src/pharma_api/application/analytics/queries.py:294 | The sum of the n largest of the sorted values is at least the sum over any n keys, and is reached. |
| `Sorting.SortIsStable` | apps/api/src/pharma_api/application/analytics/queries.py:860 | Sorting keeps the order of items of equal value. |
| `Products.Accumulated` | apps/api/src/pharma_api/application/analytics/queries.py:276-286 | The per-identifier accumulation equals the group totals for every row order. |
| `Products.DeriveProducts` | apps/api/src/pharma_api/application/analytics/queries.py:276-322 | `top10_revenue` is optimal over all choices of min(10, n) products; the other product measures are the counts, the deviation and the cover counters of their definitions, the cover judged by the rows that the loop keeps. |
| `Products.DeriveSuppliers` | apps/api/src/pharma_api/application/analytics/queries.py:345-364 | The top and top-five supplier values are optimal, the active suppliers are those with positive value, and the product count is the sum over suppliers. |
| `Stock.KeepLatest` | apps/api/src/pharma_api/application/analytics/queries.py:287-293 | The loop keeps, for every company, branch and product, the first row it meets with the latest day. |
| `Stock.OrderIsIrrelevant` | apps/api/src/pharma_api/application/analytics/queries.py:287-293 | What the loop keeps is the same for every order of the rows if and only if no stock has two rows on its latest day. |
| `Stock.EveryChoiceIsKept` | apps/api/src/pharma_api/application/analytics/queries.py:287-293 | Every choice of latest rows is what the loop keeps in some order. |
| `Stock.CoverIsDetermined` | apps/api/src/pharma_api/application/analytics/queries.py:287-313 | The four counters are the same for every order of the rows if and only if all rows of each stock's latest day put it on the same cover levels. |
| `Stock.CoverDependsOnOrder` | apps/api/src/pharma_api/application/analytics/queries.py:287-313 | A concrete failure: two readings of one product on one day under two categories, whose product rows read in two orders give different counters. |
| `Stock.OneCategoryOneRow` | apps/api/src/pharma_api/application/analytics/processing.py:493-547 | If no product has two categories on one day, no selection of product rows has two rows of a stock on its latest day. |
| `Stock.CountCover` | apps/api/src/pharma_api/application/analytics/queries.py:300-313 | The four counters are the numbers of stocks at the four cover levels. |
| `Stock.CoverNests` | apps/api/src/pharma_api/application/analytics/queries.py:299-313 | Unsold stock counts as excess, excess is slow or unsold, and low, slow and unsold stocks are disjoint. |
| `Stock.DemandVarianceIsPopulation` | apps/api/src/pharma_api/application/analytics/queries.py:296-299 | The two-pass demand variance is the population variance of the rows' units, in any order. |
| `Ranking.GroupRows` | apps/api/src/pharma_api/application/analytics/queries.py:836-849 | Grouping yields every group's total payload for every row order. |
| `Ranking.Rank` | apps/api/src/pharma_api/application/analytics/queries.py:835-888 | The ranking lists the largest values first, with ranks 1 to n, each key at most once with its own value, name and rounded share; nothing left out is larger than anything listed, and ties come in the order in which their groups were first met. |
| `Reports.RankedValues` | apps/api/src/pharma_api/application/analytics/queries.py:836-859 | A group's value is the formula on the sums over the group's rows, for products and categories on the product measures under six general names. |
| `Ranking.SharesSumToHundred` | apps/api/src/pharma_api/application/analytics/queries.py:861-888 | When every group is listed and the total is not zero, the rounded shares of the m items with a value sum to 100 within m times 0.00005. |
| `Ranking.SharesAreExact` | apps/api/src/pharma_api/application/analytics/queries.py:861-888 | A share is missing exactly without a value or for a total of zero; otherwise it is the item's part of the total of all groups, rounded half to even to four places of a percent. |
| `Ranking.QuantizeIsNear` | apps/api/src/pharma_api/application/analytics/queries.py:882-884 | Rounding to four places moves a share by at most 0.00005. |
| `Ranking.GroupAgreesWithSnapshot` | apps/api/src/pharma_api/application/analytics/queries.py:850-856 | A ranked product or category is evaluated on the measures a snapshot would substitute, except its sales tax, which agrees exactly when the two totals coincide. |
| `KpiCache.VariationIsNear` | apps/api/src/pharma_api/application/analytics/queries.py:501-512 | The absolute variation is the difference to the nearest unit of the fourth place and changes sign with its arguments; the percentage is missing exactly for a zero comparison. |
| `KpiCache.VariationIsExact` | apps/api/src/pharma_api/application/analytics/queries.py:501-512 | Difference and percentage are whole units of the fourth place, rounded half away from zero. |
| `KpiCache.PreviousIsAdjacent` | apps/api/src/pharma_api/application/analytics/queries.py:589-595 | The comparison window has the same length and filters and ends the day before the window. |
| `KpiCache.StatusIsMonotone` | apps/api/src/pharma_api/application/analytics/queries.py:515-522 | Meeting a target is monotone in the desirable direction, and the target itself meets it. |
| `KpiCache.AnswersAreJudged` | apps/api/src/pharma_api/application/analytics/queries.py:501-640 | Every answer served in any interleaving, from the cache or computed, is below its target exactly if its value is strictly worse in the indicator's direction, has no status exactly without value or target, a reason exactly without a value (no rows, or a zero denominator), and a variation exactly with both values. |
| `KpiCache.TargetIsTheGoal` | apps/api/src/pharma_api/application/analytics/queries.py:563-578 | The target that an answer states is the goal at the moment its goal was read, on a hit and on a miss. |
| `KpiCache.SectionsAre` | apps/api/src/pharma_api/application/analytics/queries.py:236-345 | A request reads its own rows, the product rows unless it asks for a supplier or a channel, and the supplier rows of every brand unless it asks for a product, a category or a channel. |
| `KpiCache.RunsKeepValid` | apps/api/src/pharma_api/application/analytics/queries.py:525-640 | In every interleaving of requests, commits, goal changes, expiry and failures, each cached, pending or returned answer is what its reads give, none of them older than the version it is filed under, and reads never go back. |
| `KpiCache.StepsAreLocal` | apps/api/src/pharma_api/application/analytics/queries.py:525-640 | A step of a request changes that request alone and, when it writes, the cache entry of its own question and version. |
| `KpiCache.SurroundingsMove` | apps/api/src/pharma_api/application/analytics/queries.py:563-640 | A commit changes the data alone, a goal change the goals, and an expiry removes its own entry. |
| `KpiCache.NeverStale` | apps/api/src/pharma_api/application/analytics/queries.py:538-640 | A request never returns data older than the version it read, hit or miss. |
| `KpiCache.TornExactlyByCommits` | apps/api/src/pharma_api/application/analytics/queries.py:538-600 | At its last read a request has seen one version only if and only if no refresh committed since it read the version. |
| `KpiCache.ServedIsTornExactlyByCommits` | apps/api/src/pharma_api/application/analytics/queries.py:538-640 | What a request serves, from the cache or computed by itself, mixes no versions if and only if no refresh committed between the version read and the last read of the request that computed it, whatever happened until it was served. |
| `KpiCache.MonotonicReads` | apps/api/src/pharma_api/application/analytics/queries.py:538-640 | Whatever a request begun after another's answer reads is at least as recent as everything in that answer. |
| `KpiCache.CoherentIsRecomputed` | apps/api/src/pharma_api/application/analytics/queries.py:563-640 | An answer whose reads all saw its version equals the one computed from that version, target aside. |
| `KpiCache.HitIsRecomputation` | apps/api/src/pharma_api/application/analytics/queries.py:563-578 | A hit while its version is current equals a recomputation with the present goal, except for `cache_status`. |
| `KpiMeasures.HitShowsComputedValues` | apps/api/src/pharma_api/application/analytics/queries.py:563-578 | Such a hit shows the values that the code computes from that version's rows, at any time and in any row order, for formulas that ignore `freshness_seconds` and windows in which all rows of each stock's latest day put it on the same cover levels. |
| `KpiCache.AtomicRequest` | apps/api/src/pharma_api/application/analytics/queries.py:525-640 | A request that nothing interrupts answers with what the current data and goal give, hit or miss alike, files it under its version, or fails when a read exceeds the row cap. |
| `KpiCache.FailsExactly` | apps/api/src/pharma_api/application/analytics/queries.py:205-395 | A request alone fails exactly if its answer is not cached and its filters combine two dimensions or one of its reads finds more than ten thousand rows. |
| `TornAnswer.TornHit` | apps/api/src/pharma_api/application/analytics/queries.py:563-640 | A hit can mix two versions: a concrete run of a question on the composed measures, whose answer equals the recomputation of no version. |
| `LoginLimiter.LoginRateLimiter.TimeToLive` | apps/api/src/pharma_api/application/auth/rate_limit.py:33 | The time left is that of the live counter to the nearest second, and -2 without one. |
| `LoginLimiter.LoginRateLimiter.EnsureAllowed` | apps/api/src/pharma_api/application/auth/rate_limit.py:31-48 | Admits exactly while the count at the second call is below the maximum; a refusal passes on the time that the first call found, at least one second. |
| `LoginLimiter.LoginRateLimiter.RecordFailure` | apps/api/src/pharma_api/application/auth/rate_limit.py:50-68 | Counts one failure on the live counter and sets its expiry, for this key only: the base lockout for the first failure, twice the last delay for each further one, at most the cap; a store error changes nothing. |
| `LoginLimiter.LoginRateLimiter.Clear` | apps/api/src/pharma_api/application/auth/rate_limit.py:70-74 | Removes this key's counter only. |
| `LoginLimiter.FirstFailure` | apps/api/src/pharma_api/application/auth/rate_limit.py:51-58 | Without a live counter a failure counts as the first and locks for the smaller of the base lockout and the cap. |
| `LoginLimiter.DelayDoubles` | apps/api/src/pharma_api/application/auth/rate_limit.py:51-58 | With c live failures the new delay is the smaller of the cap and twice the delay that c failures gave. |
| `LoginLimiter.StepIsTheCall` | apps/api/src/pharma_api/application/auth/rate_limit.py:31-74 | The steps of the interleaved runs do what the calls do: admission below the maximum, one recorded failure, a cleared counter on success. |
| `LoginLimiter.DelayCoversCount` | apps/api/src/pharma_api/application/auth/rate_limit.py:51-58 | c times the base lockout is at most the delay after c failures, when the cap allows it. |
| `LoginLimiter.RunKeepsLimit` | apps/api/src/pharma_api/application/auth/rate_limit.py:31-74 | With at most K logins in flight, counter plus in flight never exceeds N - 1 + K, in every interleaving with successes and expiry. |
| `LoginLimiter.RunIsBounded` | apps/api/src/pharma_api/application/auth/rate_limit.py:31-68 | A success-free run from any state within that limit admits at most N - 1 + K failures plus one per base lockout that passes, if the cap is at least N - 1 + K base lockouts. |
| `LoginLimiter.BurstReachesLimit` | apps/api/src/pharma_api/application/auth/rate_limit.py:31-68 | The limit N - 1 + K is reached. |
| `LoginLimiter.BoundIsExact` | apps/api/src/pharma_api/application/auth/rate_limit.py:31-68 | The amortised bound holds for all success-free runs if and only if the cap is at least N - 1 + K base lockouts. |
| `LoginLimiter.SequentialBound` | apps/api/src/pharma_api/application/auth/rate_limit.py:31-68 | One login at a time: at most N + T / b failures in a span T, when the cap is at least N b. |
| `Base64Cursor.DecodeEncode` | apps/api/src/pharma_api/api/v1/integrations.py:922-934 | The lenient decoder inverts the encoder on every byte string. |
| `Base64Cursor.PaddingIsRestored` | apps/api/src/pharma_api/api/v1/integrations.py:926-934 | Stripping the padding loses nothing: the length alone restores it. |
| `Base64Cursor.TextRoundTrip` | apps/api/src/pharma_api/api/v1/integrations.py:922-934 | Encode, strip, pad and decode gives back every byte string, and the text uses URL-safe characters only (sections 3.2 and 5 of RFC 4648). |
| `Base64Cursor.TestVectors` | apps/api/src/pharma_api/api/v1/integrations.py:926 | The encoder gives the test vectors of section 10 of RFC 4648. |
| `Base64Cursor.SafeCharacters` | apps/api/src/pharma_api/api/v1/integrations.py:926 | The last two characters of the alphabet are the URL-safe ones of section 5 of RFC 4648. |
| `Base64Cursor.AlphabetIsStandard` | apps/api/src/pharma_api/api/v1/integrations.py:926 | The alphabet is that of section 5 of RFC 4648, in its order. |
| `Base64Cursor.JunkIsSkipped` | apps/api/src/pharma_api/api/v1/integrations.py:934 | The decoder skips characters outside the alphabets and the padding. |
| `Base64Cursor.StandardAlphabetIsRead` | apps/api/src/pharma_api/api/v1/integrations.py:934 | The decoder reads the characters + and / of the standard alphabet as well. |
| `Base64Cursor.AlphabetTextDecodes` | apps/api/src/pharma_api/api/v1/integrations.py:929-938 | A text of alphabet characters decodes if and only if its length is not one more than a multiple of four. |
| `CursorText.WriteRoundTrip` | apps/api/src/pharma_api/api/v1/integrations.py:922-936 | The JSON text of a position, with its ISO 8601 instant and UUID, is read back as that position for every instant of the years 1 to 9999 and every 128-bit identifier, whatever other texts the reader accepts. |
| `CursorText.SampleText` | apps/api/src/pharma_api/api/v1/integrations.py:924 | An instant's text as `isoformat` writes it, on a leap day and with a fraction. |
| `CursorText.SampleCursor` | apps/api/src/pharma_api/api/v1/integrations.py:922-926 | The parts of a cursor's JSON text: keys, the first instants of the year 1, and a UUID with a hexadecimal digit. |
| `CursorText.YearsAreGregorian` | apps/api/src/pharma_api/api/v1/integrations.py:924 | The days before each year are those of the Gregorian calendar: 365 for each year before, one more for every fourth, one less for every hundredth, one more for every four hundredth. |
| `CursorText.CursorRoundTrip` | apps/api/src/pharma_api/api/v1/integrations.py:922-938 | A cursor read back is the position it was made from. |
| `CursorText.CursorsAreDistinct` | apps/api/src/pharma_api/api/v1/integrations.py:922-926 | Different positions have different cursors. |
| `Pagination.PageIsTop` | apps/api/src/pharma_api/api/v1/integrations.py:957-982 | A page is, newest first and by descending identifier within an instant, the top of the rows below its cursor, and has a next cursor exactly when it leaves rows out. |
| `Pagination.TextsWalkTheSame` | apps/api/src/pharma_api/api/v1/integrations.py:929-982 | Walking along the cursors as text is the walk along positions, and no page is refused. |
| `Pagination.WalkDescends` | apps/api/src/pharma_api/api/v1/integrations.py:957-982 | A walk returns rows in strictly descending order although the table changes between pages. |
| `Pagination.WalkIsComplete` | apps/api/src/pharma_api/api/v1/integrations.py:957-982 | A finished walk returns every row that was there at each of its pages. |
| `Pagination.WalkIsSound` | apps/api/src/pharma_api/api/v1/integrations.py:957-982 | A finished walk from the start over a changing table returns, newest first, every row present throughout exactly once and none twice, also by identifier when sort keys do not change. |
| `Pagination.WholeTableIsWalked` | apps/api/src/pharma_api/api/v1/integrations.py:957-982 | On a static table of n rows the walk takes exactly max(1, ceil(n / limit)) pages and yields the sorted table. |
| `Uploads.FilesystemObjectStorage.PutFile` | apps/api/src/pharma_api/infrastructure/object_storage.py:62-75 | Creation is exclusive; a copy that breaks after it leaves an incomplete object. |
| `Uploads.FilesystemObjectStorage.DeleteObject` | apps/api/src/pharma_api/infrastructure/object_storage.py:82-83 | Removes one object, missing or not. |
| `Uploads.StepsArePutFile` | apps/api/src/pharma_api/infrastructure/object_storage.py:69-75 | The two steps of the model, exclusive creation and copy, do what the store's call does. |
| `Uploads.StreamUpload` | apps/api/src/pharma_api/api/v1/integrations.py:448-464 | Returns the whole contents, or the size error exactly above the limit, or the empty error exactly for no contents. |
| `Uploads.JoinedAdds` | apps/api/src/pharma_api/api/v1/integrations.py:448-464 | The contents are the chunks one after the other, however they are cut. |
| `Uploads.UploadsAreSafe` | apps/api/src/pharma_api/api/v1/integrations.py:508-637 | In every interleaving: each committed file has its whole object, keys and contents are unique among committed rows, each finished upload answers with a batch of its key or contents, and an aborted upload has left an object if and only if its copy broke after the exclusive creation. |
| `Uploads.CleanUpDeletesOwnObject` | apps/api/src/pharma_api/api/v1/integrations.py:629-633 | Compensation deletes only an object that this upload created and that no committed file names. |
| `Uploads.OnlyCleanUpDeletes` | apps/api/src/pharma_api/api/v1/integrations.py:508-637 | No other step removes an object. |
| `Uploads.RowsStay` | apps/api/src/pharma_api/api/v1/integrations.py:508-626 | Committed rows never change. |
| `Uploads.ReplayReturnsBatch` | apps/api/src/pharma_api/api/v1/integrations.py:508-516 | Once a key has created a batch, after any further run an upload with that key returns it at once and changes nothing else. |
| `Uploads.UploadAloneSucceeds` | apps/api/src/pharma_api/api/v1/integrations.py:508-626 | An upload that nothing stands in the way of stores its whole object under day, digest and name, records batch and file, and changes nothing else. |
| `Uploads.FailureIsUndone` | apps/api/src/pharma_api/api/v1/integrations.py:508-637 | If it fails after any step but the opening of its object, the clean-up restores objects, batches and files as they were. |
| `Uploads.DuplicateIsFound` | apps/api/src/pharma_api/api/v1/integrations.py:529-540 | Contents that a committed file has are found before anything is stored, and the answer is a batch of the same contents. |
| `Uploads.ConflictIsUndone` | apps/api/src/pharma_api/api/v1/integrations.py:576-637 | A key that another upload committed in between is a conflict, after which the stored object is removed. |
| `Uploads.SameContentsAreUndone` | apps/api/src/pharma_api/api/v1/integrations.py:581-637 | The same for contents that another upload committed in between. |
| `Uploads.RefusedStreamLeavesNothing` | apps/api/src/pharma_api/api/v1/integrations.py:526-637 | An upload whose contents are refused ends without a trace. |
| `Uploads.BrokenCopyLeavesObject` | apps/api/src/pharma_api/infrastructure/object_storage.py:69-73 | A concrete run in which the aborted upload leaves its object behind. |
| `Uploads.BrokenCopyBlocks` | apps/api/src/pharma_api/infrastructure/object_storage.py:69-73 | Such an object makes every later upload of that file under the same day and name fail. |
| `BatchStates.TriggerAgreesWithTable` | apps/api/src/pharma_api/domain/integrations/state_machine.py:24-118 | The database trigger and the application's table allow the same transitions. |
| `BatchStates.TransitionsFollowRules` | apps/api/alembic/versions/20260717_0003_canonical_data_platform.py:2900-2935 | The rules behind the table: stages in order, reception straight after queueing, completion after loading, cancellation and failure of anything unfinished, retries, quarantine from validation on, and queueing again. |
| `BatchStates.TerminalIsAbsorbing` | apps/api/alembic/versions/20260717_0003_canonical_data_platform.py:2900-2935 | Completed, completed with warnings and cancelled are exactly the states nothing leaves. |
| `BatchStates.GuardedRow.SetState` | apps/api/alembic/versions/20260717_0003_canonical_data_platform.py:2900-2945 | An update of the guarded column succeeds exactly for an allowed or unchanged state, and every history of the row is a run. |
| `BatchStates.RunIsBounded` | apps/api/alembic/versions/20260717_0003_canonical_data_platform.py:2900-2945 | A run from `created` with r resets has at most 10 r + 11 state changes. |
| `BatchStates.BoundIsReached` | apps/api/alembic/versions/20260717_0003_canonical_data_platform.py:2900-2945 | For every r some run takes exactly that many. |
| `BatchStates.NoRepeatWithoutReset` | apps/api/alembic/versions/20260717_0003_canonical_data_platform.py:2900-2945 | A state recurs only after a reset. |
| `BatchStates.TerminalEndsRun` | apps/api/alembic/versions/20260717_0003_canonical_data_platform.py:2900-2945 | A run that reached a terminal state is over. |
| `Goals.GoalStore.CreateGoal` | apps/api/src/pharma_api/application/analytics/service.py:120-179 | A valid creation inserts the goal with history version 1; any refusal changes nothing. |
| `Goals.GoalStore.UpdateGoal` | apps/api/src/pharma_api/application/analytics/service.py:182-252 | An accepted update sets the given fields, raises the version and appends its snapshot; any refusal rolls the fields back. |
| `Goals.Assign` | apps/api/src/pharma_api/application/analytics/service.py:204-206 | Exactly the given fields are set, an explicit null included. |
| `Goals.CreateIsExact` | apps/api/src/pharma_api/application/analytics/service.py:120-179 | Exactly which creations are accepted, and the goal and history row that they insert. |
| `Goals.UpdateIsExact` | apps/api/src/pharma_api/application/analytics/service.py:182-252 | Exactly which updates are accepted, and that each given field, and no other, takes its new value while the version and the history grow by one. |
| `Goals.RefusalsAreJustified` | apps/api/src/pharma_api/application/analytics/service.py:188-222 | Each refusal names a condition that failed. |
| `Goals.RefusalsInOrder` | apps/api/src/pharma_api/application/analytics/service.py:188-203 | Of several reasons to refuse an update, the missing goal comes before the scope and the scope before the version. |
| `Goals.CreationRefusalsInOrder` | apps/api/src/pharma_api/application/analytics/service.py:128-144 | Of several reasons to refuse a creation, the first in the order of the checks is given. |
| `Goals.EveryVersionWasAuthorised` | apps/api/src/pharma_api/application/analytics/service.py:120-252 | Over every run, each version in the history has an aim with ordered bounds and was written by a call of the run whose caller may manage the goal's scope and whose owner was an active member. |
| `Goals.RunsKeepHistory` | apps/api/src/pharma_api/application/analytics/service.py:120-252 | Over every run of accepted and refused calls each goal's history holds versions 1 to n, its last snapshot is the live goal, every version has a target or bound with lower at most upper, and company, branch, indicator and period never change. |
| `Goals.AfterRaisesVersion` | apps/api/src/pharma_api/application/analytics/service.py:203-231 | Versions never fall, and an accepted update raises its expected version by one. |
| `Goals.OneUpdateWins` | apps/api/src/pharma_api/application/analytics/service.py:203-231 | Of several updates in a run that expect the same version of a goal, at most one succeeds. |

## Left out

- Rebuild.RunRebuilds: leaves out the stamps `loaded_at`, `generated_at` and `data_version` on rows, which differ from refresh to refresh; the source stays fixed here and changes in ChangingSource.ChangesAreCaughtUp.
- ChangingSource.ChangesAreCaughtUp: what a loader derives from the load instant counts as a change of the source; the loader of import executions reads the job table, which every refresh changes.
- Warehouse.Warehouse.ExecuteRefresh: leaves out the checkpoints that the job shows while it runs, the elapsed time, the identity of the job in the version row, audit events, and the claiming and retrying of refresh jobs; facts are counted for each loader, of which some share a fact type.
- Warehouse.LoadFacts: the formulas inside the loaders, other than the three moments of the price loader, are functions of the source and the load instant.
- Dimensions.FreshRunsTrackTheSource: takes the result of the query that builds the dimension rows.
- Filters.SelectionIsOnePerDay: the visibility rule is a fixed predicate on company and branch.
- KpiMeasures.FullSnapshot: arithmetic is exact; the precision of the decimal context is not modelled, and the square root is a parameter.
- KpiCache.AtomicRequest: leaves out the counters behind `operations.cache_hit_rate`, which bypasses the cache, the fields `freshness_at` and `quality_score`, and the stored result row.
- KpiCache.HitIsRecomputation: takes the measures as a function of the rows read; KpiMeasures.HitShowsComputedValues shows that they are one, for formulas that do not read `freshness_seconds` and if all rows of each stock's latest day put it on the same cover levels; otherwise the stock cover of a hit and of a recomputation may differ.
- KpiCache.CoherentIsRecomputed: the same restriction on stock cover applies.
- LoginLimiter.RunIsBounded: is about runs in which the store answers; a store failure while recording is only logged, so that failure is not counted.
- CursorText.CursorRoundTrip: texts other than those the writer produces, which the JSON, date and UUID readers may accept, are a parameter; the round trip holds for every choice of it.
- Pagination.WalkIsSound: leaves out the inventory listing, whose sort key changes, and columns other than the sort key.
- Uploads.UploadsAreSafe: leaves out the S3 store, whose check and upload are not exclusive, a failure of the message sent after the commit, a crash of the process before its clean-up, the scope, extension and content-type checks, and other writers of batches and files. Blocked inserts wait without deadlock detection; a deadlock is a failure before the commit.
- BatchStates.RunIsBounded: is about the states alone, not the events and side effects attached to transitions.
- Goals.RunsKeepHistory: leaves out user and time stamps of history rows, the audit event, and the database's rounding of values to six places.
- Comparisons with the last year, the moving average and the drill-down, which repeat the snapshot on other windows.
- The limiters of public actions and of analytical requests, plain fixed windows.
- Authentication, permissions, row-level security, configuration and the web client.
