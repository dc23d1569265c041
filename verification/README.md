# Planning, accounting and ordering rules

A Dafny model of the pure rules behind a multi-organization ordering system: who
works which branch, what a branch's budget holds, which events a page shows, which
figures a dashboard prints. Each module names the source file it models. Where the
source updates maps, arrays or counters in loops the model is a method with the same
loop, proved against a specification function or predicate; the lemmas are about those.

| area | modules |
|---|---|
| Moving accounts onto warehouses | `Claims`, `WarehouseMigration`, `WarehouseReach`, `WarehouseWritten`, `WarehouseFirstMigration`, `WarehouseReplanning`, `WarehouseRefusals`, `WarehouseComparison` |
| The budget row of a branch | `AddonSettlement`, `BudgetOpening`, `BudgetLedger`, `BudgetRuns`, `BudgetEffects` |
| The activity log | `ActivityPaging`, `ActivityCursorText`, `MetadataValues`, `MetadataMasking`, `MetadataKept`, `ActorRedaction` |
| The budget watchlist | `Calendar`, `MonthWindows`, `CreatorSummaries`, `BranchMonths`, `PeerMedian`, `Watchlist`, `ItemPattern` |
| Delivery | `DeliverySla`, `DeliveryCounts`, `DeliveryGroups`, `DeliveryDashboard` |
| Branch hierarchy | `BranchHierarchy`, `BranchRollUp` |
| Shared reads and tax rates | `Coalescing`, `TaxRate` |
| Helpers | `Options`, `Numbers`, `Rounding`, `Decimal`, `InsertionMaps`, `Sorting`, `Sums`, `Counting`, `Gathering`, `Grouping`, `KeyedRows`, `KeyedTotals` |

`dafny verify dfyconfig.toml` checks everything.

## Reading the model

* Money is whole cents, instants are milliseconds since the epoch (stored event times are
  microseconds), percentages and utilizations are exact reals, hours are whole tenths.
  `Math.round` is rounding half up.
* A JavaScript `Map` whose iteration order matters is an `InsertionMap`; `sort` is a stable
  insertion sort (`SortIsStable`). Text comparison (`localeCompare`) is any total order.
* The clock, the stored rows and the directory of branches are parameters.
* The steps of the budget machine are the transactions of `app/api/v1/budgets/route.ts`
  (allocate, add credit, reset), `app/api/v1/orders/route.ts` (place),
  `lib/server/order-decision-service.ts` (approve, reject), `lib/server/order-fulfillment.ts`
  (fulfil) and the two refund routes, on one branch and month.

## What the code does where its comments promise more

* The migration comment (`lib/apricart-warehouses.ts:344-347`) says a plan reproduces each
  account's reach exactly. It loses the branches an account of another warehouse holds one
  by one (`ExactlyTheLost`, on an input `ASplitBranchIsLost`), and it can gain: reach strings
  are joined with commas, so city keys holding commas can make different accounts read alike
  (`ExactlyTheGained`, on an input `CommaLetsAnAccountGain`). When it holds is
  `ReachIsReproduced` for the branches there are and `AlwaysReproducedExactly` for any.
* Event times are stored in microseconds and cursors carry milliseconds, so a page that ends
  between two events of one millisecond can skip the second (`WalkIsCompleteExactly`, on two
  events `MicrosecondsCanBeSkipped`).
* The row and its orders disagree exactly when an order was refunded while it was held: what
  remains once that order is rejected, because the whole hold is released, and the columns until
  then (`ColumnsOfRuns` and `RemainingOfRuns`, on runs `RejectingARefundedOrderOvercredits` and
  `RefundingAHeldOrderParts`).
* Below 10,000 cents of net two neighbouring rates charge the same tax, so the rate cannot be
  recovered (`RatesAreRecoveredExactly`). The comment "only when the cents reconstruct it" holds;
  its converse fails for exactly two families, a tax one cent over a net of at most 20,000 cents
  and a tax of one cent on a net between 20,000 and 25,000 (`InferredExactly`, an input of each in
  `EdgesAreRefused`).
* A family keeps the last of two parent rows with one number (`MembersAreCountedExactly`,
  `ColumnsAreConservedExactly`), and a month's cell the last of two rows of one product and unit
  (`FootersConserveExactly`). The queries behind both give distinct rows.
* The branch table of the delivery dashboard is cut, so beyond 50 branches it no longer adds up
  to the cards (`BranchTableAddsUpExactly`).
* The guard in the coalescing `finally` block never fails (`FinalizersRemoveTheirOwn`).

## Model

| member | source | states |
|---|---|---|
| `WarehouseMigration.PlanCityRuleMigration` | lib/apricart-warehouses.ts:365-377 | The plan is the first claim on every free (organization, city) and branch, the missing memberships, and every reason for refusal once, in the order the helpers push them |
| `WarehouseMigration.ResolveMappingTargets` | lib/apricart-warehouses.ts:380-397 | The last entry that names an account decides its warehouse; every unknown or inactive name and every second warehouse is refused |
| `WarehouseMigration.SharedWarehouseRefusals` | lib/apricart-warehouses.ts:400-431 | Refuses each account whose reach string differs from the first account of its warehouse, and no other |
| `WarehouseMigration.PlanRules` | lib/apricart-warehouses.ts:434-466 | Plans one rule per claimed pair nobody holds, sorted, and objects to every claim that disagrees with the holder or the first claim |
| `WarehouseMigration.PlanRoutes` | lib/apricart-warehouses.ts:469-495 | The same for single branches, sorted by branch |
| `WarehouseMigration.PlanMemberships` | lib/apricart-warehouses.ts:498-514 | A membership for each mapped account without one at its warehouse; an executive or a narrowed membership there is refused |
| `Claims.TakeClaims` | lib/apricart-warehouses.ts:447-463 | One account's turn: what is planned and what is objected to after it are those of all claims so far |
| `Claims.NoObjectionMeansAgreed` | lib/apricart-warehouses.ts:447-463 | No objection is raised exactly when all claims on a key name one warehouse and it is the holder's |
| `WarehouseWritten.ServesAfterExactly` | lib/server/branch-warehouse.ts:99-127 | After a refusal-free plan, whatever was configured before, an account works exactly the branches that end up in a warehouse where it is, or becomes, an operator whose scope admits them |
| `WarehouseWritten.LostToARoute` | lib/apricart-warehouses.ts:286-292 | Whatever was configured before, an account loses exactly the branches routed, by an existing route or by being held one by one, to a warehouse where it does not work them |
| `WarehouseWritten.BranchesArePut` | lib/server/branch-warehouse.ts:41-50 | A branch ends up where its existing route or its single holder's warehouse says, else its existing city rule or a pair holder's warehouse, else the organization rule |
| `WarehouseWritten.FallbackAddsNothing` | lib/server/warehouse-scope.ts:80-89 | After a refusal-free plan the fallback mode works exactly what the membership mode does |
| `WarehouseFirstMigration.ExactlyTheLost` | lib/apricart-warehouses.ts:286-292 | From an empty configuration an account loses exactly the branches that an account of another warehouse holds one by one |
| `WarehouseFirstMigration.ExactlyTheGained` | lib/apricart-warehouses.ts:344-364 | It gains exactly the branches an account of its warehouse works today, unless another warehouse's account holds them one by one |
| `WarehouseFirstMigration.ExactlyWhenNothingIsGained` | lib/apricart-warehouses.ts:344-364 | No account gains a branch, in any directory of branches, exactly when accounts sharing a warehouse hold the same pairs and branches |
| `WarehouseReplanning.NoCommasNeedNoSplit` | lib/apricart-warehouses.ts:400-431 | When no city key holds a comma the comparison of reach strings is enough for that, and every reach is reproduced exactly when no branch is split between warehouses |
| `WarehouseReach.ReachKeysTellHoldingsApart` | lib/apricart-warehouses.ts:400-405 | Without commas, accounts with one reach string hold the same |
| `WarehouseReach.SameHoldingsReadAlike` | lib/apricart-warehouses.ts:400-405 | Accounts that hold the same, each thing once, have one reach string, with commas or without |
| `WarehouseReach.ReachKeysCompareHoldings` | lib/apricart-warehouses.ts:400-405 | Without commas, and with everything held once, accounts have one reach string exactly when they hold the same |
| `WarehouseReplanning.SharersAreComparedExactly` | lib/apricart-warehouses.ts:407-431 | Without commas and with everything held once, as the database's unique indexes have it, sharers are refused exactly when two of them hold different things |
| `WarehouseReach.RepeatsReadApart` | lib/apricart-warehouses.ts:400-405 | A branch listed twice reads apart from the same branch listed once, so repeated entries would be refused needlessly |
| `WarehouseFirstMigration.ReachIsReproduced` | lib/apricart-warehouses.ts:344-358 | From an empty configuration every reach in a directory is reproduced exactly when no branch of it is split between warehouses and accounts of one warehouse work the same there |
| `WarehouseFirstMigration.AlwaysReproducedExactly` | lib/apricart-warehouses.ts:344-358 | It is reproduced in every directory, branches yet to open included, exactly when accounts of one warehouse hold the same and no two warehouses have a pair on one side and a single branch on the other |
| `WarehouseFirstMigration.ServedByAPeer` | lib/apricart-warehouses.ts:286-292 | From an empty configuration whatever an account works afterwards is worked today by an account mapped to its warehouse |
| `WarehouseFirstMigration.PeersServeAlike` | lib/server/branch-warehouse.ts:99-127 | Accounts mapped to one warehouse work the same branches after it |
| `WarehouseWritten.MembershipsOfPlan` | lib/apricart-warehouses.ts:498-514 | The memberships after the plan are the existing ones and an all-branches operator's for each mapped account that had none at its warehouse |
| `WarehouseReplanning.RefusedExactly` | lib/apricart-warehouses.ts:352-358 | A plan has no refusal exactly when the mapping fits, every active holder is mapped, sharers read alike, claims agree and no membership narrows |
| `WarehouseRefusals.RefusalsAreExact` | lib/apricart-warehouses.ts:380-514 | A plan carries each refusal once and exactly those with a reason: an unknown or inactive account or warehouse, two entries that send an account apart, a holder left out, an account that reads unlike the first of its warehouse, a claim that meets another holder or first claim, a membership that is not an operator's or is narrowed |
| `WarehouseRefusals.RefusalsStandByKind` | lib/apricart-warehouses.ts:366-374 | They stand in the order of the planner's parts: mapping, accounts left out, sharers, rules, routes, memberships |
| `WarehouseRefusals.TheEarlierNameComesFirst` | lib/apricart-warehouses.ts:434-463 | Of two accounts that dispute a pair the earlier username is named first |
| `WarehouseMigration.PlansStandInOrder` | lib/apricart-warehouses.ts:464-513 | Planned rules stand by organization then city, memberships by warehouse then account |
| `WarehouseReach.WorksByItsRows` | lib/server/warehouse-scope.ts:62-69 | An active account works its single branches and the branches of its cities in its organizations; through membership the branches of a warehouse it operates, all or those selected |
| `WarehouseReach.PrecedenceOfRows` | lib/apricart-warehouses.ts:277-284 | A branch is in the warehouse of its route, else its city's rule, else its organization's, else none |
| `WarehouseReach.LastRuleIsMeant` | lib/apricart-warehouses.ts:434-440 | Of rules of one pair or one organization the last is meant |
| `WarehouseMigration.LastAccountIsMeant` | lib/apricart-warehouses.ts:380-385 | Of accounts of one name the last is meant |
| `WarehouseReplanning.CommaLetsAnAccountGain` | lib/apricart-warehouses.ts:400-405 | With a comma in a city key two different accounts read alike; their plan is not refused and one gains the other's branches |
| `WarehouseReplanning.ASplitBranchIsLost` | lib/apricart-warehouses.ts:344-350 | A pair at one warehouse and a branch of it held singly at another: the plan is not refused and the pair's account loses the branch |
| `WarehouseReplanning.ReplanningPlansNothing` | lib/apricart-warehouses.ts:357-358 | Planning again after a refusal-free plan was written plans no rule, route or membership and refuses nothing |
| `WarehouseReplanning.PlansKeepTheUniqueIndexes` | db/schema.ts:2953-2956 | Existing and planned rules together keep one warehouse per organization and city, and routes one per branch |
| `WarehouseReplanning.PlanIgnoresArrivalOrder` | lib/apricart-warehouses.ts:365-377 | Rules, routes and memberships are the same whatever order the accounts are given in |
| `WarehouseComparison.ComparisonIsExact` | lib/apricart-warehouses.ts:307-319 | The comparison lists an account exactly when its two reaches differ, with exactly what it loses and gains, ascending |
| `WarehouseComparison.MigrationReport` | lib/apricart-warehouses.ts:294-319 | Of a written plan, whatever was configured before, it reports as lost and as gained exactly the branches the two results above name |
| `WarehouseComparison.FirstMigrationReport` | lib/apricart-warehouses.ts:294-319 | From an empty configuration likewise, and nothing gained where accounts of one warehouse hold the same, commas or not |
| `WarehouseComparison.NothingToReport` | lib/server/warehouse-ownership-check.ts:85-91 | The report is empty exactly when every reach is reproduced |
| `AddonSettlement.PlanAddonSettlement` | lib/budget-addon-expiry.ts:75-112 | The loop over add-ons in order of validity equals draining one pool of min(remaining, credited) |
| `AddonSettlement.WithdrawsTheLeast` | lib/budget-addon-expiry.ts:81-111 | It withdraws the least of what due add-ons ask for, what is left and what was credited, as the sum of its forfeits |
| `AddonSettlement.ForfeitsAreAWaterfall` | lib/budget-addon-expiry.ts:88-101 | Forfeits are full, then at most one partial, then zero, each between zero and its add-on's amount |
| `AddonSettlement.SettlingEarlyChangesNothing` | lib/budget-addon-expiry.ts:60-112 | Settling at one instant and again later forfeits, add-on by add-on, what one later settlement would |
| `AddonSettlement.SettlingAgainFindsNothing` | lib/budget-addon-expiry.ts:60-112 | Settling again at the same instant closes and withdraws nothing |
| `AddonSettlement.PlansReportTheRow` | lib/budget-addon-expiry.ts:102-111 | The plan reports the row's credit and remainder before, and both less the withdrawal after |
| `BudgetOpening.BudgetRowsToOpen` | lib/budget-period-opening.ts:56-85 | Opens each branch without a row once, for the period, at the baseline of its first candidate with a positive one, in the order of those candidates |
| `BudgetOpening.OpenedRowsArePositive` | lib/budget-period-opening.ts:48-56 | Every row opened is at a positive baseline of a candidate of its branch, with nothing spent, held or credited |
| `BudgetLedger.RefundsComeBackExactly` | lib/budget-consumption.ts:138-149 | A refund comes back to the branch in full and never takes spent below zero |
| `BudgetLedger.ConsumedByStatus` | lib/budget-consumption.ts:52-85 | What is left of an order is spent when it is fulfilled in part or full, held while pending or approved, nothing otherwise |
| `BudgetEffects.AcceptedExactly` | lib/server/order-decision-service.ts:277-297 | On a kept state a decision is accepted by the order's status alone, a refund within what is left of the order, a placement within what is left of the branch once due add-ons are withdrawn, an administration's figure unless negative or below what is spent and held |
| `BudgetEffects.RunsReadOff` | lib/server/order-fulfillment.ts:92-116 | Every figure of a run is read off its accepted steps: allocated is the last allocation, held what was placed less what was decided, spent what was fulfilled less later refunds, and each order's total, refunds and status |
| `BudgetEffects.CreditedAfter` | lib/budget-consumption.ts:120-149 | Credit falls by what the add-ons due ask for, as far as there is remainder and credit; a reset leaves the addition alone; a refund of an order not fulfilled is credited |
| `BudgetEffects.AddonsAfter` | lib/server/budget-addon-expiry.ts:53-132 | A step that settles stamps exactly the open add-ons whose validity has passed, a reset all of them, and only an addition of more than nothing adds one |
| `BudgetEffects.SoonerForfeitsFirst` | lib/budget-addon-expiry.ts:66-101 | Of two add-ons a step closes the one of later validity, or higher number, forfeits only once the other has forfeited everything |
| `BudgetRuns.RecordedIsWithdrawn` | lib/server/budget-addon-expiry.ts:53-132 | What the closed add-ons record as forfeited is what the credited column lost |
| `BudgetRuns.EveryStepKeeps` | db/schema.ts:748 | Settling, allocating, crediting, placing, approving, rejecting, fulfilling and refunding each keep the row solvent and every column the sum of what it is for |
| `BudgetRuns.EveryRunKeeps` | db/schema.ts:748 | Every run from an opened row keeps all columns non-negative, allocated plus credited at least spent plus held, and credited equal to grants plus refund credits less forfeits and resets |
| `BudgetRuns.LedgerInvariantNeverFails` | lib/server/order-fulfillment.ts:92-116 | On such a row releasing or fulfilling never finds the hold missing, and a refund of spent money is never partly credited |
| `BudgetRuns.RemainingIsAccountedFor` | lib/budget-consumption.ts:52-85 | Remaining is allocation plus add-on credit less order consumption, plus refunds on orders rejected later, less what resets dropped |
| `BudgetRuns.RemainingMatchesOrders` | lib/budget-consumption.ts:3-13 | Without a reset the row and its orders agree on what remains exactly when no order was rejected after a refund |
| `BudgetRuns.ColumnsMatchOrders` | lib/budget-consumption.ts:155-163 | In a kept state spent and held are the two order sums exactly when no order still carried was credited a refund |
| `BudgetRuns.ColumnsOfRuns` | lib/budget-consumption.ts:155-163 | After every run spent and held are the two order sums exactly when every order that an accepted step refunded while it was held has been rejected since |
| `BudgetRuns.RemainingOfRuns` | lib/budget-consumption.ts:3-13 | After a run without a reset what remains is what the orders say exactly when none of those orders has been rejected since, so row and orders agree in everything exactly when no order was refunded while it was held |
| `BudgetRuns.RefundingAHeldOrderParts` | lib/budget-consumption.ts:138-149 | A run that refunds part of a pending order leaves 100 held where the orders sum to 60 |
| `BudgetRuns.OrdersMoveAlong` | lib/business-rules.ts:4-23 | Every accepted step leaves an order's status or moves it along the allowed transitions; nothing about an order with none left changes |
| `BudgetRuns.ClosedOrdersStay` | lib/business-rules.ts:4-10 | Once rejected or refunded an order stays as it is in every run |
| `BudgetRuns.RejectingARefundedOrderOvercredits` | lib/server/order-decision-service.ts:277-297 | A run that rejects a partly refunded order leaves the branch richer than its orders say |
| `ActivityPaging.BranchPredicateIsThePageOrder` | lib/activity-log.ts:558-581 | The same, after and before cases per table are together "strictly after the cursor" in (time, rank, id) |
| `ActivityPaging.BranchIsThePageOrder` | lib/server/activity-log-sql.ts:417-464 | A table sorted by its own (time, id) is the page order narrowed to it |
| `ActivityPaging.LimitedBranchesLoseNothing` | lib/server/activity-log-sql.ts:473-491 | Limiting every table before merging gives the same page as sorting and limiting the whole union |
| `ActivityPaging.WalkIsCompleteExactly` | lib/server/activity-log-queries.ts:284-325 | At each page size the pages from any cursor are the unread rows in order, each once, exactly when no page ends on a row that skips a later one |
| `ActivityPaging.WalkReadsTheRest` | lib/server/activity-log-queries.ts:284-325 | When no row skips another they are, from any cursor and at every page size |
| `ActivityPaging.CursorSkips` | lib/activity-log.ts:533-536 | A row's cursor leaves out a later row exactly when both are of one millisecond, the first has microseconds, and the second has too, or a higher rank, or the first's table and no smaller id |
| `ActivityPaging.SkippedIsLost` | lib/server/activity-log-queries.ts:284-325 | A row that an earlier row's cursor skips is not read once that row has been, one row a page |
| `ActivityPaging.WalksAreCompleteExactly` | lib/activity-log.ts:33-37 | Following cursors reads every row once at every page size exactly when no two rows share a millisecond a cursor cannot tell apart |
| `ActivityPaging.WholeMillisecondsAreNeverSkipped` | lib/activity-log.ts:560-573 | Rows stamped in whole milliseconds are never skipped |
| `ActivityPaging.MicrosecondsCanBeSkipped` | lib/activity-log.ts:533-536 | Two events of one table within a millisecond, read one a page: the walk ends after the first and never shows the second |
| `ActivityCursorText.CursorRoundTrip` | lib/activity-log.ts:533-556 | A cursor survives its text exactly when its time has at most 15 digits and its id at most 12 |
| `ActivityCursorText.DecodedCursorsSurvive` | lib/activity-log.ts:539-556 | Whatever decodes, decodes to a cursor that survives being encoded again |
| `ActivityCursorText.TextOfACursor` | lib/activity-log.ts:533-536 | The text is the time, the table's rank and the id between dots |
| `MetadataMasking.Masker.MaskValue` | lib/activity-log.ts:681-713 | The walk with its shared seen set equals the specification on any graph, cyclic or not |
| `MetadataMasking.Masker.MaskOwn` | lib/activity-log.ts:698-712 | The key loop masks sensitive keys and passes the seen set from each value to the next |
| `MetadataMasking.Masker.MaskKept` | lib/activity-log.ts:687-696 | The array loop passes the seen set from each item to the next |
| `MetadataMasking.MaskHides` | lib/activity-log.ts:644-713 | Graphs alike but beneath sensitive keys mask to the same value |
| `MetadataMasking.MaskBounds` | lib/activity-log.ts:666-713 | The result nests at most eight levels, no array or object is wider than 200 and its marker, and every sensitive key reads as masked |
| `MetadataKept.MaskShows` | lib/activity-log.ts:681-713 | On any graph a plain value is shown as it is, a big integer as its digits, arrays and objects entry by entry up to 200 with the number left out, and only secrets, references met before and what is too deep are replaced |
| `MetadataKept.HarmlessIsLeftAlone` | lib/activity-log.ts:681-713 | A value without references, dates, big integers or sensitive keys, within the depth and width, masks to itself |
| `MetadataKept.EightLevelsAreShown` | lib/activity-log.ts:665-666 | Of a whole blob eight levels are shown |
| `MetadataKept.ReferencesAreWalkedOnce` | lib/activity-log.ts:685-686 | A reference is walked the first time it is met and reads as circular after that |
| `MetadataKept.SecondFieldIsCircular` | lib/activity-log.ts:685-712 | Of two keys of an object that hold one reference the later reads as circular |
| `MetadataKept.WordsAreSensitive` | lib/activity-log.ts:644-656 | A key with one of the eleven words anywhere in it, in any ASCII case, is sensitive |
| `MetadataKept.SensitiveKeysHoldAWord` | lib/activity-log.ts:700-703 | Only such a key is |
| `ActorRedaction.RedactActorMetadata` | lib/activity-log-reach.ts:158-168 | The recursion that fills new arrays and objects terminates on any graph and equals the specification |
| `ActorRedaction.RedactHides` | lib/activity-log-reach.ts:146-168 | Graphs alike but beneath actor keys read the same |
| `ActorRedaction.RedactingAgainChangesNothing` | lib/activity-log-reach.ts:158-168 | Redacting twice is redacting once |
| `ActorRedaction.RedactBounds` | lib/activity-log-reach.ts:155-168 | The result nests at most eight levels and every actor key at any depth reads as withheld |
| `ActorRedaction.RedactShows` | lib/activity-log-reach.ts:158-168 | On any graph everything but what actor keys hold and what is too deep is shown |
| `ActorRedaction.EightLevelsAreRead` | lib/activity-log-reach.ts:155-161 | Of a whole blob eight levels are shown |
| `ActorRedaction.ActorWords` | lib/activity-log-reach.ts:141-154 | Whatever follows actor or performedby, or comes before one of four endings, names an actor |
| `ActorRedaction.SeparatorsMakeNoDifference` | lib/activity-log-reach.ts:147-148 | Dashes and underscores anywhere in a key make no difference |
| `ActorRedaction.CaseMakesNoDifference` | lib/activity-log-reach.ts:147-148 | Nor does the case of an ASCII letter |
| `ActorRedaction.IdentityWords` | lib/activity-log-reach.ts:128-139 | Ten whole words name an actor |
| `Calendar.YearsAddUp` | lib/budget-burn-risk.ts:207-209 | The lengths of the years add up to the Gregorian leap-year count, and the epoch is the first day of 1970 |
| `Calendar.InstantOfMonth` | lib/budget-burn-risk.ts:184-201 | An instant is in the month whose days hold it; months stand as their days do |
| `Calendar.DaysBeginAtSevenInTheEvening` | lib/budget-burn-risk.ts:184-201 | A day begins at seven in the evening UTC |
| `MonthWindows.MonthsBetweenUndoesShift` | lib/budget-burn-risk.ts:211-230 | Counting months undoes shifting by them across years, both ways |
| `MonthWindows.PlanMonthWindows` | lib/budget-burn-risk.ts:278-329 | Refuses a future month and one more than 24 back, and otherwise gives windows covering exactly the instants the rule names |
| `MonthWindows.OlderBuckets` | lib/budget-burn-risk.ts:300-314 | Each older month covers exactly its first min(elapsed, length) days, or all of them once the selection is over |
| `MonthWindows.PatternMonths` | lib/budget-burn-risk.ts:252-256 | The buckets are consecutive calendar months ending with the selected one, each within its own month |
| `MonthWindows.BucketsAreConsecutive` | lib/budget-burn-risk.ts:300-326 | Every instant of a bucket is before every instant of a later one, and the recent days lie in the current window |
| `MonthWindows.WindowsInFigures` | lib/budget-burn-risk.ts:278-326 | Three months, none more than 24 back, and the last seven days or the whole window |
| `CreatorSummaries.UnionCreators` | lib/budget-burn-risk.ts:412-426 | Lists everyone in any bucket once, where they are first met from the newest bucket on: the selected month's row, or the newest other row with nothing done |
| `CreatorSummaries.ListingMeans` | lib/budget-burn-risk.ts:398-426 | Who is listed is the union of all buckets; identity is the newest bucket's, figures the selected month's alone |
| `CreatorSummaries.AbsentKeepsWhoTheyAre` | lib/budget-burn-risk.ts:398-426 | A creator of an earlier month is listed as who they were, with nothing done |
| `CreatorSummaries.PatternByCreator` | lib/budget-burn-risk.ts:433-450 | One zero-filled cell per month for everyone in the buckets, from their last row of the month |
| `CreatorSummaries.PatternsAreOfLastRows` | lib/budget-burn-risk.ts:433-450 | Each cell is of the month's last row of the creator, zeros where there is none |
| `CreatorSummaries.FiguresAreTheRows` | lib/budget-burn-risk.ts:433-450 | It shows what the row spent and holds, nothing below zero, and both together |
| `CreatorSummaries.ListedFiguresAreTheLastCell` | lib/budget-burn-risk.ts:519-525 | With one row per creator in the selected month, everyone listed is drawn and their last cell is their row's figures |
| `BranchMonths.SummarizeCreators` | lib/budget-burn-risk.ts:466-510 | The requesters in order, and every branch with orders or a budget with its totals, those with orders first as they are met, then the others in budget order |
| `BranchMonths.BranchesSplit` | lib/budget-burn-risk.ts:461-492 | Each branch's consumption is its requesters' plus its other creators' |
| `BranchMonths.BranchFiguresAreTheRows` | lib/budget-burn-risk.ts:466-510 | A branch's figures: what its rows consumed, what those of no requester did, how many requesters consumed anything, its budget and remainder |
| `BranchMonths.SummaryAddsUp` | lib/budget-burn-risk.ts:472-492 | The branches' consumption adds up to the month's |
| `BranchMonths.ListedRequestersSplitTheBranches` | app/api/v1/analytics/executive/budget-burn/route.ts:111-119 | The requesters listed from all months and the month's other creators split the month's branch totals exactly |
| `PeerMedian.MedianIsInTheMiddle` | lib/budget-burn-risk.ts:555-566 | At least half of the peers are at or below the median and half at or above; there is none with fewer than two |
| `PeerMedian.MedianIsTheMiddle` | lib/budget-burn-risk.ts:555-566 | In any ascending arrangement it is the middle one, or the mean of the middle two |
| `PeerMedian.UtilizationsAreOfBudgets` | lib/budget-burn-risk.ts:536-566 | The utilizations are of the branches with a budget, what they consumed of it |
| `PeerMedian.MedianForgetsOrder` | lib/budget-burn-risk.ts:555-566 | The median does not depend on the order of the branches |
| `Watchlist.HighlightInCents` | lib/budget-burn-risk.ts:583-594 | A row is highlighted exactly when a previous month of at least 500,000 cents grew by 15% or more |
| `Watchlist.ScoreRequester` | lib/budget-burn-risk.ts:601-680 | Scored as the percentages are read, the reasons given are exactly those stated in whole cents without a division, in order |
| `Watchlist.FiguresAreTheRequesters` | lib/budget-burn-risk.ts:655-680 | Every figure on a row is the requester's own, nothing below zero |
| `Watchlist.GrowthIsOfTheLastMonth` | lib/budget-burn-risk.ts:583-594 | Growth is that of the last month over the one before; there is none over nothing |
| `Watchlist.PercentagesAreOfTheirWhole` | lib/budget-burn-risk.ts:612-628 | Share, utilization, comparison with peers and recent share are of what they are named for |
| `Watchlist.ReasonsAgreeWithTheFigures` | lib/budget-burn-risk.ts:630-653 | Each reason agrees with the figures shown beside it |
| `Watchlist.ScoredAgainstTheirOwn` | lib/budget-burn-risk.ts:745-762 | Each requester is scored against their own branch, the other branches and their own months |
| `Watchlist.ScoredAlone` | lib/budget-burn-risk.ts:746-758 | A requester the summary has no branch for is the whole of it without a budget; one without months has none |
| `Watchlist.ScoreFlaggedExactly` | lib/budget-burn-risk.ts:118-127 | The retired rule lists a requester exactly when three reasons are given, or two of which one is the high share or neither is worth one point |
| `Watchlist.RankingDecides` | lib/budget-burn-risk.ts:683-702 | The ranking orders any two rows and leaves rows of different keys in no doubt |
| `Watchlist.BuildWatchlist` | lib/budget-burn-risk.ts:722-772 | The first rows of the ranking of all scored requesters, with the numbers highlighted, over the score, and scored |
| `Watchlist.PeersAreTheOthers` | lib/budget-burn-risk.ts:737-743 | A branch's peers are exactly the other branches |
| `Watchlist.HighlightsLead` | lib/budget-burn-risk.ts:687-694 | The highlighted rows are exactly the first highlightedCount of the ranking |
| `Watchlist.ListedAreAhead` | lib/budget-burn-risk.ts:764-771 | The list is of the asked length and nothing unlisted is ahead of anything listed |
| `Watchlist.RankedRowsStandInOrder` | lib/budget-burn-risk.ts:683-702 | Highlighted rows first, the steepest growth first; of one growth, and of the others, whoever consumed more first; of one figure the lower key first |
| `Watchlist.WatchlistForgetsOrder` | lib/budget-burn-risk.ts:695-702 | With one row per requester the ranking depends on no order, of requesters or of branches |
| `ItemPattern.BuildItemPattern` | lib/budget-burn-item-comparison.ts:63-112 | One row per product and unit of the months, each month's last row in its cell, the newest name, highlights then newest spend first |
| `ItemPattern.CellsAreTheirRows` | lib/budget-burn-item-comparison.ts:80-86 | Each cell shows what the month's last row of the product and unit says, nothing below zero |
| `ItemPattern.NameIsTheNewest` | lib/budget-burn-item-comparison.ts:87-89 | The name shown is the last one of the newest month the product was bought in |
| `ItemPattern.GrowthIsOfSpend` | lib/budget-burn-item-comparison.ts:94-104 | A row's highlight is that of its spend |
| `ItemPattern.ItemsStandInOrder` | lib/budget-burn-item-comparison.ts:106-112 | Highlighted rows first, then the newest month's spend, most first, then name and unit |
| `ItemPattern.FootersConserveExactly` | lib/budget-burn-item-comparison.ts:119-131 | A month's footer is its bucket, figure by figure, exactly when no row with the figure is followed in the bucket by another of its product and unit |
| `ItemPattern.GroupedMonthsAreConserved` | lib/budget-burn-item-comparison.ts:119-131 | Rows grouped by product and unit are conserved in every month |
| `DeliverySla.AssessmentsAreMadeAt` | lib/delivery-sla.ts:110-187 | Delivery work is exactly approved or fulfilled orders with an approval time, and open exactly while approved and not arrived |
| `DeliverySla.AssessedByItsOrder` | lib/delivery-sla.ts:118-187 | An assessment is of its order's own fields: acknowledged when settled as fulfilled, at the order's stage until the goods arrive, timely when they arrived within 72 hours of approval, and each span there exactly when it is shown and within half a tenth of an hour |
| `DeliverySla.AttentionReads` | lib/delivery-sla.ts:374-402 | Overdue, due soon, other open work, then late, timely and untimed deliveries; within one of these the nearest deadline, or the newest delivery, first |
| `DeliverySla.NewestReads` | lib/delivery-sla.ts:405-411 | The other order of the list is newest approval first, then the higher number |
| `DeliverySla.HealthOnlyWorsens` | lib/delivery-sla.ts:167-187 | While the goods stand still health only moves on track, due soon, overdue, at exactly 48 and 72 hours; a delivered order does not change |
| `DeliverySla.AttentionIsAStrictOrder` | lib/delivery-sla.ts:383-402 | On assessments of one moment attention is a strict total order of distinct orders |
| `DeliverySla.OverdueStandByDeadline` | lib/delivery-sla.ts:98-100 | Rounding to tenths never reorders overdue work: it stands by deadline, then id |
| `DeliveryCounts.CountDeliveries` | lib/delivery-sla.ts:281-329 | Each counter is the number of assessments it names, with the rate and the mean of those |
| `DeliveryCounts.CardsAreOfTheirAssessments` | lib/delivery-sla.ts:266-329 | Each card counts the assessments it is named for, by side, health, stage and acknowledgement |
| `DeliveryCounts.RatesAndMeansAreNearest` | lib/delivery-sla.ts:261-264 | The rate is the timely share of timed deliveries and the mean that of their hours, each to the nearest tenth |
| `DeliveryCounts.RatesAndMeansAreBounded` | lib/delivery-sla.ts:261-264 | A rate is given exactly when something was timed, within 0 and 100%; a mean lies between its extremes |
| `DeliveryCounts.PartitionsAgree` | lib/delivery-sla.ts:239-259 | Open and delivered each equal both of their partitions and together are everything |
| `DeliveryCounts.CardsCountTheirLists` | lib/delivery-sla.ts:487-508 | Every card shows as many orders as the list view it links to holds |
| `DeliveryCounts.AgesAndAlertsAgree` | lib/delivery-sla.ts:336-372 | Every overdue order is in exactly one age bucket, and the 24 and 72 hour alerts are the buckets from there up |
| `DeliveryCounts.AgesAreInHours` | lib/delivery-sla.ts:336-352 | The five age buckets are of the overdue, by hours past the deadline |
| `DeliveryCounts.PipelineIsTheStageCards` | lib/delivery-sla.ts:356-361 | The pipeline is the stage cards |
| `DeliveryGroups.GroupDeliveries` | lib/delivery-sla.ts:422-436 | One row per key with its first label and the figures of exactly its rows, most overdue first and otherwise as the keys are met |
| `DeliveryGroups.TablesStandWorstFirst` | lib/delivery-sla.ts:432-436 | Most overdue first, of those most open first, of those by label |
| `DeliveryGroups.GroupingsAddUp` | lib/delivery-sla.ts:417-436 | Whatever the rows are grouped by, every count of the groups adds up to the whole |
| `DeliveryDashboard.BuildDeliveryDashboard` | lib/delivery-dashboard.ts:288-381 | Every figure, table and the list are those of the rows in the city and range, the branch table cut to 50 rows and the list to 100 |
| `DeliveryDashboard.RowsAreOrders` | lib/delivery-dashboard.ts:299-308 | Every row is an order that is delivery work, under its own number and places, as assessed |
| `DeliveryDashboard.RangeIsByDay` | lib/delivery-sla.ts:226-236 | The figures are of the city's rows whose day is in the range, from its first moment to its last: the day of approval while open, of delivery after that |
| `DeliveryDashboard.TablesAreByTheirPlace` | lib/delivery-dashboard.ts:351-364 | Each of those rows is counted in each table under its own place |
| `DeliveryDashboard.TodayIsTheClocksDay` | lib/delivery-dashboard.ts:344-347 | Today's deliveries are those of the clock's own day |
| `DeliveryDashboard.EveryCityIsOffered` | lib/delivery-dashboard.ts:309-320 | Every city with delivery work is offered, whatever is chosen |
| `DeliveryDashboard.CityOptions` | lib/delivery-dashboard.ts:311-320 | One option per city of any row, under the first spelling seen, whatever city is chosen |
| `DeliveryDashboard.ListHoldsWhatItsCardShows` | lib/delivery-dashboard.ts:332-337 | The list counts exactly as many orders as the card for its view |
| `DeliveryDashboard.ItemsComeFirst` | lib/delivery-dashboard.ts:366-369 | It shows the first 100 of them: everything left out stands after everything shown |
| `DeliveryDashboard.BranchTableAddsUpExactly` | lib/delivery-dashboard.ts:361-364 | The branch table adds up to the cards exactly when there are at most 50 branches |
| `DeliveryDashboard.BranchTableShowsTheWorst` | lib/delivery-dashboard.ts:361-364 | It leaves out no branch with more overdue than one it shows |
| `DeliveryDashboard.OpenOrdersAreAccountedFor` | lib/delivery-dashboard.ts:322-331 | Open in range plus outside the range is every open order of the city |
| `DeliveryDashboard.FiguresAgree` | lib/delivery-dashboard.ts:339-368 | Cards, partitions, alerts, ages, pipeline and the city, region and organization tables of one dashboard agree |
| `BranchHierarchy.ChecksAreExact` | lib/server/branch-hierarchy.ts:77-114 | A planned change is refused exactly when storing it would break the forest |
| `BranchHierarchy.CreationIsExact` | lib/server/branch-creation.ts:87-90 | A valid new branch is refused exactly when storing it would break the forest |
| `BranchHierarchy.EditsDoWhatTheyAsk` | lib/branch-hierarchy.ts:89-138 | An edit is unchanged exactly when it asks for nothing or for what is stored, otherwise applied exactly when what it asks for stands together and keeps the forest, and leaves the branch with just that |
| `BranchHierarchy.RefusalsSayWhy` | lib/branch-hierarchy.ts:89-108 | A refused edit gives the first reason that holds |
| `BranchHierarchy.CreationsDoWhatTheyAsk` | lib/branch-hierarchy.ts:56-74 | A new branch is stored as asked, exactly when its role and parent stand together and the parent can be one |
| `BranchHierarchy.DeletionsAreExact` | db/schema.ts:207-237 | A branch is deleted exactly when no branch is under it, and nothing else changes |
| `BranchHierarchy.EveryStepKeeps` | lib/branch-hierarchy.ts:60-138 | Creating, editing and deleting, refused or not, each keep a one-level forest |
| `BranchHierarchy.EveryRunKeepsAForest` | db/schema.ts:207-212 | So does every run of them |
| `BranchHierarchy.OneLevelOnly` | db/schema.ts:231-237 | A branch's parent is another parent branch of its organization with no parent of its own; only such a branch has children |
| `BranchHierarchy.RepeatingAnEditIsUnchanged` | lib/branch-hierarchy.ts:110-138 | Sending an applied edit again is planned as unchanged |
| `BranchRollUp.RollUpBranchRowsByParent` | lib/branch-hierarchy.ts:257-299 | One row per family, every other row as it was, sorted by revenue then orders |
| `BranchRollUp.RowsOfTheRollUp` | lib/branch-hierarchy.ts:243-299 | Every family has one row, hiding a money column exactly when all members do; every branch outside a family is kept |
| `BranchRollUp.FamiliesReadAsTheirParent` | lib/branch-hierarchy.ts:275-295 | A family stands under its parent's name and status, or under what its first child says of the parent, and counts its members and children |
| `BranchRollUp.ChildrenNameTheirParent` | lib/branch-hierarchy.ts:262-266 | A family's children are the report's child rows that name it |
| `BranchRollUp.RollUpsStandLargestFirst` | lib/branch-hierarchy.ts:297-299 | Largest revenue first, then most orders |
| `BranchRollUp.ColumnsAreConserved` | lib/branch-hierarchy.ts:249-299 | With one row per parent branch orders, fulfilled orders, revenue and refunds are conserved |
| `BranchRollUp.ColumnsAreConservedExactly` | lib/branch-hierarchy.ts:262-299 | A column with no negative figure is conserved exactly when no parent's row with the figure is followed by another parent's row of its number |
| `BranchRollUp.MembersAreCountedExactly` | lib/branch-hierarchy.ts:262-275 | Members counted are the rows of the report exactly when no two parents' rows share a number |
| `Coalescing.InFlightReads.Coalesce` | lib/cache-utils.ts:9-14 | A call joins the read of its key in the map or starts one and files it |
| `Coalescing.InFlightReads.Finally` | lib/cache-utils.ts:16-24 | The finally block removes exactly its own entry |
| `Coalescing.EveryRunKeeps` | lib/cache-utils.ts:7-24 | Under every interleaving the map holds exactly the reads not yet finalized, each under its own key |
| `Coalescing.OneReadPerKey` | lib/cache-utils.ts:3-6 | Under every interleaving at most one read of a key is running |
| `Coalescing.CallersJoinExactly` | lib/cache-utils.ts:9-14 | A caller joins the unfinalized read of its key and starts one exactly when there is none |
| `Coalescing.SharersGetOneResult` | lib/cache-utils.ts:16-18 | Callers that share a read get one result, which never changes |
| `Coalescing.SettlingReachesItsCallers` | lib/cache-utils.ts:16-18 | A read that settles gives its outcome to every caller that awaits it and changes nothing for the others |
| `Coalescing.FinalizersRemoveTheirOwn` | lib/cache-utils.ts:19-23 | The finalizer's check always holds, and no other read's entry is removed |
| `Coalescing.NothingLeaks` | lib/cache-utils.ts:16-24 | Once every read is finalized the map is empty |
| `TaxRate.RateIsRecovered` | lib/consolidated-invoice.ts:235-240 | Any rate with a positive tax is recovered from 10,000 cents of net or more |
| `TaxRate.RatesAreRecoveredExactly` | lib/consolidated-invoice.ts:226-242 | All rates are recovered exactly when net is at least 10,000 cents (or nothing is charged) |
| `TaxRate.NoRateIsNearer` | lib/consolidated-invoice.ts:235-240 | No rate charges a tax nearer the invoice's than the one its cents round to |
| `TaxRate.InferredExactly` | lib/consolidated-invoice.ts:226-242 | A rate is named exactly when net and tax are positive, some rate up to 100% reconstructs the tax within a cent, and it is neither a cent over 100% of at most 20,000 cents of net nor one cent on a net between 20,000 and 25,000; those two families are reconstructible and refused |
| `TaxRate.EdgesAreRefused` | lib/consolidated-invoice.ts:239 | An input of each family: 10,001 cents on 10,000 and 1 cent on 20,001, each reconstructed by a rate and refused |
| `TaxRate.RecordedRatesDecide` | lib/consolidated-invoice.ts:231-234 | Only positive recorded rates count: one, however often, is named, two different ones are mixed, without any the cents are asked |

## Left out

- The wording of refusals and messages: they are constructors carrying what the text names.
- `localeCompare`: any total order; a collation that calls two different texts equal would leave their order to the input.
- Clocks before the year 1003 or after 9999 and daylight saving in Karachi before 2010: month keys are four digits and the offset is a fixed +05:00.
- Malformed month keys and invalid dates, and days compared as text: months, instants and days are already numbers.
- Base64url around the cursor (section 5 of RFC 4648): taken as a bijection.
- Floating-point error in percentages, medians and means.
- Fractional item quantities: quantities are whole numbers.
- Status and place text: statuses are enumerated and places carry the key and label they are trimmed and lower-cased to.
- Object key order for integer-like keys, `__proto__` keys and case folding outside ASCII in metadata.
- Idempotence of metadata masking: an array of more than 200 items gains a marker that a second pass truncates again.
- Order edits, cancellations and deletions, orders placed while a tenant has budgets off, and reversal add-ons with a negative amount: the budget machine has none of them; the settlement itself takes any amounts.
- Quantity budgets and the audit rows written beside each step.
- ExactlyWhenNothingIsGained: from an empty configuration, as is everything in `WarehouseFirstMigration`; beside existing rows `ServesAfterExactly` and `LostToARoute` give the exact answer branch by branch.
- Branch coverage, executive gaps and the planned-rule picker (`lib/apricart-warehouses.ts:101-267`): read off one branch each.
- Other thresholds than the default ones of the watchlist, and the texts of its chips and of the order list's rows.
- Action rules, severities, filters and actor classification of the activity log: finite tables.
- Query parsing, page-size clamping, CSV and file names.
- The database's own trigger, row locks and concurrent writers of branches and budgets: each step is one transaction.
- What a read does when its own function asks for its own key.
