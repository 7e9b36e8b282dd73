# Collateral allocation planner

A Dafny model of the planning core of `start_allocation` in the allocation
chaincode. A margin-call transaction demands a required value (RQV) of
collateral. The planner:

1. checks the bilateral ruleset of pledger and pledgee against the firm-wide
   baseline table (`SecurityJSON`), dropping non-compliant forms and giving
   every other form a ceiling of RQV × concentration limit / 100;
2. normalises the lots of the pledger's long-box and the pledgee's
   segregated account: a lot whose collateral form the ruleset lists gets a
   unit value (FX rate × MTM) and a lot value (unit value × quantity), and
   per-form and overall totals are accumulated;
3. leaves the transaction pending when the eligible value is below the RQV;
4. otherwise sorts the candidates by priority (lower number first) and makes
   one greedy pass, taking whole lots or ceil-rounded partial lots within each
   form's remaining ceiling until the RQV is covered;
5. plans the ledger changes: each candidate lot is deleted or has its
   quantity reduced, each taken part is added at the destination account,
   and the transaction record gets its final status.

Modules, one file each: `Maps` (map lookup with a default), `Rules`
(baseline, compliance test, ceilings), `Holdings` (lots, normalisation,
totals), `Ordering` (comparator, swap, insertion sort over an array),
`Selector` (the greedy pass as a specification function and as a loop),
`Reconciliation` (ledger deltas), `Allocation` (the whole run and the
outcome).

Amounts are integers in place of the source's `float32`. FX rates are
integers in a fixed-point scale and an MTM is a whole number of units of the
lot's currency, so unit values, lot values, ceilings and the RQV are all
amounts of the base currency in the rates' scale; `math.Ceil` of a quotient is
integer ceiling division (`Selector.CeilDiv`). The greedy pass is specified
by the pure function `Selector.Greedy`; the loop `Selector.SelectLots`
mirrors the branches of the source and is proved equal to it, and the
properties of the pass (conservation, bounded overshoot, skip and stop
rules, bounds on what is taken) are lemmas about `Greedy`.

Where the code admits more than one reading, or a value would be
meaningless, the model makes these choices:

- The compliance test drops an entry when the baseline is strictly greater
  than the entry on all three axes (priority, concentration limit,
  valuation percentage), as line 482 is written.
- The unit value is FX rate × MTM (line 538); the valuation percentage is
  stored on the lot (line 535) but never applied to its value.
- Lots are filtered by membership in the fetched ruleset (line 532), not the
  validated one, so a lot of a dropped form is a candidate whose form has no
  ceiling; the model reads that as ceiling 0.
- A currency missing from the FX snapshot has rate 0 (a Go map lookup of a
  missing key), so its lots are candidates of unit value 0.
- The selection skips a lot when its form has less ceiling left than one
  unit's value, and also skips a lot of unit value 0. So neither a lot of a
  dropped form nor a lot without an FX rate ever moves
  (`Allocation.PlanDrawsOnKeptPricedLots`). Line 681 compares the ceiling
  with the MTM instead; the Findings below show where that differs.
- A form missing from the baseline table reads as limit, priority and
  valuation 0 (the lookup yields `""`, which parses to 0), so an entry for
  it is dropped only when all three of its values are negative
  (`Rules.UnlistedFormDroppedOnlyBelowZero`); one with any non-negative
  value is kept.
- Line 554 stores the priority in `ValuationPercentage` while the comparator
  reads `ValuePercentage`; the model sorts on the priority, which is what
  both the comment there and the comparator intend.
- The appends of lines 708, 725 and 741 add the unsplit `valueSecurity`;
  the model adds the split lot with the quantity taken. The ceiling map is
  copied rather than aliased (line 670); the alias is never read again, so
  the two agree.

## Model

| member | source | states |
|---|---|---|
| Rules.BaselineOf | Allocation/Allocation.go:120-135 | the baseline table's fifteen entries (limit, priority, valuation); a form the table lacks reads as (0, 0, 0) |
| Rules.OutOfAllowedValues | Allocation/Allocation.go:482 | an entry is out of the allowed values exactly when the baseline's priority, limit and valuation each strictly exceed the entry's |
| Rules.Ceiling | Allocation/Allocation.go:489 | the ceiling is RQV × limit / 100 rounded down: 100·c ≤ RQV·limit < 100·c + 100 |
| Rules.CeilingWithinRqv | Allocation/Allocation.go:489 | for a limit in 0..100 and RQV ≥ 0 the ceiling lies in 0..RQV |
| Rules.Validated | Allocation/Allocation.go:466-490 | a form is kept exactly when it is in the ruleset and not out of the allowed values against its baseline entry; kept entries are unchanged |
| Rules.Rejected | Allocation/Allocation.go:482-487 | a form is reported exactly when it is in the ruleset and out of the allowed values |
| Rules.EligibilityCeilings | Allocation/Allocation.go:463-490 | ceilings exist for exactly the kept forms, each RQV × that form's limit / 100 rounded down |
| Rules.ValidationPartitions | Allocation/Allocation.go:482-490 | every ruleset form is either kept or rejected, never both |
| Rules.ValidationIdempotent | Allocation/Allocation.go:482-490 | validating a validated ruleset changes nothing |
| Rules.BaselinePassesValidation | Allocation/Allocation.go:120-135 | a ruleset equal to the baseline table is kept in full |
| Rules.BaselinePriorityNamesForm | Allocation/Allocation.go:120-135 | each baseline priority is in 1..15 and the form of priority p is the p-th of the priority order |
| Rules.BaselinePrioritiesDistinct | Allocation/Allocation.go:120-135 | no two baseline forms share a priority |
| Rules.UnlistedFormDroppedOnlyBelowZero | Allocation/Allocation.go:472-488 | a form the baseline table lacks is dropped exactly when its limit, priority and valuation are all negative, and kept otherwise |
| Rules.OutOfAllowedValuesAsWritten | Allocation/Allocation.go:475-482 | as written: the test compares the baseline's limit with the entry's priority field |
| Rules.CeilingAsWritten | Allocation/Allocation.go:489 | as written: the ceiling is RQV × the entry's priority field, not divided by 100 |
| Rules.ComplianceAsWrittenIgnoresLimit | Allocation/Allocation.go:475-482 | an entry above the baseline's limit is kept by the intended test and dropped by the test as written |
| Rules.CeilingAsWrittenIgnoresLimit | Allocation/Allocation.go:475-489 | the written ceiling allows 1,000,000 of a 1,000,000 RQV from CommonStocks where the intended ceiling is 400,000 |
| Holdings.Normalize | Allocation/Allocation.go:538-541 | a lot's unit value is the FX rate of its currency × MTM, its lot value unit value × quantity, its priority the ruleset entry's |
| Holdings.Eligible | Allocation/Allocation.go:526-560 | the account's lots whose form the ruleset lists, normalised, in account order |
| Holdings.NormalizeAccount | Allocation/Allocation.go:526-598 | the loop's candidates are exactly the account's eligible lots in account order, its total is their summed lot value, and its per-form totals have exactly their forms as keys and each form's summed lot value |
| Holdings.EligibleExactly | Allocation/Allocation.go:532-558 | a candidate is the normalisation of a lot of the account whose form the ruleset lists, and every such lot yields one |
| Holdings.EligibleValues | Allocation/Allocation.go:532-558 | every candidate's form is in the ruleset, its priority is the ruleset's, unit value = FX rate × MTM and lot value = unit value × quantity |
| Holdings.ExcludedFormTotalsZero | Allocation/Allocation.go:532-545 | a form absent from the ruleset contributes nothing to the totals |
| Holdings.TotalAppend | Allocation/Allocation.go:547-584 | the available value of two accounts is the sum of their totals |
| Holdings.TotalPermutation | Allocation/Allocation.go:656-660 | reordering the candidates does not change their total |
| Holdings.AvailableAsWritten | Allocation/Allocation.go:546-547 | as written: the accumulated available value is the last eligible lot's value alone |
| Holdings.AvailableAsWrittenUndercounts | Allocation/Allocation.go:546-547 | two lots of 60 against RQV 100: the written accumulation reports 60 (a shortfall) where 120 is available |
| Ordering.Less | Allocation/Allocation.go:96-99 | a candidate sorts before another exactly when its priority is numerically lower |
| Ordering.Swap | Allocation/Allocation.go:101-103 | exchanges two positions, leaves the rest and the multiset of lots unchanged |
| Ordering.Insert | Allocation/Allocation.go:96-103 | one insertion pass extends the sorted prefix by one position, keeps the multiset and leaves every position after it untouched |
| Ordering.SortByPriority | Allocation/Allocation.go:96-103 | the result is a permutation of the input whose priorities never decrease |
| Ordering.LessAsWritten | Allocation/Allocation.go:98 | as written: priorities compared as strings, byte by byte |
| Ordering.LessAsWrittenPutsTenBeforeTwo | Allocation/Allocation.go:98 | compared as strings, priority 10 comes before priority 2 |
| Selector.CeilDiv | Allocation/Allocation.go:700-731 | the fewest whole units covering an amount: (r−1)·b < a ≤ r·b, and r > 0 when a > 0 |
| Selector.CeilDivMonotone | Allocation/Allocation.go:730-732 | rounding up preserves order, so the clamp of line 731 takes the smaller of the two limits |
| Selector.Decide | Allocation/Allocation.go:681-748 | a lot is skipped exactly when its unit value is 0 or its form's remaining ceiling is below one unit's value; it is taken whole when its value fits both the ceiling and RQVLeft; otherwise ceil(min(ceiling, RQVLeft) / unit) units are taken, never more than the lot holds, worth less than that limit plus one unit |
| Selector.Step | Allocation/Allocation.go:681-748 | one iteration: a skip leaves the state; a take of q units appends the entry (position, lot, q, q × unit value), lowers RQVLeft and the form's ceiling by that value and records q in SecuritiesChanged |
| Selector.GreedyFrom | Allocation/Allocation.go:678-754 | the loop from a position on: it stops at the end of the list or once RQVLeft is no longer positive |
| Selector.Greedy | Allocation/Allocation.go:670-754 | the pass from an empty plan, RQVLeft = RQV and a copy of the ceilings |
| Selector.SkipLeavesSelection | Allocation/Allocation.go:681-748 | a lot of unit value 0 or with too little ceiling left leaves plan, RQVLeft, ceilings and SecuritiesChanged as they were and the pass moves on |
| Selector.WholeLotAtBoundary | Allocation/Allocation.go:684-693 | a lot worth exactly the remaining ceiling and RQVLeft is taken whole, leaves RQVLeft and the ceiling at 0, and the pass ends |
| Selector.GreedyFromKeeps | Allocation/Allocation.go:678-754 | the loop invariant (accounting, placement, overshoot, stop and exhaustion facts) holds from any position to the end of the pass |
| Selector.GreedyKeeps | Allocation/Allocation.go:670-754 | the invariant holds of the finished pass and no ceiling grows |
| Selector.GreedyAccounts | Allocation/Allocation.go:690-737 | RQV − RQVLeft is the plan's total value, and each form's ceiling used is that form's value in the plan |
| Selector.GreedyOvershootBounded | Allocation/Allocation.go:700-743 | the plan exceeds the RQV, and each form's share exceeds its ceiling, by less than the largest unit value taken |
| Selector.GreedyTakesFromLots | Allocation/Allocation.go:678-743 | each entry takes at most its lot's units at their unit value, from a distinct candidate in list order, and SecuritiesChanged holds the units taken per candidate |
| Selector.GreedyTakesWithinLots | Allocation/Allocation.go:693-742 | SecuritiesChanged never exceeds a candidate's quantity and holds exactly each plan entry's units |
| Selector.GreedyStopsWhenCovered | Allocation/Allocation.go:679-752 | no lot is taken once RQV is covered, and a pass ending short has left every candidate taken whole, of value 0, or with too little ceiling for one unit |
| Selector.GreedyTakesOnlyBackedLots | Allocation/Allocation.go:681-743 | every lot taken has a positive unit value and a form that has a positive ceiling |
| Selector.GreedyWithinAvailable | Allocation/Allocation.go:678-754 | the plan never takes more than the candidates hold, so covering the RQV implies the available value reaches it; ceilings only shrink |
| Selector.SelectLots | Allocation/Allocation.go:670-754 | the loop over the sorted candidates computes exactly the greedy pass `Greedy` |
| Selector.DecideAsWritten | Allocation/Allocation.go:681-743 | as written: skip below one MTM of ceiling; the whole lot for a deduction of one unit value when that value fits ceiling and RQVLeft; otherwise quantities rounded by the MTM, with the RQVLeft clamp only where the ceiling's units fall short of it |
| Selector.DecideAsWrittenMovesLotForOneUnit | Allocation/Allocation.go:684-693 | 1000 units of value 1, ceiling 100, RQVLeft 10: as written all 1000 units move for a deduction of 1; the intended decision takes 10 |
| Selector.DecideAsWrittenUsesMtm | Allocation/Allocation.go:681-734 | unit value 200 (MTM 10), ceiling 100, RQVLeft 1000: as written 10 units worth 2000 move for a deduction of 100; the intended decision skips the lot |
| Selector.DecideAsWrittenMovesUnpricedLot | Allocation/Allocation.go:681-693 | a lot of unit value 0 (MTM 5, or MTM 0), ceiling 50: as written all 100 units move and nothing is deducted; the intended decision skips it |
| Selector.UnpricedLotStays | Allocation/Allocation.go:681 | a lot of value 0 of a form with no ceiling is skipped as written and by the model, and the pass takes nothing |
| Selector.DecideAsWrittenSkipsClamp | Allocation/Allocation.go:711-743 | unit value 200 (MTM 10), ceiling 150, RQVLeft 5: as written 15 units are taken where the clamp of line 731 would give 1; the intended decision skips the lot |
| Reconciliation.PlanDeltas | Allocation/Allocation.go:766-829 | one delete (nothing left) or quantity-only update per candidate in order, then one add at the destination per plan entry carrying the units taken |
| Reconciliation.ReconciliationConservesUnits | Allocation/Allocation.go:766-829 | for every candidate, units kept at the source plus units moved equal its quantity, and each add is its source lot with exactly the units that lot gave up |
| Reconciliation.ChangedAsWritten | Allocation/Allocation.go:693-742 | as written: SecuritiesChanged is keyed by SecurityId, the last entry for an id winning |
| Reconciliation.NewQuantityAsWritten | Allocation/Allocation.go:766-767 | as written: a lot's new quantity is its quantity less SecuritiesChanged at its SecurityId |
| Reconciliation.ChangedAsWrittenConflatesAccounts | Allocation/Allocation.go:767 | one security held in two accounts: keyed by SecurityId the untouched lot is updated to −7 units; keyed by candidate it keeps its 3 |
| Allocation.Available | Allocation/Allocation.go:603 | the eligible value is the long-box total plus the segregated total |
| Allocation.Settle | Allocation/Allocation.go:618-630 | the record written back keeps the transaction's identity fields and takes the run's margin-call date, conversion rate and statuses |
| Allocation.CandidatesWellFormed | Allocation/Allocation.go:538-541 | every sorted candidate's lot value is unit value × quantity |
| Allocation.PlanDrawsOnKeptPricedLots | Allocation/Allocation.go:532-743 | every lot the pass takes is a candidate of a form validation kept, with a positive FX rate and MTM |
| Allocation.CandidatesHoldAvailable | Allocation/Allocation.go:603 | the sorted candidates hold exactly the available eligible value |
| Allocation.StartAllocation | Allocation/Allocation.go:463-850 | the candidates are a permutation of both accounts' eligible lots; below the RQV the run is pending with no deltas; otherwise the candidates are sorted and the selection is the greedy pass; the record is "Allocation Successful"/"Complete" exactly when eligible value reaches the RQV and the pass covers it, and then the deltas reconcile the selection and the conversion rate is the transaction's; a pending record has an empty conversion rate; a pending run plans no delta; identity fields are copied |
| Allocation.SuccessfulPlanBounds | Allocation/Allocation.go:838-850 | a covering pass for a positive RQV takes a value in [RQV, RQV + largest unit) from candidates holding at least the RQV |
| Allocation.ShortfallCeilings | Allocation/Allocation.go:466-490 | a ruleset at the baseline for CommonStocks and CorporateBonds gets ceilings of 400,000 and 300,000 on an RQV of 1,000,000 |
| Allocation.ShortfallPass | Allocation/Allocation.go:678-754 | with those ceilings, a 500-unit stock lot and an 800-unit bond lot at 1,000 a unit: the pass takes 400 and 300 units and leaves 300,000 of the RQV uncovered |
| Allocation.OutcomeAsWritten | Allocation/Allocation.go:838-850 | as written: the statuses follow the line-603 test alone, Pending below the RQV and Complete otherwise |
| Allocation.OutcomeAsWrittenCompletesShortfall | Allocation/Allocation.go:838-850 | in that case 1,300,000 is available, so the written outcome is "Allocation Successful"/"Complete" although the pass leaves 300,000 uncovered |

## Left out

- Chaincode entry and dispatch (`main`, `Init`, `Run`, `Invoke`, `Query`): framework glue.
- Ledger reads and writes, cross-contract calls and the "Allocation in progress" status update: their effects appear only as the returned delta list and transaction record; ledger failures and atomic commit are external.
- Fetching the deal, the transaction, the ruleset and FX rates, and the account holdings: these are inputs to `Allocation.StartAllocation` (ruleset map, FX snapshot, two lot sequences, destination account, margin-call date); fetch failures are not modelled.
- Events (`SetEvent`), messages and JSON strings: only the statuses and fields of the record are kept. The rejected forms are the set `Rules.Rejected` rather than one event each.
- `float32` arithmetic: integers in one fixed-point scale throughout.
- The display fields of the update and add messages (`totalvalue`, `valuePercentage`, `effectivePercentage`, `EffectiveValueinUSD`): not part of the model's `Security`.
- Sorting of the two per-account lists (lines 656, 658): their order is never read.
- Allocation.StartAllocation: the destination account of the adds is a parameter, since lines 807-809 leave it empty; the conversion rate of a completed record keeps the transaction's value, since line 846 concatenates the whole FX structure.
- Ordering.SortByPriority: Go's `sort.Sort` is not stable and the lots arrive in map iteration order, so the order among equal priorities is unspecified; the model proves sortedness and permutation only, and the pass is specified over whatever order the sort returns.

## Findings

| source | as written | input that shows it | evidently intended | confidence | as-written member | corrected member |
|---|---|---|---|---|---|---|
| Allocation/Allocation.go:98 | priorities compared as strings | priorities 2 and 10: "10" sorts first | numeric comparison, lower number first | high; not executed | Ordering.LessAsWrittenPutsTenBeforeTwo | Ordering.SortByPriority |
| Allocation/Allocation.go:475 | the compliance test's concentration limit reads `value[1]`, the priority | CommonStocks entry limit 50, priority 0, valuation 90 is dropped | compare the entry's limit `value[0]` | high; not executed | Rules.ComplianceAsWrittenIgnoresLimit | Rules.Validated |
| Allocation/Allocation.go:489 | ceiling = RQV × `value[1]`, not divided by 100 | RQV 1,000,000, CommonStocks at baseline: ceiling 1,000,000 | RQV × limit / 100 = 400,000 | high; not executed | Rules.CeilingAsWrittenIgnoresLimit | Rules.EligibilityCeilings |
| Allocation/Allocation.go:546-547 | `=+` assigns the last lot's value | two lots of 60, RQV 100: reported 60, pending | sum of all eligible lot values (120) | high; not executed | Holdings.AvailableAsWrittenUndercounts | Holdings.NormalizeAccount |
| Allocation/Allocation.go:684-693 | one unit's value is compared with ceiling and RQVLeft, the whole lot moves, one unit's value is deducted | 1000 units of value 1, ceiling 100, RQVLeft 10: 1000 units move, RQVLeft drops by 1 | compare and deduct the lot value; take 10 units | high; not executed | Selector.DecideAsWrittenMovesLotForOneUnit | Selector.Decide |
| Allocation/Allocation.go:681-734 | the skip test and the quotients of lines 700, 714 and 731 use the MTM, not the unit value | unit value 200 (MTM 10, FX rate 20), ceiling 100, RQVLeft 1000: 10 units worth 2000 move for a deduction of 100 | compare with and divide by the unit value; here skip | high; not executed | Selector.DecideAsWrittenUsesMtm | Selector.Decide |
| Allocation/Allocation.go:681-693 | a lot of unit value 0 (no FX rate) passes the skip test while the ceiling covers one MTM | MTM 5, 100 units, unit value 0, ceiling 50: all 100 units move, nothing is deducted | a lot without value is never moved | medium; not executed | Selector.DecideAsWrittenMovesUnpricedLot | Selector.GreedyTakesOnlyBackedLots |
| Allocation/Allocation.go:717 | the RQVLeft clamp sits in the branch where the ceiling's units fall short of RQVLeft | unit value 200, MTM 10, ceiling 150, RQVLeft 5: 15 units taken, where the clamp gives min(15, ceil(5/10)) = 1 | take ceil(min(ceiling, RQVLeft) / unit value) units; here skip | medium; not executed | Selector.DecideAsWrittenSkipsClamp | Selector.Decide |
| Allocation/Allocation.go:767 | SecuritiesChanged keyed by SecurityId alone | security S: 10 units in long-box all taken, 3 in segregated: update to −7 | key by the lot (account and security) | high; not executed | Reconciliation.ChangedAsWrittenConflatesAccounts | Reconciliation.PlanDeltas |
| Allocation/Allocation.go:838-850 | "Complete" whenever available value reaches RQV | RQV 1,000,000, lots 500,000 CommonStocks and 800,000 CorporateBonds: 300,000 uncovered | "Pending" unless the pass covers the RQV | medium; not executed | Allocation.OutcomeAsWrittenCompletesShortfall | Allocation.StartAllocation |
