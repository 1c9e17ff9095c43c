# Debt payoff simulation — a verified model

This project models, in Dafny, the payoff arithmetic of a small debt-management
application. That arithmetic exists twice: once in the Python back end
(`APP.PY`) and once in the browser script (`frontend.js`). Each version is
modelled on its own terms, because the two differ in detail:

- the Python one shares one monthly budget across debts;
- the browser one lets every debt pay its own minimum and cascades the extra
  amount.

Money is exact `real` arithmetic. The monthly rate is `rate / 12 / 100`. The
browser's one explicit rounding step, `Math.round(x * 100) / 100`, becomes
`Floor(x * 100 + 1/2) / 100` (`Money.RoundCents`).

What is modelled:

- **Back end, single debt** (`app_debt.dfy`):
  - the `Debt` record with `current_balance` and `monthly_interest`;
  - `calculate_payoff_date`: its two guards, the 1200-month loop and the
    "N years, M months" text. A decoder for that text proves the round trip.
- **Back end, payment plan** (`app_plan.dfy`): `generate_payment_plan`, a
  loop of at most 360 months appending rows. Under "minimum" the payment is
  at least interest + 1; otherwise it is at least interest + 50. The last
  payment is clamped to what is owed.
- **Back end, strategies** (`app_strategy.dfy`):
  - `compare_payoff_strategies`: the avalanche order (rate descending) and
    the snowball order (balance ascending), both stable sorts;
  - `_simulate_payoff`: one shared pool per month pays the minimums in
    priority order, the leftover goes to the first open debt, and closed
    debts are dropped, with a 1200-month cap.
- **Browser, formatting** (`js_format.dfy`): `formatMonthsAsTime` with its
  decoder, and the guard branches of `calculatePayoffTime` and
  `calculatePayoffInfo`.
- **Browser, payment plan** (`js_plan.dfy`): `simulatePaymentPlan`, four
  parallel arrays with balances rounded to cents, at most 999 rows.
- **Browser, strategies** (`js_strategy.dfy`): `simulateStrategy`,
  `calculateMonthsToPayoff` and `calculateTotalInterest`. Each open debt
  accrues interest and pays its own minimum; the extra amount then cascades
  down the priority order. The cap is 1000 months.
- **Browser, CSV** (`js_csv.dfy`): `parseCSVRow`, the quote-toggling scanner.
  Its round trip is proved against the comma-joined, optionally quoted
  cells that the export writes.
- **Browser, ledger** (`js_ledger.dfy`): the global `debts` and `payments`
  arrays as a class, covering:
  - `addDebt` and `makePayment`, including their `max + 1` id allocation;
  - `deleteDebt`;
  - `recalculateDebtBalances`.
  An invariant ties every debt's totals to the payment log.
- Shared support:
  - `sorting.dfy`: a stable insertion sort by a real key;
  - `text.dfy`: numerals, "N unit(s)" texts and JavaScript `trim`;
  - `money.dfy`: rounding, min and max;
  - `wrappers.dfy`: `Option`.

Loops in the source are loops here: a `method` with invariants, proved equal
to a recursive specification function, about which the lemmas below are
proved. Where the source changes an object's fields, the model updates a
datatype value and reassigns it.

## Model

| member | source | states |
|---|---|---|
| AppDebt.CalculatePayoffDate | APP.PY:30-76 | The loop's answer equals the recursive specification PayoffDate: "Already paid off", "Never", or the month count with its text. |
| AppDebt.PayoffGuards | APP.PY:32-42 | For a non-negative rate, the result is "Already paid off" exactly when principal − total_paid ≤ 0. It is "Never" exactly when a positive balance's monthly interest is at least the minimum payment. |
| AppDebt.PayoffMonths | APP.PY:44-76 | When neither guard fires, the answer is a month count in 1..1200 together with that count's text. |
| AppDebt.ProjectedMonthsBounds | APP.PY:41-58 | Past the guards, the projection is the loop's own result; it stops (never "Never") at a month in 1..1200. |
| AppDebt.LoopStops | APP.PY:44-58 | With rate ≥ 0 and a first payment above the interest, the in-loop "Never" exit is unreachable. The balance is positive and strictly falls in every month before the stop, and is paid off at the stop unless the cap was hit. |
| AppDebt.PayoffLoopFrom | APP.PY:47-58 | The same, for the loop entered at any month j: it stops at m with j ≤ m ≤ 1200, and the balance falls in every month from j to m. |
| AppDebt.BalanceAfterAtZeroRate | APP.PY:49-55 | At a 0% rate the balance after k months is b − k × payment. |
| AppDebt.CapLooksLikePayoff | APP.PY:47-76 | A 1000.00 debt at 0% paid 0.50 a month still owes 400.00 after 1200 months, yet the result is a 1200-month record, the same shape as a payoff. |
| AppDebt.TimeStringRoundTrip | APP.PY:61-70 | The text reads back to the month count: years = months div 12, rem = months mod 12, ", M month(s)" only when rem > 0, months alone under a year. |
| AppDebt.ParseYearsAndMonths | APP.PY:65-68 | "N year(s)" optionally followed by ", M month(s)" reads back as 12N + M. |
| AppDebt.ParseMonthsOnly | APP.PY:69-70 | "M month(s)" reads back as M. |
| Text.CountOfPlural | APP.PY:66-70 | The plural "s" is written exactly when the count is not 1. |
| Text.ReadCountOfCountOf | APP.PY:66-70 | "N unit(s)" followed by any text reads back as N and that text. |
| Text.ReadNatToString | APP.PY:66-70 | A decimal numeral reads back as its value. |
| Text.DigitsValueOfNatToString | APP.PY:66-70 | The digits of the rendered numeral have the number's value. |
| Text.NatToString | APP.PY:66-70 | A numeral is a non-empty run of digits without a leading zero. |
| AppPlan.GeneratePaymentPlan | APP.PY:319-367 | A missing debt gives no rows. Otherwise the loop's rows equal Plan, the month-by-month specification, from the current balance. |
| AppPlan.MonthOfPlan | APP.PY:346-359 | One turn of the loop yields the row of the month opening at that balance. |
| AppPlan.MarginOverInterest | APP.PY:350-354 | The margin over interest is at least 1: exactly 1 under "minimum", 50 otherwise. |
| AppPlan.PlanStep | APP.PY:350-359 | From a positive balance, the next balance is ≥ 0 and strictly lower. It is lower by at least the margin unless it reaches 0. |
| AppPlan.PlanExtent | APP.PY:343-367 | At most 360 rows. A non-positive balance gives no rows. A plan that stops before the cap ends at exactly 0. |
| AppPlan.PlanRowAt | APP.PY:346-364 | Row i is month i + 1. Its interest is the opening balance × rate, and its balance is opening + interest − payment. |
| AppPlan.PlanRowBalance | APP.PY:356-367 | Every balance is ≥ 0 and below the one the month opened with, by at least the margin unless it is 0. Only the last row can be 0. |
| AppPlan.PlanRowPayment | APP.PY:350-357 | A payment is at least the minimum and at least interest + margin, or it is exactly what is owed and the balance becomes 0. |
| AppPlan.PrefixLength | APP.PY:345-367 | After n turns there are at most n rows, and exactly n while something is owed. |
| AppPlan.PrefixSettles | APP.PY:345-367 | Once the balance is cleared, later turns add nothing. |
| AppPlan.PrefixRowAt | APP.PY:345-364 | Every row of the plan so far is the row of the month that opens at the previous balance, which is positive. |
| AppStrategy.MinimumStep | APP.PY:458-477 | An open debt's minimum, capped at the post-interest balance, is paid from the pool (or the whole pool when it cannot cover it). The pool and the new balance stay ≥ 0, the balance moves by interest − paid, and only total_paid changes. |
| AppStrategy.MinimumStepPays | APP.PY:464-477 | The interest is the monthly interest. The amount paid lies in 0..min_payment, is at most the pool and at most what is owed. A short payment empties the pool or clears the debt. |
| AppStrategy.FirstOpen | APP.PY:480-485 | The index found is the first debt with a positive balance, or past the end if there is none. |
| AppStrategy.PayDebtMinimum | APP.PY:459-477 | The loop body for one open debt computes MinimumStep. |
| AppStrategy.PayMinimums | APP.PY:458-477 | The minimums loop equals the MinimumsPass specification: closed debts dropped, the others paid in order from one pool. |
| AppStrategy.PayLeftover | APP.PY:480-485 | The leftover loop equals the Leftover specification. |
| AppStrategy.SimulatePayoff | APP.PY:432-495 | The monthly loop's months and interest equal the Simulate specification. |
| AppStrategy.LeftoverGoesToFirstOpen | APP.PY:480-485 | Only the first open debt receives the leftover, never beyond its balance. The pool stays in 0..pool, and any remainder means that debt is cleared. The total balance falls by exactly what was spent. |
| AppStrategy.MinimumsPassKeepsOpen | APP.PY:458-477 | The pass keeps exactly the open debts, in order. Each changes only in total_paid and keeps a balance ≥ 0. |
| AppStrategy.MinimumsPassLength | APP.PY:458-462 | The pass keeps as many debts as were open. |
| AppStrategy.MinimumsPassInterest | APP.PY:464-465 | The month's interest is the sum of balance × rate over the open debts. |
| AppStrategy.OpenInterestNonNegative | APP.PY:464-465 | With non-negative terms that sum is ≥ 0. |
| AppStrategy.MinimumsPassBudget | APP.PY:455-477 | The pool never goes below 0 nor, with non-negative terms, above its start. Kept balances = open balances + interest − amount paid. |
| AppStrategy.MonthConservation | APP.PY:455-485 | Over a whole month: pool ≥ 0, interest = open interest, new total balance = open balances + interest − spent. |
| AppStrategy.MonthKeepsTerms | APP.PY:458-485 | Non-negative rates and minimums stay so after a month. |
| AppStrategy.OpenDebtsTerms | APP.PY:458-462 | Dropping closed debts keeps the terms non-negative. |
| AppStrategy.BalancesUpdate | APP.PY:483 | Changing one debt changes the total balance by that debt's difference. |
| AppStrategy.SimulateMonths | APP.PY:450-489 | An empty list gives 0 months and 0 interest. A non-empty one gives 1 ≤ months ≤ 1200. |
| AppStrategy.SimulateFromMonths | APP.PY:453-489 | Entered at any month, the loop ends between that month and 1200, and advances while debts remain. |
| AppStrategy.SimulateFromInterest | APP.PY:453-465 | With non-negative terms, total interest never decreases. |
| AppStrategy.OrdersAccrueInterest | APP.PY:404-410 | Both strategy orders accrue non-negative interest for non-negative terms. |
| AppStrategy.CompareStrategies | APP.PY:385-430 | An empty list gives no result. Otherwise: total principal is the sum of current balances, the budget is Σ min_payment + extra, and each strategy's months and interest are those of the simulation of its sorted order. Each total_paid = principal + interest, months are in 1..1200, and total_paid ≥ principal for non-negative terms. |
| AppStrategy.AvalancheOrdered | APP.PY:405 | The avalanche order is a permutation of the input with rates non-increasing. Debts of equal rate keep their input order. |
| AppStrategy.SnowballOrdered | APP.PY:409 | The snowball order is a permutation with current balances non-decreasing. Debts of equal balance keep their input order. |
| AppStrategy.TermsOfPermutation | APP.PY:405-410 | Reordering keeps non-negative terms. |
| Sorting.SortBySorted | APP.PY:405-409 | The sort's result is ordered by the key. |
| Sorting.SortByPermutes | APP.PY:405-409 | The sort's result is a permutation of its input. |
| Sorting.SortByStable | APP.PY:405-409 | The sort is stable: the elements with any one key keep their relative order. |
| Sorting.InsertBySorted | APP.PY:405-409 | Inserting into a sorted sequence keeps it sorted. |
| Sorting.InsertByAdds | APP.PY:405-409 | Inserting adds exactly that element. |
| Sorting.InsertPos | APP.PY:405-409 | The insertion point is after every key ≤ x and before the first key > x. |
| Sorting.WithKeyAppend | APP.PY:405-409 | Selecting one key's elements distributes over concatenation. |
| Sorting.WithKeyAbove | APP.PY:405-409 | A sorted sequence whose keys are all above k holds none with key k. |
| JsFormat.FormatMonthsAsTime | frontend.js:871-893 | After the ceiling, "Less than 1 month" exactly when it is < 1. The text is never empty and otherwise begins with a digit. |
| JsFormat.FormatRoundTrip | frontend.js:871-893 | The text reads back as the ceiling of the months (0 for "Less than 1 month"), with years × 12 + M = months. |
| JsFormat.WholeMonthsRoundTrip | frontend.js:878-892 | For at least one month, the years-and-months text reads back as that count. |
| JsFormat.ReadYearsText | frontend.js:883-890 | "N year(s)" with an optional " M month(s)" reads back as 12N + M. |
| JsFormat.ReadMonthsOnlyText | frontend.js:887-890 | "M month(s)" with 0 < M < 12 reads back as M. |
| JsFormat.PayoffBranchOf | frontend.js:808-823 | "Paid off" exactly when balance ≤ 0. "Never" exactly when a positive balance's interest at rate/100/12 is at least the minimum payment. |
| JsFormat.PayoffTimeGuard | frontend.js:808-823 | calculatePayoffTime answers without the formula exactly in those two branches. |
| JsFormat.PayoffInfoGuard | frontend.js:833-852 | calculatePayoffInfo answers without the formula exactly in those two branches. |
| JsFormat.GuardsAgree | frontend.js:808-852 | The two functions take the same branches with the same text. The info gives 0 months exactly when paid off and Infinity exactly for "Never". |
| JsFormat.GuardsMatchBackEnd | frontend.js:809-823 | For a non-negative rate, the browser's guards fire exactly when the back end answers "Already paid off" and "Never" (APP.PY:32-42). |
| JsPlan.SimulatePaymentPlan | frontend.js:919-958 | The loop's four arrays equal the columns of Rows, the specification, for the debt's balance, its monthly rate and its planned payment. |
| JsPlan.PlanMonth | frontend.js:941-947 | One month's interest and min(payment, balance + interest). |
| JsPlan.Columns | frontend.js:920-925 | The four arrays have one length. |
| JsPlan.ColumnsPush | frontend.js:938-947 | Pushing one month appends one entry to each array. |
| JsPlan.PlanExtent | frontend.js:927-956 | Four arrays of equal length ≤ 999, empty exactly when balance ≤ 0, with balance[0] the current balance. There is no never-payable guard: a plan ending before the cap ends at balance 0. |
| JsPlan.PlanMonthAt | frontend.js:937-956 | Entry i is month i + 1 and opens at a positive balance. Its interest is balance × rate/100/12 and its payment is the planned one (1.5 × minimum when "accelerated") unless less is owed. The next balance is this month's rounded remainder, which is ≥ 0. |
| JsPlan.ColumnsMonthAt | frontend.js:937-956 | The same, stated for the columns of any starting balance, rate and payment. |
| JsPlan.RowAt | frontend.js:937-956 | The same for the rows, and row 0 opens at the starting balance. |
| JsPlan.AfterNonNegative | frontend.js:950-953 | The cents-rounded balance after a month is never negative. |
| JsPlan.PrefixLength | frontend.js:937-956 | After n turns there are at most n rows, and exactly n while the balance is positive. |
| JsPlan.PrefixSettles | frontend.js:937 | Once the balance is ≤ 0, no later turn adds a row. |
| JsPlan.PrefixRowAt | frontend.js:937-956 | Every row so far is the month opening at the previous rounded balance, which is positive. |
| Money.RoundCentsBounds | frontend.js:953 | Rounding to cents moves a value by at most half a cent, lands on a whole number of cents, and keeps a non-negative value non-negative. |
| Money.Ceil | frontend.js:872 | The ceiling n satisfies n − 1 < x ≤ n. |
| JsStrategy.SimulateStrategy | frontend.js:962-1031 | The method's result equals StrategySpec. That is the run on the copy sorted by strategy, plus the savings against the same sorted copy run with extra 0. |
| JsStrategy.CalculateMonthsToPayoff | frontend.js:1034-1070 | The loop's month count is that of RunOf, the same run simulateStrategy makes. |
| JsStrategy.CalculateTotalInterest | frontend.js:1073-1111 | The loop's interest is that of RunOf, the same run. |
| JsStrategy.PayMinimums | frontend.js:989-1005 | The minimums loop equals MinimumsPass. The interest and paid totals grow by the pass's amounts. |
| JsStrategy.MinimumOfDebt | frontend.js:990-1004 | The loop body for an open debt computes MinimumCharge. |
| JsStrategy.PayExtra | frontend.js:1008-1016 | The extra loop equals ExtraPass, and totalPaid grows by the extra spent. |
| JsStrategy.MinimumCharge | frontend.js:990-1004 | A closed debt is untouched. An open one accrues balance × rate/100/12 and pays min(min_payment, balance + interest); only its balance changes, by interest − paid, and never goes below 0. |
| JsStrategy.MinimumsPassAt | frontend.js:989-1005 | Each debt gets its own minimum, independently of the others; there is no shared pool. |
| JsStrategy.MinimumsPassConserves | frontend.js:989-1005 | The new total balance = old + interest − paid. |
| JsStrategy.MinimumsPassInterest | frontend.js:994-996 | With non-negative rates, interest is ≥ 0. |
| JsStrategy.ExtraPassSpends | frontend.js:1008-1016 | The total balance falls by exactly the extra spent. With extra ≤ 0 nothing changes; otherwise the remainder lies in 0..extra. |
| JsStrategy.ExtraPassAt | frontend.js:1008-1016 | Only balances change. A closed debt is untouched, and an open one ends in 0..its balance. |
| JsStrategy.ExtraLeftover | frontend.js:1008-1016 | If extra is left over, every debt is closed. |
| JsStrategy.ExtraCascade | frontend.js:1008-1016 | The extra cascades in order: a debt receives some only if every debt before it ends closed. |
| JsStrategy.ExtraPassPrefix | frontend.js:1008-1016 | What a debt receives depends only on the debts before it. |
| JsStrategy.MonthConserves | frontend.js:985-1020 | Over a month, the new total = old total + interest − paid. |
| JsStrategy.MonthKeepsTerms | frontend.js:985-1016 | A month changes only the balances. |
| JsStrategy.MonthKeepsNonNegative | frontend.js:985-1016 | No balance goes negative, given non-negative terms. |
| JsStrategy.TotalBalanceNonNegative | frontend.js:1019 | The total of non-negative balances is ≥ 0, and 0 when none is open. |
| JsStrategy.RunShape | frontend.js:975-1030 | months ≤ 1000, balances has months + 1 entries, balances[0] is the opening total and the last entry the final total. months = 0 exactly when no debt is open, and a run ending early leaves every debt closed. totalPaid = opening total + interestPaid − final total. |
| JsStrategy.RunNonNegative | frontend.js:975-1030 | With non-negative terms, every recorded total is ≥ 0 and interestPaid ≥ 0. totalPaid ≤ opening total + interest, with equality when the run ends before the cap. |
| JsStrategy.FinishRecords | frontend.js:984-1021 | The loop only appends to balances, one entry per month, stays within the cap, and stops early only when all debts are closed. |
| JsStrategy.FinishConserves | frontend.js:984-1021 | The amount paid over the loop = balance drop + interest. |
| JsStrategy.FinishNonNegative | frontend.js:984-1021 | The loop keeps balances and recorded totals ≥ 0 and never lowers interestPaid. |
| JsStrategy.StrategyOrdered | frontend.js:967-973 | The copy is a permutation of the input, with rates non-increasing under "avalanche" and balances non-decreasing otherwise. |
| JsStrategy.StrategyStable | frontend.js:967-973 | The sort is stable: debts with an equal key keep their order. |
| JsStrategy.SortByTotal | frontend.js:978 | Sorting does not change the opening total. |
| JsStrategy.SortedAnyOpen | frontend.js:984 | Sorting does not change whether any debt is open. |
| JsStrategy.StrategyReport | frontend.js:962-1031 | months ≤ 1000, balances has months + 1 entries, balances[0] is the input's total, and months = 0 exactly when no debt is open. totalPaid = opening total + interest − final total. Extra 0 gives savedMonths = 0 and savedInterest = 0. |
| JsStrategy.AnyOpenAt | frontend.js:984 | `some` holds exactly when a debt has a positive balance. |
| JsStrategy.TotalBalanceConcat | frontend.js:1019 | The total over two parts is the sum of their totals. |
| JsCsv.ParseCsvRow | frontend.js:1289-1311 | The scanning loop's fields equal CsvFields, the fields of the recursive scanner followed by the trimmed last field. |
| JsCsv.FieldCount | frontend.js:1294-1308 | There is one more field than there are commas outside quotes. |
| JsCsv.ScanQuotes | frontend.js:1297-1298 | The scan is inside quotes exactly after an odd number of double quotes. |
| JsCsv.ScanCounts | frontend.js:1299-1301 | The fields pushed so far equal the commas outside quotes. |
| JsCsv.FieldsClean | frontend.js:1294-1308 | No field holds a double quote, and every field is trimmed. |
| JsCsv.ScanClean | frontend.js:1294-1305 | The same for the fields pushed in the loop and the field being read. |
| JsCsv.TrimDrops | frontend.js:1300 | trim removes no character other than whitespace, and its result is trimmed. |
| JsCsv.JoinRoundTrip | frontend.js:1289-1311 | A line of cells joined by commas, bare or quoted as the export writes names (frontend.js line 1136), reads back as exactly the cells' texts. A cell must hold no `"`, no surrounding whitespace, and no unquoted comma. |
| JsCsv.ScanJoined | frontend.js:1294-1305 | The scan of such a line ends outside quotes, with the earlier texts pushed and the last one current. |
| JsCsv.ScanCell | frontend.js:1297-1304 | A rendered cell, quoted or bare, is read back as its text. |
| JsCsv.Texts | frontend.js:1136 | The texts of the cells, one per cell. |
| Text.TrimFacts | frontend.js:1300 | trim cuts only whitespace, at either end, and leaves a trimmed string. |
| Text.TrimOfTrimmed | frontend.js:1308 | trim leaves a trimmed string unchanged. |
| Text.TrimStartFacts | frontend.js:1300 | Leading whitespace is cut up to the first non-space. |
| Text.TrimEndFacts | frontend.js:1300 | Trailing whitespace is cut back to the last non-space. |
| JsLedger.NextId | frontend.js:221 | `max + 1` over the ids (debts here, payments at frontend.js line 258), or 1 for none, is above every existing id. |
| JsLedger.MaxKey | frontend.js:221 | Math.max over the ids is one of them and no id exceeds it. |
| JsLedger.FindDebt | frontend.js:252 | find returns the first debt with that id, or none when no debt has it. |
| JsLedger.FindUnique | frontend.js:252 | With unique ids, find returns that debt's position. |
| JsLedger.NewDebt | frontend.js:223-233 | A new debt has total_paid 0, balance = principal, and interest = principal × rate/12/100. |
| JsLedger.AddDebtTo | frontend.js:215-235 | addDebt appends one debt with a fresh id and keeps the payments and the other debts. |
| JsLedger.Credit | frontend.js:270-272 | total_paid grows by the amount, and the balance becomes max(0, principal − total_paid); nothing else changes. |
| JsLedger.WithInterest | frontend.js:273 | The monthly interest is recomputed from the balance; nothing else changes. |
| JsLedger.PayInto | frontend.js:247-273 | An unknown debt id changes nothing. Otherwise one payment with a fresh id, that debt id and that amount is appended; that debt is credited; every other debt is unchanged. |
| JsLedger.DeleteRemoves | frontend.js:299-306 | Exactly the debts with that id and the payments for it go, and an unknown id leaves the debts as they were. |
| JsLedger.WithoutMembers | frontend.js:303-306 | filter keeps exactly the elements whose id differs. |
| JsLedger.WithoutConcat | frontend.js:303-306 | filter distributes over concatenation, so the survivors keep their order. |
| JsLedger.WithoutNothing | frontend.js:303 | Filtering out an absent id keeps everything. |
| JsLedger.WithoutUnique | frontend.js:303-306 | Filtering keeps ids unique. |
| JsLedger.AddKeepsValid | frontend.js:215-235 | addDebt keeps the ledger valid: ids unique, every payment owned by a debt, every debt settled against its payments. |
| JsLedger.PayKeepsValid | frontend.js:247-273 | makePayment keeps the ledger valid. |
| JsLedger.DeleteKeepsValid | frontend.js:299-306 | deleteDebt keeps the ledger valid. |
| JsLedger.RecalculateAt | frontend.js:1314-1335 | After recalculation, each debt's total_paid is the sum of its payments. Its balance is max(0, principal − total_paid), or the principal when it has no payment, and its interest follows the balance. Nothing else changes. |
| JsLedger.RecalculateValid | frontend.js:1314-1335 | Recalculation makes a ledger with unique ids and owned payments valid. |
| JsLedger.RecalculateSettled | frontend.js:1314-1335 | Recalculating a valid ledger changes nothing. |
| JsLedger.ReplayAt | frontend.js:1322-1329 | Replaying the payments adds each debt's own payments to its total. Payments for unknown ids are ignored. |
| JsLedger.ApplyAt | frontend.js:1323-1328 | One payment credits only the debt it names. |
| JsLedger.ReplayKeepsTerms | frontend.js:1322-1329 | Replay changes only total_paid and the balance. |
| JsLedger.SumPaidWithout | frontend.js:306 | Deleting one debt's payments leaves every other debt's sum. |
| JsLedger.FindSameIds | frontend.js:1323 | find depends only on the ids. |
| JsLedger.Ledger.AddDebt | frontend.js:215-235 | The new state is AddDebtTo of the old, and validity is kept. |
| JsLedger.Ledger.MakePayment | frontend.js:247-289 | It reports whether the debt was found. The new state is PayInto of the old, and validity is kept. |
| JsLedger.Ledger.DeleteDebt | frontend.js:299-306 | The new state is DeleteFrom of the old, and validity is kept. |
| JsLedger.Ledger.RecalculateDebtBalances | frontend.js:1314-1335 | The new state is Recalculate of the old. Unique ids and owned payments make it valid. |
| JsLedger.Ledger.ResetBalances | frontend.js:1316-1319 | Every debt's total_paid becomes 0 and its balance the principal. |
| JsLedger.Ledger.ApplyPayments | frontend.js:1322-1329 | The payments are replayed in order. |
| JsLedger.Ledger.RefreshInterest | frontend.js:1332-1334 | Every debt's monthly interest is recomputed. |
| JsLedger.Ledger.constructor | frontend.js:1-2 | The arrays as declared: both empty, which is a valid ledger. |

## Left out

- SQLite persistence, the CRUD methods of `DebtManager`, timing printouts and the interactive command-line interface are I/O. Debts enter the model as values, and `generate_payment_plan` takes the result of the debt lookup as an `Option`.
- Charts (matplotlib, Chart.js), Flask routes, the DOM, notifications, form inputs and the FileReader/Blob import/export wiring are presentation or browser plumbing. Form values and the creation or payment date are parameters.
- AppDebt.CalculatePayoffDate: the calendar date of the result (`relativedelta`) is a library call. Only the month count and its text are modelled.
- The closed-form logarithmic payoff formula of `calculatePayoffTime` and `calculatePayoffInfo` is transcendental floating-point arithmetic. Only their guard branches are modelled; the formula branch is a single `ByFormula` outcome.
- IEEE-754 rounding: money is exact `real`. Only the explicit cents rounding of `simulatePaymentPlan` is modelled.
- The pandas DataFrame of `generate_payment_plan` is a sequence of row records; the plan's four lists are read row by row.
- AppStrategy.SimulatePayoff: `debt_copies.remove(debt)` removes by dataclass equality. The model drops the closed debt at its position; the two agree when the debts are distinct, which their database ids make them.
- AppStrategy.SimulatePayoff, JsStrategy.SimulateStrategy: the private copies (Python constructor copies, JSON deep copies) are value semantics here. Debts are datatype values, so the caller's list cannot change.
- JsStrategy.SimulateStrategy: the baseline runs are computed after the main loop rather than before it. They work on their own copies of the sorted list, so the values are the same.
- JsStrategy.SimulateStrategy: `sort`, `some`, `reduce`, `find`, `filter` and `Math.max` are modelled as functions (a stable insertion sort, recursive predicates and sums), not as the engine's implementations.
- The loop over `debts.forEach` in `recalculateDebtBalances` and in `RefreshInterest` is a `for` loop over the array's positions.
- Money.RoundCents: the function carries no contract of its own. Its bounds are stated in Money.RoundCentsBounds.
- `loadMockData` (frontend.js:11-58), which `init()` runs at frontend.js:99, is not modelled. Its demo debts are not valid ledgers: their total_paid does not match their payments, and their monthly_interest does not match their balance. So AddKeepsValid, PayKeepsValid, DeleteKeepsValid and RecalculateSettled describe a page that starts from the declared empty arrays or from a ledger after recalculateDebtBalances. They say nothing about the running page's demo data until it is recalculated.
- AppDebt.CapLooksLikePayoff documents that reaching the 1200-month cap is reported like a payoff; the model keeps that behaviour as written.
