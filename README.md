# Monthly expense tracker: settlement arithmetic

This project models the arithmetic core of a single-user household expense
tracker. The tracker keeps two append-only lists: expenses
`{Date, Category, Description, Amount}` and fixed contributions
`{Name, Amount, Date}`. From them it derives:

- total contributions and total expenses (0 when there are none);
- the "Worker Payment" subtotal, which stays inside total expenses;
- the balance left, which is contributions minus expenses;
- the total paid in by each person;
- a settlement.

In the settlement, all expenses are split equally over the distinct
contributors, taken in first-seen order. Each contributor gets a balance:
what they paid minus the equal share, rounded to cents. A negative balance
means the person should pay, a positive one that they should receive.

In the source this logic sits inline in the page branches of one script. Here
it is lifted into:

- `records.dfy` (`Records`): the two record types, the category selector's choices and the Worker Payment category among them.
- `aggregation.dfy` (`Aggregation`): column sums, the category selection,
  the group-by on names and the distinct-name list. These are pure functions
  with lemmas: mass is preserved under grouping, the categories partition the
  total, and names come in first-seen order.
- `rounding.dfy` (`Rounding`): two-decimal rounding, with its bound, its sign
  behaviour and idempotence.
- `settlement.dfy` (`Settlement`): the equal share, the settlement loop as a
  method proved against a specification function, the Settlements page, the
  conservation law for balances, the pay/receive classification, and the two
  worked scenarios.
- `session.dfy` (`Session`): the session's two lists as a class whose
  submit methods append one record in place.

Amounts are exact `real`s.

## Model

| member | source | states |
|---|---|---|
| `Aggregation.TotalExpenses` | expense_tracker.py:97 | the Amount sum of the expenses is 0 for an empty list and never negative when every amount is non-negative |
| `Aggregation.TotalContributions` | expense_tracker.py:94 | the Amount sum of the contributions is 0 for an empty list and never negative when every amount is non-negative |
| `Aggregation.SumConcat` | expense_tracker.py:94 | the sum of a column split in two is the sum of the two parts |
| `Aggregation.SumNonNegative` | expense_tracker.py:97 | a column of non-negative amounts has a non-negative sum |
| `Aggregation.TotalExpensesConcat` | expense_tracker.py:97 | the expense total of two lists joined is the sum of their totals |
| `Aggregation.TotalContributionsConcat` | expense_tracker.py:94 | the contribution total of two lists joined is the sum of their totals |
| `Aggregation.TotalExpensesSnoc` | expense_tracker.py:47-52 | appending one expense raises total expenses by exactly its amount |
| `Aggregation.TotalContributionsSnoc` | expense_tracker.py:85 | appending one contribution raises total contributions by exactly its amount |
| `Aggregation.SelectCategory` | expense_tracker.py:98 | the mask selection keeps exactly the rows of the category (or exactly the others), with their multiplicities, and keeps amounts non-negative |
| `Aggregation.CategoryPartition` | expense_tracker.py:98-104 | the rows in a category and the rows outside it split total expenses exactly |
| `Aggregation.WorkerPayments` | expense_tracker.py:98 | the Worker Payment subtotal is 0 without expenses; with non-negative amounts it lies between 0 and total expenses |
| `Aggregation.Get` | expense_tracker.py:134 | `get(name, 0)`: the stored total for a key, 0 for a missing one; `Settlement.RowTotal` shows the default is never taken for a settled name |
| `Aggregation.WithName` | expense_tracker.py:108 | every row carrying the name is kept, as often as it occurs, and no other row; the result is empty exactly when the name never occurs |
| `Aggregation.GroupByNameHasKey` | expense_tracker.py:108 | a name is a key of the per-person totals exactly when some contribution carries it |
| `Aggregation.GroupByName` | expense_tracker.py:108 | the group-by folds each row into its name's running total; `GroupByNameHasKey`, `GroupByNameKeys` and `GroupByNameIsPersonTotal` fix its keys and values, and `GroupingPreservesTotal` its sum |
| `Aggregation.GroupByNameKeys` | expense_tracker.py:130 | the keys of the per-person totals are exactly the distinct contributor names |
| `Aggregation.GroupByNameIsPersonTotal` | expense_tracker.py:108 | the per-person value of a name is the sum of Amount over that name's rows (0 for an absent name) |
| `Aggregation.DistinctNames` | expense_tracker.py:123 | the name list has no duplicates, contains exactly the names that occur, and is no longer than the contribution list |
| `Aggregation.FirstIndex` | expense_tracker.py:123 | the position found holds the name and no earlier position does |
| `Aggregation.FirstIndexSnoc` | expense_tracker.py:123 | appending a row leaves the first occurrence of an existing name where it was |
| `Aggregation.DistinctNamesFirstSeenOrder` | expense_tracker.py:123 | names appear in the order of their first contribution row |
| `Aggregation.GroupByNameSnoc` | expense_tracker.py:85 | unfolding helper: the group-by's recursive step at one appended row, which adds the row's amount to its own name's total only |
| `Aggregation.DistinctNamesSnoc` | expense_tracker.py:85 | unfolding helper: the name list's recursive step at one appended row, whose name joins the end unless already present |
| `Aggregation.TotalOverUpdateAbsent` | expense_tracker.py:130 | changing the value of a key outside the name list leaves the sum over the list unchanged |
| `Aggregation.TotalOverUpdatePresent` | expense_tracker.py:130 | changing the value of a key that occurs once in the list changes the sum by the difference |
| `Aggregation.AddUnderKey` | expense_tracker.py:108 | adding an amount under one name raises the sum over the (extended) name list by that amount |
| `Aggregation.GroupingStep` | expense_tracker.py:108 | one more contribution row keeps the per-person totals summing to the total |
| `Aggregation.GroupingPreservesTotal` | expense_tracker.py:108 | the per-person totals, one per distinct name, add up to total contributions |
| `Aggregation.ContributionSummary` | expense_tracker.py:89-110 | figures only with a contribution; total contributions, total expenses, Worker Payments and the per-person totals are those of the inputs; balance left = total contributions - total expenses; Worker Payments plus the other expenses make up total expenses; Worker Payments lie within total expenses; per-person keys are the distinct names |
| `Rounding.Cents` | expense_tracker.py:136 | the chosen whole number of cents is within half a cent of the value |
| `Rounding.Round2` | expense_tracker.py:136 | the rounded balance is a whole number of cents within 0.005 of the value, negative iff the value is below -0.005, positive iff above 0.005 |
| `Rounding.Round2OfCents` | expense_tracker.py:136 | a whole number of cents is left unchanged |
| `Rounding.Round2Idempotent` | expense_tracker.py:136 | rounding twice equals rounding once |
| `Rounding.Round2Monotonic` | expense_tracker.py:136 | rounding preserves the order of two values |
| `Settlement.EqualShare` | expense_tracker.py:128 | the share is 0 when there are no names; otherwise the share taken once per person makes up the total |
| `Settlement.TimesIsProduct` | expense_tracker.py:128 | adding the share once per person equals multiplying it by the number of persons |
| `Settlement.Balance` | expense_tracker.py:134-135 | the unrounded balance: the name's total (0 if absent) minus the equal share; `BalancesSum` and `BalancesConserve` state what the balances add up to |
| `Settlement.Entry` | expense_tracker.py:136 | the row appended for one name: the name, its total, and the balance rounded to cents; `ClassifyEntry` relates its rounded balance to the unrounded one |
| `Settlement.Settlements` | expense_tracker.py:132-136 | the table as a function, one `Entry` per name in order; `BuildSettlements` is proved equal to it, and `SettlementRows` and `RoundedBalancesConserve` state its rows and its column sum |
| `Settlement.BuildSettlements` | expense_tracker.py:132-136 | the loop yields one row per name in the given order, each with the name's total (`get(name, 0)`) and its rounded balance |
| `Settlement.SettlementsPage` | expense_tracker.py:116-136 | nothing without expenses; the groupby failure exactly when expenses exist but no contribution; otherwise the total, the guarded share and the table over the distinct names |
| `Settlement.SettlementsPageGuarded` | expense_tracker.py:123-130 | with the per-person totals guarded like the name list, the page never fails once an expense exists, and without contributions reports a zero share and no rows |
| `Settlement.DistinctNamesNonEmpty` | expense_tracker.py:123-124 | there is at least one name exactly when there is at least one contribution |
| `Settlement.EqualShareCoversExpenses` | expense_tracker.py:122-128 | with contributions, the share taken once per distinct name adds up to the total expense |
| `Settlement.SettlementRows` | expense_tracker.py:130-136 | one row per distinct name in first-seen order; every name is a key of the per-person totals, and Contributed is that name's own total |
| `Settlement.RowTotal` | expense_tracker.py:134 | every distinct name has an entry in the per-person totals, and that entry is the name's total |
| `Settlement.BalancesSum` | expense_tracker.py:133-135 | the unrounded balances sum to the names' totals less one share per name |
| `Settlement.SumWithinHalfCents` | expense_tracker.py:136 | columns within half a cent per row have sums within half a cent per row |
| `Settlement.BalancesConserve` | expense_tracker.py:122-135 | with at least one contributor the unrounded balances sum to total contributions minus total expenses |
| `Settlement.RoundedBalancesConserve` | expense_tracker.py:122-136 | the rounded Owes/Receives column sums to contributions minus expenses within 0.005 per contributor |
| `Settlement.Classify` | expense_tracker.py:143-146 | a negative rounded balance gives a "should pay" line for its absolute value, a positive one a "should receive" line, zero no line; `ClassifyEntry` states this against the unrounded balance |
| `Settlement.WhoOwesWhom` | expense_tracker.py:142-146 | the lines of the loop, in table order, at most one per row; `WhoOwesWhomPositive` and `WhoOwesWhomNet` state their amounts and their net |
| `Settlement.ClassifyEntry` | expense_tracker.py:143-146 | a person should pay iff the unrounded balance is below -0.005 and should receive iff it is above 0.005, with no line otherwise; the amount is whole cents within 0.005 of the balance's magnitude |
| `Settlement.BalanceTotalSnoc` | expense_tracker.py:132-136 | one more settlement row adds exactly its balance to the Owes/Receives column's sum |
| `Settlement.WhoOwesWhomSnoc` | expense_tracker.py:142-146 | one more settlement row adds exactly its balance to what the pay/receive lines net |
| `Settlement.WhoOwesWhomPositive` | expense_tracker.py:142-146 | every pay/receive line carries a positive amount (the absolute balance for a payer) |
| `Settlement.WhoOwesWhomNet` | expense_tracker.py:142-146 | amounts received minus amounts paid over all lines equal the sum of the Owes/Receives column |
| `Settlement.ScenarioBothReceive` | expense_tracker.py:119-146 | Alice 100 and Bob 50 against 90 of expenses: share 45, Alice +55, Bob +5, and each gets a "should receive" line for that amount |
| `Settlement.ScenarioBothPay` | expense_tracker.py:119-146 | Alice 50 and Bob 50 against 150 of expenses: share 75, each owes 25, and each gets a "should pay 25" line |
| `Session.Ledger.constructor` | expense_tracker.py:26-27 | a session starts from the two loaded lists |
| `Session.Ledger.AddExpense` | expense_tracker.py:46-52 | exactly one expense joins the end; earlier records and contributions are unchanged; total expenses grows by the amount; amounts stay non-negative iff the new amount is |
| `Session.Ledger.AddContribution` | expense_tracker.py:84-85 | exactly one contribution joins the end; earlier records and expenses are unchanged; the total grows by the amount; the name list gains at most the new name, at its end |

## Findings

| source | as written | input that shows it | evidently intended | confidence | as-written member | corrected member |
|---|---|---|---|---|---|---|
| expense_tracker.py:130 | the per-person totals come from `fixed_df.groupby("Name")` with no guard; with no contribution rows the table has no Name column and the lookup raises | one expense of any amount and no contribution | an empty per-person dictionary and an empty settlement table, as the guards on the name list (line 123) and on the share (line 128) anticipate | high for the missing guard; not executed | `Settlement.SettlementsPage` | `Settlement.SettlementsPageGuarded` |

In the as-written model the zero-share branch of line 128 is reached by no
input that produces a report. `Settlement.EqualShare` still models and proves
that branch, and the guarded page reaches it.

## Left out

- All rendering is left out: page configuration, sidebar navigation, the forms, tables, metrics and markdown lines, and the `:.2f` formatting. The "Who Owes Whom" loop (lines 142-146) is modelled by `Settlement.WhoOwesWhom`, which returns the lines the loop would write.
- Reading the JSON files, `os.path.exists`, and writing back after each submit (lines 16-27, 53, 86) are file I/O and are left out. The loaded lists are the `Session.Ledger` constructor's parameters. The `default=str` coercion of dates is left out too.
- The Summary page (lines 61-70) only displays the raw expense table, so it is not modelled.
- The descending `sort_values` and the column renaming at lines 108-109 only order and label the display, so they are not modelled. `Aggregation.GroupByName` is a map, with no order.
- Floating point is not modelled: amounts are exact reals. Float sums can differ from the exact sum in their last bits.
- Rounding.Round2: rounds the exact real value to whole cents, a tie going to the even cent. The program rounds a binary floating-point value, so near a half cent its float rounding can pick a different cent. Only the 0.005 bound, whole cents, the sign behaviour, monotonicity and idempotence are claimed.
- Dates are opaque strings (`str(date)`, `datetime.today()`), because they take no part in the arithmetic.
- Categories are plain strings, as the source stores them. The form offers only the five in `Records.Categories`, but loaded files may hold any string, so the model does not restrict the category.
- Malformed loaded data is not modelled: missing fields, non-numeric amounts, an unparseable file. Neither is pandas' handling of such data.
- Session.Ledger.AddExpense, Session.Ledger.AddContribution: these do not require a non-negative amount. The form's number input enforces that, not the append. Instead the methods state when the non-negativity predicate `AmountsNonNegative()` survives.
