# Personal finance tracker — a Dafny model of its page logic

The application is a single-page personal finance tracker. The user keeps a
list of payment cards, records transactions against them, saves towards
goals, repays debts, tracks investments and sets monthly budgets per
category. A dashboard sums everything up, and a recurring-payments page
looks for repeated transactions. All state lives in the browser's local
storage as JSON arrays. Each page reads those arrays, changes them in an
event handler and writes them back.

This project models those handlers and the figures the pages compute. Each
handler is a pure function from the stored lists (and the submitted form)
to the new lists. The modules follow the pages:

- `Base`, `Money`, `Dates`, `Records`, `Crud`, `Sorting`: the shared
  vocabulary.
  - `Base` has form fields, options and results.
  - `Money` has `Math.round`, capped percentages and sums over lists.
  - `Dates` has calendar dates and their day numbers.
  - `Records` has the stored records.
  - `Crud` has the `map`/`filter`/`findIndex` idioms the handlers use.
  - `Sorting` has a stable sort: elements with equal keys keep their input
    order.
- `Cards`: the card-network classifier (six regular expressions), the submit
  validation, number masking, add/edit/delete, "add money" and the monthly
  spend against a card's budget.
- `Ledger`, `GoalDetail`, `DebtDetail`: transfers between a card and a goal
  or debt. Each attempt, refused or not, is written to the goal's or debt's
  history. Each success is written to a recent-activity log capped at 20
  entries.
- `Goals`, `Debts`, `Transactions`, `Investments`, `Budgets`: the list pages'
  add/edit/delete handlers and the figures shown on their tiles.
- `Dashboard`: the total card balance, the month's income and expenses,
  investment total, goal completion, debt repayment, spending by category,
  the five most recent transactions and the greeting.
- `Recurring`: `detectRecurring`.
  - Transactions are grouped by amount, card and type.
  - Each group of three or more is sorted by date.
  - A group is reported as daily, weekly or monthly when every gap between
    successive transactions falls in the same band.

Modelling choices:

- **Numeric form inputs** are `<input type="number">` values. Such a value
  is either empty or a valid number, so a field is modelled as
  `Field = Blank | Entered(value)`, and `Number("")` is 0. As a consequence,
  the source's `isNaN` branches never fire in the model.
- **Environment values are parameters.** New record ids (`Date.now()`), the
  current date, time and hour, and JavaScript's number-to-string conversion
  (used in a recurring entry's name) are all passed in.
- **Money** is an exact `real`.
- **Dates** are calendar dates. Whole-day differences between them come from
  a days-from-civil day number.
- **Category budgets** match transactions on the transaction's `category`
  field, as `src/pages/Budgets.jsx:24` does. No page ever sets that field, so
  `Budgets.UncategorisedSpendIsZero` shows that every budget's spend stays
  at zero.
- **Transaction types** are `Deposit`, `Withdrawal` or `OtherType(text)`.
  A stored type of "Deposit" or "Withdrawal" is always the matching
  constructor, so `OtherType` stands only for other texts.
- **The Transactions card filter** compares card ids as numbers (an
  `Option<int>`), not as strings.
- **The MasterCard expression** is modelled exactly as written. Its third
  alternative starts at 2230, so a 16-digit number starting 2221–2229 is
  classified Unknown and refused. `Cards.MasterCardGapExamples` shows the
  numbers on either side of that gap.
- **A goal withdrawal on the detail page debits the card,** exactly as a
  deposit does (`src/pages/GoalDetail.jsx:172`). `GoalDetail.WithdrawDebitsCard`
  states this. The debt detail page's percentage is not capped at 100, while
  the debts list tile's is (`DebtDetail.PercentNotCapped`,
  `Debts.TilePercentVersusDetail`).

## Model

| member | source | states |
|---|---|---|
| Crud.UpdateWhere | src/pages/Cards.jsx:174-186 | the edited list has the same length; records with the id are rewritten and every other record is unchanged in place |
| Crud.Filter | src/pages/Cards.jsx:215 | the kept elements are exactly the input's elements that pass the test |
| Crud.FilterConcat | src/pages/Cards.jsx:215 | filtering works piecewise over a concatenation, so the kept elements keep their relative order |
| Crud.FilterKeepsAll | src/pages/Cards.jsx:215 | a filter that every element passes returns the list unchanged |
| Crud.FilterLength | src/pages/Cards.jsx:215 | the filtered list is shorter by exactly the number of rejected elements |
| Crud.FilterOfPrefix | src/pages/Dashboard.jsx:89-91 | filtering the first n elements gives a prefix of the filtered whole |
| Crud.RemoveId | src/pages/Cards.jsx:215 | deletion drops exactly the records carrying the id and keeps every other record |
| Crud.RemoveIdAbsent | src/pages/Goals.jsx:110 | deleting an id that no record carries changes nothing |
| Crud.RemoveIdIdempotent | src/pages/Debts.jsx:115 | deleting the same id twice is the same as deleting it once |
| Crud.FindIndex | src/pages/GoalDetail.jsx:106-111 | the result is the first position carrying the id, or -1 exactly when no record carries it |
| Crud.ReplaceAt | src/pages/GoalDetail.jsx:196-200 | writing back one record replaces it and leaves every other position alone |
| Records.LastFour | src/pages/Cards.jsx:179 | `slice(-4)` yields the last four characters (all of a shorter string), and they end the original |
| Records.Masked | src/pages/Cards.jsx:195 | the stored number: the fixed mask followed by `slice(-4)` of the entered number; Cards.MaskKeepsLastFour states that it keeps the last four digits and no other |
| Money.RoundIsNearest | src/pages/Budgets.jsx:112 | `Math.round` lands within half a unit of its argument |
| Money.RoundMonotonic | src/pages/Budgets.jsx:112 | rounding preserves order |
| Money.Round | src/pages/Budgets.jsx:112 | `Math.round` as the floor of x + 1/2; Money.RoundIsNearest and Money.RoundMonotonic state that it is the nearest integer and preserves order |
| Money.CappedPercent | src/pages/Budgets.jsx:110-113 | `Math.min(100, Math.round(part / whole * 100))`, and 100 for a positive part over a zero whole; Money.CappedPercentRange and Money.CappedPercentOverZero state its values |
| Money.CappedPercentOverZero | src/pages/Goals.jsx:187-190 | a positive part over a zero whole shows 100, as `Math.min(100, Math.round(Infinity))` does |
| Money.CappedPercentRange | src/pages/Budgets.jsx:110-113 | a capped percentage of a positive whole lies in 0..100, is 100 once the part reaches the whole, and is 100 exactly when the raw percentage rounds to 100 or more |
| Money.SumOfAppend | src/pages/Dashboard.jsx:20-31 | a sum over a concatenation is the sum of the parts' sums |
| Money.SumOfNonNegative | src/pages/Dashboard.jsx:50-53 | a sum of non-negative terms is non-negative |
| Money.SumOfAtMost | src/pages/Dashboard.jsx:55-63 | n terms each at most c sum to at most n*c |
| Money.SumOfUpdate | src/pages/Dashboard.jsx:80-81 | replacing one element changes the sum by the difference of its terms |
| Dates.DayNumberWithinMonth | src/pages/Recurring.jsx:36-38 | within a month the day number advances by one per day |
| Dates.DayNumber | src/pages/Recurring.jsx:36-38 | the days-from-civil count that stands for a date's timestamp in whole days; Dates.NextDayCounts states that consecutive calendar days are one apart, and Dates.EpochIsDayZero fixes 1970-01-01 at 0 |
| Dates.NextDayCounts | src/pages/Recurring.jsx:36-38 | for every date on the calendar, the day number of the next calendar day (defined by month lengths and the leap-year rule) is one more, so a difference of day numbers counts days across month and year ends |
| Dates.YearLength | src/pages/Recurring.jsx:36-38 | the year from March of y-1 to February of y has 366 days exactly when y is a Gregorian leap year, and 365 otherwise |
| Dates.FebruaryEnd | src/pages/Recurring.jsx:36-38 | the last day of February, 28th or 29th by the leap-year rule, is followed by March 1st |
| Dates.MonthEnd | src/pages/Recurring.jsx:36-38 | the last day of every other month but December is followed by the 1st of the next |
| Dates.YearEnd | src/pages/Recurring.jsx:36-38 | December 31st is followed by January 1st of the next year |
| Dates.EpochIsDayZero | src/pages/Dashboard.jsx:90 | day 0 is 1970-01-01, the epoch from which date differences are measured |
| Sorting.SortBy | src/pages/Recurring.jsx:31 | the sort returns a permutation of its input, ordered by the key |
| Sorting.Insert | src/pages/Recurring.jsx:31 | inserting into a sorted list adds exactly the new element and keeps the list sorted |
| Sorting.SortBySorted | src/pages/Recurring.jsx:31 | sorting a list that is already in order is the identity |
| Sorting.InsertKeepsTies | src/pages/Recurring.jsx:31 | an inserted element goes after every element with its key |
| Sorting.SortByStable | src/pages/Dashboard.jsx:90 | the sort is stable: for every key, the elements with that key come out in the order they went in |
| Sorting.SortedPrefixStable | src/pages/Dashboard.jsx:90-91 | the first n sorted elements hold, for each key, the first elements with that key in input order |
| Sorting.SortedPrefix | src/pages/Dashboard.jsx:89-91 | a prefix of a sorted list is sorted, and its keys bound everything after it |
| Sorting.PermutationPrefix | src/pages/Dashboard.jsx:89-91 | a prefix of a permutation is drawn from the original, and what it leaves is the rest |
| Cards.DetectCardType | src/pages/Cards.jsx:29-35 | the label is Visa exactly when the Visa pattern matches, MasterCard exactly when it matches and Visa does not, Unknown exactly when no pattern matches, and any other label's pattern matches |
| Cards.PatternsDisjoint | src/pages/Cards.jsx:29-34 | no number matches two of the six patterns |
| Cards.DetectCardTypeExact | src/pages/Cards.jsx:29-35 | for each network, the label is that network exactly when its own pattern matches, whatever the test order |
| Cards.VisaRange | src/pages/Cards.jsx:29 | a digit string is Visa exactly when it has 13 to 16 digits and starts with 4 |
| Cards.MasterCardRange | src/pages/Cards.jsx:30 | a digit string is MasterCard exactly when it has 16 digits starting 51–55, 15 digits starting 222–229, or 16 digits starting 2230–2720 |
| Cards.MasterCardGapExamples | src/pages/Cards.jsx:153-164 | a 16-digit number starting 2221 is Unknown although the refusal message names the 2221–2720 range; 2230 and 2720 are accepted and 2721 is not |
| Cards.AmexRange | src/pages/Cards.jsx:31 | American Express exactly for 15 digits starting 34 or 37 |
| Cards.DiscoverRange | src/pages/Cards.jsx:32 | Discover exactly for 16 digits starting 6011 or 65 |
| Cards.JcbRange | src/pages/Cards.jsx:33 | JCB exactly for 16 digits starting 3528–3589 |
| Cards.MezaRange | src/pages/Cards.jsx:34 | MEZA exactly for 12 to 19 digits starting with one of its seven four-digit prefixes |
| Cards.ValidateCard | src/pages/Cards.jsx:137-171 | an accepted form carries the detected network, which is never Unknown |
| Cards.ValidateCardRejectsIff | src/pages/Cards.jsx:137-171 | a form is refused exactly when its number is Unknown or a filled-in budget is negative; the Visa and MasterCard re-checks can never fire |
| Cards.StoredBudget | src/pages/Cards.jsx:181-183 | an empty budget field is stored as no budget, and any filled one (including 0) as its number |
| Cards.MaskKeepsLastFour | src/pages/Cards.jsx:195 | every accepted number has at least 12 digits, and the stored mask keeps its last four and no other digit |
| Cards.SaveCard | src/pages/Cards.jsx:134-207 | a refused form leaves the cards alone; an add appends one card with the new id, zero balance and the masked number; an edit rewrites the matching cards but keeps their id, balance and name, and touches no other card |
| Cards.SaveCardKeepsWellFormed | src/pages/Cards.jsx:172-203 | after a save every card has a known network, a masked number and no negative budget |
| Cards.DeleteCard | src/pages/Cards.jsx:214-219 | the remaining cards are exactly those without the id |
| Cards.AddMoney | src/pages/Cards.jsx:231-248 | an empty or non-positive amount is refused; otherwise exactly one Deposit for the card is appended, with the default note when none is given |
| Cards.MonthlySpendAppend | src/pages/Cards.jsx:54-69 | one more transaction raises a card's monthly spend by its amount exactly when it is a Withdrawal of that card in that month |
| Cards.MonthlySpendNonNegative | src/pages/Cards.jsx:54-69 | the monthly spend of non-negative amounts is non-negative |
| Cards.AddMoneyKeepsSpend | src/pages/Cards.jsx:13-25 | adding money never changes any card's monthly spend |
| Cards.OverBudgetFacts | src/pages/Cards.jsx:276-281 | a card is over budget exactly when it has a non-zero budget that its spend exceeds; over a positive budget the rounded `percent` is 100, and without a budget it is 0 and the card is never over |
| Cards.MonthlySpend | src/pages/Cards.jsx:54-69 | `getCardMonthlySpending`: the sum of the card's Withdrawals dated in the month; Cards.MonthlySpendAppend states it one transaction at a time |
| Cards.DepositsSpendNothing | src/pages/Cards.jsx:13-25 | a list holding no Withdrawal, such as the pages themselves create, gives every card a monthly spend of zero |
| Cards.OverBudget | src/pages/Cards.jsx:281 | `budget && spending > budget`; Cards.OverBudgetFacts states when it holds |
| Cards.BudgetBarPercent | src/pages/Cards.jsx:278-280 | the rounded, capped `percent`, which only picks the bar's colour; Cards.OverBudgetFacts and Cards.BarFacts state its values |
| Cards.BarOf | src/pages/Cards.jsx:312-326 | no bar without a budget; otherwise the unrounded `Math.min(100, spending / budget * 100)` width, red when over, amber when `percent > 80`, blue otherwise; Cards.BarFacts states what each means |
| Cards.BarFacts | src/pages/Cards.jsx:276-326 | a bar is drawn exactly when the card has a budget; against a positive budget it is full exactly when the spend reaches the budget, red exactly when the spend exceeds it, and amber exactly when it is not over and the share is at least 80.5 per cent |
| Ledger.AddRecentActivity | src/pages/GoalDetail.jsx:37-43 | the new entry goes first, the older ones follow in order, and the log is cut to 20 |
| Ledger.ActivityStaysBounded | src/pages/DebtDetail.jsx:39-45 | however many entries are added, the log never exceeds 20, and the latest entry is first |
| GoalDetail.GoalFigures | src/pages/GoalDetail.jsx:218-223 | the remaining amount is never negative and is zero exactly when the saved amount reaches the target; saved falls back to the current amount; the percentage is at most 100 |
| GoalDetail.Saved | src/pages/GoalDetail.jsx:218-219 | `savedAmount` when present, else `currentAmount`; GoalDetail.GoalFigures states the fallback |
| GoalDetail.Remaining | src/pages/GoalDetail.jsx:221 | `Math.max(0, target - saved)`; GoalDetail.GoalFigures states it is never negative, zero exactly when the goal is reached, and completes saved to the target |
| GoalDetail.Percent | src/pages/GoalDetail.jsx:222-223 | the capped percentage of a positive target, else 0; GoalDetail.GoalFigures states its range |
| GoalDetail.Transact | src/pages/GoalDetail.jsx:74-210 | each refusal happens exactly under its condition, in the source's order; every attempt adds one history entry, successful exactly when the transfer is done. The entry's note gets ` (from <name or ''>)` for a non-positive amount with a card selected, stays as typed without a card or with an unknown card, and gets ` (from ${card.name})` otherwise. A refusal changes nothing else; a success debits one card, moves one goal's saved amount and logs one activity |
| GoalDetail.TransactKeepsNonNegative | src/pages/GoalDetail.jsx:123-178 | transfers keep every card balance and every saved amount non-negative |
| GoalDetail.WithdrawDebitsCard | src/pages/GoalDetail.jsx:160-178 | a successful withdrawal from a goal lowers the card's balance |
| GoalDetail.RefusedTwice | src/pages/GoalDetail.jsx:74-171 | retrying a refused transfer is refused for the same reason, leaves cards, goals and activity unchanged, and logs a second failed attempt |
| GoalDetail.WithdrawMoreThanSavedScenario | src/pages/GoalDetail.jsx:161-171 | withdrawing 30 from a goal with 20 saved is refused and changes neither card nor goal |
| GoalDetail.DepositScenario | src/pages/GoalDetail.jsx:137-159 | depositing 30 from a card of 100 into a goal at 20 of 50 leaves 70 on the card and completes the goal |
| DebtDetail.DebtFigures | src/pages/DebtDetail.jsx:162-165 | the remaining amount is never negative and is zero exactly when the debt is paid off; the percentage lies in 0..100 while paid is at most the total |
| DebtDetail.PercentNotCapped | src/pages/DebtDetail.jsx:165 | an over-paid debt shows more than 100 per cent |
| DebtDetail.Remaining | src/pages/DebtDetail.jsx:164 | `Math.max(0, total - paid)`; DebtDetail.DebtFigures states it is never negative and zero exactly when the debt is paid off |
| DebtDetail.Percent | src/pages/DebtDetail.jsx:165 | the rounded, uncapped percentage of a positive total, else 0; DebtDetail.DebtFigures and DebtDetail.PercentNotCapped state its range |
| DebtDetail.Repay | src/pages/DebtDetail.jsx:75-145 | each refusal happens exactly under its condition, in the source's order; every attempt adds one history entry, with the note suffixed per outcome as on the goal page. A success debits one card, adds the amount to one debt and logs one activity, and a refusal changes nothing else |
| DebtDetail.RepayKeepsBounds | src/pages/DebtDetail.jsx:111-134 | a repayment never overdraws a card and never pushes the paid amount past the total |
| DebtDetail.PaidOffRefusesRepay | src/pages/DebtDetail.jsx:116-120 | a debt paid in full refuses every positive repayment |
| DebtDetail.CardCheckComesFirst | src/pages/DebtDetail.jsx:111-120 | when the card cannot cover the amount, that is the reason given, even if the amount also exceeds what remains |
| DebtDetail.OverRepaymentRefused | src/pages/DebtDetail.jsx:116-120 | a repayment above what remains is refused and changes no card and no debt |
| DebtDetail.RepayScenario | src/pages/DebtDetail.jsx:121-134 | repaying 40 of a 200 debt with 150 paid, from a card of 100, leaves 60 on the card and 190 paid |
| Goals.SaveGoal | src/pages/Goals.jsx:65-102 | an add appends one goal with the new id and no saved amount; an edit rewrites the matching goals' fields but keeps their id and saved amount |
| Goals.DeleteGoal | src/pages/Goals.jsx:109-114 | the remaining goals are exactly those without the id |
| Goals.CardlessTransact | src/pages/Goals.jsx:127-155 | a non-positive amount changes nothing; a deposit raises the goal's current amount, and a withdrawal lowers it only when it has enough; other goals are untouched |
| Goals.CardlessTransactKeepsNonNegative | src/pages/Goals.jsx:134-147 | the list page's transfers never make a current amount negative |
| Goals.TileFigures | src/pages/Goals.jsx:183-191 | for a positive target the tile shows the detail page's percentage, which is at most 100, and a goal with nothing remaining shows 100 |
| Goals.TilePercent | src/pages/Goals.jsx:187-190 | the tile's capped percentage, 100 for something saved towards a zero target; Goals.TileFigures relates it to the detail page |
| Goals.ZeroTargetTile | src/pages/Goals.jsx:187-191 | a goal with a zero target and something saved shows a full tile and nothing remaining, while the detail page shows 0 per cent |
| Debts.SaveDebt | src/pages/Debts.jsx:68-107 | an add appends one debt with the new id and the form's amounts; an edit rewrites the matching debts' fields but keeps their id |
| Debts.SaveDebtDoesNotBoundPaid | src/pages/Debts.jsx:84-95 | a debt paid beyond its total can be created |
| Debts.DeleteDebt | src/pages/Debts.jsx:114-119 | the remaining debts are exactly those without the id |
| Debts.DeleteDebtKeepsOrder | src/pages/Debts.jsx:115 | deletion keeps the order of the remaining debts |
| Debts.TilePercentVersusDetail | src/pages/Debts.jsx:134-137 | the tile's percentage is the detail page's, capped at 100 |
| Debts.TilePercent | src/pages/Debts.jsx:134-137 | the tile's capped percentage, 100 for something paid against a zero total; Debts.TilePercentVersusDetail relates it to the detail page |
| Debts.ZeroTotalTile | src/pages/Debts.jsx:134-137 | a debt with a zero total and something paid shows a full tile and nothing remaining, while the detail page shows 0 per cent |
| Debts.CreditorCardLabel | src/pages/Debts.jsx:155-157 | "N/A" exactly when no creditor card is stored, otherwise the mask followed by its last four characters |
| Transactions.SaveTransaction | src/pages/Transactions.jsx:64-93 | the handler, which the page never calls: an add appends one transaction with the new id and no category or status; an edit rewrites the form fields of the matching transactions and keeps their id, category and status |
| Transactions.DeleteTransaction | src/pages/Transactions.jsx:100-104 | the remaining transactions are exactly those without the id |
| Transactions.FilterByCard | src/pages/Transactions.jsx:106-108 | no filter shows everything; a card filter shows exactly that card's transactions |
| Transactions.FilterByCardKeepsOrder | src/pages/Transactions.jsx:106-108 | the filter acts piecewise, so the order is kept, and a single card's list passes whole |
| Transactions.CardLabel | src/pages/Transactions.jsx:152 | the first card with the id gives its nickname; no such card, or an empty nickname, gives "Unknown" |
| Transactions.StatusLabel | src/pages/Transactions.jsx:161-166 | "Failed" exactly for status "failed", otherwise "Succeeded" |
| Investments.MonthlyIncome | src/pages/Investments.jsx:73-75 | an empty monthly income field is stored as 0, a filled one as its number |
| Investments.SaveInvestment | src/pages/Investments.jsx:62-102 | an add appends one investment with the new id and the form's values; an edit rewrites the matching investments and keeps their id |
| Investments.DeleteInvestment | src/pages/Investments.jsx:109-113 | the remaining investments are exactly those without the id |
| Budgets.SaveBudget | src/pages/Budgets.jsx:60-79 | an add appends one budget with the new id; an edit rewrites the matching budgets under the edited id |
| Budgets.DeleteBudget | src/pages/Budgets.jsx:86-90 | the remaining budgets are exactly those without the id |
| Budgets.CategorySpendAppend | src/pages/Budgets.jsx:18-30 | one more transaction raises a category's spend by its amount exactly when it is a Withdrawal in that category and month |
| Budgets.UncategorisedSpendIsZero | src/pages/Budgets.jsx:24 | transactions without a category add nothing to any budget |
| Budgets.CategorySpendNonNegative | src/pages/Budgets.jsx:18-30 | the spend of non-negative amounts is non-negative |
| Budgets.CategorySpend | src/pages/Budgets.jsx:18-30 | `getCurrentMonthSpending`: the sum of the category's Withdrawals dated in the month; Budgets.CategorySpendAppend states it one transaction at a time |
| Budgets.BudgetPercent | src/pages/Budgets.jsx:110-113 | the bar's percentage is at most 100, is 0 for a budget of zero or less, and is 100 exactly when the raw percentage rounds to 100 |
| Budgets.BudgetWarnings | src/pages/Budgets.jsx:110-115 | the bar is never both amber and red, and is red exactly when a positive budget's rounded percentage reaches 100 |
| Budgets.Near | src/pages/Budgets.jsx:114 | amber from 80 to below 100 per cent; Budgets.BudgetWarnings states it never coincides with red |
| Budgets.Over | src/pages/Budgets.jsx:115 | red from 100 per cent; Budgets.BudgetWarnings states when it holds in terms of spend and budget |
| Dashboard.CardNetAppend | src/pages/Dashboard.jsx:23-28 | one more transaction moves its card's net by its signed amount and no other card's |
| Dashboard.TotalCardBalanceAppend | src/pages/Dashboard.jsx:20-31 | one more transaction moves the total by its signed amount once for each listed card with its id |
| Dashboard.TotalCardBalanceCases | src/pages/Dashboard.jsx:20-31 | a transaction of an unlisted card or of another type leaves the total alone; one of a card listed once moves it by its signed amount |
| Dashboard.TotalCardBalance | src/pages/Dashboard.jsx:20-31 | `getTotalCardBalance`: each listed card's Deposits less its Withdrawals, added over the cards; Dashboard.TotalCardBalanceAppend and Dashboard.TotalCardBalanceCases state it |
| Dashboard.MonthlyIncomeExpenses | src/pages/Dashboard.jsx:33-48 | income is the sum of the month's Deposits and expenses the sum of its Withdrawals |
| Dashboard.IncomeExpensesNonNegative | src/pages/Dashboard.jsx:33-48 | with non-negative amounts both are non-negative |
| Dashboard.ExpensesAreCardSpends | src/pages/Dashboard.jsx:40-46 | the month's expenses equal the cards page's monthly spends added over all cards, when each transaction's card is listed once |
| Dashboard.AddMoneyRaisesIncome | src/pages/Dashboard.jsx:33-48 | money added on the cards page this month raises income by its amount and leaves expenses alone |
| Dashboard.InvestmentTotalFacts | src/pages/Dashboard.jsx:50-53 | the total is additive over lists, grows by each added investment's amount and is non-negative for non-negative amounts |
| Dashboard.InvestmentTotal | src/pages/Dashboard.jsx:50-53 | `getInvestmentTotal`: the investments' amounts added; Dashboard.InvestmentTotalFacts states it |
| Dashboard.MeanPercentBounds | src/pages/Dashboard.jsx:57-62 | a mean of shares each at most one is at most 100 per cent, and exactly 100 when the shares total the count |
| Dashboard.GoalCompletionBounds | src/pages/Dashboard.jsx:55-63 | completion is 0 with no goals, at most 100 always, non-negative for non-negative amounts, and 100 once every goal reaches its target, a zero target with something saved counting as reached |
| Dashboard.GoalShareSumIgnoresSaved | src/pages/Dashboard.jsx:59 | completion reads only the current amount: goals differing only in saved amount complete alike |
| Dashboard.GoalTransferKeepsCompletion | src/pages/Dashboard.jsx:55-63 | a transfer on the goal detail page never changes the dashboard's completion |
| Dashboard.GoalCompletion | src/pages/Dashboard.jsx:55-63 | `getGoalCompletion`: the rounded mean of each goal's share, capped at one, a positive amount towards a zero target being a share of one; Dashboard.GoalCompletionBounds states its range |
| Dashboard.ShareBounds | src/pages/Dashboard.jsx:59 | `Math.min(1, part / whole)` is at most one, non-negative for non-negative values, and one once a positive part reaches the whole, including over a zero whole |
| Dashboard.DebtRepaymentBounds | src/pages/Dashboard.jsx:65-73 | repayment is 0 with no debts, at most 100 even for over-paid debts, non-negative for non-negative amounts, and 100 once every debt is paid, a zero total with something paid counting as paid |
| Dashboard.DebtRepayment | src/pages/Dashboard.jsx:65-73 | `getDebtRepayment`: the rounded mean of each debt's share, capped at one, a positive amount against a zero total being a share of one; Dashboard.DebtRepaymentBounds states its range |
| Dashboard.IndexOfName | src/pages/Dashboard.jsx:80-81 | the lookup finds a category with the name, or reports that none has it |
| Dashboard.AddSpend | src/pages/Dashboard.jsx:80-81 | names stay unique, the total grows by the amount, existing names keep their place, and a new name is added last |
| Dashboard.AddSpendValue | src/pages/Dashboard.jsx:81 | adding to a name changes that name's value by the amount and no other name's value |
| Dashboard.ValueOfUpdate | src/pages/Dashboard.jsx:81 | growing one category in place changes only its own value |
| Dashboard.SpendingCategories | src/pages/Dashboard.jsx:75-85 | category names are unique and their values add up to everything withdrawn |
| Dashboard.SpendingCategoriesValue | src/pages/Dashboard.jsx:78-83 | each category's value is the total withdrawn under its name |
| Dashboard.CategoriesComeFromWithdrawals | src/pages/Dashboard.jsx:78-83 | every category name comes from some withdrawal |
| Dashboard.WithdrawalsHaveCategories | src/pages/Dashboard.jsx:78-83 | every withdrawal's name is a category |
| Dashboard.SpendingCategoriesPartition | src/pages/Dashboard.jsx:75-85 | a name is a category exactly when something was withdrawn under it; its value is that total; all values sum to the total withdrawn |
| Dashboard.RecentTransactions | src/pages/Dashboard.jsx:87-92 | at most five transactions, newest first, all drawn from the input, and all of them when there are five or fewer |
| Dashboard.RecentTransactionsAreNewest | src/pages/Dashboard.jsx:89-91 | no transaction left out is newer than the fifth one shown |
| Dashboard.RecentTransactionsKeepStoredOrder | src/pages/Dashboard.jsx:89-91 | a tie on date goes to the transaction stored first: the shown transactions of any one day are the first ones of that day in storage order |
| Dashboard.Greeting | src/pages/Dashboard.jsx:103-108 | morning exactly before 12, afternoon exactly from 12 to before 18, evening exactly from 18 |
| Recurring.IndexOfKey | src/pages/Recurring.jsx:22-25 | the lookup finds a group with the key, or reports that none has it |
| Recurring.Groups | src/pages/Recurring.jsx:21-26 | each group holds exactly the transactions with its key, in order; no group is empty; keys are distinct; every transaction's key has a group |
| Recurring.PushFacts | src/pages/Recurring.jsx:22-25 | adding the next transaction to the grouping keeps every group equal to the filter of the transactions so far by its key |
| Recurring.GroupMembersShareKey | src/pages/Recurring.jsx:22-26 | every member of a group carries the group's key |
| Recurring.OneKeyOneGroup | src/pages/Recurring.jsx:21-26 | transactions sharing one key form exactly one group, in their order |
| Recurring.BucketOfWholeDays | src/pages/Recurring.jsx:39-50 | for whole-day gaps: daily exactly at 1 day, weekly exactly at 6–8, monthly exactly at 27–31, otherwise none |
| Recurring.Bucket | src/pages/Recurring.jsx:39-50 | the band of a gap, tested monthly, weekly, daily in that order; Recurring.BucketOfWholeDays states the bands for whole days |
| Recurring.Gaps | src/pages/Recurring.jsx:35-38 | one gap per successive pair, each the day difference of the pair |
| Recurring.Scan | src/pages/Recurring.jsx:33-51 | the frequency stays unset exactly while no gap has a band; the loop ends consistent with a frequency exactly when every gap lies in the first gap's band |
| Recurring.ScanAllIn | src/pages/Recurring.jsx:33-51 | the loop ends consistent with frequency f exactly when there is a gap and every gap lies in f's band |
| Recurring.ClassifyMeaning | src/pages/Recurring.jsx:28-52 | a group is reported with frequency f exactly when it has three or more transactions and every gap of the date-sorted group lies in f's band |
| Recurring.Classify | src/pages/Recurring.jsx:28-52 | the frequency a group is reported with, if any; Recurring.ClassifyMeaning states it |
| Recurring.EntryFor | src/pages/Recurring.jsx:52-63 | the pushed entry, read off the latest transaction; Recurring.EntryFields states its fields |
| Recurring.Collect | src/pages/Recurring.jsx:28-64 | one entry per reported group, in order, each built from a group of three or more |
| Recurring.DetectRecurring | src/pages/Recurring.jsx:19-66 | no transactions give no entries; otherwise there is one entry per reported group, in the groups' order, each from a group of three or more whose date-sorted gaps all lie in the entry's band and read off that group's latest transaction; and every group of three or more whose gaps all lie in one band is reported with that band |
| Recurring.ReportedMeaning | src/pages/Recurring.jsx:28-64 | the entries the `forEach` pushes are exactly those of the groups whose gaps all lie in one band, as above |
| Recurring.DetectRecurringEntries | src/pages/Recurring.jsx:19-66 | at most one entry per group and exactly one per reported group, in the groups' order |
| Recurring.TooFewTransactions | src/pages/Recurring.jsx:29 | fewer than three transactions never make a pattern |
| Recurring.LastIsLatest | src/pages/Recurring.jsx:31 | the last transaction of the date-sorted group is a member dated no earlier than any other |
| Recurring.EntryFields | src/pages/Recurring.jsx:52-63 | an entry carries the group's amount, card and type, the latest date and that transaction's note, and is named by the note or by type and amount |
| Recurring.OneGroupReport | src/pages/Recurring.jsx:28-64 | when all transactions share one key the report is that group's entry or nothing |
| Recurring.EvenlySpaced | src/pages/Recurring.jsx:33-63 | three transactions with one key, spaced by a gap within a frequency's band, are reported once with that frequency and the latest date |
| Recurring.MonthlyScenario | src/pages/Recurring.jsx:39-41 | three rents 30 days apart are reported once, as monthly, with the latest rent's date |
| Recurring.MixedGapsScenario | src/pages/Recurring.jsx:33-51 | a 30-day gap followed by a 7-day gap reports nothing |
| Recurring.MixedGapsUnclassified | src/pages/Recurring.jsx:33-51 | such a group is not classified at all |

## Left out

- **Rendering is not modelled:** markup, styling, dialogs, toasts, routing,
  dark mode and the navigation bar. Only the values the pages compute are.
- **Storage is not modelled:** local storage and JSON (de)serialisation. The
  stored arrays are the functions' inputs and results.
- **Environment values are parameters:** `Date.now()` ids, `new Date()`
  and `toISOString`. The model takes the id, the date, the instant and the
  hour as given.
- Cards.MonthlySpend assumes a time zone at or east of UTC.
  `new Date("YYYY-MM-DD")` is midnight UTC, but `getMonth()` and
  `getFullYear()` read local time (src/pages/Cards.jsx:65-66). West of UTC,
  a transaction dated on the 1st counts toward the previous month in the
  source; the model counts it toward its own month. Daylight saving time is
  not modelled either.
- Budgets.CategorySpend makes the same assumption, for the same reason
  (src/pages/Budgets.jsx:26-27).
- Dashboard.MonthlyIncomeExpenses makes the same assumption, for the same
  reason (src/pages/Dashboard.jsx:42).
- Transactions.SaveTransaction models a handler the page never calls: the
  Transactions page renders no add or edit form
  (src/pages/Transactions.jsx:175). So every stored transaction comes from
  "add money" on the cards page and is a Deposit. The Withdrawal-based
  figures (a card's monthly spend, a budget's spend, the month's expenses,
  the spending categories) are stated for any stored list, including
  Withdrawals no page creates; Cards.DepositsSpendNothing shows that on the
  lists the pages do create a card's spend stays zero.
- **Floating point** is not modelled: amounts are exact reals, so rounding
  errors of JavaScript numbers do not appear.
- **Coercion is not modelled:** `NaN`, `undefined` and string-to-number
  coercion of values that are not from number inputs. Form fields are
  empty or numeric, so the `isNaN` branches are unreachable.
- Cards.SaveCard: a new card gets a balance of 0. The source stores a new
  card with no `balance` field at all. The consequences differ:
  - In the model, every positive goal transfer or debt repayment from such
    a card is refused with InsufficientFunds.
  - In the source, `amt > card.balance` is false for the missing balance
    (src/pages/GoalDetail.jsx:124, src/pages/DebtDetail.jsx:111), so the
    transfer goes ahead and `card.balance -= amt` stores `NaN`
    (src/pages/GoalDetail.jsx:138, src/pages/DebtDetail.jsx:121).

  `name` is an optional field that no page sets.
- **The duplicated function header** at src/pages/Cards.jsx:27-28 opens
  `detectCardType` twice, so the outer function is never closed and the
  file does not parse as written. The model follows the evident intent: one
  `detectCardType` whose body is lines 29-35.
- **Detail-page amounts** come from the goal or debt the page loaded. The
  detail handlers use `saved` and `remaining`, which are declared later in
  the component (src/pages/GoalDetail.jsx:218, src/pages/DebtDetail.jsx:164).
- **getCardLogo** (src/pages/Cards.jsx:38-52) only picks an image.
- **Two pages are not part of this model:** src/pages/Profile.jsx and
  src/pages/InvestmentDetail.jsx.
- **Debug logging** (src/pages/DebtDetail.jsx:13-15) has no behaviour.
- Dashboard.SpendingCategories keeps categories in insertion order, and
  its names are plain keys. The source accumulates into a plain object
  (src/pages/Dashboard.jsx:77-81), and two of its behaviours are not
  modelled:
  - `Object.entries` lists integer-like keys first.
  - A note that names an `Object.prototype` member behaves differently. For
    `constructor` or `toString`, the inherited function is read and the
    value becomes a string. For `__proto__`, the assignment does nothing,
    so that withdrawal is missing from the categories.

  For such notes, the source breaks the category sum and the
  name-for-every-withdrawal property that the model proves.
- Recurring.Groups keys a group by the tuple (amount, card id, type).
  The source's joined string key is not modelled, so two different tuples
  can never collide.
- GoalDetail.Transact requires the route's goal to exist, because the
  page renders "not found" without a form otherwise
  (src/pages/GoalDetail.jsx:212-216). Its selected card is matched by
  numeric id rather than by `String(id)`.
- DebtDetail.Repay requires the route's debt to exist, for the same
  reason. Its selected card is matched by numeric id rather than by
  `String(id)`.
- **Division by a zero target or total** is modelled where JavaScript still
  gives a number: a positive amount over zero is `Infinity`. The tiles then
  show `Math.min(100, Infinity)`, which is 100 (`Goals.ZeroTargetTile`,
  `Debts.ZeroTotalTile`). The dashboard takes `Math.min(1, Infinity)`, a
  share of one (`Dashboard.GoalCompletionBounds`). Zero over zero (`NaN`)
  and a negative amount over zero (`-Infinity`) are not numbers a real
  model can hold. The members below therefore require a non-zero whole or
  a positive part.
- Money.CappedPercent, Goals.TilePercent and Debts.TilePercent exclude
  zero or a negative amount over a zero whole, where the source shows
  `NaN` or `-Infinity` per cent (src/pages/Goals.jsx:187-190,
  src/pages/Debts.jsx:134-137).
- Dashboard.GoalCompletion and Dashboard.GoalCompletionBounds exclude a
  goal with a zero target and a current amount of zero or less. The
  source's completion is then `NaN` or `-Infinity` (src/pages/Dashboard.jsx:59).
- Dashboard.DebtRepayment and Dashboard.DebtRepaymentBounds exclude the
  same case for a debt's paid amount and total (src/pages/Dashboard.jsx:69).
- Goals.TileFigures is stated for positive targets. A zero target is
  stated by `Goals.ZeroTargetTile`. A negative target gives the tile a
  percentage the model computes, but that percentage is not related to
  the detail page's 0.
- Debts.TilePercentVersusDetail is stated for positive totals. A zero
  total is stated by `Debts.ZeroTotalTile`. A negative total is left as
  for goals.
- **Card numbers** get no checksum (Luhn) test, and neither does the source.
