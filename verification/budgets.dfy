/** The budgets page: adding, editing and deleting category budgets, and the
    progress bar comparing this month's spending in a category with its budget. */
module Budgets {
  import opened Base
  import opened Money
  import opened Dates
  import opened Records
  import Crud

  /** The budget form; `amount` is the raw number input. */
  datatype BudgetForm = BudgetForm(category: string, amount: Field)

  /** `handleAddOrEdit`: a matching budget is replaced by the form's fields under
      the edited id; otherwise one budget with id `newId` is appended. */
  function SaveBudget(budgets: seq<Budget>, editId: Option<int>, newId: int, form: BudgetForm)
    : (r: seq<Budget>)
    ensures editId.None? ==>
      && |r| == |budgets| + 1 && r[..|budgets|] == budgets
      && r[|budgets|].id == newId && r[|budgets|].category == form.category
      && r[|budgets|].amount == form.amount.ToNumber()
    ensures editId.Some? ==>
      && |r| == |budgets|
      && (forall i :: 0 <= i < |budgets| && budgets[i].id != editId.value ==> r[i] == budgets[i])
      && (forall i :: 0 <= i < |budgets| && budgets[i].id == editId.value ==>
            && r[i].id == editId.value && r[i].category == form.category
            && r[i].amount == form.amount.ToNumber())
  {
    var entry := Budget(if editId.Some? then editId.value else newId, form.category, form.amount.ToNumber());
    match editId
    case Some(e) => Crud.UpdateWhere(budgets, BudgetIdOf, e, (b: Budget) => entry)
    case None => budgets + [entry]
  }

  /** `handleDelete`. */
  function DeleteBudget(budgets: seq<Budget>, id: int): (r: seq<Budget>)
    ensures forall i :: 0 <= i < |r| ==> r[i].id != id && r[i] in budgets
    ensures forall i :: 0 <= i < |budgets| && budgets[i].id != id ==> budgets[i] in r
  {
    Crud.RemoveId(budgets, BudgetIdOf, id)
  }

  /** What one transaction adds to a category's spending in the month. */
  function CategoryTerm(category: string, month: int, year: int): Transaction -> real {
    (t: Transaction) =>
      if t.category == Some(category) && t.txType == Withdrawal && InMonth(t.date, month, year)
      then t.amount else 0.0
  }

  /** `getCurrentMonthSpending`: the Withdrawals of the category dated in the
      month. The month is the caller's clock reading. */
  function CategorySpend(txs: seq<Transaction>, category: string, month: int, year: int): real {
    SumOf(txs, CategoryTerm(category, month, year))
  }

  /** One more transaction changes the spending by its amount exactly when it
      is a Withdrawal of the category in the month. */
  lemma CategorySpendAppend(txs: seq<Transaction>, t: Transaction, category: string, month: int, year: int)
    ensures CategorySpend(txs + [t], category, month, year) ==
      CategorySpend(txs, category, month, year)
      + (if t.category == Some(category) && t.txType == Withdrawal && InMonth(t.date, month, year)
         then t.amount else 0.0)
  {
    SumOfAppend(txs, [t], CategoryTerm(category, month, year));
    SumOfSingle(t, CategoryTerm(category, month, year));
  }

  /** No page writes `category`, so spending on transactions without one is
      zero for every budget. */
  lemma UncategorisedSpendIsZero(txs: seq<Transaction>, category: string, month: int, year: int)
    requires forall i :: 0 <= i < |txs| ==> txs[i].category.None?
    ensures CategorySpend(txs, category, month, year) == 0.0
  {
    var f := CategoryTerm(category, month, year);
    forall i | 0 <= i < |txs| ensures f(txs[i]) == 0.0 {}
    SumOfZeros(txs, f);
  }

  lemma CategorySpendNonNegative(txs: seq<Transaction>, category: string, month: int, year: int)
    requires forall i :: 0 <= i < |txs| ==> txs[i].amount >= 0.0
    ensures CategorySpend(txs, category, month, year) >= 0.0
  {
    var f := CategoryTerm(category, month, year);
    forall i | 0 <= i < |txs| ensures f(txs[i]) >= 0.0 {}
    SumOfNonNegative(txs, f);
  }

  /** The bar's percentage: `amount > 0 ? min(100, round(spent / amount * 100)) : 0`. */
  function BudgetPercent(spent: real, amount: real): (p: int)
    ensures p <= 100
    ensures amount <= 0.0 ==> p == 0
    ensures amount > 0.0 && spent >= 0.0 ==> p >= 0
    ensures amount > 0.0 ==> (p == 100 <==> spent / amount * 100.0 >= 99.5)
  {
    if amount > 0.0 then
      CappedPercentRange(spent, amount);
      CappedPercent(spent, amount)
    else 0
  }

  /** The bar turns amber between 80 and 100 and red from 100. */
  predicate Near(p: int) { 80 <= p < 100 }
  predicate Over(p: int) { p >= 100 }

  /** The bar is never both amber and red; it is red exactly when the spending,
      as a rounded percentage, reaches the budget, and a budget of zero or less
      never turns red. */
  lemma BudgetWarnings(spent: real, amount: real)
    ensures !(Near(BudgetPercent(spent, amount)) && Over(BudgetPercent(spent, amount)))
    ensures Over(BudgetPercent(spent, amount)) <==> amount > 0.0 && spent / amount * 100.0 >= 99.5
    ensures amount > 0.0 && spent >= amount ==> Over(BudgetPercent(spent, amount))
  {
    if amount > 0.0 {
      CappedPercentRange(spent, amount);
    }
  }
}
