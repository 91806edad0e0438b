/** The dashboard: the aggregates it derives from the stored cards,
    transactions, goals, debts and investments. The clock readings (the month,
    the year and the hour) are parameters. */
module Dashboard {
  import opened Base
  import opened Money
  import opened Dates
  import opened Records
  import Sorting
  import Crud
  import Cards
  import GoalDetail
  import Ledger

  // ---------------------------------------------------------------------------
  // Total card balance

  /** A transaction's signed effect on its card: Deposits add, Withdrawals
      subtract, any other type counts for nothing. */
  function Signed(t: Transaction): real {
    if t.txType == Deposit then t.amount
    else if t.txType == Withdrawal then -t.amount
    else 0.0
  }

  function NetTerm(cardId: int): Transaction -> real {
    (t: Transaction) => if t.cardId == cardId then Signed(t) else 0.0
  }

  /** The balance the dashboard derives for one card from its transactions. */
  function CardNet(txs: seq<Transaction>, cardId: int): real {
    SumOf(txs, NetTerm(cardId))
  }

  function CardNetTerm(txs: seq<Transaction>): Card -> real {
    (c: Card) => CardNet(txs, c.id)
  }

  /** `getTotalCardBalance`: the derived balances of the listed cards, summed.
      The `balance` field stored on a card plays no part. */
  function TotalCardBalance(cards: seq<Card>, txs: seq<Transaction>): real {
    SumOf(cards, CardNetTerm(txs))
  }

  /** How many listed cards carry the id. */
  function CardCount(cards: seq<Card>, id: int): real {
    SumOf(cards, (c: Card) => if c.id == id then 1.0 else 0.0)
  }

  lemma CardNetAppend(txs: seq<Transaction>, t: Transaction, cardId: int)
    ensures CardNet(txs + [t], cardId) == CardNet(txs, cardId) + (if t.cardId == cardId then Signed(t) else 0.0)
  {
    SumOfAppend(txs, [t], NetTerm(cardId));
    SumOfSingle(t, NetTerm(cardId));
  }

  /** One more transaction moves the total by its signed amount once for every
      listed card with its card id: not at all for an absent card or a type
      other than Deposit and Withdrawal. */
  lemma {:induction false} TotalCardBalanceAppend(cards: seq<Card>, txs: seq<Transaction>, t: Transaction)
    ensures TotalCardBalance(cards, txs + [t]) ==
            TotalCardBalance(cards, txs) + CardCount(cards, t.cardId) * Signed(t)
    decreases |cards|
  {
    if |cards| > 0 {
      var front := cards[..|cards| - 1];
      var c := cards[|cards| - 1];
      TotalCardBalanceAppend(front, txs, t);
      CardNetAppend(txs, t, c.id);
    }
  }

  /** The cases the dashboard relies on: a transaction for a card that is not
      listed, or of another type, leaves the total alone; one for a card listed
      once moves it by exactly its signed amount. */
  lemma TotalCardBalanceCases(cards: seq<Card>, txs: seq<Transaction>, t: Transaction)
    ensures (forall i :: 0 <= i < |cards| ==> cards[i].id != t.cardId) ==>
      TotalCardBalance(cards, txs + [t]) == TotalCardBalance(cards, txs)
    ensures t.txType.OtherType? ==> TotalCardBalance(cards, txs + [t]) == TotalCardBalance(cards, txs)
    ensures CardCount(cards, t.cardId) == 1.0 ==>
      TotalCardBalance(cards, txs + [t]) == TotalCardBalance(cards, txs) + Signed(t)
  {
    TotalCardBalanceAppend(cards, txs, t);
    if forall i :: 0 <= i < |cards| ==> cards[i].id != t.cardId {
      SumOfZeros(cards, (c: Card) => if c.id == t.cardId then 1.0 else 0.0);
    }
  }

  // ---------------------------------------------------------------------------
  // Monthly income and expenses

  datatype IncomeExpenses = IncomeExpenses(income: real, expenses: real)

  function IncomeTerm(month: int, year: int): Transaction -> real {
    (t: Transaction) => if InMonth(t.date, month, year) && t.txType == Deposit then t.amount else 0.0
  }

  function ExpenseTerm(month: int, year: int): Transaction -> real {
    (t: Transaction) => if InMonth(t.date, month, year) && t.txType == Withdrawal then t.amount else 0.0
  }

  /** `getMonthlyIncomeExpenses`: one pass over the transactions, adding each
      Deposit of the month to the income and each Withdrawal to the expenses. */
  function MonthlyIncomeExpenses(txs: seq<Transaction>, month: int, year: int): (r: IncomeExpenses)
    ensures r.income == SumOf(txs, IncomeTerm(month, year))
    ensures r.expenses == SumOf(txs, ExpenseTerm(month, year))
    decreases |txs|
  {
    if |txs| == 0 then IncomeExpenses(0.0, 0.0)
    else
      var acc := MonthlyIncomeExpenses(txs[..|txs| - 1], month, year);
      var t := txs[|txs| - 1];
      if InMonth(t.date, month, year) then
        if t.txType == Deposit then acc.(income := acc.income + t.amount)
        else if t.txType == Withdrawal then acc.(expenses := acc.expenses + t.amount)
        else acc
      else acc
  }

  lemma IncomeExpensesNonNegative(txs: seq<Transaction>, month: int, year: int)
    requires forall i :: 0 <= i < |txs| ==> txs[i].amount >= 0.0
    ensures MonthlyIncomeExpenses(txs, month, year).income >= 0.0
    ensures MonthlyIncomeExpenses(txs, month, year).expenses >= 0.0
  {
    var fi := IncomeTerm(month, year);
    var fe := ExpenseTerm(month, year);
    forall i | 0 <= i < |txs| ensures fi(txs[i]) >= 0.0 && fe(txs[i]) >= 0.0 {}
    SumOfNonNegative(txs, fi);
    SumOfNonNegative(txs, fe);
  }

  /** The month's expenses are the card pages' monthly spends added up over
      every card id, when each transaction's card is listed exactly once. */
  lemma {:induction false} ExpensesAreCardSpends(cards: seq<Card>, txs: seq<Transaction>, month: int, year: int)
    requires forall i :: 0 <= i < |txs| ==> CardCount(cards, txs[i].cardId) == 1.0
    ensures MonthlyIncomeExpenses(txs, month, year).expenses ==
            SumOf(cards, (c: Card) => Cards.MonthlySpend(txs, c.id, month, year))
    decreases |txs|
  {
    var g := (c: Card) => Cards.MonthlySpend(txs, c.id, month, year);
    if |txs| == 0 {
      forall i | 0 <= i < |cards| ensures g(cards[i]) == 0.0 {}
      SumOfZeros(cards, g);
    } else {
      var front := txs[..|txs| - 1];
      var t := txs[|txs| - 1];
      assert txs == front + [t];
      ExpensesAreCardSpends(cards, front, month, year);
      var g' := (c: Card) => Cards.MonthlySpend(front, c.id, month, year);
      var w := if t.txType == Withdrawal && InMonth(t.date, month, year) then t.amount else 0.0;
      var h := (c: Card) => if c.id == t.cardId then 1.0 else 0.0;
      forall i | 0 <= i < |cards| ensures g(cards[i]) == g'(cards[i]) + h(cards[i]) * w {
        Cards.MonthlySpendAppend(front, t, cards[i].id, month, year);
      }
      SumOfScaledAdd(cards, g, g', h, w);
    }
  }

  /** Sums of pointwise `g = g' + h * w` split the same way. */
  lemma {:induction false} SumOfScaledAdd<T>(s: seq<T>, g: T -> real, g': T -> real, h: T -> real, w: real)
    requires forall i :: 0 <= i < |s| ==> g(s[i]) == g'(s[i]) + h(s[i]) * w
    ensures SumOf(s, g) == SumOf(s, g') + SumOf(s, h) * w
    decreases |s|
  {
    if |s| > 0 {
      SumOfScaledAdd(s[..|s| - 1], g, g', h, w);
    }
  }

  /** A deposit made on the cards page in the current month raises the
      dashboard's income by its amount and leaves the expenses alone. */
  lemma AddMoneyRaisesIncome(txs: seq<Transaction>, cardId: int, form: Cards.MoneyForm, newId: int,
                             today: Date, month: int, year: int)
    requires Cards.AddMoney(txs, cardId, form, newId, today).Success?
    requires InMonth(today, month, year)
    ensures var r := Cards.AddMoney(txs, cardId, form, newId, today).value;
      && MonthlyIncomeExpenses(r, month, year).income ==
         MonthlyIncomeExpenses(txs, month, year).income + form.amount.value
      && MonthlyIncomeExpenses(r, month, year).expenses == MonthlyIncomeExpenses(txs, month, year).expenses
  {
    var r := Cards.AddMoney(txs, cardId, form, newId, today).value;
    assert r == txs + [r[|txs|]];
    SumOfAppend(txs, [r[|txs|]], IncomeTerm(month, year));
    SumOfSingle(r[|txs|], IncomeTerm(month, year));
    SumOfAppend(txs, [r[|txs|]], ExpenseTerm(month, year));
    SumOfSingle(r[|txs|], ExpenseTerm(month, year));
  }

  // ---------------------------------------------------------------------------
  // Investment total

  function InvestmentAmount(v: Investment): real { v.amount }

  /** `getInvestmentTotal`. */
  function InvestmentTotal(invs: seq<Investment>): real {
    SumOf(invs, InvestmentAmount)
  }

  /** The total moves by each added or removed investment's amount. */
  lemma InvestmentTotalFacts(a: seq<Investment>, b: seq<Investment>, v: Investment)
    ensures InvestmentTotal(a + b) == InvestmentTotal(a) + InvestmentTotal(b)
    ensures InvestmentTotal(a + [v]) == InvestmentTotal(a) + v.amount
    ensures (forall i :: 0 <= i < |a| ==> a[i].amount >= 0.0) ==> InvestmentTotal(a) >= 0.0
  {
    SumOfAppend(a, b, InvestmentAmount);
    SumOfAppend(a, [v], InvestmentAmount);
    SumOfSingle(v, InvestmentAmount);
    if forall i :: 0 <= i < |a| ==> a[i].amount >= 0.0 {
      SumOfNonNegative(a, InvestmentAmount);
    }
  }

  // ---------------------------------------------------------------------------
  // Goal completion and debt repayment

  /** `Math.min(1, part / whole)`. A positive part over a zero whole is
      `Math.min(1, Infinity)`, a share of one. Zero or a negative part over zero
      (`NaN`, `-Infinity`) is excluded by the callers and reads 0 here. */
  function Share(part: real, whole: real): real {
    if whole == 0.0 then (if part > 0.0 then 1.0 else 0.0) else MinReal(1.0, part / whole)
  }

  /** The source's division gives a number exactly when the whole is non-zero
      or the part positive. */
  predicate Divisible(part: real, whole: real) { whole != 0.0 || part > 0.0 }

  /** A share is at most one; it is non-negative for a non-negative part of a
      non-negative whole, and one once a positive part reaches the whole. */
  lemma ShareBounds(part: real, whole: real)
    ensures Share(part, whole) <= 1.0
    ensures part >= 0.0 && whole >= 0.0 ==> Share(part, whole) >= 0.0
    ensures part >= whole >= 0.0 && part > 0.0 ==> Share(part, whole) == 1.0
  {
    if whole > 0.0 {
      QuotientBounds(part, whole);
    }
  }

  /** `Math.round(total / n * 100)`, or 0 for an empty list. */
  function MeanPercent(total: real, n: nat): int {
    if n == 0 then 0 else Round(total / n as real * 100.0)
  }

  /** A mean of shares that are each at most one is at most 100 per cent, and
      exactly 100 when every share is one. */
  lemma MeanPercentBounds(total: real, n: nat)
    requires n > 0
    ensures total <= n as real ==> MeanPercent(total, n) <= 100
    ensures total >= 0.0 ==> MeanPercent(total, n) >= 0
    ensures total == n as real ==> MeanPercent(total, n) == 100
  {
    var q := total / n as real;
    QuotientBounds(total, n as real);
    if total <= n as real {
      RoundMonotonic(q * 100.0, 100.0);
      RoundOfWhole(100);
    }
    if total >= 0.0 {
      RoundMonotonic(0.0, q * 100.0);
      RoundOfWhole(0);
    }
    if total == n as real {
      assert q == 1.0;
      RoundOfWhole(100);
    }
  }

  function GoalShare(g: Goal): real { Share(g.currentAmount, g.targetAmount) }

  /** `getGoalCompletion`: the mean of each goal's `currentAmount / targetAmount`
      capped at one, as a rounded percentage. */
  function GoalCompletion(goals: seq<Goal>): int
    requires forall i :: 0 <= i < |goals| ==> Divisible(goals[i].currentAmount, goals[i].targetAmount)
  {
    MeanPercent(SumOf(goals, GoalShare), |goals|)
  }

  /** Completion is 0 with no goals and at most 100; it is not negative for
      non-negative progress towards non-negative targets, and is 100 once every
      goal has reached its target (a zero target with something saved counts
      as reached). */
  lemma GoalCompletionBounds(goals: seq<Goal>)
    requires forall i :: 0 <= i < |goals| ==> Divisible(goals[i].currentAmount, goals[i].targetAmount)
    ensures |goals| == 0 ==> GoalCompletion(goals) == 0
    ensures GoalCompletion(goals) <= 100
    ensures (forall i :: 0 <= i < |goals| ==> goals[i].currentAmount >= 0.0 && goals[i].targetAmount >= 0.0)
      ==> GoalCompletion(goals) >= 0
    ensures |goals| > 0 && (forall i :: 0 <= i < |goals| ==>
        goals[i].currentAmount >= goals[i].targetAmount >= 0.0 && goals[i].currentAmount > 0.0)
      ==> GoalCompletion(goals) == 100
  {
    var total := SumOf(goals, GoalShare);
    if |goals| > 0 {
      SumOfAtMost(goals, GoalShare, 1.0);
      MeanPercentBounds(total, |goals|);
      if forall i :: 0 <= i < |goals| ==> goals[i].currentAmount >= 0.0 && goals[i].targetAmount >= 0.0 {
        forall i | 0 <= i < |goals| ensures GoalShare(goals[i]) >= 0.0 {
          ShareBounds(goals[i].currentAmount, goals[i].targetAmount);
        }
        SumOfNonNegative(goals, GoalShare);
      }
      if forall i :: 0 <= i < |goals| ==>
          goals[i].currentAmount >= goals[i].targetAmount >= 0.0 && goals[i].currentAmount > 0.0 {
        forall i | 0 <= i < |goals| ensures GoalShare(goals[i]) >= 1.0 {
          ShareBounds(goals[i].currentAmount, goals[i].targetAmount);
        }
        SumOfAtLeast(goals, GoalShare, 1.0);
      }
    }
  }

  /** Completion reads `currentAmount` only: goals that differ just in
      `savedAmount` complete alike. */
  lemma {:induction false} GoalShareSumIgnoresSaved(a: seq<Goal>, b: seq<Goal>)
    requires |a| == |b|
    requires forall i :: 0 <= i < |a| ==> b[i] == a[i].(savedAmount := b[i].savedAmount)
    ensures SumOf(a, GoalShare) == SumOf(b, GoalShare)
    decreases |a|
  {
    if |a| > 0 {
      GoalShareSumIgnoresSaved(a[..|a| - 1], b[..|b| - 1]);
    }
  }

  /** So a transfer on the goal detail page, which moves `savedAmount`, never
      changes the dashboard's goal completion. */
  lemma GoalTransferKeepsCompletion(s: Ledger.Snapshot, goalId: int, req: GoalDetail.GoalRequest,
                                    clock: Ledger.Clock)
    requires GoalDetail.FindGoal(s.goals, goalId) >= 0
    requires forall i :: 0 <= i < |s.goals| ==> Divisible(s.goals[i].currentAmount, s.goals[i].targetAmount)
    ensures var s' := GoalDetail.Transact(s, goalId, req, clock).0;
      && (forall i :: 0 <= i < |s'.goals| ==> Divisible(s'.goals[i].currentAmount, s'.goals[i].targetAmount))
      && GoalCompletion(s'.goals) == GoalCompletion(s.goals)
  {
    var s' := GoalDetail.Transact(s, goalId, req, clock).0;
    if GoalDetail.Transact(s, goalId, req, clock).1.Rejected? {
      assert s'.goals == s.goals;
    } else {
      var gi := GoalDetail.FindGoal(s.goals, goalId);
      assert forall i :: 0 <= i < |s.goals| ==> s'.goals[i] == s.goals[i].(savedAmount := s'.goals[i].savedAmount);
      GoalShareSumIgnoresSaved(s.goals, s'.goals);
    }
  }

  function DebtShare(d: Debt): real { Share(d.paidAmount, d.totalAmount) }

  /** `getDebtRepayment`: the mean of each debt's `paidAmount / totalAmount`
      capped at one, as a rounded percentage. */
  function DebtRepayment(debts: seq<Debt>): int
    requires forall i :: 0 <= i < |debts| ==> Divisible(debts[i].paidAmount, debts[i].totalAmount)
  {
    MeanPercent(SumOf(debts, DebtShare), |debts|)
  }

  /** Repayment is 0 with no debts and at most 100, even when a debt is paid
      beyond its total; it is 100 once every debt is paid off (a zero total
      with something paid counts as paid off). */
  lemma DebtRepaymentBounds(debts: seq<Debt>)
    requires forall i :: 0 <= i < |debts| ==> Divisible(debts[i].paidAmount, debts[i].totalAmount)
    ensures |debts| == 0 ==> DebtRepayment(debts) == 0
    ensures DebtRepayment(debts) <= 100
    ensures (forall i :: 0 <= i < |debts| ==> debts[i].paidAmount >= 0.0 && debts[i].totalAmount >= 0.0)
      ==> DebtRepayment(debts) >= 0
    ensures |debts| > 0 && (forall i :: 0 <= i < |debts| ==>
        debts[i].paidAmount >= debts[i].totalAmount >= 0.0 && debts[i].paidAmount > 0.0)
      ==> DebtRepayment(debts) == 100
  {
    var total := SumOf(debts, DebtShare);
    if |debts| > 0 {
      SumOfAtMost(debts, DebtShare, 1.0);
      MeanPercentBounds(total, |debts|);
      if forall i :: 0 <= i < |debts| ==> debts[i].paidAmount >= 0.0 && debts[i].totalAmount >= 0.0 {
        forall i | 0 <= i < |debts| ensures DebtShare(debts[i]) >= 0.0 {
          ShareBounds(debts[i].paidAmount, debts[i].totalAmount);
        }
        SumOfNonNegative(debts, DebtShare);
      }
      if forall i :: 0 <= i < |debts| ==>
          debts[i].paidAmount >= debts[i].totalAmount >= 0.0 && debts[i].paidAmount > 0.0 {
        forall i | 0 <= i < |debts| ensures DebtShare(debts[i]) >= 1.0 {
          ShareBounds(debts[i].paidAmount, debts[i].totalAmount);
        }
        SumOfAtLeast(debts, DebtShare, 1.0);
      }
    }
  }

  // ---------------------------------------------------------------------------
  // Spending categories

  datatype Category = Category(name: string, value: real)

  const OtherCategory: string := "Other"

  /** `tx.note || 'Other'`. */
  function CategoryName(t: Transaction): string {
    if t.note == "" then OtherCategory else t.note
  }

  function CategoryValue(c: Category): real { c.value }

  /** What one transaction adds to the named category. */
  function NamedTerm(name: string): Transaction -> real {
    (t: Transaction) => if t.txType == Withdrawal && CategoryName(t) == name then t.amount else 0.0
  }

  function WithdrawalTerm(t: Transaction): real {
    if t.txType == Withdrawal then t.amount else 0.0
  }

  predicate UniqueNames(cats: seq<Category>) {
    forall i, j :: 0 <= i < j < |cats| ==> cats[i].name != cats[j].name
  }

  /** The value filed under a name, 0 when there is no such category. */
  function ValueOf(cats: seq<Category>, name: string): real {
    if |cats| == 0 then 0.0
    else if cats[|cats| - 1].name == name then cats[|cats| - 1].value
    else ValueOf(cats[..|cats| - 1], name)
  }

  function IndexOfName(cats: seq<Category>, name: string): (i: int)
    ensures -1 <= i < |cats|
    ensures i >= 0 ==> cats[i].name == name
    ensures i < 0 ==> forall j :: 0 <= j < |cats| ==> cats[j].name != name
    decreases |cats|
  {
    if |cats| == 0 then -1
    else if cats[|cats| - 1].name == name then |cats| - 1
    else IndexOfName(cats[..|cats| - 1], name)
  }

  /** `categories[cat] = (categories[cat] || 0) + amount`: a known name grows
      in place, a new one is added at the end. */
  function AddSpend(cats: seq<Category>, name: string, amount: real): (r: seq<Category>)
    requires UniqueNames(cats)
    ensures UniqueNames(r)
    ensures SumOf(r, CategoryValue) == SumOf(cats, CategoryValue) + amount
    ensures |cats| <= |r| && forall i :: 0 <= i < |cats| ==> r[i].name == cats[i].name
    ensures |r| == |cats| || (|r| == |cats| + 1 && r[|cats|] == Category(name, amount))
    ensures exists i :: 0 <= i < |r| && r[i].name == name
  {
    var i := IndexOfName(cats, name);
    if i >= 0 then
      SumOfUpdate(cats, i, Category(name, cats[i].value + amount), CategoryValue);
      cats[i := Category(name, cats[i].value + amount)]
    else
      var r := cats + [Category(name, amount)];
      SumOfAppend(cats, [Category(name, amount)], CategoryValue);
      SumOfSingle(Category(name, amount), CategoryValue);
      assert r[|cats|].name == name;
      r
  }

  /** Adding to a name changes the value filed under that name, and no other. */
  lemma AddSpendValue(cats: seq<Category>, name: string, amount: real, k: string)
    requires UniqueNames(cats)
    ensures ValueOf(AddSpend(cats, name, amount), k) == ValueOf(cats, k) + (if k == name then amount else 0.0)
  {
    var i := IndexOfName(cats, name);
    if i >= 0 {
      assert AddSpend(cats, name, amount) == cats[i := Category(cats[i].name, cats[i].value + amount)];
      ValueOfUpdate(cats, i, amount, k);
    } else {
      assert AddSpend(cats, name, amount) == cats + [Category(name, amount)];
      ValueOfSnoc(cats, Category(name, amount), k);
      if k == name {
        ValueOfAbsent(cats, k);
      }
    }
  }

  lemma ValueOfSnoc(cats: seq<Category>, c: Category, k: string)
    ensures ValueOf(cats + [c], k) == if c.name == k then c.value else ValueOf(cats, k)
  {
    assert (cats + [c])[..|cats|] == cats;
  }

  lemma {:induction false} ValueOfUpdate(cats: seq<Category>, i: nat, amount: real, k: string)
    requires UniqueNames(cats)
    requires i < |cats|
    ensures ValueOf(cats[i := Category(cats[i].name, cats[i].value + amount)], k) ==
            ValueOf(cats, k) + (if k == cats[i].name then amount else 0.0)
    decreases |cats|
  {
    var r := cats[i := Category(cats[i].name, cats[i].value + amount)];
    var n := |cats| - 1;
    if i < n {
      assert r[..n] == cats[..n][i := Category(cats[i].name, cats[i].value + amount)];
      if cats[n].name != k {
        ValueOfUpdate(cats[..n], i, amount, k);
      } else {
        assert cats[i].name != k;
      }
    } else {
      assert r[..n] == cats[..n];
      if cats[n].name != k {
        ValueOfAbsent(cats[..n], cats[n].name);
      }
    }
  }

  /** A name that does not occur has value 0. */
  lemma {:induction false} ValueOfAbsent(cats: seq<Category>, k: string)
    requires forall j :: 0 <= j < |cats| ==> cats[j].name != k
    ensures ValueOf(cats, k) == 0.0
    decreases |cats|
  {
    if |cats| > 0 {
      ValueOfAbsent(cats[..|cats| - 1], k);
    }
  }

  /** `getSpendingCategories`: the Withdrawals grouped by `note || 'Other'`, in
      order of first appearance, each category holding the running sum. The
      values add up to the total withdrawn. */
  function SpendingCategories(txs: seq<Transaction>): (r: seq<Category>)
    ensures UniqueNames(r)
    ensures SumOf(r, CategoryValue) == SumOf(txs, WithdrawalTerm)
    decreases |txs|
  {
    if |txs| == 0 then []
    else
      var front := txs[..|txs| - 1];
      var t := txs[|txs| - 1];
      var c := SpendingCategories(front);
      assert txs == front + [t];
      SumOfAppend(front, [t], WithdrawalTerm);
      SumOfSingle(t, WithdrawalTerm);
      if t.txType == Withdrawal then AddSpend(c, CategoryName(t), t.amount) else c
  }

  /** Each category's value is the total withdrawn under its name. */
  lemma {:induction false} SpendingCategoriesValue(txs: seq<Transaction>, k: string)
    ensures ValueOf(SpendingCategories(txs), k) == SumOf(txs, NamedTerm(k))
    decreases |txs|
  {
    if |txs| > 0 {
      var front := txs[..|txs| - 1];
      var t := txs[|txs| - 1];
      assert txs == front + [t];
      SpendingCategoriesValue(front, k);
      SumOfAppend(front, [t], NamedTerm(k));
      SumOfSingle(t, NamedTerm(k));
      if t.txType == Withdrawal {
        AddSpendValue(SpendingCategories(front), CategoryName(t), t.amount, k);
      }
    }
  }

  predicate HasCategory(cats: seq<Category>, name: string) {
    exists i :: 0 <= i < |cats| && cats[i].name == name
  }

  predicate Withdrawn(txs: seq<Transaction>, name: string) {
    exists j :: 0 <= j < |txs| && txs[j].txType == Withdrawal && CategoryName(txs[j]) == name
  }

  /** Every category name comes from some withdrawal. */
  lemma {:induction false} CategoriesComeFromWithdrawals(txs: seq<Transaction>)
    ensures forall i :: 0 <= i < |SpendingCategories(txs)| ==> Withdrawn(txs, SpendingCategories(txs)[i].name)
    decreases |txs|
  {
    if |txs| > 0 {
      var front := txs[..|txs| - 1];
      var t := txs[|txs| - 1];
      var c := SpendingCategories(front);
      var r := SpendingCategories(txs);
      CategoriesComeFromWithdrawals(front);
      forall i | 0 <= i < |r| ensures Withdrawn(txs, r[i].name) {
        if i < |c| {
          assert Withdrawn(front, c[i].name);
          var j :| 0 <= j < |front| && front[j].txType == Withdrawal && CategoryName(front[j]) == c[i].name;
          assert txs[j] == front[j];
        } else {
          assert txs[|txs| - 1] == t;
        }
      }
    }
  }

  /** Every withdrawal's name is a category. */
  lemma {:induction false} WithdrawalsHaveCategories(txs: seq<Transaction>)
    ensures forall j :: 0 <= j < |txs| && txs[j].txType == Withdrawal ==>
      HasCategory(SpendingCategories(txs), CategoryName(txs[j]))
    decreases |txs|
  {
    if |txs| > 0 {
      var front := txs[..|txs| - 1];
      var t := txs[|txs| - 1];
      var c := SpendingCategories(front);
      var r := SpendingCategories(txs);
      WithdrawalsHaveCategories(front);
      forall j | 0 <= j < |txs| && txs[j].txType == Withdrawal
        ensures HasCategory(r, CategoryName(txs[j]))
      {
        if j < |front| {
          assert txs[j] == front[j];
          assert HasCategory(c, CategoryName(front[j]));
          var i :| 0 <= i < |c| && c[i].name == CategoryName(front[j]);
          assert r[i].name == c[i].name;
        }
      }
    }
  }

  /** The spending chart partitions the withdrawals: names are distinct, they
      are exactly the withdrawals' names, each value is the total withdrawn
      under its name, and the values add up to everything withdrawn. */
  lemma SpendingCategoriesPartition(txs: seq<Transaction>, name: string)
    ensures UniqueNames(SpendingCategories(txs))
    ensures HasCategory(SpendingCategories(txs), name) <==> Withdrawn(txs, name)
    ensures ValueOf(SpendingCategories(txs), name) == SumOf(txs, NamedTerm(name))
    ensures SumOf(SpendingCategories(txs), CategoryValue) == SumOf(txs, WithdrawalTerm)
  {
    var r := SpendingCategories(txs);
    CategoriesComeFromWithdrawals(txs);
    WithdrawalsHaveCategories(txs);
    SpendingCategoriesValue(txs, name);
    if HasCategory(r, name) {
      var i :| 0 <= i < |r| && r[i].name == name;
      assert Withdrawn(txs, r[i].name);
    }
    if Withdrawn(txs, name) {
      var j :| 0 <= j < |txs| && txs[j].txType == Withdrawal && CategoryName(txs[j]) == name;
      assert HasCategory(r, CategoryName(txs[j]));
    }
  }

  // ---------------------------------------------------------------------------
  // Recent transactions

  const RecentLimit: nat := 5

  /** Sorting key for newest first. */
  function NewestFirst(t: Transaction): int { -DayNumber(t.date) }

  /** `getRecentTransactions`: sort by date descending (stably) and keep the
      first five. */
  function RecentTransactions(txs: seq<Transaction>): (r: seq<Transaction>)
    ensures |r| == Min(RecentLimit, |txs|)
    ensures forall i, j :: 0 <= i < j < |r| ==> DayNumber(r[i].date) >= DayNumber(r[j].date)
    ensures multiset(r) <= multiset(txs)
    ensures forall i :: 0 <= i < |r| ==> r[i] in txs
    ensures |txs| <= RecentLimit ==> multiset(r) == multiset(txs)
  {
    var sorted := Sorting.SortBy(txs, NewestFirst);
    var n := Min(RecentLimit, |txs|);
    Sorting.SortedPrefix(sorted, NewestFirst, n);
    Sorting.PermutationPrefix(sorted, txs, n);
    sorted[..n]
  }

  /** Nothing left out of the five is newer than the fifth shown. */
  lemma RecentTransactionsAreNewest(txs: seq<Transaction>)
    requires |txs| > RecentLimit
    ensures var r := RecentTransactions(txs);
      forall t :: t in multiset(txs) - multiset(r) ==> DayNumber(t.date) <= DayNumber(r[RecentLimit - 1].date)
  {
    var sorted := Sorting.SortBy(txs, NewestFirst);
    var n := RecentLimit;
    var r := RecentTransactions(txs);
    assert r == sorted[..n];
    Sorting.PermutationPrefix(sorted, txs, n);
    Sorting.SortedRest(sorted, NewestFirst, n);
  }

  /** The transactions dated on day number `day`. */
  function OnDay(day: int): Transaction -> bool {
    Sorting.KeyIs(NewestFirst, -day)
  }

  /** The sort is stable, so a tie on date goes to the transaction stored
      first: the shown transactions of any one day are the first ones of that
      day in storage order. */
  lemma RecentTransactionsKeepStoredOrder(txs: seq<Transaction>, day: int)
    ensures var shown := Crud.Filter(RecentTransactions(txs), OnDay(day));
      var stored := Crud.Filter(txs, OnDay(day));
      |shown| <= |stored| && shown == stored[..|shown|]
  {
    assert OnDay(day) == Sorting.KeyIs(NewestFirst, -day);
    assert RecentTransactions(txs) == Sorting.SortBy(txs, NewestFirst)[..Min(RecentLimit, |txs|)];
    Sorting.SortedPrefixStable(txs, NewestFirst, -day, Min(RecentLimit, |txs|));
  }

  // ---------------------------------------------------------------------------
  // Greeting

  /** `getGreeting` for the hour of the clock. */
  function Greeting(hour: int): (g: string)
    ensures g == "Good morning" <==> hour < 12
    ensures g == "Good afternoon" <==> 12 <= hour < 18
    ensures g == "Good evening" <==> hour >= 18
  {
    if hour < 12 then "Good morning"
    else if hour < 18 then "Good afternoon"
    else "Good evening"
  }
}
