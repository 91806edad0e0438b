/** The records the application keeps in its persisted collections. Ids are
    the integers `Date.now()` produced when the record was created. */
module Records {
  import opened Base
  import opened Dates

  /** The label `detectCardType` assigns to a card number. */
  datatype Network = Visa | MasterCard | AmericanExpress | Discover | Jcb | Meza | Unknown

  /** A card. `number` is the masked number; the full number is never stored.
      `name` is the field the goal and debt pages print, which the card form
      never sets (`None` stands for an absent field). */
  datatype Card = Card(
    id: int,
    network: Network,
    number: string,
    nickname: string,
    monthlyBudget: Option<real>,
    balance: real,
    name: Option<string>)

  /** A transaction type: the two types the pages act on, or any other label.
      A stored "Deposit" or "Withdrawal" is always the matching constructor, so
      `OtherType` carries only other texts. */
  datatype TxType = Deposit | Withdrawal | OtherType(text: string)

  /** A transaction. `category` and `status` are optional fields that some pages
      read but no page writes. */
  datatype Transaction = Transaction(
    id: int,
    cardId: int,
    txType: TxType,
    amount: real,
    date: Date,
    note: string,
    category: Option<string>,
    status: Option<string>)

  /** A savings goal. `savedAmount` is set by the goal detail page only; the
      goals list edits `currentAmount`. */
  datatype Goal = Goal(
    id: int,
    name: string,
    targetAmount: real,
    currentAmount: real,
    savedAmount: Option<real>,
    deadline: string,
    note: string)

  datatype Debt = Debt(
    id: int,
    name: string,
    totalAmount: real,
    paidAmount: real,
    dueDate: string,
    note: string,
    creditor: string,
    creditorCard: string)

  datatype Budget = Budget(id: int, category: string, amount: real)

  datatype Investment = Investment(
    id: int,
    name: string,
    amount: real,
    interestRate: real,
    maturityDate: string,
    note: string,
    monthlyIncome: real)

  function CardIdOf(c: Card): int { c.id }
  function TransactionIdOf(t: Transaction): int { t.id }
  function GoalIdOf(g: Goal): int { g.id }
  function DebtIdOf(d: Debt): int { d.id }
  function BudgetIdOf(b: Budget): int { b.id }
  function InvestmentIdOf(v: Investment): int { v.id }

  /** The text a template literal prints for an optional string field. */
  function Show(s: Option<string>): string {
    match s
    case Some(v) => v
    case None => "undefined"
  }

  /** `s.slice(-4)`: the last four characters, or all of a shorter string. */
  function LastFour(s: string): (r: string)
    ensures |r| == if |s| < 4 then |s| else 4
    ensures s == s[..|s| - |r|] + r
  {
    if |s| <= 4 then s else s[|s| - 4..]
  }

  const MaskPrefix: string := "**** **** **** "

  /** The displayed form of a card number: a fixed mask and its last four characters. */
  function Masked(number: string): string {
    MaskPrefix + LastFour(number)
  }
}
