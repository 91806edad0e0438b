/** The state the transfer pages read and write, and the two audit logs they
    prepend to: the per-entity history and the global recent-activity log. */
module Ledger {
  import opened Base
  import opened Dates
  import opened Records
  import Crud

  datatype EntryStatus = Succeeded | Failed

  /** The direction of a goal transfer; its history label is 'Deposit' or 'Withdraw'. */
  datatype GoalTransfer = GoalDeposit | GoalWithdraw

  datatype GoalHistoryEntry = GoalHistoryEntry(
    id: int,
    goalId: int,
    kind: GoalTransfer,
    amount: real,
    note: string,
    date: Date,
    status: EntryStatus)

  /** A debt history entry has no type field. */
  datatype DebtHistoryEntry = DebtHistoryEntry(
    id: int,
    debtId: int,
    amount: real,
    note: string,
    date: Date,
    status: EntryStatus)

  /** An entry of the recent-activity log. `date` is an ISO timestamp. */
  datatype Activity = Activity(
    kind: string,
    amount: real,
    note: string,
    date: string,
    name: string,
    card: Option<string>)

  /** Why a transfer was refused, in the order the checks run. */
  datatype Reason =
    | InvalidAmount
    | NoCardSelected
    | CardNotFound
    | InsufficientFunds
    | ExceedsSaved
    | ExceedsRemaining

  datatype Outcome = Done | Rejected(reason: Reason)

  /** The persisted collections a transfer touches. Histories and the activity
      log are newest-first. */
  datatype Snapshot = Snapshot(
    cards: seq<Card>,
    goals: seq<Goal>,
    debts: seq<Debt>,
    goalHistory: seq<GoalHistoryEntry>,
    debtHistory: seq<DebtHistoryEntry>,
    activity: seq<Activity>)

  /** What the handlers read from the clock: `Date.now()` (the new entry's id),
      today's date and the current ISO timestamp. */
  datatype Clock = Clock(millis: int, today: Date, instant: string)

  const ActivityLimit: nat := 20

  /** `arr.unshift(entry); arr.slice(0, 20)`. */
  function AddRecentActivity(log: seq<Activity>, e: Activity): (r: seq<Activity>)
    ensures |r| == if |log| < ActivityLimit then |log| + 1 else ActivityLimit
    ensures r[0] == e
    ensures r[1..] == log[..|r| - 1]
  {
    ([e] + log)[..if |log| < ActivityLimit then |log| + 1 else ActivityLimit]
  }

  /** The recent-activity log never grows beyond its limit, however many
      entries are added. */
  lemma {:induction false} ActivityStaysBounded(log: seq<Activity>, es: seq<Activity>)
    requires |log| <= ActivityLimit
    ensures |AddAll(log, es)| <= ActivityLimit
    ensures |es| > 0 ==> AddAll(log, es)[0] == es[|es| - 1]
    decreases |es|
  {
    if |es| > 0 {
      ActivityStaysBounded(log, es[..|es| - 1]);
    }
  }

  /** The log after adding `es` in order (oldest first). */
  function AddAll(log: seq<Activity>, es: seq<Activity>): seq<Activity>
    decreases |es|
  {
    if |es| == 0 then log else AddRecentActivity(AddAll(log, es[..|es| - 1]), es[|es| - 1])
  }

  /** The position of the card a transfer pays from: the first card whose id is
      the selected one, as `findIndex` returns it. */
  function FindCard(cards: seq<Card>, id: int): int {
    Crud.FindIndex(cards, CardIdOf, id)
  }

  /** What a refusal for a non-positive amount appends to the note:
      ` (from <name>)` when a card is selected (the name, or '' when the card
      or its name is missing), nothing otherwise. */
  function SelectedSuffix(cards: seq<Card>, selected: Option<int>): string {
    match selected
    case None => ""
    case Some(id) =>
      var i := FindCard(cards, id);
      " (from " + (if i >= 0 && cards[i].name.Some? then cards[i].name.value else "") + ")"
  }

  /** What the later outcomes append to the note: `` ` (from ${card.name})` ``,
      which prints "undefined" for a card without a name. */
  function FromSuffix(c: Card): string {
    " (from " + Show(c.name) + ")"
  }
}
