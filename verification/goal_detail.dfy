/** The goal detail page: moving money between a card and one goal, with the
    goal history and the recent-activity log, and the figures the page shows. */
module GoalDetail {
  import opened Base
  import opened Money
  import opened Records
  import opened Ledger
  import Crud

  /** The saved amount: `savedAmount` when present, else `currentAmount`
      (`currentAmount || 0` is the same number). */
  function Saved(g: Goal): real {
    g.savedAmount.GetOr(g.currentAmount)
  }

  /** `Math.max(0, target - saved)`. */
  function Remaining(g: Goal): real {
    MaxReal(0.0, g.targetAmount - Saved(g))
  }

  /** The progress bar: 0 without a positive target, else the clamped share. */
  function Percent(g: Goal): int {
    if g.targetAmount > 0.0 then CappedPercent(Saved(g), g.targetAmount) else 0
  }

  lemma GoalFigures(g: Goal)
    ensures Remaining(g) >= 0.0
    ensures Remaining(g) == 0.0 <==> Saved(g) >= g.targetAmount
    ensures Saved(g) <= g.targetAmount ==> Saved(g) + Remaining(g) == g.targetAmount
    ensures g.savedAmount.Some? ==> Saved(g) == g.savedAmount.value
    ensures g.savedAmount.None? ==> Saved(g) == g.currentAmount
    ensures Percent(g) <= 100
    ensures Saved(g) >= 0.0 ==> Percent(g) >= 0
    ensures g.targetAmount > 0.0 && Saved(g) >= g.targetAmount ==> Percent(g) == 100
    ensures g.targetAmount <= 0.0 ==> Percent(g) == 0
  {
    if g.targetAmount > 0.0 {
      CappedPercentRange(Saved(g), g.targetAmount);
    }
  }

  /** The form of the deposit/withdraw dialog. `selectedCard` is the chosen
      card id, `None` when nothing is selected. */
  datatype GoalRequest = GoalRequest(
    kind: GoalTransfer,
    amount: Field,
    note: string,
    selectedCard: Option<int>)

  /** The goal the page shows: the first goal with the route's id. */
  function FindGoal(goals: seq<Goal>, id: int): int {
    Crud.FindIndex(goals, GoalIdOf, id)
  }

  function ActivityKind(k: GoalTransfer): string {
    if k == GoalDeposit then "Goal Deposit" else "Goal Withdraw"
  }

  /** A refused transfer: one failed history entry, nothing else. */
  function Refuse(s: Snapshot, goalId: int, req: GoalRequest, clock: Clock, note: string, why: Reason)
    : (r: (Snapshot, Outcome))
  {
    var entry := GoalHistoryEntry(clock.millis, goalId, req.kind, req.amount.ToNumber(), note,
                                  clock.today, Failed);
    (s.(goalHistory := [entry] + s.goalHistory), Rejected(why))
  }

  /** `handleTransact`. The checks run in order: a non-positive amount, no card
      selected, an unknown card, an amount above the card's balance, and (for a
      withdrawal) an amount above the saved amount. Every outcome prepends one
      history entry; only a success changes the card and the goal and logs a
      recent activity. Both directions DEBIT the card. */
  function Transact(s: Snapshot, goalId: int, req: GoalRequest, clock: Clock): (r: (Snapshot, Outcome))
    requires FindGoal(s.goals, goalId) >= 0
    ensures var amt := req.amount.ToNumber();
      && (r.1 == Rejected(InvalidAmount) <==> amt <= 0.0)
      && (r.1 == Rejected(NoCardSelected) <==> amt > 0.0 && req.selectedCard.None?)
      && (r.1 == Rejected(CardNotFound) <==>
            amt > 0.0 && req.selectedCard.Some? && FindCard(s.cards, req.selectedCard.value) < 0)
      && (r.1 == Rejected(InsufficientFunds) <==>
            && amt > 0.0 && req.selectedCard.Some?
            && var ci := FindCard(s.cards, req.selectedCard.value);
               ci >= 0 && amt > s.cards[ci].balance)
      && (r.1 == Rejected(ExceedsSaved) <==>
            && amt > 0.0 && req.selectedCard.Some?
            && var ci := FindCard(s.cards, req.selectedCard.value);
               && ci >= 0 && amt <= s.cards[ci].balance
               && req.kind == GoalWithdraw && amt > Saved(s.goals[FindGoal(s.goals, goalId)]))
      && r.1 != Rejected(ExceedsRemaining)
    ensures |r.0.goalHistory| == |s.goalHistory| + 1 && r.0.goalHistory[1..] == s.goalHistory
    ensures var e := r.0.goalHistory[0];
      && e.id == clock.millis && e.goalId == goalId && e.kind == req.kind
      && e.amount == req.amount.ToNumber() && e.date == clock.today
      && (e.status == Succeeded <==> r.1 == Done)
    ensures r.0.debts == s.debts && r.0.debtHistory == s.debtHistory
    ensures r.1.Rejected? ==> r.0 == s.(goalHistory := r.0.goalHistory)
    ensures r.1 == Done ==>
      var amt := req.amount.ToNumber();
      var ci := FindCard(s.cards, req.selectedCard.value);
      var gi := FindGoal(s.goals, goalId);
      && amt > 0.0 && 0 <= ci < |s.cards|
      && |r.0.cards| == |s.cards| && |r.0.goals| == |s.goals|
      && r.0.cards[ci] == s.cards[ci].(balance := s.cards[ci].balance - amt)
      && (forall j :: 0 <= j < |s.cards| && j != ci ==> r.0.cards[j] == s.cards[j])
      && r.0.goals[gi] == s.goals[gi].(savedAmount := r.0.goals[gi].savedAmount)
      && r.0.goals[gi].savedAmount.Some?
      && Saved(r.0.goals[gi]) == (if req.kind == GoalDeposit then Saved(s.goals[gi]) + amt
                                  else Saved(s.goals[gi]) - amt)
      && (forall j :: 0 <= j < |s.goals| && j != gi ==> r.0.goals[j] == s.goals[j])
      && r.0.activity == AddRecentActivity(s.activity,
           Activity(ActivityKind(req.kind), amt, req.note, clock.instant, s.goals[gi].name,
                    s.cards[ci].name))
    ensures var e := r.0.goalHistory[0];
      && (r.1 == Rejected(InvalidAmount) ==> e.note == req.note + SelectedSuffix(s.cards, req.selectedCard))
      && (r.1 == Rejected(NoCardSelected) || r.1 == Rejected(CardNotFound) ==> e.note == req.note)
      && (r.1 == Done || r.1 == Rejected(InsufficientFunds) || r.1 == Rejected(ExceedsSaved) ==>
            e.note == req.note + FromSuffix(s.cards[FindCard(s.cards, req.selectedCard.value)]))
  {
    var gi := FindGoal(s.goals, goalId);
    var goal := s.goals[gi];
    var amt := req.amount.ToNumber();
    if amt <= 0.0 then
      Refuse(s, goalId, req, clock, req.note + SelectedSuffix(s.cards, req.selectedCard), InvalidAmount)
    else if req.selectedCard.None? then
      Refuse(s, goalId, req, clock, req.note, NoCardSelected)
    else
      var ci := FindCard(s.cards, req.selectedCard.value);
      if ci < 0 then
        Refuse(s, goalId, req, clock, req.note, CardNotFound)
      else
        var card := s.cards[ci];
        var note := req.note + FromSuffix(card);
        if amt > card.balance then
          Refuse(s, goalId, req, clock, note, InsufficientFunds)
        else if req.kind == GoalWithdraw && amt > Saved(goal) then
          Refuse(s, goalId, req, clock, note, ExceedsSaved)
        else
          var saved := if req.kind == GoalDeposit then Saved(goal) + amt else Saved(goal) - amt;
          var entry := GoalHistoryEntry(clock.millis, goalId, req.kind, amt, note, clock.today, Succeeded);
          var act := Activity(ActivityKind(req.kind), amt, req.note, clock.instant, goal.name, card.name);
          (s.(cards := Crud.ReplaceAt(s.cards, ci, card.(balance := card.balance - amt)),
              goals := Crud.ReplaceAt(s.goals, gi, goal.(savedAmount := Some(saved))),
              goalHistory := [entry] + s.goalHistory,
              activity := AddRecentActivity(s.activity, act)),
           Done)
  }

  /** Card balances and saved amounts that start non-negative stay
      non-negative: a transfer never takes more than the card holds, and a
      withdrawal never more than the goal has saved. */
  lemma TransactKeepsNonNegative(s: Snapshot, goalId: int, req: GoalRequest, clock: Clock)
    requires FindGoal(s.goals, goalId) >= 0
    requires forall i :: 0 <= i < |s.cards| ==> s.cards[i].balance >= 0.0
    requires forall i :: 0 <= i < |s.goals| ==> Saved(s.goals[i]) >= 0.0
    ensures var s' := Transact(s, goalId, req, clock).0;
      && (forall i :: 0 <= i < |s'.cards| ==> s'.cards[i].balance >= 0.0)
      && (forall i :: 0 <= i < |s'.goals| ==> Saved(s'.goals[i]) >= 0.0)
  {
    var r := Transact(s, goalId, req, clock);
    if r.1 == Done {
      var ci := FindCard(s.cards, req.selectedCard.value);
      var gi := FindGoal(s.goals, goalId);
      assert r.0.cards[ci].balance >= 0.0;
      assert Saved(r.0.goals[gi]) >= 0.0;
    }
  }

  /** A withdrawal from a goal debits the card (it does not credit it), just as
      a deposit does. */
  lemma WithdrawDebitsCard(s: Snapshot, goalId: int, req: GoalRequest, clock: Clock)
    requires FindGoal(s.goals, goalId) >= 0
    requires req.kind == GoalWithdraw
    requires Transact(s, goalId, req, clock).1 == Done
    ensures var ci := FindCard(s.cards, req.selectedCard.value);
      Transact(s, goalId, req, clock).0.cards[ci].balance < s.cards[ci].balance
  {
  }

  /** Refused transfers leave every balance alone however often they are
      retried; each attempt adds one failed history entry. */
  lemma RefusedTwice(s: Snapshot, goalId: int, req: GoalRequest, clock1: Clock, clock2: Clock)
    requires FindGoal(s.goals, goalId) >= 0
    requires Transact(s, goalId, req, clock1).1.Rejected?
    ensures var s1 := Transact(s, goalId, req, clock1).0;
      && FindGoal(s1.goals, goalId) >= 0
      && var r2 := Transact(s1, goalId, req, clock2);
      && r2.1 == Transact(s, goalId, req, clock1).1
      && r2.0.cards == s.cards && r2.0.goals == s.goals && r2.0.activity == s.activity
      && |r2.0.goalHistory| == |s.goalHistory| + 2
      && r2.0.goalHistory[0].status == Failed && r2.0.goalHistory[1].status == Failed
  {
  }

  /** Card balance 100, goal saved 20 of 50: withdrawing 30 is refused with
      ExceedsSaved and changes neither the card nor the goal. */
  lemma WithdrawMoreThanSavedScenario(clock: Clock)
    ensures var card := Card(1, Visa, "**** **** **** 1111", "main", None, 100.0, Some("main"));
      var goal := Goal(7, "bike", 50.0, 20.0, None, "", "");
      var s := Snapshot([card], [goal], [], [], [], []);
      var r := Transact(s, 7, GoalRequest(GoalWithdraw, Entered(30.0), "", Some(1)), clock);
      && r.1 == Rejected(ExceedsSaved)
      && r.0.cards == [card] && r.0.goals == [goal]
  {
  }

  /** Card balance 100, goal saved 20 of 50: depositing 30 moves 30 from the
      card to the goal. */
  lemma DepositScenario(clock: Clock)
    ensures var card := Card(1, Visa, "**** **** **** 1111", "main", None, 100.0, Some("main"));
      var goal := Goal(7, "bike", 50.0, 20.0, None, "", "");
      var s := Snapshot([card], [goal], [], [], [], []);
      var r := Transact(s, 7, GoalRequest(GoalDeposit, Entered(30.0), "", Some(1)), clock);
      && r.1 == Done
      && r.0.cards[0].balance == 70.0
      && Saved(r.0.goals[0]) == 50.0
      && Percent(r.0.goals[0]) == 100
      && |r.0.activity| == 1
  {
    var card := Card(1, Visa, "**** **** **** 1111", "main", None, 100.0, Some("main"));
    var goal := Goal(7, "bike", 50.0, 20.0, None, "", "");
    var s := Snapshot([card], [goal], [], [], [], []);
    var r := Transact(s, 7, GoalRequest(GoalDeposit, Entered(30.0), "", Some(1)), clock);
    GoalFigures(r.0.goals[0]);
  }
}
