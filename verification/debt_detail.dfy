/** The debt detail page: repaying one debt from a card, with the debt history
    and the recent-activity log, and the figures the page shows. */
module DebtDetail {
  import opened Base
  import opened Money
  import opened Records
  import opened Ledger
  import Crud

  /** `debt.paidAmount || 0` and `debt.totalAmount || 0`: both are numbers. */
  function Paid(d: Debt): real { d.paidAmount }
  function Total(d: Debt): real { d.totalAmount }

  /** `Math.max(0, total - paid)`. */
  function Remaining(d: Debt): real {
    MaxReal(0.0, Total(d) - Paid(d))
  }

  /** `total > 0 ? Math.round(paid / total * 100) : 0`, NOT capped at 100. */
  function Percent(d: Debt): int {
    if Total(d) > 0.0 then Round(Paid(d) / Total(d) * 100.0) else 0
  }

  lemma DebtFigures(d: Debt)
    ensures Remaining(d) >= 0.0
    ensures Remaining(d) == 0.0 <==> Paid(d) >= Total(d)
    ensures Paid(d) <= Total(d) ==> Paid(d) + Remaining(d) == Total(d)
    ensures Total(d) > 0.0 && 0.0 <= Paid(d) <= Total(d) ==> 0 <= Percent(d) <= 100
    ensures Total(d) > 0.0 && Paid(d) >= Total(d) ==> Percent(d) >= 100
    ensures Total(d) <= 0.0 ==> Percent(d) == 0
  {
    if Total(d) > 0.0 {
      var q := Paid(d) / Total(d);
      QuotientBounds(Paid(d), Total(d));
      if 0.0 <= Paid(d) {
        assert q >= 0.0;
        RoundMonotonic(0.0, q * 100.0);
        RoundOfWhole(0);
      }
      if Paid(d) <= Total(d) {
        assert q <= 1.0;
        RoundMonotonic(q * 100.0, 100.0);
        RoundOfWhole(100);
      }
      if Paid(d) >= Total(d) {
        assert q >= 1.0;
        RoundMonotonic(100.0, q * 100.0);
        RoundOfWhole(100);
      }
    }
  }

  /** The detail percentage is not capped: an over-paid debt shows more than 100. */
  lemma PercentNotCapped()
    ensures Percent(Debt(1, "loan", 100.0, 300.0, "", "", "", "")) == 300
  {
    RoundOfWhole(300);
  }

  datatype RepayRequest = RepayRequest(amount: Field, note: string, selectedCard: Option<int>)

  /** The debt the page shows: the first debt with the route's id. */
  function FindDebt(debts: seq<Debt>, id: int): int {
    Crud.FindIndex(debts, DebtIdOf, id)
  }

  const RepaymentKind: string := "Debt Repayment"

  function Refuse(s: Snapshot, debtId: int, req: RepayRequest, clock: Clock, note: string, why: Reason)
    : (r: (Snapshot, Outcome))
  {
    var entry := DebtHistoryEntry(clock.millis, debtId, req.amount.ToNumber(), note, clock.today, Failed);
    (s.(debtHistory := [entry] + s.debtHistory), Rejected(why))
  }

  /** `handleRepay`. The checks run in order: a non-positive amount, no card
      selected, an unknown card, an amount above the card's balance, an amount
      above what remains owed. Every outcome prepends one history entry; only a
      success debits the card, raises the paid amount and logs a recent
      activity. */
  function Repay(s: Snapshot, debtId: int, req: RepayRequest, clock: Clock): (r: (Snapshot, Outcome))
    requires FindDebt(s.debts, debtId) >= 0
    ensures var amt := req.amount.ToNumber();
      && (r.1 == Rejected(InvalidAmount) <==> amt <= 0.0)
      && (r.1 == Rejected(NoCardSelected) <==> amt > 0.0 && req.selectedCard.None?)
      && (r.1 == Rejected(CardNotFound) <==>
            amt > 0.0 && req.selectedCard.Some? && FindCard(s.cards, req.selectedCard.value) < 0)
      && (r.1 == Rejected(InsufficientFunds) <==>
            && amt > 0.0 && req.selectedCard.Some?
            && var ci := FindCard(s.cards, req.selectedCard.value);
               ci >= 0 && amt > s.cards[ci].balance)
      && (r.1 == Rejected(ExceedsRemaining) <==>
            && amt > 0.0 && req.selectedCard.Some?
            && var ci := FindCard(s.cards, req.selectedCard.value);
               && ci >= 0 && amt <= s.cards[ci].balance
               && amt > Remaining(s.debts[FindDebt(s.debts, debtId)]))
      && r.1 != Rejected(ExceedsSaved)
    ensures |r.0.debtHistory| == |s.debtHistory| + 1 && r.0.debtHistory[1..] == s.debtHistory
    ensures var e := r.0.debtHistory[0];
      && e.id == clock.millis && e.debtId == debtId
      && e.amount == req.amount.ToNumber() && e.date == clock.today
      && (e.status == Succeeded <==> r.1 == Done)
    ensures r.0.goals == s.goals && r.0.goalHistory == s.goalHistory
    ensures r.1.Rejected? ==> r.0 == s.(debtHistory := r.0.debtHistory)
    ensures r.1 == Done ==>
      var amt := req.amount.ToNumber();
      var ci := FindCard(s.cards, req.selectedCard.value);
      var di := FindDebt(s.debts, debtId);
      && amt > 0.0 && 0 <= ci < |s.cards|
      && |r.0.cards| == |s.cards| && |r.0.debts| == |s.debts|
      && r.0.cards[ci] == s.cards[ci].(balance := s.cards[ci].balance - amt)
      && (forall j :: 0 <= j < |s.cards| && j != ci ==> r.0.cards[j] == s.cards[j])
      && r.0.debts[di] == s.debts[di].(paidAmount := s.debts[di].paidAmount + amt)
      && (forall j :: 0 <= j < |s.debts| && j != di ==> r.0.debts[j] == s.debts[j])
      && r.0.activity == AddRecentActivity(s.activity,
           Activity(RepaymentKind, amt, req.note, clock.instant, s.debts[di].name, s.cards[ci].name))
    ensures var e := r.0.debtHistory[0];
      && (r.1 == Rejected(InvalidAmount) ==> e.note == req.note + SelectedSuffix(s.cards, req.selectedCard))
      && (r.1 == Rejected(NoCardSelected) || r.1 == Rejected(CardNotFound) ==> e.note == req.note)
      && (r.1 == Done || r.1 == Rejected(InsufficientFunds) || r.1 == Rejected(ExceedsRemaining) ==>
            e.note == req.note + FromSuffix(s.cards[FindCard(s.cards, req.selectedCard.value)]))
  {
    var di := FindDebt(s.debts, debtId);
    var debt := s.debts[di];
    var amt := req.amount.ToNumber();
    if amt <= 0.0 then
      Refuse(s, debtId, req, clock, req.note + SelectedSuffix(s.cards, req.selectedCard), InvalidAmount)
    else if req.selectedCard.None? then
      Refuse(s, debtId, req, clock, req.note, NoCardSelected)
    else
      var ci := FindCard(s.cards, req.selectedCard.value);
      if ci < 0 then
        Refuse(s, debtId, req, clock, req.note, CardNotFound)
      else
        var card := s.cards[ci];
        var note := req.note + FromSuffix(card);
        if amt > card.balance then
          Refuse(s, debtId, req, clock, note, InsufficientFunds)
        else if amt > Remaining(debt) then
          Refuse(s, debtId, req, clock, note, ExceedsRemaining)
        else
          var entry := DebtHistoryEntry(clock.millis, debtId, amt, note, clock.today, Succeeded);
          var act := Activity(RepaymentKind, amt, req.note, clock.instant, debt.name, card.name);
          (s.(cards := Crud.ReplaceAt(s.cards, ci, card.(balance := card.balance - amt)),
              debts := Crud.ReplaceAt(s.debts, di, debt.(paidAmount := debt.paidAmount + amt)),
              debtHistory := [entry] + s.debtHistory,
              activity := AddRecentActivity(s.activity, act)),
           Done)
  }

  /** A repayment never pushes the paid amount past the total, and never
      overdraws a card. */
  lemma RepayKeepsBounds(s: Snapshot, debtId: int, req: RepayRequest, clock: Clock)
    requires FindDebt(s.debts, debtId) >= 0
    requires forall i :: 0 <= i < |s.cards| ==> s.cards[i].balance >= 0.0
    requires forall i :: 0 <= i < |s.debts| ==> s.debts[i].paidAmount <= s.debts[i].totalAmount
    ensures var s' := Repay(s, debtId, req, clock).0;
      && (forall i :: 0 <= i < |s'.cards| ==> s'.cards[i].balance >= 0.0)
      && (forall i :: 0 <= i < |s'.debts| ==> s'.debts[i].paidAmount <= s'.debts[i].totalAmount)
  {
    var r := Repay(s, debtId, req, clock);
    if r.1 == Done {
      var ci := FindCard(s.cards, req.selectedCard.value);
      var di := FindDebt(s.debts, debtId);
      assert r.0.cards[ci].balance >= 0.0;
      assert r.0.debts[di].paidAmount <= r.0.debts[di].totalAmount;
    }
  }

  /** A debt paid in full accepts no further positive repayment. */
  lemma PaidOffRefusesRepay(s: Snapshot, debtId: int, req: RepayRequest, clock: Clock)
    requires FindDebt(s.debts, debtId) >= 0
    requires var d := s.debts[FindDebt(s.debts, debtId)]; d.paidAmount >= d.totalAmount
    requires req.amount.ToNumber() > 0.0
    ensures Remaining(s.debts[FindDebt(s.debts, debtId)]) == 0.0
    ensures Repay(s, debtId, req, clock).1.Rejected?
  {
  }

  /** An over-repayment from a card that cannot cover it is refused for
      insufficient funds, not for exceeding what is owed: the card check runs
      first. */
  lemma CardCheckComesFirst(s: Snapshot, debtId: int, req: RepayRequest, clock: Clock)
    requires FindDebt(s.debts, debtId) >= 0
    requires req.selectedCard.Some? && FindCard(s.cards, req.selectedCard.value) >= 0
    requires var amt := req.amount.ToNumber();
      && amt > Remaining(s.debts[FindDebt(s.debts, debtId)])
      && amt > s.cards[FindCard(s.cards, req.selectedCard.value)].balance
    ensures Repay(s, debtId, req, clock).1 == Rejected(InsufficientFunds)
  {
  }

  /** Any repayment above what remains is refused when the card can cover it. */
  lemma OverRepaymentRefused(s: Snapshot, debtId: int, req: RepayRequest, clock: Clock)
    requires FindDebt(s.debts, debtId) >= 0
    requires req.selectedCard.Some? && FindCard(s.cards, req.selectedCard.value) >= 0
    requires var amt := req.amount.ToNumber();
      && amt > Remaining(s.debts[FindDebt(s.debts, debtId)])
      && amt > 0.0
      && amt <= s.cards[FindCard(s.cards, req.selectedCard.value)].balance
    ensures Repay(s, debtId, req, clock).1 == Rejected(ExceedsRemaining)
    ensures Repay(s, debtId, req, clock).0.cards == s.cards
    ensures Repay(s, debtId, req, clock).0.debts == s.debts
  {
  }

  /** Card balance 100, debt 150 paid of 200: repaying 40 succeeds, leaving 60
      on the card and 190 paid. */
  lemma RepayScenario(clock: Clock)
    ensures var card := Card(1, Visa, "**** **** **** 1111", "main", None, 100.0, Some("main"));
      var debt := Debt(9, "loan", 200.0, 150.0, "", "", "", "");
      var s := Snapshot([card], [], [debt], [], [], []);
      var r := Repay(s, 9, RepayRequest(Entered(40.0), "", Some(1)), clock);
      && r.1 == Done
      && r.0.cards[0].balance == 60.0
      && r.0.debts[0].paidAmount == 190.0
      && r.0.debtHistory[0].status == Succeeded
  {
  }
}
