/** The goals list page: adding, editing and deleting goals, its card-less
    deposit/withdraw dialog, and the progress figures on each goal tile. */
module Goals {
  import opened Base
  import opened Money
  import opened Records
  import opened Ledger
  import GoalDetail
  import Crud

  datatype GoalForm = GoalForm(
    name: string,
    targetAmount: Field,
    currentAmount: Field,
    deadline: string,
    note: string)

  /** `{...goal, ...form, targetAmount: Number(..), currentAmount: Number(..)}`:
      the form's fields over the goal; the id and `savedAmount` are kept. */
  function Overlay(g: Goal, f: GoalForm): Goal {
    g.(name := f.name, targetAmount := f.targetAmount.ToNumber(),
       currentAmount := f.currentAmount.ToNumber(), deadline := f.deadline, note := f.note)
  }

  /** `handleAddOrEdit`: rewrite the goals carrying `editId`, or append one goal
      with id `newId`. Nothing is validated. */
  function SaveGoal(goals: seq<Goal>, editId: Option<int>, newId: int, form: GoalForm): (r: seq<Goal>)
    ensures editId.None? ==>
      && |r| == |goals| + 1 && r[..|goals|] == goals
      && r[|goals|].id == newId && r[|goals|].savedAmount.None?
      && r[|goals|].name == form.name && r[|goals|].deadline == form.deadline
      && r[|goals|].note == form.note
      && r[|goals|].targetAmount == form.targetAmount.ToNumber()
      && r[|goals|].currentAmount == form.currentAmount.ToNumber()
    ensures editId.Some? ==>
      && |r| == |goals|
      && (forall i :: 0 <= i < |goals| && goals[i].id != editId.value ==> r[i] == goals[i])
      && (forall i :: 0 <= i < |goals| && goals[i].id == editId.value ==>
            && r[i].id == goals[i].id && r[i].savedAmount == goals[i].savedAmount
            && r[i].name == form.name && r[i].deadline == form.deadline && r[i].note == form.note
            && r[i].targetAmount == form.targetAmount.ToNumber()
            && r[i].currentAmount == form.currentAmount.ToNumber())
  {
    match editId
    case Some(e) => Crud.UpdateWhere(goals, GoalIdOf, e, g => Overlay(g, form))
    case None =>
      goals + [Goal(newId, form.name, form.targetAmount.ToNumber(), form.currentAmount.ToNumber(),
                    None, form.deadline, form.note)]
  }

  /** `handleDelete`. */
  function DeleteGoal(goals: seq<Goal>, id: int): (r: seq<Goal>)
    ensures forall i :: 0 <= i < |r| ==> r[i].id != id && r[i] in goals
    ensures forall i :: 0 <= i < |goals| && goals[i].id != id ==> goals[i] in r
  {
    Crud.RemoveId(goals, GoalIdOf, id)
  }

  /** The card-less dialog's effect on one goal: a deposit adds to
      `currentAmount`; a withdrawal above it leaves the goal as it is. */
  function Apply(g: Goal, kind: GoalTransfer, amt: real): Goal {
    if kind == GoalDeposit then g.(currentAmount := g.currentAmount + amt)
    else if amt > g.currentAmount then g
    else g.(currentAmount := g.currentAmount - amt)
  }

  /** `handleTransact` of the list page: refuse a non-positive amount,
      otherwise apply the transfer to the goals carrying the dialog's goal id. */
  function CardlessTransact(goals: seq<Goal>, goalId: int, kind: GoalTransfer, amount: Field)
    : (r: seq<Goal>)
    ensures |r| == |goals|
    ensures amount.ToNumber() <= 0.0 ==> r == goals
    ensures forall i :: 0 <= i < |goals| && goals[i].id != goalId ==> r[i] == goals[i]
    ensures forall i :: 0 <= i < |goals| && goals[i].id == goalId && amount.ToNumber() > 0.0 ==>
      var amt := amount.ToNumber();
      && r[i] == goals[i].(currentAmount := r[i].currentAmount)
      && (kind == GoalDeposit ==> r[i].currentAmount == goals[i].currentAmount + amt)
      && (kind == GoalWithdraw && amt > goals[i].currentAmount ==> r[i] == goals[i])
      && (kind == GoalWithdraw && amt <= goals[i].currentAmount ==>
            r[i].currentAmount == goals[i].currentAmount - amt)
  {
    var amt := amount.ToNumber();
    if amt <= 0.0 then goals
    else Crud.UpdateWhere(goals, GoalIdOf, goalId, g => Apply(g, kind, amt))
  }

  /** `currentAmount` never goes below zero through the dialog. */
  lemma CardlessTransactKeepsNonNegative(goals: seq<Goal>, goalId: int, kind: GoalTransfer, amount: Field)
    requires forall i :: 0 <= i < |goals| ==> goals[i].currentAmount >= 0.0
    ensures var r := CardlessTransact(goals, goalId, kind, amount);
      forall i :: 0 <= i < |r| ==> r[i].currentAmount >= 0.0
  {
  }

  /** The tile's percentage: `Math.min(100, Math.round(saved / target * 100))`.
      There is no guard against a zero target: a positive saved amount over a
      zero target shows 100. */
  function TilePercent(g: Goal): int
    requires g.targetAmount != 0.0 || GoalDetail.Saved(g) > 0.0
  {
    CappedPercent(GoalDetail.Saved(g), g.targetAmount)
  }

  /** For a positive target the tile shows the detail page's percentage,
      which is at most 100, and a goal with nothing remaining shows 100. */
  lemma TileFigures(g: Goal)
    requires g.targetAmount > 0.0
    ensures TilePercent(g) == GoalDetail.Percent(g)
    ensures TilePercent(g) <= 100
    ensures GoalDetail.Saved(g) >= 0.0 ==> TilePercent(g) >= 0
    ensures GoalDetail.Remaining(g) == 0.0 ==> TilePercent(g) == 100
  {
    CappedPercentRange(GoalDetail.Saved(g), g.targetAmount);
  }

  /** A goal with a zero target and something saved fills its tile, while the
      detail page, which guards against a non-positive target, shows 0. */
  lemma ZeroTargetTile(g: Goal)
    requires g.targetAmount == 0.0 && GoalDetail.Saved(g) > 0.0
    ensures TilePercent(g) == 100
    ensures GoalDetail.Percent(g) == 0
    ensures GoalDetail.Remaining(g) == 0.0
  {
  }
}
