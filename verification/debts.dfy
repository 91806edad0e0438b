/** The debts list page: adding, editing and deleting debts, the repaid
    percentage on each tile and the masked creditor card. */
module Debts {
  import opened Base
  import opened Money
  import opened Records
  import DebtDetail
  import Crud

  datatype DebtForm = DebtForm(
    name: string,
    totalAmount: Field,
    paidAmount: Field,
    dueDate: string,
    note: string,
    creditor: string,
    creditorCard: string)

  /** `{...debt, ...form, totalAmount: Number(..), paidAmount: Number(..)}`. */
  function Overlay(d: Debt, f: DebtForm): Debt {
    d.(name := f.name, totalAmount := f.totalAmount.ToNumber(), paidAmount := f.paidAmount.ToNumber(),
       dueDate := f.dueDate, note := f.note, creditor := f.creditor, creditorCard := f.creditorCard)
  }

  /** `handleAddOrEdit`: rewrite the debts carrying `editId`, or append one debt
      with id `newId`. Nothing is validated: paid may exceed total. */
  function SaveDebt(debts: seq<Debt>, editId: Option<int>, newId: int, form: DebtForm): (r: seq<Debt>)
    ensures editId.None? ==>
      && |r| == |debts| + 1 && r[..|debts|] == debts
      && r[|debts|].id == newId
      && r[|debts|].totalAmount == form.totalAmount.ToNumber()
      && r[|debts|].paidAmount == form.paidAmount.ToNumber()
      && r[|debts|] == Overlay(r[|debts|], form)
    ensures editId.Some? ==>
      && |r| == |debts|
      && (forall i :: 0 <= i < |debts| && debts[i].id != editId.value ==> r[i] == debts[i])
      && (forall i :: 0 <= i < |debts| && debts[i].id == editId.value ==>
            && r[i].id == debts[i].id
            && r[i].totalAmount == form.totalAmount.ToNumber()
            && r[i].paidAmount == form.paidAmount.ToNumber()
            && r[i].name == form.name && r[i].dueDate == form.dueDate && r[i].note == form.note
            && r[i].creditor == form.creditor && r[i].creditorCard == form.creditorCard)
  {
    match editId
    case Some(e) => Crud.UpdateWhere(debts, DebtIdOf, e, d => Overlay(d, form))
    case None =>
      debts + [Debt(newId, form.name, form.totalAmount.ToNumber(), form.paidAmount.ToNumber(),
                    form.dueDate, form.note, form.creditor, form.creditorCard)]
  }

  /** Adding does not enforce paid <= total: a debt paid beyond its total can be
      created. */
  lemma SaveDebtDoesNotBoundPaid()
    ensures var d := SaveDebt([], None, 1, DebtForm("loan", Entered(100.0), Entered(250.0), "", "", "", ""))[0];
      d.paidAmount > d.totalAmount
  {
  }

  /** `handleDelete`. */
  function DeleteDebt(debts: seq<Debt>, id: int): (r: seq<Debt>)
    ensures forall i :: 0 <= i < |r| ==> r[i].id != id && r[i] in debts
    ensures forall i :: 0 <= i < |debts| && debts[i].id != id ==> debts[i] in r
  {
    Crud.RemoveId(debts, DebtIdOf, id)
  }

  /** Deleting preserves the order of the remaining debts: the filter acts on
      each part of the list separately. */
  lemma DeleteDebtKeepsOrder(a: seq<Debt>, b: seq<Debt>, id: int)
    ensures DeleteDebt(a + b, id) == DeleteDebt(a, id) + DeleteDebt(b, id)
  {
    Crud.FilterConcat(a, b, Crud.NotId(DebtIdOf, id));
  }

  /** The tile's percentage: `Math.min(100, Math.round(paid / total * 100))`,
      with no guard against a zero total: a positive paid amount over a zero
      total shows 100. */
  function TilePercent(d: Debt): int
    requires d.totalAmount != 0.0 || d.paidAmount > 0.0
  {
    CappedPercent(d.paidAmount, d.totalAmount)
  }

  /** The tile caps what the detail page does not: they agree up to 100. */
  lemma TilePercentVersusDetail(d: Debt)
    requires d.totalAmount > 0.0
    ensures TilePercent(d) <= 100
    ensures TilePercent(d) == Min(100, DebtDetail.Percent(d))
    ensures d.paidAmount >= 0.0 ==> TilePercent(d) >= 0
  {
    CappedPercentRange(d.paidAmount, d.totalAmount);
  }

  /** A debt with a zero total and something paid fills its tile, while the
      detail page, which guards against a non-positive total, shows 0. */
  lemma ZeroTotalTile(d: Debt)
    requires d.totalAmount == 0.0 && d.paidAmount > 0.0
    ensures TilePercent(d) == 100
    ensures DebtDetail.Percent(d) == 0
    ensures DebtDetail.Remaining(d) == 0.0
  {
  }

  /** The creditor card line: the mask and the last four characters, or N/A. */
  function CreditorCardLabel(d: Debt): (r: string)
    ensures d.creditorCard == "" <==> r == "N/A"
    ensures d.creditorCard != "" ==>
      && |MaskPrefix| < |r|
      && r[..|MaskPrefix|] == MaskPrefix
      && r[|MaskPrefix|..] == LastFour(d.creditorCard)
      && |r| <= |MaskPrefix| + 4
  {
    if d.creditorCard == "" then "N/A" else Masked(d.creditorCard)
  }
}
