/** The investments page: adding, editing and deleting investments. */
module Investments {
  import opened Base
  import opened Records
  import Crud

  datatype InvestmentForm = InvestmentForm(
    name: string,
    amount: Field,
    interestRate: Field,
    maturityDate: string,
    note: string,
    monthlyIncome: Field)

  /** `form.monthlyIncome ? Number(form.monthlyIncome) : 0`. */
  function MonthlyIncome(f: InvestmentForm): (m: real)
    ensures f.monthlyIncome == Blank ==> m == 0.0
    ensures f.monthlyIncome.IsFilled() ==> m == f.monthlyIncome.value
  {
    if f.monthlyIncome.IsFilled() then f.monthlyIncome.value else 0.0
  }

  function Overlay(v: Investment, f: InvestmentForm): Investment {
    v.(name := f.name, amount := f.amount.ToNumber(), interestRate := f.interestRate.ToNumber(),
       maturityDate := f.maturityDate, note := f.note, monthlyIncome := MonthlyIncome(f))
  }

  /** `handleAddOrEdit`: rewrite the investments carrying `editId`, or append one. */
  function SaveInvestment(invs: seq<Investment>, editId: Option<int>, newId: int, form: InvestmentForm)
    : (r: seq<Investment>)
    ensures editId.None? ==>
      && |r| == |invs| + 1 && r[..|invs|] == invs
      && r[|invs|].id == newId
      && r[|invs|].amount == form.amount.ToNumber()
      && r[|invs|].interestRate == form.interestRate.ToNumber()
      && r[|invs|].monthlyIncome == (if form.monthlyIncome == Blank then 0.0 else form.monthlyIncome.value)
      && r[|invs|].name == form.name && r[|invs|].maturityDate == form.maturityDate
      && r[|invs|].note == form.note
    ensures editId.Some? ==>
      && |r| == |invs|
      && (forall i :: 0 <= i < |invs| && invs[i].id != editId.value ==> r[i] == invs[i])
      && (forall i :: 0 <= i < |invs| && invs[i].id == editId.value ==>
            && r[i].id == invs[i].id
            && r[i].amount == form.amount.ToNumber()
            && r[i].interestRate == form.interestRate.ToNumber()
            && r[i].monthlyIncome == (if form.monthlyIncome == Blank then 0.0 else form.monthlyIncome.value)
            && r[i].name == form.name && r[i].maturityDate == form.maturityDate
            && r[i].note == form.note)
  {
    match editId
    case Some(e) => Crud.UpdateWhere(invs, InvestmentIdOf, e, v => Overlay(v, form))
    case None =>
      invs + [Investment(newId, form.name, form.amount.ToNumber(), form.interestRate.ToNumber(),
                         form.maturityDate, form.note, MonthlyIncome(form))]
  }

  /** `handleDelete`. */
  function DeleteInvestment(invs: seq<Investment>, id: int): (r: seq<Investment>)
    ensures forall i :: 0 <= i < |r| ==> r[i].id != id && r[i] in invs
    ensures forall i :: 0 <= i < |invs| && invs[i].id != id ==> invs[i] in r
  {
    Crud.RemoveId(invs, InvestmentIdOf, id)
  }
}
