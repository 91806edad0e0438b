/** The transactions page: the add/edit and delete handlers, the card filter,
    and the card name and status shown on each row. */
module Transactions {
  import opened Base
  import opened Dates
  import opened Records
  import Crud

  /** The transaction form; `cardId` is the already-converted `Number(form.cardId)`. */
  datatype TxForm = TxForm(cardId: int, txType: TxType, amount: Field, date: Date, note: string)

  /** `{...tx, ...form, amount: Number(..), cardId: Number(..)}`: the id and the
      optional `category` and `status` fields are kept. */
  function Overlay(t: Transaction, f: TxForm): Transaction {
    t.(cardId := f.cardId, txType := f.txType, amount := f.amount.ToNumber(), date := f.date,
       note := f.note)
  }

  /** `handleAddOrEdit`: rewrite the transactions carrying `editId`, or append one. */
  function SaveTransaction(txs: seq<Transaction>, editId: Option<int>, newId: int, form: TxForm)
    : (r: seq<Transaction>)
    ensures editId.None? ==>
      && |r| == |txs| + 1 && r[..|txs|] == txs
      && r[|txs|] == Transaction(newId, form.cardId, form.txType, form.amount.ToNumber(), form.date,
                                 form.note, None, None)
    ensures editId.Some? ==>
      && |r| == |txs|
      && (forall i :: 0 <= i < |txs| && txs[i].id != editId.value ==> r[i] == txs[i])
      && (forall i :: 0 <= i < |txs| && txs[i].id == editId.value ==>
            && r[i].id == txs[i].id && r[i].category == txs[i].category
            && r[i].status == txs[i].status
            && r[i].cardId == form.cardId && r[i].txType == form.txType
            && r[i].amount == form.amount.ToNumber() && r[i].date == form.date
            && r[i].note == form.note)
  {
    match editId
    case Some(e) => Crud.UpdateWhere(txs, TransactionIdOf, e, t => Overlay(t, form))
    case None =>
      txs + [Transaction(newId, form.cardId, form.txType, form.amount.ToNumber(), form.date,
                         form.note, None, None)]
  }

  /** `handleDelete`. */
  function DeleteTransaction(txs: seq<Transaction>, id: int): (r: seq<Transaction>)
    ensures forall i :: 0 <= i < |r| ==> r[i].id != id && r[i] in txs
    ensures forall i :: 0 <= i < |txs| && txs[i].id != id ==> txs[i] in r
  {
    Crud.RemoveId(txs, TransactionIdOf, id)
  }

  function OnCard(cardId: int): Transaction -> bool {
    (t: Transaction) => t.cardId == cardId
  }

  /** The card filter: everything when no card is chosen, else the chosen
      card's transactions in their original order. */
  function FilterByCard(txs: seq<Transaction>, filter: Option<int>): (r: seq<Transaction>)
    ensures filter.None? ==> r == txs
    ensures filter.Some? ==>
      && (forall i :: 0 <= i < |r| ==> r[i].cardId == filter.value && r[i] in txs)
      && (forall i :: 0 <= i < |txs| && txs[i].cardId == filter.value ==> txs[i] in r)
  {
    match filter
    case None => txs
    case Some(c) => Crud.Filter(txs, OnCard(c))
  }

  /** Filtering keeps the order: it acts on each part of the list separately,
      and a list of one card's transactions passes its own filter whole. */
  lemma FilterByCardKeepsOrder(a: seq<Transaction>, b: seq<Transaction>, c: int)
    ensures FilterByCard(a + b, Some(c)) == FilterByCard(a, Some(c)) + FilterByCard(b, Some(c))
    ensures (forall i :: 0 <= i < |a| ==> a[i].cardId == c) ==> FilterByCard(a, Some(c)) == a
  {
    Crud.FilterConcat(a, b, OnCard(c));
    if forall i :: 0 <= i < |a| ==> a[i].cardId == c {
      Crud.FilterKeepsAll(a, OnCard(c));
    }
  }

  const UnknownCard: string := "Unknown"

  /** The card column: the nickname of the first card with the transaction's
      card id, or 'Unknown' when there is none or its nickname is empty. */
  function CardLabel(cards: seq<Card>, t: Transaction): (r: string)
    ensures var i := Crud.FindIndex(cards, CardIdOf, t.cardId);
      && (i < 0 ==> r == UnknownCard)
      && (i >= 0 && cards[i].nickname != "" ==> r == cards[i].nickname)
      && (i >= 0 && cards[i].nickname == "" ==> r == UnknownCard)
    ensures (forall i :: 0 <= i < |cards| ==> cards[i].id != t.cardId) ==> r == UnknownCard
  {
    var i := Crud.FindIndex(cards, CardIdOf, t.cardId);
    if i >= 0 && cards[i].nickname != "" then cards[i].nickname else UnknownCard
  }

  /** The status column: Failed exactly for status 'failed'. */
  function StatusLabel(t: Transaction): (r: string)
    ensures r == "Failed" <==> t.status == Some("failed")
    ensures r != "Failed" ==> r == "Succeeded"
  {
    if t.status == Some("failed") then "Failed" else "Succeeded"
  }
}
