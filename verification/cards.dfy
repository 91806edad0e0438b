/** The cards page: the card-network classifier, the card form's validation
    and masking, adding, editing and deleting cards, adding money to a card,
    and the per-card monthly spend with its budget bar. */
module Cards {
  import opened Base
  import opened Dates
  import opened Money
  import opened Records
  import Crud

  // ---------------------------------------------------------------------------
  // The six card-number patterns, each read literally off its regular
  // expression (anchored at both ends, `[0-9]` is an ASCII digit).
  // ---------------------------------------------------------------------------

  predicate IsDigit(c: char) {
    '0' <= c <= '9'
  }

  predicate AllDigits(s: string) {
    forall i :: 0 <= i < |s| ==> IsDigit(s[i])
  }

  /** `^4[0-9]{12,15}$` */
  predicate VisaPattern(s: string) {
    AllDigits(s) && 13 <= |s| <= 16 && s[0] == '4'
  }

  /** `^5[1-5][0-9]{14}$|^2(2[2-9][0-9]{12}|2[3-9][0-9]{13}|[3-6][0-9]{14}|7[01][0-9]{13}|720[0-9]{12})$` */
  predicate MasterCardPattern(s: string) {
    && AllDigits(s)
    && (|| (|s| == 16 && s[0] == '5' && '1' <= s[1] <= '5')
        || (|s| == 15 && s[0] == '2' && s[1] == '2' && '2' <= s[2] <= '9')
        || (|s| == 16 && s[0] == '2' && s[1] == '2' && '3' <= s[2] <= '9')
        || (|s| == 16 && s[0] == '2' && '3' <= s[1] <= '6')
        || (|s| == 16 && s[0] == '2' && s[1] == '7' && (s[2] == '0' || s[2] == '1'))
        || (|s| == 16 && s[0] == '2' && s[1] == '7' && s[2] == '2' && s[3] == '0'))
  }

  /** `^3[47][0-9]{13}$` */
  predicate AmexPattern(s: string) {
    AllDigits(s) && |s| == 15 && s[0] == '3' && (s[1] == '4' || s[1] == '7')
  }

  /** `^6(?:011|5[0-9]{2})[0-9]{12}$` */
  predicate DiscoverPattern(s: string) {
    && AllDigits(s) && |s| == 16 && s[0] == '6'
    && ((s[1] == '0' && s[2] == '1' && s[3] == '1') || s[1] == '5')
  }

  /** `^35(2[89]|[3-8][0-9])[0-9]{12}$` */
  predicate JcbPattern(s: string) {
    && AllDigits(s) && |s| == 16 && s[0] == '3' && s[1] == '5'
    && ((s[2] == '2' && (s[3] == '8' || s[3] == '9')) || '3' <= s[2] <= '8')
  }

  const MezaPrefixes: set<string> := {"5018", "5020", "5038", "6304", "6759", "6761", "6763"}

  /** `^(5018|5020|5038|6304|6759|6761|6763)[0-9]{8,15}$` */
  predicate MezaPattern(s: string) {
    AllDigits(s) && 12 <= |s| <= 19 && s[..4] in MezaPrefixes
  }

  /** The pattern a network's label is assigned on. */
  predicate Matches(n: Network, s: string) {
    match n
    case Visa => VisaPattern(s)
    case MasterCard => MasterCardPattern(s)
    case AmericanExpress => AmexPattern(s)
    case Discover => DiscoverPattern(s)
    case Jcb => JcbPattern(s)
    case Meza => MezaPattern(s)
    case Unknown => false
  }

  /** `detectCardType`: the first pattern that matches, in the order Visa,
      MasterCard, American Express, Discover, JCB, MEZA; otherwise Unknown. */
  function DetectCardType(s: string): (n: Network)
    ensures n == Visa <==> VisaPattern(s)
    ensures n == MasterCard <==> !VisaPattern(s) && MasterCardPattern(s)
    ensures n != Unknown ==> Matches(n, s)
    ensures n == Unknown <==>
      !VisaPattern(s) && !MasterCardPattern(s) && !AmexPattern(s)
      && !DiscoverPattern(s) && !JcbPattern(s) && !MezaPattern(s)
  {
    if VisaPattern(s) then Visa
    else if MasterCardPattern(s) then MasterCard
    else if AmexPattern(s) then AmericanExpress
    else if DiscoverPattern(s) then Discover
    else if JcbPattern(s) then Jcb
    else if MezaPattern(s) then Meza
    else Unknown
  }

  /** No number matches two patterns, so the order of the tests never decides
      the label. */
  lemma PatternsDisjoint(s: string, a: Network, b: Network)
    requires Matches(a, s) && Matches(b, s)
    ensures a == b
  {
    if |s| >= 4 && s[..4] in MezaPrefixes {
      assert s[0] == s[..4][0] && s[1] == s[..4][1];
    }
  }

  /** Hence the label is `n` exactly when `n`'s own pattern matches. */
  lemma DetectCardTypeExact(s: string, n: Network)
    requires n != Unknown
    ensures DetectCardType(s) == n <==> Matches(n, s)
  {
    var d := DetectCardType(s);
    if Matches(n, s) && d != Unknown {
      PatternsDisjoint(s, d, n);
    }
  }

  // ---------------------------------------------------------------------------
  // The patterns as numeric prefix ranges.
  // ---------------------------------------------------------------------------

  function DigitValue(c: char): int {
    c as int - '0' as int
  }

  /** The number formed by the first `k` characters of a digit string. */
  function Lead(s: string, k: nat): int
    requires k <= |s|
  {
    if k == 0 then 0 else 10 * Lead(s, k - 1) + DigitValue(s[k - 1])
  }

  lemma LeadUnfold(s: string)
    requires |s| >= 4 && AllDigits(s)
    ensures Lead(s, 1) == DigitValue(s[0])
    ensures Lead(s, 2) == 10 * DigitValue(s[0]) + DigitValue(s[1])
    ensures Lead(s, 3) == 100 * DigitValue(s[0]) + 10 * DigitValue(s[1]) + DigitValue(s[2])
    ensures Lead(s, 4) == 1000 * DigitValue(s[0]) + 100 * DigitValue(s[1]) + 10 * DigitValue(s[2]) + DigitValue(s[3])
    ensures forall i :: 0 <= i < 4 ==> 0 <= DigitValue(s[i]) <= 9
  {
  }

  lemma VisaRange(s: string)
    requires AllDigits(s) && |s| >= 4
    ensures VisaPattern(s) <==> 13 <= |s| <= 16 && Lead(s, 1) == 4
  {
    LeadUnfold(s);
  }

  /** The MasterCard expression taken literally: 16 digits from 51-55, 15 digits
      from 222-229, or 16 digits from 2230-2720. A 16-digit number from
      2221-2229 is not accepted, although the form's error message names
      2221-2720. */
  lemma MasterCardRange(s: string)
    requires AllDigits(s) && |s| >= 4
    ensures MasterCardPattern(s) <==>
      || (|s| == 16 && 51 <= Lead(s, 2) <= 55)
      || (|s| == 15 && 222 <= Lead(s, 3) <= 229)
      || (|s| == 16 && 2230 <= Lead(s, 4) <= 2720)
  {
    LeadUnfold(s);
  }

  /** Concrete numbers on either side of the MasterCard expression's gap. */
  lemma MasterCardGapExamples()
    ensures DetectCardType("2221000000000000") == Unknown
    ensures DetectCardType("222100000000000") == MasterCard
    ensures DetectCardType("2230000000000000") == MasterCard
    ensures DetectCardType("2720999999999999") == MasterCard
    ensures DetectCardType("2721000000000000") == Unknown
  {
    var a := "2221000000000000";
    assert a[0] == '2' && a[1] == '2' && a[2] == '2' && |a| == 16;
    var b := "222100000000000";
    assert b[0] == '2' && b[1] == '2' && b[2] == '2' && |b| == 15;
    var c := "2230000000000000";
    assert c[0] == '2' && c[1] == '2' && c[2] == '3' && |c| == 16;
    var d := "2720999999999999";
    assert d[0] == '2' && d[1] == '7' && d[2] == '2' && d[3] == '0' && |d| == 16;
    var e := "2721000000000000";
    assert e[0] == '2' && e[1] == '7' && e[2] == '2' && e[3] == '1' && |e| == 16;
    assert e[..4] == "2721";
    assert a[..4] == "2221";
  }

  lemma AmexRange(s: string)
    requires AllDigits(s) && |s| >= 4
    ensures AmexPattern(s) <==> |s| == 15 && (Lead(s, 2) == 34 || Lead(s, 2) == 37)
  {
    LeadUnfold(s);
  }

  lemma DiscoverRange(s: string)
    requires AllDigits(s) && |s| >= 4
    ensures DiscoverPattern(s) <==> |s| == 16 && (Lead(s, 4) == 6011 || Lead(s, 2) == 65)
  {
    LeadUnfold(s);
  }

  lemma JcbRange(s: string)
    requires AllDigits(s) && |s| >= 4
    ensures JcbPattern(s) <==> |s| == 16 && 3528 <= Lead(s, 4) <= 3589
  {
    LeadUnfold(s);
  }

  lemma MezaRange(s: string)
    requires AllDigits(s) && |s| >= 4
    ensures MezaPattern(s) <==>
      12 <= |s| <= 19 && Lead(s, 4) in {5018, 5020, 5038, 6304, 6759, 6761, 6763}
  {
    LeadUnfold(s);
    var p := s[..4];
    assert p == [s[0], s[1], s[2], s[3]];
  }

  // ---------------------------------------------------------------------------
  // The card form.
  // ---------------------------------------------------------------------------

  datatype CardError =
    | InvalidCardNumber
    | InvalidVisaNumber
    | InvalidMasterCardNumber
    | InvalidBudget
    | InvalidAmount

  datatype CardForm = CardForm(number: string, nickname: string, monthlyBudget: Field)

  /** The submit checks in their order: an Unknown number, the Visa re-check,
      the MasterCard re-check, then a filled-in budget below zero. */
  function ValidateCard(form: CardForm): (r: Result<Network, CardError>)
    ensures r.Success? ==> r.value == DetectCardType(form.number) && r.value != Unknown
  {
    var n := DetectCardType(form.number);
    if n == Unknown then Failure(InvalidCardNumber)
    else if n == Visa && !VisaPattern(form.number) then Failure(InvalidVisaNumber)
    else if n == MasterCard && !MasterCardPattern(form.number) then Failure(InvalidMasterCardNumber)
    else if form.monthlyBudget.IsFilled() && form.monthlyBudget.value < 0.0 then Failure(InvalidBudget)
    else Success(n)
  }

  /** The Visa and MasterCard re-checks repeat the expression that produced the
      label, so they never fire: the form is refused exactly when the number is
      Unknown or a filled-in budget is negative. */
  lemma ValidateCardRejectsIff(form: CardForm)
    ensures ValidateCard(form).Failure? <==>
      DetectCardType(form.number) == Unknown
      || (form.monthlyBudget.IsFilled() && form.monthlyBudget.value < 0.0)
    ensures ValidateCard(form).Failure? ==>
      ValidateCard(form).error in {InvalidCardNumber, InvalidBudget}
    ensures ValidateCard(form).Failure? && DetectCardType(form.number) != Unknown ==>
      ValidateCard(form).error == InvalidBudget
  {
  }

  /** The stored budget: none for an empty field, else its value (so "0" is
      stored as 0). */
  function StoredBudget(f: Field): (b: Option<real>)
    ensures b.None? <==> f == Blank
    ensures b.Some? ==> b.value == f.ToNumber()
  {
    if f.IsFilled() then Some(f.value) else None
  }

  /** Every card number that passes validation is long enough to mask, and the
      mask keeps only its last four digits: no other input digit is stored. */
  lemma MaskKeepsLastFour(form: CardForm)
    requires ValidateCard(form).Success?
    ensures |form.number| >= 12
    ensures Masked(form.number) == MaskPrefix + form.number[|form.number| - 4..]
    ensures |Masked(form.number)| == |MaskPrefix| + 4
    ensures forall i :: 0 <= i < |MaskPrefix| ==> !IsDigit(Masked(form.number)[i])
  {
  }

  /** The record an edit writes over a matching card: new label, mask,
      nickname and budget; id, balance and name are kept. */
  function Overwrite(c: Card, n: Network, form: CardForm): Card {
    c.(network := n, number := Masked(form.number), nickname := form.nickname,
       monthlyBudget := StoredBudget(form.monthlyBudget))
  }

  /** `handleAddOrEditCard`: validate, then either rewrite the cards carrying
      `editId` or append one new card with id `newId`. A refused form leaves
      the list untouched. */
  function SaveCard(cards: seq<Card>, editId: Option<int>, newId: int, form: CardForm)
    : (r: Result<seq<Card>, CardError>)
    ensures r.Failure? <==> ValidateCard(form).Failure?
    ensures r.Failure? ==> r.error == ValidateCard(form).error
    ensures r.Success? && editId.None? ==>
      && |r.value| == |cards| + 1
      && r.value[..|cards|] == cards
      && r.value[|cards|] == Card(newId, DetectCardType(form.number), Masked(form.number),
                                  form.nickname, StoredBudget(form.monthlyBudget), 0.0, None)
    ensures r.Success? && editId.Some? ==>
      && |r.value| == |cards|
      && (forall i :: 0 <= i < |cards| && cards[i].id != editId.value ==> r.value[i] == cards[i])
      && (forall i :: 0 <= i < |cards| && cards[i].id == editId.value ==>
            && r.value[i].id == cards[i].id
            && r.value[i].balance == cards[i].balance
            && r.value[i].name == cards[i].name
            && r.value[i].network == DetectCardType(form.number)
            && r.value[i].number == Masked(form.number)
            && r.value[i].nickname == form.nickname
            && r.value[i].monthlyBudget == StoredBudget(form.monthlyBudget))
  {
    match ValidateCard(form)
    case Failure(e) => Failure(e)
    case Success(n) =>
      match editId
      case Some(e) =>
        Success(Crud.UpdateWhere(cards, CardIdOf, e, c => Overwrite(c, n, form)))
      case None =>
        Success(cards + [Card(newId, n, Masked(form.number), form.nickname,
                              StoredBudget(form.monthlyBudget), 0.0, None)])
  }

  /** A card is well formed when its label is a known network, its number is a
      mask and its budget, if any, is not negative. */
  predicate WellFormed(c: Card) {
    && c.network != Unknown
    && |c.number| == |MaskPrefix| + 4 && c.number[..|MaskPrefix|] == MaskPrefix
    && (c.monthlyBudget.Some? ==> c.monthlyBudget.value >= 0.0)
  }

  /** Saving a card keeps every card of the list well formed. */
  lemma SaveCardKeepsWellFormed(cards: seq<Card>, editId: Option<int>, newId: int, form: CardForm)
    requires forall i :: 0 <= i < |cards| ==> WellFormed(cards[i])
    requires SaveCard(cards, editId, newId, form).Success?
    ensures var r := SaveCard(cards, editId, newId, form).value;
      forall i :: 0 <= i < |r| ==> WellFormed(r[i])
  {
    var r := SaveCard(cards, editId, newId, form).value;
    MaskKeepsLastFour(form);
    var m := Masked(form.number);
    assert m[..|MaskPrefix|] == MaskPrefix;
    forall i | 0 <= i < |r|
      ensures WellFormed(r[i])
    {
      if i < |cards| && (editId.None? || cards[i].id != editId.value) {
        assert r[i] == cards[i];
      }
    }
  }

  /** `handleDelete`: drop the cards carrying the id, keeping the others in order. */
  function DeleteCard(cards: seq<Card>, id: int): (r: seq<Card>)
    ensures forall i :: 0 <= i < |r| ==> r[i].id != id && r[i] in cards
    ensures forall i :: 0 <= i < |cards| && cards[i].id != id ==> cards[i] in r
  {
    Crud.RemoveId(cards, CardIdOf, id)
  }

  // ---------------------------------------------------------------------------
  // Adding money and the monthly spend.
  // ---------------------------------------------------------------------------

  datatype MoneyForm = MoneyForm(amount: Field, note: string)

  const DefaultDepositNote: string := "Manual deposit"

  /** `handleAddMoney` with `addDepositTransaction`: refuse an empty or
      non-positive amount, else append one Deposit for the card. */
  function AddMoney(txs: seq<Transaction>, cardId: int, form: MoneyForm, newId: int, today: Date)
    : (r: Result<seq<Transaction>, CardError>)
    ensures r.Failure? <==> form.amount == Blank || form.amount.value <= 0.0
    ensures r.Failure? ==> r.error == InvalidAmount
    ensures r.Success? ==>
      && |r.value| == |txs| + 1
      && r.value[..|txs|] == txs
      && var t := r.value[|txs|];
         && t.id == newId && t.cardId == cardId && t.txType == Deposit
         && t.amount == form.amount.value && t.amount > 0.0 && t.date == today
         && t.note == (if form.note == "" then DefaultDepositNote else form.note)
  {
    if !form.amount.IsFilled() || form.amount.value <= 0.0 then Failure(InvalidAmount)
    else
      Success(txs + [Transaction(newId, cardId, Deposit, form.amount.value, today,
                                 if form.note == "" then DefaultDepositNote else form.note,
                                 None, None)])
  }

  /** The amount a transaction adds to a card's spend in a month. */
  function SpendTerm(cardId: int, month: int, year: int): Transaction -> real {
    (t: Transaction) => if t.cardId == cardId && t.txType == Withdrawal && InMonth(t.date, month, year)
         then t.amount else 0.0
  }

  /** `getCardMonthlySpending`: the card's Withdrawals dated in the month. */
  function MonthlySpend(txs: seq<Transaction>, cardId: int, month: int, year: int): real {
    SumOf(txs, SpendTerm(cardId, month, year))
  }

  /** The spend grows by exactly the new transaction's amount when it is a
      Withdrawal of the card in the month, and is unchanged otherwise. */
  lemma MonthlySpendAppend(txs: seq<Transaction>, t: Transaction, cardId: int, month: int, year: int)
    ensures MonthlySpend(txs + [t], cardId, month, year) ==
      MonthlySpend(txs, cardId, month, year)
      + (if t.cardId == cardId && t.txType == Withdrawal && InMonth(t.date, month, year)
         then t.amount else 0.0)
  {
    SumOfAppend(txs, [t], SpendTerm(cardId, month, year));
    SumOfSingle(t, SpendTerm(cardId, month, year));
  }

  lemma MonthlySpendNonNegative(txs: seq<Transaction>, cardId: int, month: int, year: int)
    requires forall i :: 0 <= i < |txs| ==> txs[i].amount >= 0.0
    ensures MonthlySpend(txs, cardId, month, year) >= 0.0
  {
    var f := SpendTerm(cardId, month, year);
    forall i | 0 <= i < |txs| ensures f(txs[i]) >= 0.0 {}
    SumOfNonNegative(txs, f);
  }

  /** The only transactions the pages create are the Deposits of "add money",
      and those leave every card's monthly spend at zero. */
  lemma DepositsSpendNothing(txs: seq<Transaction>, cardId: int, month: int, year: int)
    requires forall i :: 0 <= i < |txs| ==> txs[i].txType != Withdrawal
    ensures MonthlySpend(txs, cardId, month, year) == 0.0
  {
    var f := SpendTerm(cardId, month, year);
    forall i | 0 <= i < |txs| ensures f(txs[i]) == 0.0 {}
    SumOfZeros(txs, f);
  }

  /** Adding money never changes any card's monthly spend. */
  lemma AddMoneyKeepsSpend(txs: seq<Transaction>, cardId: int, form: MoneyForm, newId: int,
                           today: Date, anyCard: int, month: int, year: int)
    requires AddMoney(txs, cardId, form, newId, today).Success?
    ensures MonthlySpend(AddMoney(txs, cardId, form, newId, today).value, anyCard, month, year)
         == MonthlySpend(txs, anyCard, month, year)
  {
    var r := AddMoney(txs, cardId, form, newId, today).value;
    assert r == txs + [r[|txs|]];
    MonthlySpendAppend(txs, r[|txs|], anyCard, month, year);
  }

  /** `card.monthlyBudget || 0`: a missing budget and a zero budget both read as 0. */
  function BudgetOf(c: Card): real {
    c.monthlyBudget.GetOr(0.0)
  }

  /** `budget && spending > budget`. */
  predicate OverBudget(c: Card, spend: real) {
    BudgetOf(c) != 0.0 && spend > BudgetOf(c)
  }

  /** `percent`: the rounded spend as a share of the budget, capped at 100, or
      0 without a budget. It only picks the bar's colour. */
  function BudgetBarPercent(c: Card, spend: real): int {
    if BudgetOf(c) != 0.0 then CappedPercent(spend, BudgetOf(c)) else 0
  }

  /** Over budget means a budget is set and the spend exceeds it; a card over a
      positive budget has a rounded percentage of 100, and one without a
      budget a percentage of 0 and never counts as over. */
  lemma OverBudgetFacts(c: Card, spend: real)
    ensures OverBudget(c, spend) <==>
      c.monthlyBudget.Some? && c.monthlyBudget.value != 0.0 && spend > c.monthlyBudget.value
    ensures BudgetOf(c) == 0.0 ==> BudgetBarPercent(c, spend) == 0 && !OverBudget(c, spend)
    ensures BudgetOf(c) > 0.0 ==> BudgetBarPercent(c, spend) <= 100
    ensures BudgetOf(c) > 0.0 && spend >= 0.0 ==> BudgetBarPercent(c, spend) >= 0
    ensures BudgetOf(c) > 0.0 && OverBudget(c, spend) ==> BudgetBarPercent(c, spend) == 100
  {
    if BudgetOf(c) > 0.0 {
      CappedPercentRange(spend, BudgetOf(c));
    }
  }

  datatype BarColour = Red | Amber | Blue

  /** The bar under a card: none without a budget; otherwise its width, the
      unrounded `Math.min(100, spending / budget * 100)` percent, and its
      colour, red when over budget, amber when `percent > 80`, blue otherwise. */
  datatype BudgetBar = NoBar | Bar(width: real, colour: BarColour)

  function BarOf(c: Card, spend: real): BudgetBar {
    if BudgetOf(c) == 0.0 then NoBar
    else
      var raw := spend / BudgetOf(c) * 100.0;
      Bar(MinReal(100.0, raw),
          if OverBudget(c, spend) then Red
          else if BudgetBarPercent(c, spend) > 80 then Amber
          else Blue)
  }

  /** A bar is drawn exactly when the card has a budget. Against a positive
      budget the bar is full exactly when the spend reaches the budget, red
      exactly when it exceeds it, and amber exactly when it is not over and the
      unrounded share is at least 80.5 percent, which `Math.round` lifts above
      80. */
  lemma BarFacts(c: Card, spend: real)
    ensures BarOf(c, spend).NoBar? <==> BudgetOf(c) == 0.0
    ensures BudgetOf(c) > 0.0 ==>
      var b := BarOf(c, spend);
      var raw := spend / BudgetOf(c) * 100.0;
      && b.width <= 100.0
      && (spend >= 0.0 ==> b.width >= 0.0)
      && (b.width == 100.0 <==> spend >= BudgetOf(c))
      && (b.colour == Red <==> spend > BudgetOf(c))
      && (b.colour == Amber <==> spend <= BudgetOf(c) && raw >= 80.5)
  {
    if BudgetOf(c) > 0.0 {
      var w := BudgetOf(c);
      var raw := spend / w * 100.0;
      ShareReachesWhole(spend, w);
      RoundAbove80(raw);
      assert BudgetBarPercent(c, spend) == Min(100, Round(raw));
    }
  }

  /** The share is 100 percent or more exactly when the spend reaches the
      budget. */
  lemma ShareReachesWhole(part: real, whole: real)
    requires whole > 0.0
    ensures part / whole * 100.0 >= 100.0 <==> part >= whole
    ensures part >= 0.0 ==> part / whole * 100.0 >= 0.0
  {
    QuotientBounds(part, whole);
    if part / whole >= 1.0 {
      assert part == part / whole * whole;
    }
  }

  /** `Math.round(x) > 80` exactly when x is at least 80.5. */
  lemma RoundAbove80(x: real)
    ensures Round(x) > 80 <==> x >= 80.5
  {
  }
}
