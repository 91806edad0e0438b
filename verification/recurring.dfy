/** The recurring-payments page: `detectRecurring` groups the transactions by
    amount, card and type, and reports a group of three or more whose
    successive date gaps all fall in one frequency band. */
module Recurring {
  import opened Base
  import opened Dates
  import opened Records
  import Sorting
  import Crud

  // ---------------------------------------------------------------------------
  // Grouping

  /** The group key `${amount}|${cardId}|${type}`. */
  datatype GroupKey = GroupKey(amount: real, cardId: int, txType: TxType)

  function KeyOf(t: Transaction): GroupKey {
    GroupKey(t.amount, t.cardId, t.txType)
  }

  function HasKey(k: GroupKey): Transaction -> bool {
    (t: Transaction) => KeyOf(t) == k
  }

  /** One entry of the `groups` object: a key and the transactions pushed
      under it. */
  datatype Group = Group(key: GroupKey, members: seq<Transaction>)

  predicate KeyListed(groups: seq<Group>, k: GroupKey) {
    exists i :: 0 <= i < |groups| && groups[i].key == k
  }

  function IndexOfKey(groups: seq<Group>, k: GroupKey): (i: int)
    ensures -1 <= i < |groups|
    ensures i >= 0 ==> groups[i].key == k
    ensures i < 0 ==> !KeyListed(groups, k)
    decreases |groups|
  {
    if |groups| == 0 then -1
    else if groups[|groups| - 1].key == k then |groups| - 1
    else IndexOfKey(groups[..|groups| - 1], k)
  }

  /** `groups[key].push(tx)`, creating the entry first when the key is new. */
  function Push(groups: seq<Group>, t: Transaction): seq<Group> {
    var i := IndexOfKey(groups, KeyOf(t));
    if i >= 0 then groups[i := groups[i].(members := groups[i].members + [t])]
    else groups + [Group(KeyOf(t), [t])]
  }

  /** The groups built by `forEach`: in order of each key's first transaction,
      every group holding exactly the transactions with its key, in their
      original order. */
  function Groups(txs: seq<Transaction>): (r: seq<Group>)
    ensures |r| <= |txs|
    ensures forall i :: 0 <= i < |r| ==> r[i].members == Crud.Filter(txs, HasKey(r[i].key))
    ensures forall i :: 0 <= i < |r| ==> |r[i].members| > 0
    ensures forall i, j :: 0 <= i < j < |r| ==> r[i].key != r[j].key
    ensures forall j :: 0 <= j < |txs| ==> KeyListed(r, KeyOf(txs[j]))
    decreases |txs|
  {
    if |txs| == 0 then []
    else
      var front := txs[..|txs| - 1];
      var t := txs[|txs| - 1];
      assert txs == front + [t];
      var g := Groups(front);
      PushFacts(front, g, t);
      Push(g, t)
  }

  /** A filter over one more transaction gains it exactly when it is kept. */
  lemma FilterStep(front: seq<Transaction>, t: Transaction, key: GroupKey)
    ensures Crud.Filter(front + [t], HasKey(key)) ==
      Crud.Filter(front, HasKey(key)) + (if KeyOf(t) == key then [t] else [])
  {
    Crud.FilterConcat(front, [t], HasKey(key));
    Crud.FilterSingle(t, HasKey(key));
  }

  /** A key that no transaction carries filters to nothing. */
  lemma FilterUnlisted(front: seq<Transaction>, g: seq<Group>, key: GroupKey)
    requires forall j :: 0 <= j < |front| ==> KeyListed(g, KeyOf(front[j]))
    requires !KeyListed(g, key)
    ensures Crud.Filter(front, HasKey(key)) == []
  {
  }

  /** After the push every group still holds the filter of the transactions
      so far by its key. */
  lemma PushMembers(front: seq<Transaction>, g: seq<Group>, t: Transaction, i: nat)
    requires forall i :: 0 <= i < |g| ==> g[i].members == Crud.Filter(front, HasKey(g[i].key))
    requires forall i, j :: 0 <= i < j < |g| ==> g[i].key != g[j].key
    requires forall j :: 0 <= j < |front| ==> KeyListed(g, KeyOf(front[j]))
    requires i < |Push(g, t)|
    ensures Push(g, t)[i].members == Crud.Filter(front + [t], HasKey(Push(g, t)[i].key))
  {
    var k := IndexOfKey(g, KeyOf(t));
    if k >= 0 {
      PushHit(front, g, t, k, i);
    } else {
      PushNew(front, g, t, i);
    }
  }

  lemma PushHit(front: seq<Transaction>, g: seq<Group>, t: Transaction, k: nat, i: nat)
    requires forall i :: 0 <= i < |g| ==> g[i].members == Crud.Filter(front, HasKey(g[i].key))
    requires forall i, j :: 0 <= i < j < |g| ==> g[i].key != g[j].key
    requires k < |g| && g[k].key == KeyOf(t) && i < |g|
    ensures var r := g[k := g[k].(members := g[k].members + [t])];
      r[i].members == Crud.Filter(front + [t], HasKey(r[i].key))
  {
    FilterStep(front, t, g[i].key);
  }

  lemma PushNew(front: seq<Transaction>, g: seq<Group>, t: Transaction, i: nat)
    requires forall i :: 0 <= i < |g| ==> g[i].members == Crud.Filter(front, HasKey(g[i].key))
    requires forall j :: 0 <= j < |front| ==> KeyListed(g, KeyOf(front[j]))
    requires !KeyListed(g, KeyOf(t))
    requires i <= |g|
    ensures var r := g + [Group(KeyOf(t), [t])];
      r[i].members == Crud.Filter(front + [t], HasKey(r[i].key))
  {
    if i < |g| {
      FilterStep(front, t, g[i].key);
    } else {
      FilterStep(front, t, KeyOf(t));
      FilterUnlisted(front, g, KeyOf(t));
    }
  }

  /** After the push every transaction so far has its key listed. */
  lemma PushListed(front: seq<Transaction>, g: seq<Group>, t: Transaction)
    requires forall j :: 0 <= j < |front| ==> KeyListed(g, KeyOf(front[j]))
    ensures forall j :: 0 <= j < |front + [t]| ==> KeyListed(Push(g, t), KeyOf((front + [t])[j]))
  {
    var txs := front + [t];
    var r := Push(g, t);
    var k := IndexOfKey(g, KeyOf(t));
    assert |g| <= |r|;
    assert forall i :: 0 <= i < |g| ==> r[i].key == g[i].key;
    forall j | 0 <= j < |txs| ensures KeyListed(r, KeyOf(txs[j])) {
      if j < |front| {
        assert txs[j] == front[j];
        assert KeyListed(g, KeyOf(front[j]));
        var i :| 0 <= i < |g| && g[i].key == KeyOf(front[j]);
        assert r[i].key == KeyOf(txs[j]);
      } else if k >= 0 {
        assert r[k].key == KeyOf(t);
      } else {
        assert r[|g|].key == KeyOf(t);
      }
    }
  }

  /** Pushing the next transaction keeps every group equal to the filter of the
      transactions so far by its key. */
  lemma PushFacts(front: seq<Transaction>, g: seq<Group>, t: Transaction)
    requires |g| <= |front|
    requires forall i :: 0 <= i < |g| ==> g[i].members == Crud.Filter(front, HasKey(g[i].key))
    requires forall i :: 0 <= i < |g| ==> |g[i].members| > 0
    requires forall i, j :: 0 <= i < j < |g| ==> g[i].key != g[j].key
    requires forall j :: 0 <= j < |front| ==> KeyListed(g, KeyOf(front[j]))
    ensures var txs := front + [t]; var r := Push(g, t);
      && |r| <= |txs|
      && (forall i :: 0 <= i < |r| ==> r[i].members == Crud.Filter(txs, HasKey(r[i].key)))
      && (forall i :: 0 <= i < |r| ==> |r[i].members| > 0)
      && (forall i, j :: 0 <= i < j < |r| ==> r[i].key != r[j].key)
      && (forall j :: 0 <= j < |txs| ==> KeyListed(r, KeyOf(txs[j])))
  {
    var r := Push(g, t);
    forall i | 0 <= i < |r| ensures r[i].members == Crud.Filter(front + [t], HasKey(r[i].key)) {
      PushMembers(front, g, t, i);
    }
    PushListed(front, g, t);
    PushShape(g, t);
  }

  /** The push adds at most one group, empties none and keeps keys distinct. */
  lemma PushShape(g: seq<Group>, t: Transaction)
    requires forall i :: 0 <= i < |g| ==> |g[i].members| > 0
    requires forall i, j :: 0 <= i < j < |g| ==> g[i].key != g[j].key
    ensures |Push(g, t)| <= |g| + 1
    ensures forall i :: 0 <= i < |Push(g, t)| ==> |Push(g, t)[i].members| > 0
    ensures forall i, j :: 0 <= i < j < |Push(g, t)| ==> Push(g, t)[i].key != Push(g, t)[j].key
  {
    var k := IndexOfKey(g, KeyOf(t));
    var r := Push(g, t);
    if k >= 0 {
      assert forall i :: 0 <= i < |g| ==> r[i].key == g[i].key;
    } else {
      assert forall i :: 0 <= i < |g| ==> r[i] == g[i];
      assert forall i :: 0 <= i < |g| ==> g[i].key != KeyOf(t);
    }
  }

  // ---------------------------------------------------------------------------
  // Frequency bands

  datatype Frequency = Monthly | Weekly | Daily

  /** The band of a gap in days: 27 to 31 is monthly, 6 to 8 weekly, 0.9 to 1.1
      daily; anything else has no band. */
  function Bucket(diff: real): Option<Frequency> {
    if 27.0 <= diff <= 31.0 then Some(Monthly)
    else if 6.0 <= diff <= 8.0 then Some(Weekly)
    else if 0.9 <= diff <= 1.1 then Some(Daily)
    else None
  }

  /** Dates are whole days, so the daily band is a gap of exactly one day and a
      repeat on the same day has no band. */
  lemma BucketOfWholeDays(d: int)
    ensures Bucket(d as real) == Some(Daily) <==> d == 1
    ensures Bucket(d as real) == Some(Weekly) <==> 6 <= d <= 8
    ensures Bucket(d as real) == Some(Monthly) <==> 27 <= d <= 31
    ensures Bucket(d as real) == None <==> !(d == 1 || 6 <= d <= 8 || 27 <= d <= 31)
    ensures Bucket(0.0) == None
  {
  }

  /** The loop's two variables: `freq` and `consistent`. */
  datatype ScanState = ScanState(freq: Option<Frequency>, consistent: bool)

  /** One iteration of the gap loop. */
  function Step(st: ScanState, diff: real): ScanState {
    match Bucket(diff)
    case None => st.(consistent := false)
    case Some(b) =>
      if st.freq.None? then st.(freq := Some(b))
      else if st.freq != Some(b) then st.(consistent := false)
      else st
  }

  /** The gap loop from `freq = null, consistent = true`. It ends consistent
      with a frequency exactly when there is a gap and every gap has the first
      gap's band; the frequency stays unset only while no gap has a band. */
  function Scan(gaps: seq<real>): (r: ScanState)
    ensures r.freq.None? <==> forall i :: 0 <= i < |gaps| ==> Bucket(gaps[i]).None?
    ensures r.consistent && r.freq.None? ==> |gaps| == 0
    ensures r.consistent && r.freq.Some? <==>
      |gaps| > 0 && Bucket(gaps[0]).Some? && forall i :: 0 <= i < |gaps| ==> Bucket(gaps[i]) == Bucket(gaps[0])
    ensures r.consistent && r.freq.Some? ==> r.freq == Bucket(gaps[0])
    decreases |gaps|
  {
    if |gaps| == 0 then ScanState(None, true)
    else
      var front := gaps[..|gaps| - 1];
      var st := Scan(front);
      var d := gaps[|gaps| - 1];
      assert forall i :: 0 <= i < |front| ==> gaps[i] == front[i];
      Step(st, d)
  }

  /** The gaps in days between successive transactions of a sorted group. */
  function Gaps(s: seq<Transaction>): (r: seq<real>)
    ensures |r| == if |s| == 0 then 0 else |s| - 1
    ensures forall i :: 0 <= i < |r| ==> r[i] == (DayNumber(s[i + 1].date) - DayNumber(s[i].date)) as real
  {
    if |s| <= 1 then []
    else seq(|s| - 1, i requires 0 <= i < |s| - 1 => (DayNumber(s[i + 1].date) - DayNumber(s[i].date)) as real)
  }

  function DayKey(t: Transaction): int { DayNumber(t.date) }

  /** The group sorted by date, oldest first; equal dates keep their order. */
  function ByDate(g: Group): seq<Transaction> {
    Sorting.SortBy(g.members, DayKey)
  }

  /** The frequency a group is reported with, if any: none below three
      transactions, else the loop's frequency when it ends consistent. */
  function Classify(g: Group): Option<Frequency> {
    if |g.members| < 3 then None
    else
      var st := Scan(Gaps(ByDate(g)));
      if st.freq.Some? && st.consistent then st.freq else None
  }

  /** A group is reported with frequency `f` exactly when it has three or more
      transactions and every gap of the date-sorted group lies in `f`'s band. */
  lemma ClassifyMeaning(g: Group, f: Frequency)
    ensures Classify(g) == Some(f) <==>
      && |g.members| >= 3
      && forall i :: 0 <= i < |Gaps(ByDate(g))| ==> Bucket(Gaps(ByDate(g))[i]) == Some(f)
  {
    if |g.members| >= 3 {
      var gaps := Gaps(ByDate(g));
      assert |gaps| >= 2;
      ScanAllIn(gaps, f);
    }
  }

  /** The loop ends consistent with frequency `f` exactly when there is a gap
      and every gap lies in `f`'s band. */
  lemma ScanAllIn(gaps: seq<real>, f: Frequency)
    ensures Scan(gaps).consistent && Scan(gaps).freq == Some(f) <==>
      |gaps| > 0 && forall i :: 0 <= i < |gaps| ==> Bucket(gaps[i]) == Some(f)
  {
    if |gaps| > 0 && forall i :: 0 <= i < |gaps| ==> Bucket(gaps[i]) == Some(f) {
      assert Bucket(gaps[0]) == Some(f);
    }
  }

  // ---------------------------------------------------------------------------
  // Reported entries

  datatype RecurringEntry = RecurringEntry(
    name: string,
    amount: real,
    txType: TxType,
    cardId: int,
    frequency: Frequency,
    lastDate: Date,
    note: string)

  /** The type as the page prints it. */
  function TypeText(t: TxType): string {
    match t
    case Deposit => "Deposit"
    case Withdrawal => "Withdrawal"
    case OtherType(s) => s
  }

  /** The entry for a reported group, read off its latest transaction. The
      amount is printed through `showAmount`, JavaScript's number-to-string. */
  function EntryFor(g: Group, f: Frequency, showAmount: real -> string): RecurringEntry
    requires |g.members| > 0
  {
    var s := ByDate(g);
    var last := s[|s| - 1];
    RecurringEntry(if last.note != "" then last.note else TypeText(last.txType) + " $" + showAmount(last.amount),
                   last.amount, last.txType, last.cardId, f, last.date, last.note)
  }

  function Classified(g: Group): bool { Classify(g).Some? }

  /** The `forEach` over the groups, pushing an entry for each reported one. */
  function Collect(groups: seq<Group>, showAmount: real -> string): (r: seq<RecurringEntry>)
    ensures |r| == |Crud.Filter(groups, Classified)|
    ensures forall k :: 0 <= k < |r| ==>
      var g := Crud.Filter(groups, Classified)[k];
      |g.members| >= 3 && r[k] == EntryFor(g, Classify(g).value, showAmount)
    decreases |groups|
  {
    if |groups| == 0 then []
    else
      var front := groups[..|groups| - 1];
      var g := groups[|groups| - 1];
      var c := Collect(front, showAmount);
      assert Crud.Filter(groups, Classified) ==
        Crud.Filter(front, Classified) + (if Classified(g) then [g] else []);
      if Classify(g).Some? then c + [EntryFor(g, Classify(g).value, showAmount)] else c
  }

  /** Every gap of the date-sorted group lies in `f`'s band. */
  predicate AllGapsIn(g: Group, f: Frequency) {
    forall i :: 0 <= i < |Gaps(ByDate(g))| ==> Bucket(Gaps(ByDate(g))[i]) == Some(f)
  }

  /** `r` reports the banded groups of `groups`: one entry per reported
      group, in the groups' order, each from a group of three or more whose
      gaps all lie in the entry's band and read off that group's latest
      transaction; and every group of three or more whose gaps all lie in one
      band has an entry with that band. */
  predicate ReportsBanded(groups: seq<Group>, r: seq<RecurringEntry>, showAmount: real -> string) {
    var reported := Crud.Filter(groups, Classified);
    && |r| == |reported| <= |groups|
    && (forall k :: 0 <= k < |r| ==>
          && reported[k] in groups
          && |reported[k].members| >= 3
          && AllGapsIn(reported[k], r[k].frequency)
          && r[k] == EntryFor(reported[k], r[k].frequency, showAmount))
    && (forall j, f :: 0 <= j < |groups| && |groups[j].members| >= 3 && AllGapsIn(groups[j], f) ==>
          exists k :: 0 <= k < |r| && r[k] == EntryFor(groups[j], f, showAmount))
  }

  /** `detectRecurring`: nothing for no transactions, otherwise an entry for
      exactly the banded groups of the transactions. */
  function DetectRecurring(txs: seq<Transaction>, showAmount: real -> string): (r: seq<RecurringEntry>)
    ensures |txs| == 0 ==> r == []
    ensures ReportsBanded(Groups(txs), r, showAmount)
  {
    if |txs| == 0 then
      ReportedMeaning(Groups(txs), [], showAmount);
      []
    else
      var r := Collect(Groups(txs), showAmount);
      ReportedMeaning(Groups(txs), r, showAmount);
      r
  }

  /** Whatever `Collect` returns reports the banded groups. */
  lemma ReportedMeaning(groups: seq<Group>, r: seq<RecurringEntry>, showAmount: real -> string)
    requires r == Collect(groups, showAmount)
    ensures ReportsBanded(groups, r, showAmount)
  {
    var reported := Crud.Filter(groups, Classified);
    forall k | 0 <= k < |r|
      ensures AllGapsIn(reported[k], r[k].frequency)
      ensures r[k] == EntryFor(reported[k], r[k].frequency, showAmount)
    {
      ReportedInBand(reported[k], r[k], showAmount);
    }
    forall j, f | 0 <= j < |groups| && |groups[j].members| >= 3 && AllGapsIn(groups[j], f)
      ensures exists k :: 0 <= k < |r| && r[k] == EntryFor(groups[j], f, showAmount)
    {
      BandedIsReported(groups, r, showAmount, j, f);
    }
  }

  /** An entry of a reported group carries the group's own band. */
  lemma ReportedInBand(g: Group, e: RecurringEntry, showAmount: real -> string)
    requires Classified(g) && |g.members| >= 3
    requires e == EntryFor(g, Classify(g).value, showAmount)
    ensures AllGapsIn(g, e.frequency)
    ensures e == EntryFor(g, e.frequency, showAmount)
  {
    assert e.frequency == Classify(g).value;
    ClassifyMeaning(g, Classify(g).value);
  }

  /** A group of three or more whose gaps all lie in one band has an entry. */
  lemma BandedIsReported(groups: seq<Group>, r: seq<RecurringEntry>, showAmount: real -> string, j: nat, f: Frequency)
    requires r == Collect(groups, showAmount)
    requires j < |groups| && |groups[j].members| >= 3 && AllGapsIn(groups[j], f)
    ensures exists k :: 0 <= k < |r| && r[k] == EntryFor(groups[j], f, showAmount)
  {
    var g := groups[j];
    var reported := Crud.Filter(groups, Classified);
    ClassifyMeaning(g, f);
    assert Classified(g);
    assert g in reported;
    var k :| 0 <= k < |reported| && reported[k] == g;
    assert r[k] == EntryFor(g, f, showAmount);
  }

  /** At most one entry per group, and exactly one for each reported group, in
      the groups' order. */
  lemma DetectRecurringEntries(txs: seq<Transaction>, showAmount: real -> string)
    ensures var r := DetectRecurring(txs, showAmount);
      var reported := Crud.Filter(Groups(txs), Classified);
      && |r| <= |Groups(txs)|
      && |r| == |reported|
      && forall k :: 0 <= k < |r| ==> r[k] == EntryFor(reported[k], Classify(reported[k]).value, showAmount)
  {
  }

  /** Fewer than three transactions never make a pattern. */
  lemma TooFewTransactions(txs: seq<Transaction>, showAmount: real -> string)
    requires |txs| < 3
    ensures DetectRecurring(txs, showAmount) == []
  {
  }

  /** The transactions of a group all carry the group's key. */
  lemma GroupMembersShareKey(txs: seq<Transaction>, i: nat)
    requires i < |Groups(txs)|
    ensures var g := Groups(txs)[i];
      && |g.members| > 0
      && forall m :: 0 <= m < |g.members| ==> KeyOf(g.members[m]) == g.key
  {
    var g := Groups(txs)[i];
    forall m | 0 <= m < |g.members| ensures KeyOf(g.members[m]) == g.key {
      assert HasKey(g.key)(g.members[m]);
    }
  }

  /** The latest transaction of the date-sorted group is dated no earlier than
      any member. */
  lemma LastIsLatest(g: Group)
    requires |g.members| > 0
    ensures var s := ByDate(g);
      && s[|s| - 1] in g.members
      && forall m :: 0 <= m < |g.members| ==> DayNumber(g.members[m].date) <= DayNumber(s[|s| - 1].date)
  {
    var s := ByDate(g);
    assert s[|s| - 1] in multiset(s);
    forall m | 0 <= m < |g.members| ensures DayNumber(g.members[m].date) <= DayKey(s[|s| - 1]) {
      assert g.members[m] in multiset(s);
      var j :| 0 <= j < |s| && s[j] == g.members[m];
    }
  }

  /** An entry reports the group's key and its latest transaction: the amount,
      card and type shared by the group, a date no earlier than any member's,
      and the note, or the type and amount when the note is empty. */
  lemma EntryFields(g: Group, f: Frequency, showAmount: real -> string)
    requires |g.members| > 0
    requires forall m :: 0 <= m < |g.members| ==> KeyOf(g.members[m]) == g.key
    ensures var e := EntryFor(g, f, showAmount);
      && e.amount == g.key.amount && e.cardId == g.key.cardId && e.txType == g.key.txType
      && e.frequency == f
      && (exists m :: 0 <= m < |g.members| && g.members[m].date == e.lastDate && g.members[m].note == e.note)
      && (forall m :: 0 <= m < |g.members| ==> DayNumber(g.members[m].date) <= DayNumber(e.lastDate))
      && e.name == (if e.note != "" then e.note else TypeText(e.txType) + " $" + showAmount(e.amount))
  {
    var s := ByDate(g);
    LastIsLatest(g);
    var m :| 0 <= m < |g.members| && g.members[m] == s[|s| - 1];
  }

  // ---------------------------------------------------------------------------
  // Scenarios

  /** Transactions that all share one key form a single group, in order. */
  lemma OneKeyOneGroup(txs: seq<Transaction>, k: GroupKey)
    requires |txs| > 0
    requires forall j :: 0 <= j < |txs| ==> KeyOf(txs[j]) == k
    ensures |Groups(txs)| == 1 && Groups(txs)[0] == Group(k, txs)
  {
    var r := Groups(txs);
    assert KeyListed(r, KeyOf(txs[0]));
    GroupKeysAll(txs, k);
    Crud.FilterKeepsAll(txs, HasKey(k));
  }

  /** Every group's key is one its transactions carry. */
  lemma GroupKeysAll(txs: seq<Transaction>, k: GroupKey)
    requires forall j :: 0 <= j < |txs| ==> KeyOf(txs[j]) == k
    ensures forall j :: 0 <= j < |Groups(txs)| ==> Groups(txs)[j].key == k
  {
    var r := Groups(txs);
    forall j | 0 <= j < |r| ensures r[j].key == k {
      var m := r[j].members;
      assert HasKey(r[j].key)(m[0]) && m[0] in txs;
    }
  }

  /** Three transactions already in date order stay as they are. */
  lemma ThreeInOrder(txs: seq<Transaction>)
    requires |txs| == 3
    requires DayKey(txs[0]) <= DayKey(txs[1]) <= DayKey(txs[2])
    ensures Sorting.SortBy(txs, DayKey) == txs
  {
    assert Sorting.SortedBy(txs, DayKey);
    Sorting.SortBySorted(txs, DayKey);
  }

  lemma ThreeGaps(txs: seq<Transaction>)
    requires |txs| == 3
    ensures Gaps(txs) == [(DayKey(txs[1]) - DayKey(txs[0])) as real, (DayKey(txs[2]) - DayKey(txs[1])) as real]
  {
  }

  /** When every transaction shares one key, the report is that group's entry
      or nothing. */
  lemma OneGroupReport(txs: seq<Transaction>, k: GroupKey, showAmount: real -> string)
    requires |txs| > 0
    requires forall j :: 0 <= j < |txs| ==> KeyOf(txs[j]) == k
    ensures var g := Group(k, txs);
      DetectRecurring(txs, showAmount) ==
        if Classify(g).Some? then [EntryFor(g, Classify(g).value, showAmount)] else []
  {
    OneKeyOneGroup(txs, k);
    var groups := Groups(txs);
    assert groups == [Group(k, txs)];
    assert groups[..0] == [];
  }

  /** A rent of 50 on card 1. */
  function Rent(id: int, date: Date): Transaction {
    Transaction(id, 1, Withdrawal, 50.0, date, "Rent", None, None)
  }

  /** Three transactions with one key, spaced by the same gap, are one
      group in date order whose gaps both equal that gap. */
  lemma EvenlySpacedGroup(txs: seq<Transaction>, k: GroupKey, gap: int)
    requires |txs| == 3
    requires gap >= 0
    requires DayKey(txs[1]) == DayKey(txs[0]) + gap && DayKey(txs[2]) == DayKey(txs[1]) + gap
    ensures ByDate(Group(k, txs)) == txs
    ensures Gaps(ByDate(Group(k, txs))) == [gap as real, gap as real]
  {
    EvenlySpacedInOrder(txs, k, gap);
    EvenlySpacedGaps(txs, gap);
  }

  lemma EvenlySpacedInOrder(txs: seq<Transaction>, k: GroupKey, gap: int)
    requires |txs| == 3
    requires gap >= 0
    requires DayKey(txs[1]) == DayKey(txs[0]) + gap && DayKey(txs[2]) == DayKey(txs[1]) + gap
    ensures ByDate(Group(k, txs)) == txs
  {
    ThreeInOrder(txs);
  }

  lemma EvenlySpacedGaps(txs: seq<Transaction>, gap: int)
    requires |txs| == 3
    requires DayKey(txs[1]) == DayKey(txs[0]) + gap && DayKey(txs[2]) == DayKey(txs[1]) + gap
    ensures Gaps(txs) == [gap as real, gap as real]
  {
    ThreeGaps(txs);
  }

  lemma EvenlySpacedClassified(txs: seq<Transaction>, k: GroupKey, gap: int, f: Frequency)
    requires |txs| == 3
    requires forall j :: 0 <= j < 3 ==> KeyOf(txs[j]) == k
    requires gap >= 0 && Bucket(gap as real) == Some(f)
    requires DayKey(txs[1]) == DayKey(txs[0]) + gap && DayKey(txs[2]) == DayKey(txs[1]) + gap
    ensures Classify(Group(k, txs)) == Some(f)
  {
    var g := Group(k, txs);
    EvenlySpacedGroup(txs, k, gap);
    ClassifyMeaning(g, f);
  }

  /** Three transactions with one key, spaced by a gap inside a frequency's
      band, are reported once with that frequency and the latest date. */
  lemma EvenlySpaced(txs: seq<Transaction>, k: GroupKey, gap: int, f: Frequency, showAmount: real -> string)
    requires |txs| == 3
    requires forall j :: 0 <= j < 3 ==> KeyOf(txs[j]) == k
    requires gap >= 0 && Bucket(gap as real) == Some(f)
    requires DayKey(txs[1]) == DayKey(txs[0]) + gap && DayKey(txs[2]) == DayKey(txs[1]) + gap
    ensures DetectRecurring(txs, showAmount) == [EntryFor(Group(k, txs), f, showAmount)]
    ensures EntryFor(Group(k, txs), f, showAmount).lastDate == txs[2].date
    ensures EntryFor(Group(k, txs), f, showAmount).frequency == f
  {
    var g := Group(k, txs);
    EvenlySpacedClassified(txs, k, gap, f);
    OneGroupReport(txs, k, showAmount);
    EvenlySpacedGroup(txs, k, gap);
  }

  /** Three rents, each 30 days after the one before, are reported once, as
      monthly, with the latest rent's date. */
  lemma MonthlyScenario(d0: Date, d1: Date, d2: Date, showAmount: real -> string)
    requires DayNumber(d1) == DayNumber(d0) + 30 && DayNumber(d2) == DayNumber(d1) + 30
    ensures DetectRecurring([Rent(1, d0), Rent(2, d1), Rent(3, d2)], showAmount) ==
      [RecurringEntry("Rent", 50.0, Withdrawal, 1, Monthly, d2, "Rent")]
  {
    var txs := [Rent(1, d0), Rent(2, d1), Rent(3, d2)];
    var k := KeyOf(txs[0]);
    EvenlySpaced(txs, k, 30, Monthly, showAmount);
    EvenlySpacedGroup(txs, k, 30);
  }

  /** A first gap of 30 days lies in the monthly band, a second of 7 in the
      weekly one: the loop ends inconsistent, so nothing is reported. */
  lemma MixedGapsScenario(d0: Date, d1: Date, d2: Date, showAmount: real -> string)
    requires DayNumber(d1) == DayNumber(d0) + 30 && DayNumber(d2) == DayNumber(d1) + 7
    ensures DetectRecurring([Rent(1, d0), Rent(2, d1), Rent(3, d2)], showAmount) == []
  {
    var txs := [Rent(1, d0), Rent(2, d1), Rent(3, d2)];
    var k := KeyOf(txs[0]);
    assert forall j :: 0 <= j < |txs| ==> KeyOf(txs[j]) == k;
    MixedGapsUnclassified(txs, k);
    OneGroupReport(txs, k, showAmount);
  }

  lemma MixedGapsUnclassified(txs: seq<Transaction>, k: GroupKey)
    requires |txs| == 3
    requires DayKey(txs[1]) == DayKey(txs[0]) + 30 && DayKey(txs[2]) == DayKey(txs[1]) + 7
    ensures Classify(Group(k, txs)) == None
  {
    var g := Group(k, txs);
    ThreeInOrder(txs);
    ThreeGaps(txs);
    assert Gaps(ByDate(g)) == [30.0, 7.0];
    ClassifyMeaning(g, Monthly);
    ClassifyMeaning(g, Weekly);
    ClassifyMeaning(g, Daily);
  }

  /** The scenario dates exist: 2024-01-01, 2024-01-31 and 2024-03-01 are 30
      days apart (2024 is a leap year), and 2024-02-07 is 7 days after
      2024-01-31. */
  lemma ScenarioDates()
    ensures DayNumber(Date(2024, 1, 31)) == DayNumber(Date(2024, 1, 1)) + 30
    ensures DayNumber(Date(2024, 3, 1)) == DayNumber(Date(2024, 1, 31)) + 30
    ensures DayNumber(Date(2024, 2, 7)) == DayNumber(Date(2024, 1, 31)) + 7
  {
    DayOfNewYear();
    DayOfJanuaryEnd();
    DayOfFebruarySeventh();
    DayOfMarchFirst();
  }

  lemma DayOfNewYear() ensures DayNumber(Date(2024, 1, 1)) == 19723 {}
  lemma DayOfJanuaryEnd() ensures DayNumber(Date(2024, 1, 31)) == 19753 {}
  lemma DayOfFebruarySeventh() ensures DayNumber(Date(2024, 2, 7)) == 19760 {}
  lemma DayOfMarchFirst() ensures DayNumber(Date(2024, 3, 1)) == 19783 {}
}
