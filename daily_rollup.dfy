/**
 * The daily rollup as a function of the two tables it touches: get or create
 * the day's snapshot, find the token's record by scanning the snapshot's id
 * list, create a zeroed record keyed `date-symbol` when there is none, and add
 * the movement to the deposit or the withdraw counters.
 */
module DailyRollup {
  import opened Wrappers
  import opened Entities

  datatype Tables = Tables(snapshots: map<string, DailySnapshot>, records: map<string, TokenDailyData>)

  predicate WellKeyed(t: Tables) {
    SnapshotsKeyed(t.snapshots) && RecordsKeyed(t.records)
  }

  /** `getOrCreateDailySnapshot` on the snapshot table. An existing snapshot is returned as it is
    * (its date is never recomputed); otherwise one dated `date` with no records is added. */
  function SnapshotLookup(snapshots: map<string, DailySnapshot>, dayID: string, date: string)
    : (r: (DailySnapshot, map<string, DailySnapshot>))
    ensures dayID in r.1 && r.1[dayID] == r.0
    ensures r.1.Keys == snapshots.Keys + {dayID}
    ensures forall k :: k in snapshots ==> r.1[k] == snapshots[k]
    ensures dayID !in snapshots ==> r.0.id == dayID && r.0.date == date && r.0.tokenData == []
  {
    if dayID in snapshots then (snapshots[dayID], snapshots)
    else
      var snapshot := DailySnapshot(dayID, date, []);
      (snapshot, snapshots[dayID := snapshot])
  }

  /** A second get-or-create of the same day returns the same snapshot and changes nothing. */
  lemma SnapshotLookupIdempotent(snapshots: map<string, DailySnapshot>, dayID: string, date1: string, date2: string)
    ensures var (snapshot, snapshots') := SnapshotLookup(snapshots, dayID, date1);
      SnapshotLookup(snapshots', dayID, date2) == (snapshot, snapshots')
  {
  }

  /** Position `i` of `ids` names a stored record of `token`. */
  predicate IsMatch(ids: seq<string>, records: map<string, TokenDailyData>, token: string, i: int) {
    0 <= i < |ids| && ids[i] in records && records[ids[i]].token == token
  }

  /** `getTokenDailyData`: the first record, in list order, that loads and belongs to `token`. */
  function FindTokenData(ids: seq<string>, records: map<string, TokenDailyData>, token: string): (r: Option<TokenDailyData>)
    ensures r.Some? ==> r.value.token == token
    decreases |ids|
  {
    if ids == [] then None
    else if ids[0] in records && records[ids[0]].token == token then Some(records[ids[0]])
    else FindTokenData(ids[1..], records, token)
  }

  /** The scan finds nothing exactly when no position matches, and otherwise the record at the first match. */
  lemma {:induction false} FindTokenDataFirstMatch(ids: seq<string>, records: map<string, TokenDailyData>, token: string)
    ensures var r := FindTokenData(ids, records, token);
      && (r.None? <==> forall i :: 0 <= i < |ids| ==> !IsMatch(ids, records, token, i))
      && (r.Some? ==> exists i :: IsMatch(ids, records, token, i) && records[ids[i]] == r.value
                                && forall j :: 0 <= j < i ==> !IsMatch(ids, records, token, j))
    decreases |ids|
  {
    if ids != [] {
      if ids[0] in records && records[ids[0]].token == token {
        assert IsMatch(ids, records, token, 0);
      } else {
        FindTokenDataFirstMatch(ids[1..], records, token);
        assert !IsMatch(ids, records, token, 0);
        assert forall j :: 0 <= j < |ids| - 1 ==> (IsMatch(ids[1..], records, token, j) <==> IsMatch(ids, records, token, j + 1));
        assert forall i :: 1 <= i < |ids| ==> (IsMatch(ids, records, token, i) <==> IsMatch(ids[1..], records, token, i - 1));
      }
    }
  }

  /** The four day-scoped counters of a record. */
  datatype Counters = Counters(depositAmount: nat, depositCount: nat, withdrawAmount: nat, withdrawCount: nat)

  const NoActivity := Counters(0, 0, 0, 0)

  function CountersOf(r: TokenDailyData): Counters {
    Counters(r.dailyDepositAmount, r.dailyDepositCount, r.dailyWithdrawAmount, r.dailyWithdrawCount)
  }

  function Plus(a: Counters, b: Counters): Counters {
    Counters(a.depositAmount + b.depositAmount, a.depositCount + b.depositCount,
             a.withdrawAmount + b.withdrawAmount, a.withdrawCount + b.withdrawCount)
  }

  lemma PlusNoActivity(c: Counters)
    ensures Plus(c, NoActivity) == c
  {
  }

  lemma PlusAssociative(a: Counters, b: Counters, c: Counters)
    ensures Plus(Plus(a, b), c) == Plus(a, Plus(b, c))
  {
  }

  /** One deposit or one withdrawal of `amount`, as counters. */
  function Movement(amount: nat, isDeposit: bool): Counters {
    if isDeposit then Counters(amount, 1, 0, 0) else Counters(0, 0, amount, 1)
  }

  /** The counter update of `updateDailyData`: a deposit moves only the deposit counters,
    * a withdrawal only the withdraw counters, by the amount and by one. */
  function Accumulate(r: TokenDailyData, amount: nat, isDeposit: bool): (r': TokenDailyData)
    ensures CountersOf(r') == Plus(CountersOf(r), Movement(amount, isDeposit))
    ensures r'.id == r.id && r'.snapshot == r.snapshot && r'.token == r.token
  {
    if isDeposit then
      r.(dailyDepositAmount := r.dailyDepositAmount + amount, dailyDepositCount := r.dailyDepositCount + 1)
    else
      r.(dailyWithdrawAmount := r.dailyWithdrawAmount + amount, dailyWithdrawCount := r.dailyWithdrawCount + 1)
  }

  /** The id a day's new record for `token` gets: the snapshot's date, a dash and the token's symbol. */
  function RecordId(date: string, token: Token): (id: string)
    ensures HasPrefix(id, date + "-") && id[|date| + 1..] == token.symbol
  {
    date + "-" + token.symbol
  }

  /** `updateDailyData` on the tables; `date` is the date a snapshot created now would get. */
  function ApplyDaily(t: Tables, dayID: string, date: string, token: Token, amount: nat, isDeposit: bool): (r: Tables)
    ensures dayID in r.snapshots && t.snapshots.Keys <= r.snapshots.Keys && t.records.Keys <= r.records.Keys
  {
    var (snapshot, snapshots) := SnapshotLookup(t.snapshots, dayID, date);
    var found := FindTokenData(snapshot.tokenData, t.records, token.address);
    var base := if found.Some? then found.value
                else TokenDailyData(RecordId(snapshot.date, token), snapshot.id, token.address, 0, 0, 0, 0);
    var ids := if found.Some? then snapshot.tokenData else snapshot.tokenData + [base.id];
    Tables(snapshots[snapshot.id := snapshot.(tokenData := ids)], t.records[base.id := Accumulate(base, amount, isDeposit)])
  }

  /** ApplyDaily spelled out step by step, as an imperative caller computes it. */
  lemma ApplyDailyUnfolded(t: Tables, dayID: string, date: string, token: Token, amount: nat, isDeposit: bool,
                           snapshot: DailySnapshot, snapshots: map<string, DailySnapshot>,
                           found: Option<TokenDailyData>, base: TokenDailyData, ids: seq<string>)
    requires (snapshot, snapshots) == SnapshotLookup(t.snapshots, dayID, date)
    requires found == FindTokenData(snapshot.tokenData, t.records, token.address)
    requires base == if found.Some? then found.value
                     else TokenDailyData(RecordId(snapshot.date, token), snapshot.id, token.address, 0, 0, 0, 0)
    requires ids == if found.Some? then snapshot.tokenData else snapshot.tokenData + [base.id]
    ensures ApplyDaily(t, dayID, date, token, amount, isDeposit)
         == Tables(snapshots[snapshot.id := snapshot.(tokenData := ids)], t.records[base.id := Accumulate(base, amount, isDeposit)])
  {
  }

  /** The counters of `token` for day `dayID`: those of the record the scan finds, or none. */
  function DayCounters(t: Tables, dayID: string, token: string): Counters {
    if dayID !in t.snapshots then NoActivity
    else match FindTokenData(t.snapshots[dayID].tokenData, t.records, token)
      case Some(r) => CountersOf(r)
      case None => NoActivity
  }

  /** Scanning one more id finds what the shorter list found, else the appended id's record. */
  lemma {:induction false} FindAppend(ids: seq<string>, k: string, records: map<string, TokenDailyData>, token: string)
    ensures FindTokenData(ids + [k], records, token) ==
      if FindTokenData(ids, records, token).Some? then FindTokenData(ids, records, token)
      else if k in records && records[k].token == token then Some(records[k])
      else None
    decreases |ids|
  {
    if ids != [] {
      assert (ids + [k])[1..] == ids[1..] + [k];
      FindAppend(ids[1..], k, records, token);
    }
  }

  /** Writing a record of `token` under `k`, where the scan found nothing before `k`, makes the scan find it. */
  lemma {:induction false} FindAfterWrite(ids: seq<string>, records: map<string, TokenDailyData>, token: string,
                                          k: string, v: TokenDailyData)
    requires RecordsKeyed(records) && v.token == token && k in ids
    requires match FindTokenData(ids, records, token) case None => true case Some(r) => r.id == k
    ensures FindTokenData(ids, records[k := v], token) == Some(v)
    decreases |ids|
  {
    if ids[0] != k {
      FindAfterWrite(ids[1..], records, token, k, v);
    }
  }

  /** Accumulation: the token's counters for the day grow by exactly this movement,
    * and the tables stay keyed by id. */
  lemma ApplyDailyCounters(t: Tables, dayID: string, date: string, token: Token, amount: nat, isDeposit: bool)
    requires WellKeyed(t)
    ensures WellKeyed(ApplyDaily(t, dayID, date, token, amount, isDeposit))
    ensures DayCounters(ApplyDaily(t, dayID, date, token, amount, isDeposit), dayID, token.address)
         == Plus(DayCounters(t, dayID, token.address), Movement(amount, isDeposit))
  {
    var t' := ApplyDaily(t, dayID, date, token, amount, isDeposit);
    var (snapshot, snapshots) := SnapshotLookup(t.snapshots, dayID, date);
    var found := FindTokenData(snapshot.tokenData, t.records, token.address);
    if found.Some? {
      FindTokenDataFirstMatch(snapshot.tokenData, t.records, token.address);
      var i :| IsMatch(snapshot.tokenData, t.records, token.address, i) && t.records[snapshot.tokenData[i]] == found.value;
      var base := found.value;
      FindAfterWrite(snapshot.tokenData, t.records, token.address, base.id, Accumulate(base, amount, isDeposit));
    } else {
      var base := TokenDailyData(RecordId(snapshot.date, token), snapshot.id, token.address, 0, 0, 0, 0);
      var ids := snapshot.tokenData + [base.id];
      FindAppend(snapshot.tokenData, base.id, t.records, token.address);
      FindAfterWrite(ids, t.records, token.address, base.id, Accumulate(base, amount, isDeposit));
    }
  }

  /** Nothing else changes: other snapshots, the day's date, and every record but the one
    * found or created; the id list is kept when a record was found and grows by the new id otherwise. */
  lemma ApplyDailyFrame(t: Tables, dayID: string, date: string, token: Token, amount: nat, isDeposit: bool)
    requires WellKeyed(t)
    ensures var t' := ApplyDaily(t, dayID, date, token, amount, isDeposit);
      var snapshot := SnapshotLookup(t.snapshots, dayID, date).0;
      var found := FindTokenData(snapshot.tokenData, t.records, token.address);
      var touched := if found.Some? then found.value.id else RecordId(snapshot.date, token);
      && t'.snapshots.Keys == t.snapshots.Keys + {dayID}
      && (forall k :: k in t.snapshots && k != dayID ==> t'.snapshots[k] == t.snapshots[k])
      && t'.snapshots[dayID].id == dayID
      && (dayID in t.snapshots ==> t'.snapshots[dayID].date == t.snapshots[dayID].date)
      && (dayID !in t.snapshots ==> t'.snapshots[dayID].date == date)
      && t'.snapshots[dayID].tokenData ==
           (if found.Some? then snapshot.tokenData else snapshot.tokenData + [RecordId(snapshot.date, token)])
      && t'.records.Keys == t.records.Keys + {touched}
      && (forall k :: k in t.records && k != touched ==> t'.records[k] == t.records[k])
      && t'.records[touched].token == token.address
      && (found.None? ==> t'.records[touched].snapshot == dayID && t'.records[touched].id == touched)
  {
    var snapshot := SnapshotLookup(t.snapshots, dayID, date).0;
    FindTokenDataFirstMatch(snapshot.tokenData, t.records, token.address);
  }

  /** `s` begins with `p`. */
  predicate HasPrefix(s: string, p: string) {
    |p| <= |s| && s[..|p|] == p
  }

  /** Ids that begin with two different dates of the same length, each followed by a dash, differ. */
  lemma DifferentDatesDifferentIds(a: string, b: string, x: string, y: string)
    requires |a| == |b| && a != b
    requires HasPrefix(x, a + "-") && HasPrefix(y, b + "-")
    ensures x != y
  {
    assert x[..|a|] == (a + "-")[..|a|] == a;
    assert y[..|b|] == (b + "-")[..|b|] == b;
  }

  /** Days are kept apart: every snapshot has a ten-character date, no two snapshots share a date,
    * and every id on a snapshot's list begins with that snapshot's date and a dash. */
  predicate DatedIds(t: Tables) {
    && (forall k :: k in t.snapshots ==> |t.snapshots[k].date| == 10)
    && (forall k1, k2 :: k1 in t.snapshots && k2 in t.snapshots && k1 != k2 ==> t.snapshots[k1].date != t.snapshots[k2].date)
    && (forall k, i :: k in t.snapshots && 0 <= i < |t.snapshots[k].tokenData| ==>
          HasPrefix(t.snapshots[k].tokenData[i], t.snapshots[k].date + "-"))
  }

  /** The date a snapshot created for `dayID` would get is ten characters long and not the date of a stored day. */
  predicate FreshDate(snapshots: map<string, DailySnapshot>, dayID: string, date: string) {
    dayID !in snapshots ==> |date| == 10 && forall k :: k in snapshots ==> snapshots[k].date != date
  }

  /** Writing a record under an id the list does not hold leaves the scan's answer unchanged. */
  lemma {:induction false} FindUnaffected(ids: seq<string>, records: map<string, TokenDailyData>, token: string,
                                          k: string, v: TokenDailyData)
    requires forall i :: 0 <= i < |ids| ==> ids[i] != k
    ensures FindTokenData(ids, records[k := v], token) == FindTokenData(ids, records, token)
    decreases |ids|
  {
    if ids != [] {
      FindUnaffected(ids[1..], records, token, k, v);
    }
  }

  /** The id of the record an update touches begins with the date of the day's snapshot. */
  lemma TouchedIdDated(t: Tables, dayID: string, date: string, token: Token)
    requires WellKeyed(t) && DatedIds(t)
    ensures var snapshot := SnapshotLookup(t.snapshots, dayID, date).0;
      var found := FindTokenData(snapshot.tokenData, t.records, token.address);
      HasPrefix(if found.Some? then found.value.id else RecordId(snapshot.date, token), snapshot.date + "-")
  {
    var snapshot := SnapshotLookup(t.snapshots, dayID, date).0;
    var found := FindTokenData(snapshot.tokenData, t.records, token.address);
    FindTokenDataFirstMatch(snapshot.tokenData, t.records, token.address);
    if found.Some? {
      var i :| IsMatch(snapshot.tokenData, t.records, token.address, i) && t.records[snapshot.tokenData[i]] == found.value;
      assert found.value.id == snapshot.tokenData[i];
    }
  }

  /** An update keeps the days apart, provided a newly created day gets a date no stored day has. */
  lemma ApplyDailyKeepsDatedIds(t: Tables, dayID: string, date: string, token: Token, amount: nat, isDeposit: bool)
    requires WellKeyed(t) && DatedIds(t) && FreshDate(t.snapshots, dayID, date)
    ensures DatedIds(ApplyDaily(t, dayID, date, token, amount, isDeposit))
  {
    var t' := ApplyDaily(t, dayID, date, token, amount, isDeposit);
    var snapshot := SnapshotLookup(t.snapshots, dayID, date).0;
    ApplyDailyFrame(t, dayID, date, token, amount, isDeposit);
    TouchedIdDated(t, dayID, date, token);
    var day := t'.snapshots[dayID];
    assert day.date == snapshot.date;
    forall i | 0 <= i < |day.tokenData|
      ensures HasPrefix(day.tokenData[i], day.date + "-")
    {
      if i < |snapshot.tokenData| {
        assert day.tokenData[i] == snapshot.tokenData[i];
      }
    }
    DatedIdsReplaceDay(t, t', dayID);
  }

  /** Replacing or adding one day keeps the days apart when that day keeps its date, or, if new,
    * has a fresh ten-character date, and its ids begin with its date. */
  lemma DatedIdsReplaceDay(t: Tables, t': Tables, dayID: string)
    requires DatedIds(t)
    requires t'.snapshots.Keys == t.snapshots.Keys + {dayID}
    requires forall k :: k in t.snapshots && k != dayID ==> t'.snapshots[k] == t.snapshots[k]
    requires dayID in t.snapshots ==> t'.snapshots[dayID].date == t.snapshots[dayID].date
    requires FreshDate(t.snapshots, dayID, t'.snapshots[dayID].date)
    requires forall i :: 0 <= i < |t'.snapshots[dayID].tokenData| ==>
               HasPrefix(t'.snapshots[dayID].tokenData[i], t'.snapshots[dayID].date + "-")
    ensures DatedIds(t')
  {
  }

  /** Days are isolated: an update of one day leaves every other day's counters as they were. */
  lemma ApplyDailyOtherDay(t: Tables, dayID: string, date: string, token: Token, amount: nat, isDeposit: bool,
                           other: string, address: string)
    requires WellKeyed(t) && DatedIds(t) && FreshDate(t.snapshots, dayID, date)
    requires other != dayID
    ensures DayCounters(ApplyDaily(t, dayID, date, token, amount, isDeposit), other, address) == DayCounters(t, other, address)
  {
    var t' := ApplyDaily(t, dayID, date, token, amount, isDeposit);
    ApplyDailyFrame(t, dayID, date, token, amount, isDeposit);
    if other in t.snapshots {
      var snapshot := SnapshotLookup(t.snapshots, dayID, date).0;
      var found := FindTokenData(snapshot.tokenData, t.records, token.address);
      var base := if found.Some? then found.value
                  else TokenDailyData(RecordId(snapshot.date, token), snapshot.id, token.address, 0, 0, 0, 0);
      TouchedIdDated(t, dayID, date, token);
      var ids := t.snapshots[other].tokenData;
      forall i | 0 <= i < |ids|
        ensures ids[i] != base.id
      {
        DifferentDatesDifferentIds(t.snapshots[other].date, snapshot.date, ids[i], base.id);
      }
      assert t'.records == t.records[base.id := Accumulate(base, amount, isDeposit)];
      FindUnaffected(ids, t.records, address, base.id, Accumulate(base, amount, isDeposit));
    }
  }

  /** A deposit or a withdrawal of one token on one day. */
  datatype Flow = Flow(amount: nat, isDeposit: bool)

  /** `updateDailyData` called once per flow, in order, by managers of the same day. */
  function ApplyDailyAll(t: Tables, dayID: string, date: string, token: Token, flows: seq<Flow>): Tables
    decreases |flows|
  {
    if flows == [] then t
    else ApplyDailyAll(ApplyDaily(t, dayID, date, token, flows[0].amount, flows[0].isDeposit), dayID, date, token, flows[1..])
  }

  /** The sum of the flows' deposit amounts, the number of deposits, and the same for withdrawals. */
  function Totals(flows: seq<Flow>): Counters
    decreases |flows|
  {
    if flows == [] then NoActivity else Plus(Movement(flows[0].amount, flows[0].isDeposit), Totals(flows[1..]))
  }

  lemma {:induction false} ApplyDailyAllKeyed(t: Tables, dayID: string, date: string, token: Token, flows: seq<Flow>)
    requires WellKeyed(t)
    ensures WellKeyed(ApplyDailyAll(t, dayID, date, token, flows))
    decreases |flows|
  {
    if flows != [] {
      ApplyDailyCounters(t, dayID, date, token, flows[0].amount, flows[0].isDeposit);
      ApplyDailyAllKeyed(ApplyDaily(t, dayID, date, token, flows[0].amount, flows[0].isDeposit), dayID, date, token, flows[1..]);
    }
  }

  /** After a run of updates for one token within one day, its counters have grown by the totals of the run. */
  lemma {:induction false} ApplyDailyAllAccumulates(t: Tables, dayID: string, date: string, token: Token, flows: seq<Flow>)
    requires WellKeyed(t)
    ensures DayCounters(ApplyDailyAll(t, dayID, date, token, flows), dayID, token.address)
         == Plus(DayCounters(t, dayID, token.address), Totals(flows))
    decreases |flows|
  {
    if flows == [] {
      assert Totals(flows) == NoActivity;
      PlusNoActivity(DayCounters(t, dayID, token.address));
    } else {
      var f, rest := flows[0], flows[1..];
      var t1 := ApplyDaily(t, dayID, date, token, f.amount, f.isDeposit);
      ApplyDailyCounters(t, dayID, date, token, f.amount, f.isDeposit);
      ApplyDailyAllAccumulates(t1, dayID, date, token, rest);
      var m := Movement(f.amount, f.isDeposit);
      assert Totals(flows) == Plus(m, Totals(rest));
      assert ApplyDailyAll(t, dayID, date, token, flows) == ApplyDailyAll(t1, dayID, date, token, rest);
      PlusAssociative(DayCounters(t, dayID, token.address), m, Totals(rest));
    }
  }

  /** On a day with no snapshot yet, the counters are exactly the totals of the run. */
  lemma FreshDayCountersAreTotals(t: Tables, dayID: string, date: string, token: Token, flows: seq<Flow>)
    requires WellKeyed(t) && dayID !in t.snapshots
    ensures DayCounters(ApplyDailyAll(t, dayID, date, token, flows), dayID, token.address) == Totals(flows)
  {
    ApplyDailyAllAccumulates(t, dayID, date, token, flows);
  }

  /** A deposit and then a withdrawal of one token on a new day (1000 in and 400 out, say):
    * the day's counters hold both. */
  lemma DepositThenWithdrawCounters(t: Tables, dayID: string, date: string, token: Token, deposit: nat, withdrawal: nat)
    requires WellKeyed(t) && dayID !in t.snapshots
    ensures DayCounters(ApplyDailyAll(t, dayID, date, token, [Flow(deposit, true), Flow(withdrawal, false)]), dayID, token.address)
         == Counters(deposit, 1, withdrawal, 1)
  {
    var flows := [Flow(deposit, true), Flow(withdrawal, false)];
    FreshDayCountersAreTotals(t, dayID, date, token, flows);
    assert Totals(flows[1..][1..]) == NoActivity;
  }

  /** The same two updates leave one record on the day's list: the withdrawal finds the
    * record the deposit created. */
  lemma DepositThenWithdrawOneRecord(t: Tables, dayID: string, date: string, token: Token, deposit: nat, withdrawal: nat)
    requires WellKeyed(t) && dayID !in t.snapshots
    ensures var t2 := ApplyDailyAll(t, dayID, date, token, [Flow(deposit, true), Flow(withdrawal, false)]);
      dayID in t2.snapshots && |t2.snapshots[dayID].tokenData| == 1
  {
    var flows := [Flow(deposit, true), Flow(withdrawal, false)];
    var t1 := ApplyDaily(t, dayID, date, token, deposit, true);
    var t2 := ApplyDaily(t1, dayID, date, token, withdrawal, false);
    assert ApplyDailyAll(t2, dayID, date, token, flows[1..][1..]) == t2;
    assert ApplyDailyAll(t, dayID, date, token, flows) == t2;
    ApplyDailyFrame(t, dayID, date, token, deposit, true);
    assert |t1.snapshots[dayID].tokenData| == 1;
    ApplyDailyCounters(t, dayID, date, token, deposit, true);
    assert FindTokenData(t1.snapshots[dayID].tokenData, t1.records, token.address).Some?;
    ApplyDailyFrame(t1, dayID, date, token, withdrawal, false);
  }

  /** Two tokens with the same symbol on a fresh day: the second one's new record replaces the first's
    * under the same id, the id is listed twice, and the first token's activity is lost. */
  lemma SymbolClashOverwrites(t: Tables, dayID: string, date: string, a: Token, b: Token,
                              amountA: nat, depositA: bool, amountB: nat, depositB: bool)
    requires WellKeyed(t) && dayID !in t.snapshots
    requires a.address != b.address && a.symbol == b.symbol
    ensures var t2 := ApplyDaily(ApplyDaily(t, dayID, date, a, amountA, depositA), dayID, date, b, amountB, depositB);
      var id := RecordId(date, a);
      && t2.snapshots[dayID].tokenData == [id, id]
      && t2.records[id].token == b.address
      && DayCounters(t2, dayID, b.address) == Movement(amountB, depositB)
      && DayCounters(t2, dayID, a.address) == NoActivity
  {
    var t1 := ApplyDaily(t, dayID, date, a, amountA, depositA);
    var id := RecordId(date, a);
    assert t1.snapshots[dayID].tokenData == [id];
    assert t1.snapshots[dayID].date == date;
    assert FindTokenData([id], t1.records, b.address) == None;
    var t2 := ApplyDaily(t1, dayID, date, b, amountB, depositB);
    assert t2.snapshots[dayID].tokenData == [id, id];
    assert t2.records[id].token == b.address;
    assert id in t2.records && t2.records[id].token != a.address;
    assert FindTokenData([id], t2.records, a.address) == FindTokenData([], t2.records, a.address);
    assert [id, id][1..] == [id];
    assert FindTokenData([id, id], t2.records, a.address) == None;
  }

  /** Every id on the day's list names a stored record and is the date and the symbol `symbolOf`
    * gives that record's token; no id is listed twice. */
  predicate KeyedBySymbol(t: Tables, dayID: string, symbolOf: map<string, string>) {
    dayID in t.snapshots ==>
      var snapshot := t.snapshots[dayID];
      var ids := snapshot.tokenData;
      && (forall i :: 0 <= i < |ids| ==>
            && ids[i] in t.records
            && t.records[ids[i]].token in symbolOf
            && ids[i] == snapshot.date + "-" + symbolOf[t.records[ids[i]].token])
      && (forall i, j :: 0 <= i < j < |ids| ==> ids[i] != ids[j])
  }

  /** No two token addresses share a symbol. */
  predicate DistinctSymbols(symbolOf: map<string, string>) {
    forall a, b :: a in symbolOf && b in symbolOf && a != b ==> symbolOf[a] != symbolOf[b]
  }

  lemma SamePrefix(p: string, x: string, y: string)
    requires p + x == p + y
    ensures x == y
  {
    assert x == (p + x)[|p|..];
    assert y == (p + y)[|p|..];
  }

  /** A list keyed by symbol holds one record per token address. */
  lemma {:induction false} OneRecordPerToken(t: Tables, dayID: string, symbolOf: map<string, string>)
    requires KeyedBySymbol(t, dayID, symbolOf) && dayID in t.snapshots
    ensures var ids := t.snapshots[dayID].tokenData;
      forall i, j :: 0 <= i < j < |ids| ==> t.records[ids[i]].token != t.records[ids[j]].token
  {
    var ids := t.snapshots[dayID].tokenData;
    forall i, j | 0 <= i < j < |ids|
      ensures t.records[ids[i]].token != t.records[ids[j]].token
    {
      if t.records[ids[i]].token == t.records[ids[j]].token {
        assert false;
      }
    }
  }

  /** When the tokens touched on a day have distinct symbols, an update keeps the day's list
    * duplicate-free and keyed by symbol, so one record per token address. */
  lemma {:induction false} DistinctSymbolsKeepKeying(t: Tables, dayID: string, date: string, token: Token,
                                                     amount: nat, isDeposit: bool, symbolOf: map<string, string>)
    requires WellKeyed(t) && KeyedBySymbol(t, dayID, symbolOf) && DistinctSymbols(symbolOf)
    requires token.address in symbolOf && symbolOf[token.address] == token.symbol
    ensures KeyedBySymbol(ApplyDaily(t, dayID, date, token, amount, isDeposit), dayID, symbolOf)
  {
    var t' := ApplyDaily(t, dayID, date, token, amount, isDeposit);
    var snapshot := SnapshotLookup(t.snapshots, dayID, date).0;
    var ids := snapshot.tokenData;
    var found := FindTokenData(ids, t.records, token.address);
    ApplyDailyFrame(t, dayID, date, token, amount, isDeposit);
    var ids' := t'.snapshots[dayID].tokenData;
    assert t'.snapshots[dayID].date == snapshot.date;
    FindTokenDataFirstMatch(ids, t.records, token.address);
    if found.Some? {
      var i :| IsMatch(ids, t.records, token.address, i) && t.records[ids[i]] == found.value;
      assert found.value.id == ids[i];
      assert ids' == ids;
      forall j | 0 <= j < |ids'|
        ensures ids'[j] in t'.records && t'.records[ids'[j]].token in symbolOf
        ensures ids'[j] == snapshot.date + "-" + symbolOf[t'.records[ids'[j]].token]
      {
        if ids'[j] == ids[i] {
          assert t'.records[ids[i]].token == t.records[ids[i]].token;
        }
      }
    } else {
      var key := RecordId(snapshot.date, token);
      forall j | 0 <= j < |ids|
        ensures ids[j] != key
      {
        if ids[j] == key {
          var other := t.records[ids[j]].token;
          SamePrefix(snapshot.date + "-", symbolOf[other], token.symbol);
          assert IsMatch(ids, t.records, token.address, j);
        }
      }
      assert ids' == ids + [key];
      forall j | 0 <= j < |ids'|
        ensures ids'[j] in t'.records && t'.records[ids'[j]].token in symbolOf
        ensures ids'[j] == snapshot.date + "-" + symbolOf[t'.records[ids'[j]].token]
      {
        if j < |ids| {
          assert ids'[j] == ids[j];
        }
      }
    }
  }

  /** Updates of one day for several tokens, each step a token and its flow, applied in order. */
  function ApplyDailyRun(t: Tables, dayID: string, date: string, steps: seq<(Token, Flow)>): Tables
    decreases |steps|
  {
    if steps == [] then t
    else
      var (token, flow) := steps[0];
      ApplyDailyRun(ApplyDaily(t, dayID, date, token, flow.amount, flow.isDeposit), dayID, date, steps[1..])
  }

  /** Starting from a day keyed by symbol (a day with no snapshot yet is), a run of updates for tokens
    * with distinct symbols leaves the day's list with one record per token address. */
  lemma {:induction false} DistinctSymbolsRun(t: Tables, dayID: string, date: string, steps: seq<(Token, Flow)>,
                                              symbolOf: map<string, string>)
    requires WellKeyed(t) && KeyedBySymbol(t, dayID, symbolOf) && DistinctSymbols(symbolOf)
    requires forall i :: 0 <= i < |steps| ==> steps[i].0.address in symbolOf && symbolOf[steps[i].0.address] == steps[i].0.symbol
    ensures var t' := ApplyDailyRun(t, dayID, date, steps);
      && WellKeyed(t') && KeyedBySymbol(t', dayID, symbolOf)
      && (dayID in t'.snapshots ==>
            var ids := t'.snapshots[dayID].tokenData;
            forall i, j :: 0 <= i < j < |ids| ==> t'.records[ids[i]].token != t'.records[ids[j]].token)
    decreases |steps|
  {
    if steps == [] {
      if dayID in t.snapshots {
        OneRecordPerToken(t, dayID, symbolOf);
      }
    } else {
      var (token, flow) := steps[0];
      ApplyDailyCounters(t, dayID, date, token, flow.amount, flow.isDeposit);
      DistinctSymbolsKeepKeying(t, dayID, date, token, flow.amount, flow.isDeposit, symbolOf);
      DistinctSymbolsRun(ApplyDaily(t, dayID, date, token, flow.amount, flow.isDeposit), dayID, date, steps[1..], symbolOf);
    }
  }
}
