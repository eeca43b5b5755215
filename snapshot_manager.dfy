/**
 * `SnapshotManager`: bound to one block timestamp, it gets or creates the
 * DailySnapshot of that timestamp's day index and rolls deposits and
 * withdrawals up into the day's per-token TokenDailyData records.
 */
module Snapshots {
  import opened Wrappers
  import opened Decimal
  import opened Calendar
  import opened DateFormat
  import opened Entities
  import opened DailyRollup

  /** The id of the snapshot of a timestamp: its day index in decimal. */
  function DayID(timestamp: int): (id: string)
    requires 0 <= timestamp <= MaxTimestamp
    ensures AllDigits(id) && ValueOf(id) == UnixDays(timestamp)
  {
    NatToStringRoundTrip(UnixDays(timestamp));
    NatToString(UnixDays(timestamp))
  }

  /** Two timestamps share a snapshot id exactly when they share a date string, so each
    * snapshot is the bucket of exactly one calendar date. */
  lemma DayIDMatchesDate(t1: int, t2: int)
    requires 0 <= t1 <= MaxTimestamp && 0 <= t2 <= MaxTimestamp
    ensures DayID(t1) == DayID(t2) <==> DateString(t1) == DateString(t2)
  {
    NatToStringInjective(UnixDays(t1), UnixDays(t2));
    DateStringIdentifiesDay(t1, t2);
  }

  lemma OverwriteTwice<K, V>(m: map<K, V>, k: K, a: V, b: V)
    ensures m[k := a][k := b] == m[k := b]
  {
  }

  /** The steps of `updateDailyData`, each on the value the previous one left, add up to ApplyDaily. */
  lemma UpdateDailySteps(before: Tables, dayID: string, date: string, token: Token, amount: nat, isDeposit: bool,
                         created: DailySnapshot, snapshots: map<string, DailySnapshot>, found: Option<TokenDailyData>,
                         base: TokenDailyData, saved: map<string, TokenDailyData>, record: TokenDailyData, final: DailySnapshot)
    requires WellKeyed(before)
    requires (created, snapshots) == SnapshotLookup(before.snapshots, dayID, date)
    requires found == FindTokenData(created.tokenData, before.records, token.address)
    requires base == if found.Some? then found.value
                     else TokenDailyData(RecordId(created.date, token), created.id, token.address, 0, 0, 0, 0)
    requires saved == if found.Some? then before.records else before.records[base.id := base]
    requires final == if found.Some? then created else created.(tokenData := created.tokenData + [base.id])
    requires record == Accumulate(base, amount, isDeposit)
    ensures Tables(snapshots[final.id := final], saved[record.id := record]) == ApplyDaily(before, dayID, date, token, amount, isDeposit)
    ensures WellKeyed(ApplyDaily(before, dayID, date, token, amount, isDeposit))
    ensures DayCounters(ApplyDaily(before, dayID, date, token, amount, isDeposit), dayID, token.address)
         == Plus(DayCounters(before, dayID, token.address), Movement(amount, isDeposit))
  {
    var ids := if found.Some? then created.tokenData else created.tokenData + [base.id];
    if found.None? {
      OverwriteTwice(before.records, base.id, base, record);
    }
    ApplyDailyUnfolded(before, dayID, date, token, amount, isDeposit, created, snapshots, found, base, ids);
    ApplyDailyCounters(before, dayID, date, token, amount, isDeposit);
  }

  /** Every stored day was created by a manager: its key is the day id of some timestamp and its date that timestamp's date string. */
  ghost predicate DatedByDay(snapshots: map<string, DailySnapshot>) {
    forall k :: k in snapshots ==>
      exists timestamp :: 0 <= timestamp <= MaxTimestamp && DayID(timestamp) == k && snapshots[k].date == DateString(timestamp)
  }

  /** A day not yet stored gets a date no stored day has. */
  lemma NewDayHasFreshDate(snapshots: map<string, DailySnapshot>, timestamp: int)
    requires 0 <= timestamp <= MaxTimestamp && DatedByDay(snapshots)
    ensures FreshDate(snapshots, DayID(timestamp), DateString(timestamp))
  {
    if DayID(timestamp) !in snapshots {
      forall k | k in snapshots
        ensures snapshots[k].date != DateString(timestamp)
      {
        var other :| 0 <= other <= MaxTimestamp && DayID(other) == k && snapshots[k].date == DateString(other);
        DayIDMatchesDate(other, timestamp);
      }
    }
  }

  /** An update by a manager keeps the days apart and leaves every other day's counters as they were. */
  lemma UpdateLeavesOtherDays(t: Tables, timestamp: int, token: Token, amount: nat, isDeposit: bool,
                              other: string, address: string)
    requires 0 <= timestamp <= MaxTimestamp
    requires WellKeyed(t) && DatedIds(t) && DatedByDay(t.snapshots)
    requires other != DayID(timestamp)
    ensures var t' := ApplyDaily(t, DayID(timestamp), DateString(timestamp), token, amount, isDeposit);
      && DatedIds(t') && DatedByDay(t'.snapshots)
      && DayCounters(t', other, address) == DayCounters(t, other, address)
  {
    var dayID, date := DayID(timestamp), DateString(timestamp);
    var t' := ApplyDaily(t, dayID, date, token, amount, isDeposit);
    NewDayHasFreshDate(t.snapshots, timestamp);
    ApplyDailyKeepsDatedIds(t, dayID, date, token, amount, isDeposit);
    ApplyDailyOtherDay(t, dayID, date, token, amount, isDeposit, other, address);
    ApplyDailyFrame(t, dayID, date, token, amount, isDeposit);
    forall k | k in t'.snapshots
      ensures exists ts :: 0 <= ts <= MaxTimestamp && DayID(ts) == k && t'.snapshots[k].date == DateString(ts)
    {
      if k == dayID && dayID !in t.snapshots {
        assert t'.snapshots[k].date == DateString(timestamp);
      } else {
        var ts :| 0 <= ts <= MaxTimestamp && DayID(ts) == k && t.snapshots[k].date == DateString(ts);
        assert t'.snapshots[k].date == t.snapshots[k].date;
      }
    }
  }

  /** The snapshot and record tables of the store, as the daily rollup sees them. */
  function DailyTables(store: Store): Tables
    reads store
  {
    Tables(store.snapshots, store.tokenDailyData)
  }

  class SnapshotManager {
    const timestamp: int
    const dayID: string
    /** The date a snapshot created by this manager is given: `getDateString` of the timestamp. */
    ghost const date: string

    ghost predicate Valid() {
      0 <= timestamp <= MaxTimestamp && dayID == DayID(timestamp) && date == DateString(timestamp)
    }

    constructor (timestamp: int)
      requires 0 <= timestamp <= MaxTimestamp
      ensures Valid() && this.timestamp == timestamp
      ensures AllDigits(dayID) && ValueOf(dayID) == UnixDays(timestamp)
    {
      this.timestamp := timestamp;
      this.dayID := NatToString(UnixDays(timestamp));
      this.date := DateString(timestamp);
      NatToStringRoundTrip(UnixDays(timestamp));
    }

    /** Stores a snapshot for `dayID`, dated from the manager's timestamp, with no records. */
    method CreateDailySnapshot(store: Store)
      requires Valid() && store.Valid()
      modifies store`snapshots
      ensures store.Valid()
      ensures store.snapshots == old(store.snapshots)[dayID := DailySnapshot(dayID, DateString(timestamp), [])]
    {
      var formatted := GetDateString(timestamp);
      var snapshot := DailySnapshot(dayID, formatted, []);
      store.snapshots := store.snapshots[snapshot.id := snapshot];
    }

    method GetOrCreateDailySnapshot(store: Store) returns (snapshot: DailySnapshot)
      requires Valid() && store.Valid()
      modifies store`snapshots
      ensures store.Valid()
      ensures (snapshot, store.snapshots) == SnapshotLookup(old(store.snapshots), dayID, date)
    {
      var loaded := if dayID in store.snapshots then Some(store.snapshots[dayID]) else None;
      if loaded.None? {
        CreateDailySnapshot(store);
        loaded := Some(store.snapshots[dayID]);
      }
      snapshot := loaded.value;
    }

    /** Scans the snapshot's ids in order for the first record that loads and belongs to `token`. */
    method GetTokenDailyData(store: Store, token: Token, snapshot: DailySnapshot) returns (found: Option<TokenDailyData>)
      ensures found == FindTokenData(snapshot.tokenData, store.tokenDailyData, token.address)
    {
      var i := 0;
      while i < |snapshot.tokenData|
        invariant 0 <= i <= |snapshot.tokenData|
        invariant forall j :: 0 <= j < i ==> !IsMatch(snapshot.tokenData, store.tokenDailyData, token.address, j)
      {
        var id := snapshot.tokenData[i];
        var tokenData := if id in store.tokenDailyData then Some(store.tokenDailyData[id]) else None;
        if tokenData.Some? && tokenData.value.token == token.address {
          FindTokenDataFirstMatch(snapshot.tokenData, store.tokenDailyData, token.address);
          assert IsMatch(snapshot.tokenData, store.tokenDailyData, token.address, i);
          return tokenData;
        }
        i := i + 1;
      }
      FindTokenDataFirstMatch(snapshot.tokenData, store.tokenDailyData, token.address);
      return None;
    }

    /** Adds one deposit or withdrawal of `token` to the day's record, creating the snapshot
      * and the record when they do not exist yet. */
    method UpdateDailyData(store: Store, token: Token, amount: nat, isDeposit: bool)
      requires Valid() && store.Valid()
      modifies store
      ensures store.Valid()
      ensures store.tokens == old(store.tokens)
      ensures DailyTables(store) == ApplyDaily(old(DailyTables(store)), dayID, date, token, amount, isDeposit)
      ensures DayCounters(DailyTables(store), dayID, token.address)
           == Plus(old(DayCounters(DailyTables(store), dayID, token.address)), Movement(amount, isDeposit))
    {
      ghost var before := DailyTables(store);
      ghost var tokens := store.tokens;

      var snapshot := GetOrCreateDailySnapshot(store);
      ghost var created, snapshots := snapshot, store.snapshots;
      assert store.tokens == tokens && store.tokenDailyData == before.records;
      var tokenData := GetTokenDailyData(store, token, snapshot);
      var record: TokenDailyData;
      if tokenData.None? {
        record := TokenDailyData(RecordId(snapshot.date, token), snapshot.id, token.address, 0, 0, 0, 0);
        store.tokenDailyData := store.tokenDailyData[record.id := record];
        var data := snapshot.tokenData;
        data := data + [record.id];
        snapshot := snapshot.(tokenData := data);
      } else {
        record := tokenData.value;
      }
      ghost var base, saved := record, store.tokenDailyData;
      assert snapshot.id == created.id == dayID;

      if isDeposit {
        record := record.(dailyDepositAmount := record.dailyDepositAmount + amount,
                          dailyDepositCount := record.dailyDepositCount + 1);
        assert record == Accumulate(base, amount, true);
      } else {
        record := record.(dailyWithdrawAmount := record.dailyWithdrawAmount + amount,
                          dailyWithdrawCount := record.dailyWithdrawCount + 1);
        assert record == Accumulate(base, amount, false);
      }

      store.tokenDailyData := store.tokenDailyData[record.id := record];
      store.snapshots := store.snapshots[snapshot.id := snapshot];
      UpdateDailySteps(before, dayID, date, token, amount, isDeposit, created, snapshots, tokenData, base, saved, record, snapshot);
      assert DailyTables(store) == ApplyDaily(before, dayID, date, token, amount, isDeposit);
      assert store.tokens == tokens;
    }
  }
}
