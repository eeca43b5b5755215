/**
 * The entities the core reads and writes, and the entity store they live in.
 * Every entity carries its `id`, and the store keeps each entity under that id,
 * as `save()` does; `load(id)` is a map lookup.
 */
module Entities {

  datatype Token = Token(
    id: string,
    address: string,
    enabled: bool,
    name: string,
    symbol: string,
    decimals: int,
    depositCount: nat,
    withdrawCount: nat,
    totalDepositAmount: nat,
    totalWithdrawalAmount: nat,
    currentStakedAmount: int,
    lastActivityAt: int,
    uniqueStakerCount: nat)

  /** The bucket of one day index: its date and the ids of its per-token records, in creation order. */
  datatype DailySnapshot = DailySnapshot(id: string, date: string, tokenData: seq<string>)

  /** The deposits and withdrawals of one token on one day. */
  datatype TokenDailyData = TokenDailyData(
    id: string,
    snapshot: string,
    token: string,
    dailyDepositAmount: nat,
    dailyDepositCount: nat,
    dailyWithdrawAmount: nat,
    dailyWithdrawCount: nat)

  predicate TokensKeyed(tokens: map<string, Token>) {
    forall k :: k in tokens ==> tokens[k].id == k
  }

  predicate SnapshotsKeyed(snapshots: map<string, DailySnapshot>) {
    forall k :: k in snapshots ==> snapshots[k].id == k
  }

  predicate RecordsKeyed(records: map<string, TokenDailyData>) {
    forall k :: k in records ==> records[k].id == k
  }

  /** The entity store: one table per entity type. */
  class Store {
    var tokens: map<string, Token>
    var snapshots: map<string, DailySnapshot>
    var tokenDailyData: map<string, TokenDailyData>

    ghost predicate Valid()
      reads this
    {
      TokensKeyed(tokens) && SnapshotsKeyed(snapshots) && RecordsKeyed(tokenDailyData)
    }

    constructor ()
      ensures Valid()
      ensures tokens == map[] && snapshots == map[] && tokenDailyData == map[]
    {
      tokens, snapshots, tokenDailyData := map[], map[], map[];
    }
  }
}
