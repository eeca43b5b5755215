# Zircuit restaking subgraph: daily snapshots and token registry

This project models the bookkeeping core of a subgraph that indexes deposits and
withdrawals on a restaking pool. There are two source files, `src/utils.ts` and
`src/SnapshotManager.ts`.

- **Calendar** (`getUnixDays`, `isLeapYear`): the day index of a block timestamp, and the
  Gregorian leap-year rule.
- **DateFormat** (`getDateString`): turns a timestamp into its `YYYY-MM-DD` date. It
  subtracts whole years from the seconds since 1970-01-01, then whole months, with a
  twelve-entry month table whose February is corrected for leap years. It then pads the
  month and the day to two digits. `GetDateString` keeps the two loops and the array. It is
  proved equal to a calendar specification: `DaysFromCivil` counts days from 1970-01-01 to a
  date, and `CivilFromDays` is its inverse. Lemmas prove the layout of the string, that it
  reads back as the day index, and that two timestamps share a date string exactly when they
  share a day index.
- **Decimal**: AssemblyScript's `toString()` on non-negative integers and `padStart`, with
  their round trip.
- **TokenRegistry** (`readValue`, `TokenInit.getTokenParams`, `getOrCreateToken`):
  - Each metadata call that reverts falls back to a default.
  - The native-asset sentinel address only changes those defaults.
  - A first sight of a token stores a disabled token with every counter at zero.
  - Get-or-create is idempotent.
- **Entities** and the store: `Token`, `DailySnapshot` and `TokenDailyData` are values. The
  store is a class with one map per entity type, each entity kept under its own `id`, as
  `save()` and `load()` do.
- **Snapshots** (`SnapshotManager`):
  - The class keeps the timestamp and the day id.
  - It gets or creates the day's snapshot.
  - It scans the snapshot's id list for the token's record.
  - It creates the record, keyed `date-symbol`, when none is found.
  - It adds the deposit or withdrawal to the day counters.

  Every method but `CreateDailySnapshot`, whose ensures gives the new snapshot table directly, is proved against a function on the store's tables (module **DailyRollup**).
  The lemmas about those functions state five things:
  - the day's counters grow by exactly the movement, and by the totals after any run of
    updates;
  - nothing else in the tables changes;
  - the tables stay keyed by id;
  - days are isolated: every record id begins with its day's date, so an update of one day
    leaves the other days' counters as they were;
  - the record key built from the symbol behaves as follows. Two tokens that share a symbol
    overwrite each other's record. Distinct symbols keep one record per token.

## Model

| member | source | states |
|---|---|---|
| Calendar.IsLeapYear | src/utils.ts:102-116 | a year is leap exactly when it is divisible by 4 and either not by 100 or by 400 |
| Calendar.UnixDays | src/utils.ts:49-51 | the day index is the floor of the timestamp over 86400: `days * 86400 <= t < (days + 1) * 86400` |
| Calendar.DaysInYear | src/utils.ts:62-65 | a year has 366 days exactly when it is leap, and 365 otherwise |
| Calendar.DaysBeforeYear | src/utils.ts:76-79 | the days of the whole years from 1970 up to a year are between 365 and 366 per year |
| Calendar.MonthLength | src/utils.ts:73-82 | months have 28 to 31 days; February has 29 exactly in leap years; every other month has its length from the table |
| Calendar.MonthsFillYear | src/utils.ts:82-88 | the twelve month lengths of a year add up to its length, so the month loop stops by December |
| Calendar.DaysBeforeYearClosedForm | src/utils.ts:76-79 | the days of the whole years the year loop skips are 365 per year plus one per Gregorian leap year |
| Calendar.DaysFromCivil | src/utils.ts:76-91 | the day count of a valid date lies within the span of its own year |
| Calendar.DaysFromCivilInjective | src/utils.ts:76-91 | two valid dates with the same day count are equal |
| Calendar.CivilFromDays | src/utils.ts:76-91 | every day count has a valid calendar date whose day count is that number |
| Calendar.CivilFromDaysRoundTrip | src/utils.ts:76-91 | going from a valid date to its day count and back gives the same date |
| Calendar.CivilYearBound | src/utils.ts:49-51 | every day index an i32 timestamp reaches falls in a year from 1970 to 2038, so the year has four digits |
| Decimal.NatToString | src/utils.ts:94-98 | `toString()` gives at least one character, all of them digits, with no leading zero except for 0 itself |
| Decimal.NatToStringRoundTrip | src/utils.ts:94-98 | the decimal string reads back as the number |
| Decimal.NatToStringInjective | src/SnapshotManager.ts:12 | two numbers give the same decimal string exactly when they are equal |
| Decimal.PadStart | src/utils.ts:94-95 | `padStart` gives length `max(width, length)`, ends with the input, and is the fill character in front |
| Decimal.PadTwoDigits | src/utils.ts:94-95 | a number below 100, padded to two places with '0', is two digits that read back as the number |
| DateFormat.GetDateString | src/utils.ts:59-99 | the two loops over the seconds leave the string of the calendar date of the timestamp's day index |
| DateFormat.DateString | src/utils.ts:59-99 | the date string is ten characters with a dash at positions 4 and 7 |
| DateFormat.DateStringLayout | src/utils.ts:91-98 | the string is four year digits, a dash, two month digits, a dash and two day digits; it reads back as a valid date whose day count is the timestamp's day index |
| DateFormat.FormatDateInjective | src/utils.ts:94-98 | two dates with four-digit years format alike exactly when they are equal |
| DateFormat.DateStringIdentifiesDay | src/utils.ts:59-99 | two timestamps get the same date string exactly when they have the same day index |
| DateFormat.EpochDateString | src/utils.ts:59-99 | timestamp 0 is "1970-01-01" |
| DateFormat.LeapDayDateString | src/utils.ts:59-99 | timestamp 1709164800 is "2024-02-29" (February of a leap year gets 29 days) |
| TokenRegistry.ReadValue | src/utils.ts:44-46 | the returned value when the call did not revert, and the default when it did |
| TokenRegistry.GetTokenParams | src/utils.ts:23-40 | each field is the contract's answer, or, when that call reverts, the native-asset constant at the sentinel address and ""/""/0 elsewhere |
| TokenRegistry.SentinelOnlyChangesDefaults | src/utils.ts:29-37 | when no call reverts, the sentinel address gets the same parameters as any other address |
| TokenRegistry.TokenLookup | src/utils.ts:118-140 | a stored token is returned with the table unchanged; otherwise a disabled token with zero counters, the fetched parameters and `lastActivityAt` the timestamp is added under the address |
| TokenRegistry.TokenLookupIdempotent | src/utils.ts:118-140 | a second get-or-create returns the same token and writes nothing, whatever the time and the contract's answers |
| TokenRegistry.TokenLookupKeyed | src/utils.ts:124-137 | get-or-create keeps the token table keyed by id |
| TokenRegistry.GetOrCreateToken | src/utils.ts:118-140 | the returned token and the new token table are those of TokenLookup; the other tables are untouched |
| Snapshots.SnapshotManager.constructor | src/SnapshotManager.ts:10-13 | the day id is the decimal string of the timestamp's day index, and reads back as it |
| Snapshots.DayID | src/SnapshotManager.ts:12 | the day id is all digits and reads back as the timestamp's day index |
| Snapshots.DayIDMatchesDate | src/SnapshotManager.ts:10-20 | two timestamps share a day id exactly when they share a date string |
| Snapshots.SnapshotManager.CreateDailySnapshot | src/SnapshotManager.ts:15-20 | the snapshot table gets, under the day id, a snapshot dated by `getDateString` with no records; it stays keyed |
| Snapshots.SnapshotManager.GetOrCreateDailySnapshot | src/SnapshotManager.ts:22-29 | returns and stores what SnapshotLookup gives |
| DailyRollup.SnapshotLookup | src/SnapshotManager.ts:22-29 | the day id is in the new table, mapped to the returned snapshot; other entries are unchanged; a missing day gets a fresh snapshot with the date and no records |
| DailyRollup.SnapshotLookupIdempotent | src/SnapshotManager.ts:22-29 | a second get-or-create of the same day returns the same snapshot and changes nothing |
| Entities.Store.constructor | src/utils.ts:119-137 | the store that `load` and `save` act on starts empty, and keeps every entity under its own id |
| Snapshots.SnapshotManager.GetTokenDailyData | src/SnapshotManager.ts:31-39 | the loop returns what FindTokenData specifies |
| DailyRollup.FindTokenData | src/SnapshotManager.ts:31-39 | a record the scan finds belongs to the token |
| DailyRollup.FindTokenDataFirstMatch | src/SnapshotManager.ts:31-39 | the scan finds nothing exactly when no listed id loads a record of the token, and otherwise the record at the first such position |
| DailyRollup.FindAppend | src/SnapshotManager.ts:31-39 | appending an id to the list changes the scan's answer only when it found nothing before |
| DailyRollup.FindUnaffected | src/SnapshotManager.ts:31-39 | writing a record under an id the list does not hold leaves the scan's answer unchanged |
| DailyRollup.RecordId | src/SnapshotManager.ts:46 | a new record's id is the snapshot's date, a dash, and then exactly the token's symbol |
| DailyRollup.Accumulate | src/SnapshotManager.ts:62-68 | a deposit adds the amount and one to the deposit counters only, a withdrawal to the withdraw counters only; id, snapshot and token are kept |
| DailyRollup.ApplyDaily | src/SnapshotManager.ts:41-72 | after an update the day has a snapshot, and no snapshot or record is removed |
| Snapshots.SnapshotManager.UpdateDailyData | src/SnapshotManager.ts:41-72 | the new tables are ApplyDaily of the old ones; the token table is untouched; the store stays keyed; the token's counters for the day grow by the movement |
| Snapshots.UpdateDailySteps | src/SnapshotManager.ts:41-72 | the method's intermediate saves add up to ApplyDaily, which keeps the tables keyed and adds the movement to the day's counters |
| DailyRollup.ApplyDailyCounters | src/SnapshotManager.ts:41-72 | an update keeps the tables keyed by id, and the token's counters for the day grow by exactly the movement |
| DailyRollup.ApplyDailyFrame | src/SnapshotManager.ts:41-72 | an update touches only the day's snapshot and one record; the list grows by the new id only when no record was found; an existing snapshot keeps its date |
| DailyRollup.TouchedIdDated | src/SnapshotManager.ts:41-60 | the record an update touches has an id that begins with the day's date and a dash |
| DailyRollup.DifferentDatesDifferentIds | src/SnapshotManager.ts:46 | ids built from two different ten-character dates differ |
| DailyRollup.ApplyDailyKeepsDatedIds | src/SnapshotManager.ts:41-72 | when a new day gets a date no stored day has, an update keeps the days apart: ten-character dates, one day per date, and every listed id prefixed by its day's date |
| DailyRollup.ApplyDailyOtherDay | src/SnapshotManager.ts:41-72 | with the days kept apart, an update of one day leaves every other day's counters for every token unchanged |
| Snapshots.NewDayHasFreshDate | src/SnapshotManager.ts:15-20 | when every stored day was created by a manager, a day not yet stored gets a date no stored day has |
| Snapshots.UpdateLeavesOtherDays | src/SnapshotManager.ts:41-72 | an update by a manager keeps the days apart and created by managers, and leaves every other day's counters unchanged |
| DailyRollup.ApplyDailyAllKeyed | src/SnapshotManager.ts:41-72 | any run of updates keeps the tables keyed by id |
| DailyRollup.ApplyDailyAllAccumulates | src/SnapshotManager.ts:41-72 | after a run of updates for one token and day, its counters have grown by the run's deposit and withdrawal totals |
| DailyRollup.FreshDayCountersAreTotals | src/SnapshotManager.ts:41-72 | on a day with no snapshot yet, the counters after a run are exactly the run's totals |
| DailyRollup.DepositThenWithdrawCounters | src/SnapshotManager.ts:41-72 | a deposit and then a withdrawal on a new day leave counters (deposit, 1, withdrawal, 1) |
| DailyRollup.DepositThenWithdrawOneRecord | src/SnapshotManager.ts:41-72 | the same two updates leave one record id on the day's list: the withdrawal finds the deposit's record |
| DailyRollup.SymbolClashOverwrites | src/SnapshotManager.ts:45-58 | two tokens with the same symbol on a fresh day: the second record replaces the first under the same id, the id is listed twice, and the first token's counters read as no activity |
| DailyRollup.OneRecordPerToken | src/SnapshotManager.ts:45-58 | when every listed id is the date and its record's symbol, with no id listed twice, no two listed records belong to the same token |
| DailyRollup.DistinctSymbolsKeepKeying | src/SnapshotManager.ts:41-72 | when touched tokens have distinct symbols, an update keeps the day's list duplicate-free and keyed by date and symbol |
| DailyRollup.DistinctSymbolsRun | src/SnapshotManager.ts:41-72 | from a fresh day, any run of updates for tokens with distinct symbols keeps the tables keyed and leaves one record per token on the day's list |

## Left out

- Timestamps are integers from 0 to 2^31 - 1. `BigInt.toI32()` truncation of larger block
  timestamps is not modelled, and neither is the `number` (f64) arithmetic of
  `getDateString`. In that range, `Math.floor` of the quotient is exact integer division.
- `getUnixHours` is not modelled. Nothing in the core uses it.
- `src/constants.ts` is not part of this model. The native-asset address, name, symbol and
  decimals, and `SECONDS_PER_DAY`, are a `NativeAsset` parameter and the constant 86400.
- Addresses are opaque strings. `toHex`, `Bytes.fromHexString` and byte comparison are left
  out. The token id and its address are the same string.
- The ERC20 `name()`, `symbol()` and `decimals()` calls are an oracle parameter
  (`MetadataCalls`). Each is a returned value or a revert. An i32 truncation of `decimals` is
  not modelled.
- BigInt counters are unbounded naturals. Amounts are non-negative.
- The store is three maps. Failed or partial saves, entity field nullability and the
  `data != null` guard on the id list are not modelled: the list is always present.
- `Snapshots.SnapshotManager.date` is a ghost field equal to `getDateString` of the timestamp.
  It is used only in contracts; the code computes the date when it creates a snapshot, as
  the source does.
- The event handlers in `src/ztaking-pool.ts` that call this core, and the tests, are not
  modelled.
