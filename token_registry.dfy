/**
 * First sight of a token: its name, symbol and decimals read from the token
 * contract, each falling back to a default when the call reverts, and the
 * zero-initialised Token entity stored under its address.
 */
module TokenRegistry {
  import opened Entities

  /** The outcome of one contract call: it reverted, or it returned a value. */
  datatype CallResult<T> = Reverted | Returned(value: T)

  /** `readValue`: the returned value, or the default when the call reverted. */
  function ReadValue<T>(result: CallResult<T>, default: T): (r: T)
    ensures result.Returned? ==> r == result.value
    ensures result.Reverted? ==> r == default
  {
    if result.Reverted? then default else result.value
  }

  datatype TokenParams = TokenParams(name: string, symbol: string, decimals: int)

  /** What the token contract answers to `name()`, `symbol()` and `decimals()`. */
  datatype MetadataCalls = MetadataCalls(name: CallResult<string>, symbol: CallResult<string>, decimals: CallResult<int>)

  /** The native-asset sentinel address and the constants it is given. */
  datatype NativeAsset = NativeAsset(address: string, name: string, symbol: string, decimals: int)

  /** `TokenInit.getTokenParams`: every call is made; the sentinel only changes the defaults. */
  function GetTokenParams(address: string, calls: MetadataCalls, native: NativeAsset): (p: TokenParams)
    ensures calls.name.Returned? ==> p.name == calls.name.value
    ensures calls.symbol.Returned? ==> p.symbol == calls.symbol.value
    ensures calls.decimals.Returned? ==> p.decimals == calls.decimals.value
    ensures calls.name.Reverted? ==> p.name == if address == native.address then native.name else ""
    ensures calls.symbol.Reverted? ==> p.symbol == if address == native.address then native.symbol else ""
    ensures calls.decimals.Reverted? ==> p.decimals == if address == native.address then native.decimals else 0
  {
    var isNative := address == native.address;
    var defaultName := if isNative then native.name else "";
    var defaultSymbol := if isNative then native.symbol else "";
    var defaultDecimals := if isNative then native.decimals else 0;
    TokenParams(
      ReadValue(calls.name, defaultName),
      ReadValue(calls.symbol, defaultSymbol),
      ReadValue(calls.decimals, defaultDecimals))
  }

  /** When no call reverts, the sentinel address gets exactly what any other address gets. */
  lemma SentinelOnlyChangesDefaults(address: string, calls: MetadataCalls, native: NativeAsset)
    requires calls.name.Returned? && calls.symbol.Returned? && calls.decimals.Returned?
    ensures GetTokenParams(native.address, calls, native) == GetTokenParams(address, calls, native)
  {
  }

  /** A token as first stored: disabled, every counter zero, last active at the given time. */
  predicate IsFreshToken(t: Token, address: string, params: TokenParams, timestamp: int) {
    && t.id == address && t.address == address
    && !t.enabled
    && t.name == params.name && t.symbol == params.symbol && t.decimals == params.decimals
    && t.depositCount == 0 && t.withdrawCount == 0
    && t.totalDepositAmount == 0 && t.totalWithdrawalAmount == 0
    && t.currentStakedAmount == 0 && t.uniqueStakerCount == 0
    && t.lastActivityAt == timestamp
  }

  /** `getOrCreateToken` on the token table: the stored token, or a fresh one added to the table. */
  function TokenLookup(tokens: map<string, Token>, address: string, timestamp: int, calls: MetadataCalls, native: NativeAsset)
    : (r: (Token, map<string, Token>))
    ensures address in r.1 && r.1[address] == r.0
    ensures address in tokens ==> r.0 == tokens[address] && r.1 == tokens
    ensures address !in tokens ==>
      IsFreshToken(r.0, address, GetTokenParams(address, calls, native), timestamp) && r.1 == tokens[address := r.0]
  {
    if address in tokens then (tokens[address], tokens)
    else
      var params := GetTokenParams(address, calls, native);
      var token := Token(address, address, false, params.name, params.symbol, params.decimals, 0, 0, 0, 0, 0, timestamp, 0);
      (token, tokens[address := token])
  }

  /** Get-or-create is idempotent: a second call returns the same token and writes nothing,
    * whatever the time and whatever the contract would now answer. */
  lemma TokenLookupIdempotent(tokens: map<string, Token>, address: string, t1: int, t2: int,
                              calls1: MetadataCalls, calls2: MetadataCalls, native: NativeAsset)
    ensures var (token, tokens') := TokenLookup(tokens, address, t1, calls1, native);
      TokenLookup(tokens', address, t2, calls2, native) == (token, tokens')
  {
  }

  /** Get-or-create keeps the table keyed by id. */
  lemma TokenLookupKeyed(tokens: map<string, Token>, address: string, timestamp: int, calls: MetadataCalls, native: NativeAsset)
    requires TokensKeyed(tokens)
    ensures TokensKeyed(TokenLookup(tokens, address, timestamp, calls, native).1)
  {
  }

  /** `getOrCreateToken`: the metadata calls are the oracle `calls`, consulted only on first sight. */
  method GetOrCreateToken(store: Store, address: string, timestamp: int, calls: MetadataCalls, native: NativeAsset)
    returns (token: Token)
    requires store.Valid()
    modifies store
    ensures store.Valid()
    ensures (token, store.tokens) == TokenLookup(old(store.tokens), address, timestamp, calls, native)
    ensures store.snapshots == old(store.snapshots) && store.tokenDailyData == old(store.tokenDailyData)
  {
    if address !in store.tokens {
      var params := GetTokenParams(address, calls, native);
      var created := Token(address, address, false, params.name, params.symbol, params.decimals, 0, 0, 0, 0, 0, timestamp, 0);
      store.tokens := store.tokens[created.id := created];
    }
    token := store.tokens[address];
  }
}
