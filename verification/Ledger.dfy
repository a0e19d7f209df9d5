/**
 * One shard's token storage and the rules for reading and writing it: `dctDataStorage.go`, the balance
 * helpers of `dctTransfer.go`, and `payable.go`. Stored values are snapshots, as the marshalled bytes of
 * the program are; a key with no entry stands for an absent or empty value.
 */
module Ledger {
  import opened Bytes
  import opened Keys
  import opened Wrappers

  type Address = Bytes

  const METACHAIN: nat := 0xFFFF_FFFF
  const MAX_OPT_VALUE_LENGTH := 32

  datatype Kind = Fungible | NonFungible | OtherKind(code: nat)

  datatype MetaData = MetaData(nonce: uint64, name: Bytes, creator: Address, royalties: nat,
                               hash: Bytes, attributes: Bytes, uris: seq<Bytes>)

  datatype Token = Token(kind: Kind, value: int, properties: Bytes, meta: Option<MetaData>, reserved: Bytes)

  /** A value of the system account: a marshalled token, or the two bytes of a token's global settings. */
  datatype SysValue = Entry(token: Token) | Settings(paused: bool, limitedTransfer: bool, burnForAll: bool)

  datatype Role =
    | NFTCreate | NFTAddQuantity | NFTBurn | NFTAddURI | NFTUpdateAttributes
    | LocalMint | LocalBurn | TransferRole | OtherRole(name: Bytes)

  type Users = map<(Address, Bytes), Token>
  type Sys = map<Bytes, SysValue>

  /** The state of one shard. `roles` and `nonces` are kept per account and token, `transferRole` per token. */
  datatype Shard = Shard(
    users: Users,
    sys: Sys,
    roles: map<(Address, Bytes), seq<Role>>,
    transferRole: map<Bytes, seq<Address>>,
    nonces: map<(Address, Bytes), uint64>)

  /** The epoch flags, constant over a run. */
  datatype Flags = Flags(
    saveToSystem: bool, sendAlways: bool, fixOldLiquidity: bool, alwaysSaveMeta: bool,
    checkFrozenCollection: bool, transferToMeta: bool, checkTransfer: bool, wipeLiquidity: bool,
    tokenIdForTransferRole: bool, valueLengthCheck: bool, fixAsyncCallback: bool, checkFunctionArgument: bool)

  datatype Costs = Costs(
    transfer: uint64, nftTransfer: uint64, multiTransfer: uint64, create: uint64, addQuantity: uint64, burn: uint64,
    addUri: uint64, updateAttributes: uint64, localMint: uint64, localBurn: uint64,
    copyPerByte: uint64, storePerByte: uint64)

  /** What a shard's code is configured with; `self` is the shard it runs on. */
  datatype Config = Config(
    flags: Flags, costs: Costs, self: nat, numShards: nat, shardOf: Address -> nat,
    dctSC: Address, keyPrefix: Bytes, maxRoyalty: nat, maxMintLength: nat,
    marshal: Token -> Bytes, isPayable: (Address, Address) -> bool)

  datatype CallType = DirectCall | AsynchronousCall | AsynchronousCallBack | DCTTransferAndExecute | ExecOnDestByCaller

  /** The parts of a call's input that every built-in function sees. */
  datatype Input = Input(caller: Address, gasProvided: uint64, callType: CallType, retErr: bool)

  // ---- balances ----

  const NO_TOKEN := Token(Fungible, 0, [], None, [])

  function Stored(users: Users, a: Address, key: Bytes): Option<Token> {
    if (a, key) in users then Some(users[(a, key)]) else None
  }

  function Balance(users: Users, a: Address, key: Bytes): int {
    if (a, key) in users then users[(a, key)].value else 0
  }

  function Put(users: Users, a: Address, key: Bytes, tok: Token): Users {
    users[(a, key) := tok]
  }

  function Remove(users: Users, a: Address, key: Bytes): Users {
    users - {(a, key)}
  }

  // ---- settings and checks ----

  /** The frozen bit of a user's token properties. */
  predicate Frozen(properties: Bytes) {
    |properties| == 2 && properties[0] % 2 == 1
  }

  predicate IsPaused(sys: Sys, key: Bytes) {
    key in sys && sys[key].Settings? && sys[key].paused
  }

  predicate IsLimitedTransfer(sys: Sys, key: Bytes) {
    key in sys && sys[key].Settings? && sys[key].limitedTransfer
  }

  predicate IsBurnForAll(sys: Sys, key: Bytes) {
    key in sys && sys[key].Settings? && sys[key].burnForAll
  }

  function CheckFrozeAndPause(c: Config, sys: Sys, a: Address, key: Bytes, tok: Token, retErr: bool): Outcome {
    if retErr || a == c.dctSC then Pass
    else if Frozen(tok.properties) then Fail(ErrDCTIsFrozenForAccount)
    else if IsPaused(sys, key) then Fail(ErrDCTTokenIsPaused)
    else Pass
  }

  function CheckCollectionFrozen(c: Config, users: Users, a: Address, t: Bytes, nonce: uint64, retErr: bool): Outcome {
    if !c.flags.checkFrozenCollection || nonce == 0 || retErr then Pass
    else if (a, t) in users && Frozen(users[(a, t)].properties) then Fail(ErrDCTIsFrozenForAccount)
    else Pass
  }

  function CheckFrozenPauseProperties(c: Config, sh: Shard, a: Address, t: Bytes, nonce: uint64, tok: Token,
                                      retErr: bool): Outcome {
    var first := CheckFrozeAndPause(c, sh.sys, a, t, tok, retErr);
    if first.Fail? then first
    else
      var second := CheckFrozeAndPause(c, sh.sys, a, TokenKey(t, nonce), tok, retErr);
      if second.Fail? then second
      else CheckCollectionFrozen(c, sh.users, a, t, nonce, retErr)
  }

  predicate HasRole(sh: Shard, a: Address, t: Bytes, role: Role) {
    (a, t) in sh.roles && role in sh.roles[(a, t)]
  }

  predicate HasTransferRoleAddress(sh: Shard, snd: Address, dst: Address, t: Bytes) {
    t in sh.transferRole && (snd in sh.transferRole[t] || dst in sh.transferRole[t])
  }

  /** A limited token moves only if sender or destination holds the transfer role. */
  function CheckLimitedTransfer(c: Config, sh: Shard, snd: Address, dst: Address, dstHere: bool, t: Bytes,
                                retErr: bool): Outcome {
    var roleID := if c.flags.tokenIdForTransferRole then t else c.keyPrefix + t;
    if retErr || !IsLimitedTransfer(sh.sys, t) then Pass
    else if HasTransferRoleAddress(sh, snd, dst, roleID) then Pass
    else if HasRole(sh, snd, roleID, TransferRole) then Pass
    else if !dstHere then Fail(ErrNilUserAccount)
    else Need(HasRole(sh, dst, roleID, TransferRole), ErrActionNotAllowed)
  }

  predicate IsSmartContractAddress(a: Address) {
    |a| > 10 && forall i :: 0 <= i < 8 ==> a[i] == 0
  }

  /** `extra` holds the arguments after the transfer itself: a function name and its arguments. */
  predicate MustVerifyPayable(c: Config, inp: Input, extra: seq<Bytes>) {
    && !(c.flags.fixAsyncCallback && inp.retErr)
    && inp.callType != (if c.flags.fixAsyncCallback then AsynchronousCallBack else AsynchronousCall)
    && inp.callType != DCTTransferAndExecute
    && inp.caller != c.dctSC
    && !(extra != [] && (!c.flags.checkFunctionArgument || extra[0] != []))
  }

  function CheckPayable(c: Config, inp: Input, dst: Address, extra: seq<Bytes>): Outcome {
    if !MustVerifyPayable(c, inp, extra) then Pass
    else Need(c.isPayable(inp.caller, dst), ErrAccountNotPayable)
  }

  predicate IsSCCallAfter(c: Config, inp: Input, dst: Address, extra: seq<Bytes>) {
    && extra != []
    && !(inp.retErr && inp.callType != AsynchronousCallBack)
    && IsSmartContractAddress(dst)
    && !(c.flags.checkFunctionArgument && extra[0] == [])
  }

  // ---- reading tokens ----

  function ReadSys(sys: Sys, key: Bytes): Result<Option<Token>> {
    if key !in sys then Ok(None)
    else if sys[key].Settings? then Err(ErrUnmarshal)
    else Ok(Some(sys[key].token))
  }

  /** A user's token, with the metadata of the system account, and whether the user had none. */
  function ReadToken(c: Config, sh: Shard, a: Address, t: Bytes, nonce: uint64): Result<(Token, bool)> {
    var key := TokenKey(t, nonce);
    if (a, key) !in sh.users then Ok((NO_TOKEN, true))
    else
      var tok := sh.users[(a, key)];
      if !c.flags.saveToSystem || nonce == 0 then Ok((tok, false))
      else
        var entry :- ReadSys(sh.sys, key);
        if entry.Some? && entry.value.meta.Some? then Ok((tok.(meta := entry.value.meta), false))
        else Ok((tok, false))
  }

  function ReadTokenOnSender(c: Config, sh: Shard, a: Address, t: Bytes, nonce: uint64): Result<Token> {
    var (tok, isNew) :- ReadToken(c, sh, a, t, nonce);
    if isNew then Err(ErrNewNFTDataOnSenderAddress) else Ok(tok)
  }

  // ---- the liquidity counter of the system account ----

  /** The branch that retires the counter of a token moved before the liquidity model. */
  predicate IsOldTokenBranch(c: Config, tok: Token, delta: int) {
    c.flags.fixOldLiquidity && tok.value == 0 && delta < 0
  }

  function AddToLiquidity(c: Config, sys: Sys, t: Bytes, nonce: uint64, delta: int): Result<Sys> {
    if !c.flags.saveToSystem || !c.flags.sendAlways || nonce == 0 then Ok(sys)
    else
      var key := TokenKey(t, nonce);
      var entry :- ReadSys(sys, key);
      if entry.None? then Err(ErrNilDCTData)
      else
        var tok := entry.value;
        if tok.reserved == [] then Ok(sys)
        else if IsOldTokenBranch(c, tok, delta) then Ok(sys[key := Entry(tok.(reserved := []))])
        else if tok.value + delta < 0 then Err(ErrInvalidLiquidityForDCT)
        else if tok.value + delta == 0 then Ok(sys - {key})
        else Ok(sys[key := Entry(tok.(value := tok.value + delta))])
  }

  // ---- metadata on the system account ----

  function Zeros(n: nat): (s: Bytes)
    ensures |s| == n && forall i :: 0 <= i < n ==> s[i] == 0
  {
    seq(n, i => 0)
  }

  predicate BitSet(properties: Bytes, shard: nat) {
    shard < |properties| && properties[shard] > 0
  }

  function Mark(properties: Bytes, shard: nat): Bytes {
    if shard < |properties| then properties[shard := 1] else properties
  }

  /** Extends a bitmap to one byte per shard. */
  function Pad(properties: Bytes, n: nat): (s: Bytes)
    ensures |s| >= n && |s| >= |properties|
    ensures forall i :: 0 <= i < |s| ==> s[i] == if i < |properties| then properties[i] else 0
  {
    if |properties| < n then properties + Zeros(n - |properties|) else properties
  }

  /** Rewrites the metadata of an entry without liquidity (`saveMetadataIfRequired`). */
  function RefreshMeta(c: Config, sys: Sys, key: Bytes, tok: Token): Result<Sys> {
    if !c.flags.alwaysSaveMeta || !c.flags.sendAlways || key !in sys then Ok(sys)
    else
      var entry :- ReadSys(sys, key);
      if entry.None? || entry.value.reserved != [] then Ok(sys)
      else Ok(sys[key := Entry(entry.value.(meta := tok.meta))])
  }

  /** Whether a new entry starts a liquidity counter; `user` is `None` when there is no account. */
  function NewReserved(c: Config, user: Option<Option<Token>>): Result<Bytes> {
    if !c.flags.fixOldLiquidity then Ok([1])
    else match user
      case None => Err(ErrNilUserAccount)
      case Some(stored) => Ok(if stored.Some? && stored.value.meta.Some? then [] else [1])
  }

  /** The properties of an entry that is about to be written. */
  function NewProperties(c: Config, isNew: bool, sndShard: nat): Bytes {
    if c.flags.sendAlways then (if isNew then [] else Zeros(c.numShards))
    else
      var own := if c.self != METACHAIN then Mark(Zeros(c.numShards), c.self) else Zeros(c.numShards);
      if sndShard != METACHAIN then Mark(own, sndShard) else own
  }

  function SaveMeta(c: Config, sys: Sys, user: Option<Option<Token>>, sndShard: nat, key: Bytes, nonce: uint64,
                    tok: Token, mustUpdate: bool): Result<Sys> {
    if nonce == 0 || tok.meta.None? then Ok(sys)
    else
      var refreshed :- RefreshMeta(c, sys, key, tok);
      var isNew := key !in sys;
      if !mustUpdate && !isNew then Ok(refreshed)
      else
        var reserved :- if isNew && c.flags.sendAlways then NewReserved(c, user) else Ok([]);
        Ok(refreshed[key := Entry(Token(tok.kind, 0, NewProperties(c, isNew, sndShard), tok.meta, reserved))])
  }

  /** Writes a token to a user's account and its metadata to the system account (`SaveDCTNFTToken`). */
  function SaveToken(c: Config, sh: Shard, snd: Address, a: Address, t: Bytes, nonce: uint64, tok: Token,
                     mustUpdate: bool, retErr: bool): Result<Shard> {
    var allowed := CheckFrozenPauseProperties(c, sh, a, t, nonce, tok, retErr);
    if allowed.Fail? then Err(allowed.error) else
    var key := TokenKey(t, nonce);
    var sys :- if c.flags.saveToSystem
               then SaveMeta(c, sh.sys, Some(Stored(sh.users, a, key)), c.shardOf(snd), key, nonce, tok, mustUpdate)
               else Ok(sh.sys);
    var kept := if c.flags.saveToSystem then Token(tok.kind, tok.value, tok.properties, None, []) else tok;
    Ok(sh.(sys := sys, users := if tok.value <= 0 then Remove(sh.users, a, key) else Put(sh.users, a, key, kept)))
  }

  /** Whether the metadata went to the destination's shard before, recording that it now does. */
  function WasAlreadySent(c: Config, sys: Sys, t: Bytes, nonce: uint64, dst: Address): Result<(bool, Sys)> {
    var dstShard := c.shardOf(dst);
    if !c.flags.saveToSystem then Ok((false, sys))
    else if nonce == 0 || dstShard == c.self then Ok((true, sys))
    else if c.flags.sendAlways then Ok((false, sys))
    else if dstShard == METACHAIN then Ok((true, sys))
    else
      var key := TokenKey(t, nonce);
      var entry :- ReadSys(sys, key);
      if entry.None? then Ok((false, sys))
      else
        var properties := Pad(entry.value.properties, c.numShards);
        if BitSet(properties, dstShard) then Ok((true, sys))
        else Ok((false, sys[key := Entry(entry.value.(properties := Mark(properties, dstShard)))]))
  }

  // ---- fungible balances ----

  predicate AreZero(properties: Bytes) {
    forall i :: 0 <= i < |properties| ==> properties[i] == 0
  }

  /** Stores a token under a raw key, dropping it when nothing is worth keeping (`saveDCTData`). */
  function SaveRaw(users: Users, a: Address, key: Bytes, tok: Token): Users {
    if tok.value == 0 && AreZero(tok.properties) then Remove(users, a, key) else Put(users, a, key, tok)
  }

  function ReadRaw(users: Users, a: Address, key: Bytes): Token {
    if (a, key) in users then users[(a, key)] else NO_TOKEN
  }

  /** Changes a fungible balance by a signed amount (`addToDCTBalance`). */
  function AddToBalance(c: Config, sh: Shard, a: Address, t: Bytes, delta: int, retErr: bool): Result<Shard> {
    var tok := ReadRaw(sh.users, a, t);
    if tok.kind != Fungible then Err(ErrOnlyFungibleTokensHaveBalanceTransfer) else
    var allowed := CheckFrozeAndPause(c, sh.sys, a, t, tok, retErr);
    if allowed.Fail? then Err(allowed.error) else
    if tok.value + delta < 0 then Err(ErrInsufficientFunds) else
    Ok(sh.(users := SaveRaw(sh.users, a, t, tok.(value := tok.value + delta))))
  }

  /** Adds a moved token to the destination's balance, and to its shard's liquidity when it came from another shard. */
  function AddToDestination(c: Config, sh: Shard, snd: Address, dst: Address, tok: Token, t: Bytes, nonce: uint64,
                            retErr: bool): Result<(Shard, Token)> {
    var (current, _) :- ReadToken(c, sh, dst, t, nonce);
    var allowed := CheckFrozeAndPause(c, sh.sys, dst, t, current, retErr);
    if allowed.Fail? then Err(allowed.error) else
    var merged := tok.(value := tok.value + current.value);
    var saved :- SaveToken(c, sh, snd, dst, t, nonce, merged, false, retErr);
    if c.shardOf(snd) == c.shardOf(dst) then Ok((saved, merged))
    else
      var sys :- AddToLiquidity(c, saved.sys, t, nonce, tok.value);
      Ok((saved.(sys := sys), merged))
  }
}
