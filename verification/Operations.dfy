/**
 * The built-in functions of one shard as functions on its state, with the branches and checks of the program
 * in the program's order. A call that fails leaves no state: the node restores the shard it ran on.
 */
module Operations {
  import opened Bytes
  import opened Keys
  import opened Wrappers
  import opened Ledger
  import CreatorAccounts
  import RoleLists

  // ---- what travels between shards ----

  /** One entry of a multi-transfer's argument list. */
  datatype Move = Move(token: Bytes, nonce: uint64, value: nat)

  /** A shipped token: its marshalled form, or only the amount when the destination has the metadata. */
  datatype Body = Payload(data: Token) | Amount(value: nat)

  datatype Item = Item(token: Bytes, nonce: uint64, body: Body) {
    function Key(): Bytes {
      TokenKey(token, nonce)
    }

    function Value(): int {
      if body.Payload? then body.data.value else body.value
    }
  }

  datatype Carrier = ByTransfer | ByNftTransfer | ByMultiTransfer

  datatype Envelope = Envelope(carrier: Carrier, caller: Address, recipient: Address, items: seq<Item>,
                               extra: seq<Bytes>, callType: CallType, retErr: bool)

  /** Gas left, gas handed to an output transfer, and the messages sent to other shards. */
  datatype Output = Output(gasRemaining: nat, gasEmitted: nat, sent: seq<Envelope>)

  /** Gas not consumed stays with the caller, unless a contract call follows, which gets all of it. */
  function SplitGas(gas: nat, callAfter: bool): (nat, nat) {
    if callAfter then (0, gas) else (gas, 0)
  }

  function ToShard(c: Config, dst: Address): bool {
    c.shardOf(dst) == c.self
  }

  // ---- multi-transfer, sender half ----

  /** Takes an amount off the sender; answers with the token that carries this amount on. */
  function DebitForMulti(c: Config, sh: Shard, snd: Address, mv: Move, retErr: bool): Result<(Token, Shard)> {
    if mv.value == 0 then Err(ErrInvalidNFTQuantity) else
    var tok :- ReadTokenOnSender(c, sh, snd, mv.token, mv.nonce);
    if tok.value < mv.value then Err(ErrInsufficientQuantityDCT) else
    var debited :- SaveToken(c, sh, snd, snd, mv.token, mv.nonce, tok.(value := tok.value - mv.value), false, retErr);
    Ok((tok.(value := mv.value), debited))
  }

  /** Debits one token and credits it when the destination is in this shard (`transferOneTokenOnSenderShard`). */
  function SendOne(c: Config, sh: Shard, snd: Address, dst: Address, mv: Move, retErr: bool): Result<(Shard, Token)> {
    var (shipped, debited) :- DebitForMulti(c, sh, snd, mv, retErr);
    var limited := CheckLimitedTransfer(c, debited, snd, dst, ToShard(c, dst), mv.token, retErr);
    if limited.Fail? then Err(limited.error) else
    if ToShard(c, dst) then AddToDestination(c, debited, snd, dst, shipped, mv.token, mv.nonce, retErr)
    else
      var sys :- AddToLiquidity(c, debited.sys, mv.token, mv.nonce, -(mv.value as int));
      Ok((debited.(sys := sys), shipped))
  }

  /** The loop over all tokens, in list order. */
  function SendAll(c: Config, sh: Shard, snd: Address, dst: Address, moves: seq<Move>, retErr: bool)
    : (r: Result<(Shard, seq<Token>)>)
    ensures r.Ok? ==> |r.value.1| == |moves|
  {
    if moves == [] then Ok((sh, []))
    else
      var last := |moves| - 1;
      var (before, tokens) :- SendAll(c, sh, snd, dst, moves[..last], retErr);
      var (after, tok) :- SendOne(c, before, snd, dst, moves[last], retErr);
      Ok((after, tokens + [tok]))
  }

  function CopyCost(c: Config, tok: Token): uint64 {
    Wrap64(|c.marshal(tok)| * c.costs.copyPerByte)
  }

  /** Chooses the shipped form of one token and charges for copying it (`createDCTNFTOutputTransfers`, loop body). */
  function ShipOne(c: Config, sys: Sys, dst: Address, mv: Move, tok: Token, gas: nat): Result<(Sys, Item, nat)> {
    if mv.nonce == 0 then Ok((sys, Item(mv.token, mv.nonce, Amount(mv.value)), gas))
    else
      var (wasSent, marked) :- WasAlreadySent(c, sys, mv.token, mv.nonce, dst);
      if !wasSent || mv.value == 1 || |FromNat(mv.value)| > MAX_OPT_VALUE_LENGTH then
        if CopyCost(c, tok) > gas then Err(ErrNotEnoughGas) else
        Ok((marked, Item(mv.token, mv.nonce, Payload(tok)), gas - CopyCost(c, tok)))
      else Ok((marked, Item(mv.token, mv.nonce, Amount(mv.value)), gas))
  }

  function ShipAll(c: Config, sys: Sys, dst: Address, moves: seq<Move>, tokens: seq<Token>, gas: nat)
    : (r: Result<(Sys, seq<Item>, nat)>)
    requires |moves| == |tokens|
    ensures r.Ok? ==> |r.value.1| == |moves|
  {
    if moves == [] then Ok((sys, [], gas))
    else
      var last := |moves| - 1;
      var (before, items, left) :- ShipAll(c, sys, dst, moves[..last], tokens[..last], gas);
      var (after, item, rest) :- ShipOne(c, before, dst, moves[last], tokens[last], left);
      Ok((after, items + [item], rest))
  }

  function CheckDestination(c: Config, inp: Input, dst: Address): Outcome {
    if |dst| != |inp.caller| || dst == inp.caller then Fail(ErrInvalidArguments)
    else Need(c.shardOf(dst) != METACHAIN || c.flags.transferToMeta, ErrInvalidRcvAddr)
  }

  /** Gas and messages after the state changes of a transfer. */
  function Finish(c: Config, inp: Input, dst: Address, carrier: Carrier, items: seq<Item>, extra: seq<Bytes>, gas: nat)
    : Output {
    var (left, emitted) := SplitGas(gas, IsSCCallAfter(c, inp, dst, extra));
    Output(left, emitted,
           if ToShard(c, dst) then []
           else [Envelope(carrier, inp.caller, dst, items, extra, inp.callType, inp.retErr)])
  }

  function MultiCost(c: Config, count: nat): uint64 {
    Wrap64(count * c.costs.multiTransfer)
  }

  function MultiSend(c: Config, sh: Shard, inp: Input, dst: Address, moves: seq<Move>, extra: seq<Bytes>)
    : Result<(Shard, Output)> {
    var destination := CheckDestination(c, inp, dst);
    if destination.Fail? then Err(destination.error) else
    if moves == [] then Err(ErrInvalidArguments) else
    var cost := MultiCost(c, |moves|);
    if cost > inp.gasProvided then Err(ErrNotEnoughGas) else
    var payable := if ToShard(c, dst) then CheckPayable(c, inp, dst, extra) else Pass;
    if payable.Fail? then Err(payable.error) else
    var (moved, tokens) :- SendAll(c, sh, inp.caller, dst, moves, inp.retErr);
    var (sys, items, gas) :- ShipAll(c, moved.sys, dst, moves, tokens, inp.gasProvided - cost);
    Ok((moved.(sys := sys), Finish(c, inp, dst, ByMultiTransfer, items, extra, gas)))
  }

  // ---- single NFT transfer, sender half ----

  function DebitForNft(c: Config, sh: Shard, snd: Address, mv: Move, retErr: bool): Result<(Token, Shard)> {
    var tok :- ReadTokenOnSender(c, sh, snd, mv.token, mv.nonce);
    if mv.nonce == 0 then Err(ErrNFTDoesNotHaveMetadata) else
    if tok.value < mv.value then Err(ErrInvalidNFTQuantity) else
    if c.flags.checkTransfer && mv.value == 0 then Err(ErrInvalidNFTQuantity) else
    var debited :- SaveToken(c, sh, snd, snd, mv.token, mv.nonce, tok.(value := tok.value - mv.value), false, retErr);
    Ok((tok.(value := mv.value), debited))
  }

  /** The changes of balances, for a single NFT: debit, then credit or leave, then the transfer-role check. */
  function NftSendOne(c: Config, sh: Shard, inp: Input, dst: Address, mv: Move, extra: seq<Bytes>): Result<(Shard, Token)> {
    var (shipped, debited) :- DebitForNft(c, sh, inp.caller, mv, inp.retErr);
    var (moved, final) :- NftMoveOn(c, debited, inp, dst, shipped, mv, extra);
    var limited := CheckLimitedTransfer(c, moved, inp.caller, dst, ToShard(c, dst), mv.token, inp.retErr);
    if limited.Fail? then Err(limited.error) else
    Ok((moved, final))
  }

  function NftSend(c: Config, sh: Shard, inp: Input, dst: Address, mv: Move, extra: seq<Bytes>)
    : Result<(Shard, Output)> {
    var destination := CheckDestination(c, inp, dst);
    if destination.Fail? then Err(destination.error) else
    if c.costs.nftTransfer > inp.gasProvided then Err(ErrNotEnoughGas) else
    var (moved, tok) :- NftSendOne(c, sh, inp, dst, mv, extra);
    var (sys, item, gas) :- NftShip(c, moved.sys, dst, mv, tok, inp.gasProvided - c.costs.nftTransfer);
    Ok((moved.(sys := sys), Finish(c, inp, dst, ByNftTransfer, [item], extra, gas)))
  }

  /** The credit in this shard, or the liquidity that leaves it. */
  function NftMoveOn(c: Config, sh: Shard, inp: Input, dst: Address, tok: Token, mv: Move, extra: seq<Bytes>)
    : Result<(Shard, Token)> {
    if ToShard(c, dst) then
      var payable := CheckPayable(c, inp, dst, extra);
      if payable.Fail? then Err(payable.error) else
      AddToDestination(c, sh, inp.caller, dst, tok, mv.token, mv.nonce, inp.retErr)
    else
      var sys :- AddToLiquidity(c, sh.sys, mv.token, mv.nonce, -(mv.value as int));
      Ok((sh.(sys := sys), tok))
  }

  /** The shipped form of a single NFT; unlike the multi-transfer it looks at the token as it stands after the credit. */
  function NftShip(c: Config, sys: Sys, dst: Address, mv: Move, tok: Token, gas: nat): Result<(Sys, Item, nat)> {
    var (wasSent, marked) :- WasAlreadySent(c, sys, mv.token, mv.nonce, dst);
    if !wasSent || tok.value == 1 then
      if CopyCost(c, tok) > gas then Err(ErrNotEnoughGas) else
      Ok((marked, Item(mv.token, mv.nonce, Payload(tok)), gas - CopyCost(c, tok)))
    else Ok((marked, Item(mv.token, mv.nonce, Amount(mv.value)), gas))
  }

  // ---- fungible transfer, sender half ----

  function FungibleSend(c: Config, sh: Shard, inp: Input, dst: Address, t: Bytes, value: nat, extra: seq<Bytes>)
    : Result<(Shard, Output)> {
    if c.shardOf(dst) == METACHAIN && !c.flags.transferToMeta then Err(ErrInvalidRcvAddr) else
    if value == 0 then Err(ErrNegativeValue) else
    var limited := CheckLimitedTransfer(c, sh, inp.caller, dst, ToShard(c, dst), t, inp.retErr);
    if limited.Fail? then Err(limited.error) else
    if c.costs.transfer > inp.gasProvided then Err(ErrNotEnoughGas) else
    var debited :- AddToBalance(c, sh, inp.caller, t, -(value as int), inp.retErr);
    var gas := inp.gasProvided - c.costs.transfer;
    if ToShard(c, dst) then
      var payable := CheckPayable(c, inp, dst, extra);
      if payable.Fail? then Err(payable.error) else
      var credited :- AddToBalance(c, debited, dst, t, value, inp.retErr);
      var (left, emitted) := SplitGas(gas, IsSCCallAfter(c, inp, dst, extra));
      Ok((credited, Output(left, emitted, [])))
    else
      var (left, emitted) := SplitGas(gas, IsSmartContractAddress(inp.caller));
      var envelope := Envelope(ByTransfer, inp.caller, dst, [Item(t, 0, Amount(value))], extra, inp.callType, inp.retErr);
      Ok((debited, Output(left, emitted, [envelope])))
  }

  // ---- the destination halves ----

  /** The token that an item stands for at its destination. */
  function ArrivingToken(item: Item): Token {
    if item.body.Payload? then item.body.data else Token(NonFungible, item.body.value, [], None, [])
  }

  function CreditOne(c: Config, sh: Shard, env: Envelope, item: Item): Result<Shard> {
    if env.carrier == ByNftTransfer || (env.carrier == ByMultiTransfer && item.nonce > 0) then
      var (after, _) :- AddToDestination(c, sh, env.caller, env.recipient, ArrivingToken(item), item.token, item.nonce, env.retErr);
      Ok(after)
    else AddToBalance(c, sh, env.recipient, item.token, item.Value(), env.retErr)
  }

  function CreditAll(c: Config, sh: Shard, env: Envelope, items: seq<Item>): Result<Shard> {
    if items == [] then Ok(sh)
    else
      var last := |items| - 1;
      var before :- CreditAll(c, sh, env, items[..last]);
      CreditOne(c, before, env, items[last])
  }

  /** Runs an arriving message; `gas` is what the message provides (the three destination halves). */
  function Deliver(c: Config, sh: Shard, env: Envelope, gas: uint64): Result<(Shard, Output)> {
    var inp := Input(env.caller, gas, env.callType, env.retErr);
    if env.carrier == ByTransfer && c.shardOf(env.recipient) == METACHAIN && !c.flags.transferToMeta then Err(ErrInvalidRcvAddr) else
    if env.carrier == ByTransfer && exists item <- env.items :: item.Value() <= 0 then Err(ErrNegativeValue) else
    if env.items == [] then Err(ErrInvalidArguments) else
    var payable := CheckPayable(c, inp, env.recipient, env.extra);
    if payable.Fail? then Err(payable.error) else
    var after :- CreditAll(c, sh, env, env.items);
    Ok((after, DeliveryGas(c, inp, env)))
  }

  /** Destination gas: the fungible transfer pays its cost again, the others pass everything on. */
  function DeliveryGas(c: Config, inp: Input, env: Envelope): Output {
    if env.carrier == ByTransfer then
      if IsSCCallAfter(c, inp, env.recipient, env.extra)
      then Output(0, if inp.gasProvided < c.costs.transfer then 0 else inp.gasProvided - c.costs.transfer, [])
      else Output(if inp.callType == AsynchronousCallBack then inp.gasProvided else 0, 0, [])
    else
      var (left, emitted) := SplitGas(inp.gasProvided, env.extra != [] && IsSmartContractAddress(env.recipient));
      Output(left, emitted, [])
  }

  /**
   * What the node runs on the destination shard for a message whose processing failed: the metadata that the
   * message carries is saved all the same (`SaveNFTMetaDataToSystemAccount`).
   */
  function SaveMetaOfItem(c: Config, sys: Sys, env: Envelope, item: Item): Result<Sys> {
    if item.body.Payload? && (env.carrier == ByNftTransfer || item.nonce > 0)
    then SaveMeta(c, sys, None, c.shardOf(env.caller), item.Key(), item.nonce, item.body.data, true)
    else Ok(sys)
  }

  function SaveMetaOfItems(c: Config, sys: Sys, env: Envelope, items: seq<Item>): Result<Sys> {
    if items == [] then Ok(sys)
    else
      var last := |items| - 1;
      var before :- SaveMetaOfItems(c, sys, env, items[..last]);
      SaveMetaOfItem(c, before, env, items[last])
  }

  function SaveMetaOfMessage(c: Config, sys: Sys, env: Envelope): Result<Sys> {
    if !c.flags.saveToSystem || c.flags.sendAlways || env.carrier == ByTransfer then Ok(sys)
    else if c.shardOf(env.caller) == c.shardOf(env.recipient) || c.self != c.shardOf(env.recipient) then Ok(sys)
    else SaveMetaOfItems(c, sys, env, env.items)
  }

  // ---- supply-changing functions ----

  /** The metadata fields of a create call; `argBytes` is the length of all its arguments. */
  datatype Creation = Creation(token: Bytes, quantity: Bytes, name: Bytes, royalties: nat, hash: Bytes,
                               attributes: Bytes, uris: seq<Bytes>, argBytes: nat)

  function LatestNonce(sh: Shard, a: Address, t: Bytes): uint64 {
    if (a, t) in sh.nonces then sh.nonces[(a, t)] else 0
  }

  function NextNonce(sh: Shard, a: Address, t: Bytes): uint64 {
    Wrap64(LatestNonce(sh, a, t) + 1)
  }

  /** `holder` is the account that holds the create role: the caller, or a contract named by the last argument. */
  function Create(c: Config, sh: Shard, inp: Input, holder: Address, cr: Creation): Result<(Shard, Output)> {
    if c.costs.create > inp.gasProvided then Err(ErrNotEnoughGas) else
    if inp.callType == ExecOnDestByCaller && |holder| != |inp.caller| then Err(ErrInvalidAddressLength) else
    if (inp.callType == ExecOnDestByCaller) == (holder == inp.caller) then Err(ErrInvalidRcvAddr) else
    if !HasRole(sh, holder, cr.token, NFTCreate) then Err(ErrActionNotAllowed) else
    var gasToUse := Wrap64(cr.argBytes * c.costs.storePerByte + c.costs.create);
    if gasToUse > inp.gasProvided then Err(ErrNotEnoughGas) else
    if cr.royalties > c.maxRoyalty then Err(ErrInvalidArguments) else
    var quantity := ToNat(cr.quantity);
    if quantity == 0 then Err(ErrInvalidArguments) else
    if quantity > 1 && !HasRole(sh, holder, cr.token, NFTAddQuantity) then Err(ErrActionNotAllowed) else
    if c.flags.valueLengthCheck && |cr.quantity| > MAX_OPT_VALUE_LENGTH then Err(ErrInvalidArguments) else
    var nonce := NextNonce(sh, holder, cr.token);
    var meta := MetaData(nonce, cr.name, inp.caller, cr.royalties, cr.hash, cr.attributes, cr.uris);
    var saved :- SaveToken(c, sh, holder, holder, cr.token, nonce,
                           Token(NonFungible, quantity, [], Some(meta), []), true, inp.retErr);
    var sys :- AddToLiquidity(c, saved.sys, cr.token, nonce, quantity);
    Ok((saved.(sys := sys, nonces := saved.nonces[(holder, cr.token) := nonce]),
        Output(inp.gasProvided - gasToUse, 0, [])))
  }

  function AddQuantity(c: Config, sh: Shard, inp: Input, t: Bytes, nonce: uint64, quantity: Bytes)
    : Result<(Shard, Output)> {
    if c.costs.addQuantity > inp.gasProvided then Err(ErrNotEnoughGas) else
    if !HasRole(sh, inp.caller, t, NFTAddQuantity) then Err(ErrActionNotAllowed) else
    var tok :- ReadTokenOnSender(c, sh, inp.caller, t, nonce);
    if nonce == 0 then Err(ErrNFTDoesNotHaveMetadata) else
    if c.flags.valueLengthCheck && |quantity| > MAX_OPT_VALUE_LENGTH then Err(ErrInvalidArguments) else
    var value := ToNat(quantity);
    var saved :- SaveToken(c, sh, inp.caller, inp.caller, t, nonce, tok.(value := tok.value + value), false, inp.retErr);
    var sys :- AddToLiquidity(c, saved.sys, t, nonce, value);
    Ok((saved.(sys := sys), Output(inp.gasProvided - c.costs.addQuantity, 0, [])))
  }

  function Burn(c: Config, sh: Shard, inp: Input, t: Bytes, nonce: uint64, value: nat): Result<(Shard, Output)> {
    if c.costs.burn > inp.gasProvided then Err(ErrNotEnoughGas) else
    if !IsBurnForAll(sh.sys, t) && !HasRole(sh, inp.caller, t, NFTBurn) then Err(ErrActionNotAllowed) else
    var tok :- ReadTokenOnSender(c, sh, inp.caller, t, nonce);
    if nonce == 0 then Err(ErrNFTDoesNotHaveMetadata) else
    if tok.value < value then Err(ErrInvalidNFTQuantity) else
    var saved :- SaveToken(c, sh, inp.caller, inp.caller, t, nonce, tok.(value := tok.value - value), false, inp.retErr);
    var sys :- AddToLiquidity(c, saved.sys, t, nonce, -(value as int));
    Ok((saved.(sys := sys), Output(inp.gasProvided - c.costs.burn, 0, [])))
  }

  /** What a metadata update changes. */
  datatype Update = AddUris(uris: seq<Bytes>) | SetAttributes(attributes: Bytes) {
    function Apply(meta: MetaData): MetaData {
      match this
      case AddUris(uris) => meta.(uris := meta.uris + uris)
      case SetAttributes(attributes) => meta.(attributes := attributes)
    }

    function Length(): nat {
      match this
      case AddUris(uris) => TotalLength(uris)
      case SetAttributes(attributes) => |attributes|
    }

    function Needs(): Role {
      if AddUris? then NFTAddURI else NFTUpdateAttributes
    }
  }

  function TotalLength(parts: seq<Bytes>): nat {
    if parts == [] then 0 else TotalLength(parts[..|parts| - 1]) + |parts[|parts| - 1]|
  }

  /** Overwrites the metadata of a held token (`dctNFTAddUri.go`, `updateNFTAttributes.go`). */
  function UpdateMeta(c: Config, sh: Shard, inp: Input, t: Bytes, nonce: uint64, update: Update)
    : Result<(Shard, Output)> {
    var cost := if update.AddUris? then c.costs.addUri else c.costs.updateAttributes;
    if cost > inp.gasProvided then Err(ErrNotEnoughGas) else
    if !HasRole(sh, inp.caller, t, update.Needs()) then Err(ErrActionNotAllowed) else
    var storeCost := Wrap64(update.Length() * c.costs.storePerByte);
    if Wrap64(cost + storeCost) > inp.gasProvided then Err(ErrNotEnoughGas) else
    if nonce == 0 then Err(ErrNFTDoesNotHaveMetadata) else
    var tok :- ReadTokenOnSender(c, sh, inp.caller, t, nonce);
    if tok.meta.None? then Err(PanicNilMetadata) else
    var updated := tok.(meta := Some(update.Apply(tok.meta.value)));
    var saved :- SaveToken(c, sh, inp.caller, inp.caller, t, nonce, updated, true, inp.retErr);
    Ok((saved, Output(Wrap64(inp.gasProvided - cost - storeCost), 0, [])))
  }

  function Mint(c: Config, sh: Shard, inp: Input, t: Bytes, quantity: Bytes): Result<(Shard, Output)> {
    if ToNat(quantity) == 0 then Err(ErrNegativeValue) else
    if c.costs.localMint > inp.gasProvided then Err(ErrNotEnoughGas) else
    if !HasRole(sh, inp.caller, t, LocalMint) then Err(ErrActionNotAllowed) else
    if |quantity| > c.maxMintLength then Err(ErrInvalidArguments) else
    var after :- AddToBalance(c, sh, inp.caller, t, ToNat(quantity), inp.retErr);
    Ok((after, Output(inp.gasProvided - c.costs.localMint, 0, [])))
  }

  function BurnFungible(c: Config, sh: Shard, inp: Input, t: Bytes, value: nat): Result<(Shard, Output)> {
    if value == 0 then Err(ErrNegativeValue) else
    if c.costs.localBurn > inp.gasProvided then Err(ErrNotEnoughGas) else
    if !IsBurnForAll(sh.sys, t) && !HasRole(sh, inp.caller, t, LocalBurn) then Err(ErrActionNotAllowed) else
    var after :- AddToBalance(c, sh, inp.caller, t, -(value as int), inp.retErr);
    Ok((after, Output(inp.gasProvided - c.costs.localBurn, 0, [])))
  }

  // ---- functions of the DCT system contract ----

  /** Sets or clears the frozen bit under a raw key; the new properties are the two bytes of the user metadata. */
  function ToggleFreeze(sh: Shard, a: Address, key: Bytes, freeze: bool): Shard {
    var tok := ReadRaw(sh.users, a, key);
    sh.(users := SaveRaw(sh.users, a, key, tok.(properties := [if freeze then 1 else 0, 0])))
  }

  /** Deletes a frozen balance under a raw key and takes it out of the liquidity that the key's split names. */
  function Wipe(c: Config, sh: Shard, a: Address, arg: Bytes): Result<Shard> {
    var tok := ReadRaw(sh.users, a, arg);
    if !Frozen(tok.properties) then Err(ErrCannotWipeAccountNotFrozen) else
    var wiped := sh.(users := Remove(sh.users, a, arg));
    if !c.flags.wipeLiquidity then Ok(wiped)
    else
      var (identifier, nonce) := ExtractForWipe(arg);
      var sys :- AddToLiquidity(c, wiped.sys, identifier, nonce, -tok.value);
      Ok(wiped.(sys := sys))
  }

  datatype Setting = PauseSetting | LimitedTransferSetting | BurnForAllSetting

  function ReadSettings(sys: Sys, key: Bytes): (s: SysValue)
    ensures s.Settings?
  {
    if key in sys && sys[key].Settings? then sys[key] else Settings(false, false, false)
  }

  function ToggleSetting(sh: Shard, key: Bytes, which: Setting, on: bool): Shard {
    var was := ReadSettings(sh.sys, key);
    var now := match which
      case PauseSetting => Settings(on, was.limitedTransfer, was.burnForAll)
      case LimitedTransferSetting => Settings(was.paused, on, was.burnForAll)
      case BurnForAllSetting => Settings(was.paused, was.limitedTransfer, on);
    sh.(sys := sh.sys[key := now])
  }

  // ---- roles and counters ----

  function RolesOf(sh: Shard, a: Address, t: Bytes): seq<Role> {
    if (a, t) in sh.roles then sh.roles[(a, t)] else []
  }

  /** New role lists; naming the multi-shard role also restarts the account's counter at its range. */
  function SetRoles(sh: Shard, a: Address, t: Bytes, roles: seq<Role>, transferRole: seq<Address>, restart: bool): Result<Shard> {
    if restart && a == [] then Err(PanicEmptyAddress) else
    var counters := if restart then sh.nonces[(a, t) := CreatorAccounts.StartNonce(a)] else sh.nonces;
    Ok(sh.(roles := sh.roles[(a, t) := roles], transferRole := sh.transferRole[t := transferRole], nonces := counters))
  }

  /** The old owner's side of a hand-over. */
  function Resign(sh: Shard, a: Address, t: Bytes): Shard {
    sh.(roles := sh.roles[(a, t) := RoleLists.RemoveFirst(RolesOf(sh, a, t), Role.NFTCreate)], nonces := sh.nonces[(a, t) := 0])
  }

  /** The new owner's side, with the counter that it takes over. */
  function Appoint(sh: Shard, a: Address, t: Bytes, counter: uint64): Shard {
    var roles := if HasRole(sh, a, t, Role.NFTCreate) then sh.roles[(a, t)] else RolesOf(sh, a, t) + [Role.NFTCreate];
    sh.(roles := sh.roles[(a, t) := roles], nonces := sh.nonces[(a, t) := counter])
  }
}
