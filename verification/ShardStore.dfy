/**
 * The storage of one shard as the program keeps it: fields that the built-in functions read and rewrite entry by entry.
 * Every method is proved against the function on shard states that specifies it. After an error a method leaves
 * what it wrote so far, as the program does; the node then restores its snapshot.
 */
module ShardStores {
  import opened Bytes
  import opened Keys
  import opened Wrappers
  import opened Ledger
  import opened Operations
  import opened Totals
  import opened Conservation
  import opened Effects
  import opened MetadataEffects
  import opened TransferEffects

  class ShardStore {
    const c: Config
    var users: Users
    var sys: Sys
    var roles: map<(Address, Bytes), seq<Role>>
    var transferRole: map<Bytes, seq<Address>>
    var nonces: map<(Address, Bytes), uint64>

    /** An empty shard. */
    constructor (c: Config)
      ensures this.c == c && State() == Shard(map[], map[], map[], map[], map[])
    {
      this.c := c;
      users, sys, roles, transferRole, nonces := map[], map[], map[], map[], map[];
    }

    function State(): Shard
      reads this
    {
      Shard(users, sys, roles, transferRole, nonces)
    }

    // ---- dctDataStorage.go ----

    method AddToLiquiditySystemAcc(t: Bytes, nonce: uint64, delta: int) returns (r: Result<()>)
      modifies this`sys
      ensures r.Ok? ==> AddToLiquidity(c, old(sys), t, nonce, delta) == Ok(sys)
      ensures r.Err? ==> AddToLiquidity(c, old(sys), t, nonce, delta) == Err(r.error) && sys == old(sys)
      ensures r.Ok? ==> Counted(c, old(sys), sys, TokenKey(t, nonce), nonce, delta)
    {
      if !c.flags.saveToSystem || !c.flags.sendAlways || nonce == 0 {
        AddToLiquidityCounts(c, old(sys), t, nonce, delta, sys);
        return Ok(());
      }
      var key := TokenKey(t, nonce);
      var entry :- ReadSys(sys, key);
      if entry.None? {
        return Err(ErrNilDCTData);
      }
      var tok := entry.value;
      if tok.reserved == [] {
        AddToLiquidityCounts(c, old(sys), t, nonce, delta, sys);
        return Ok(());
      }
      if c.flags.fixOldLiquidity {
        if tok.value == 0 && delta < 0 {
          sys := sys[key := Entry(tok.(reserved := []))];
          AddToLiquidityCounts(c, old(sys), t, nonce, delta, sys);
          return Ok(());
        }
      }
      tok := tok.(value := tok.value + delta);
      if tok.value < 0 {
        return Err(ErrInvalidLiquidityForDCT);
      }
      if tok.value == 0 {
        sys := sys - {key};
      } else {
        sys := sys[key := Entry(tok)];
      }
      AddToLiquidityCounts(c, old(sys), t, nonce, delta, sys);
      return Ok(());
    }

    /** `user` is the stored token of the account at hand, or `None` without an account. */
    method SaveMetaDataToSystemAccount(user: Option<Option<Token>>, sndShard: nat, key: Bytes, nonce: uint64, tok: Token,
                                       mustUpdate: bool) returns (r: Result<()>)
      modifies this`sys
      ensures r.Ok? ==> SaveMeta(c, old(sys), user, sndShard, key, nonce, tok, mustUpdate) == Ok(sys)
      ensures r.Err? ==> SaveMeta(c, old(sys), user, sndShard, key, nonce, tok, mustUpdate) == Err(r.error)
      ensures r.Ok? ==> Saves(c, old(sys), sys, user, sndShard, key, nonce, tok, mustUpdate)
    {
      if nonce == 0 || tok.meta.None? {
        SaveMetaSaves(c, old(sys), user, sndShard, key, nonce, tok, mustUpdate, sys);
        return Ok(());
      }
      var isNew := key !in sys;
      sys :- RefreshMeta(c, sys, key, tok);
      if !mustUpdate && !isNew {
        SaveMetaSaves(c, old(sys), user, sndShard, key, nonce, tok, mustUpdate, sys);
        return Ok(());
      }
      var properties, reserved := Zeros(c.numShards), [];
      if isNew && c.flags.sendAlways {
        properties := [];
        reserved :- NewReserved(c, user);
      }
      if !c.flags.sendAlways {
        if c.self != METACHAIN {
          properties := Mark(properties, c.self);
        }
        if sndShard != METACHAIN {
          properties := Mark(properties, sndShard);
        }
      }
      sys := sys[key := Entry(Token(tok.kind, 0, properties, tok.meta, reserved))];
      SaveMetaSaves(c, old(sys), user, sndShard, key, nonce, tok, mustUpdate, sys);
      return Ok(());
    }

    method SaveDCTNFTToken(snd: Address, a: Address, t: Bytes, nonce: uint64, tok: Token, mustUpdate: bool, retErr: bool)
      returns (r: Result<()>)
      modifies this`sys, this`users
      ensures r.Ok? ==> SaveToken(c, old(State()), snd, a, t, nonce, tok, mustUpdate, retErr) == Ok(State())
      ensures r.Err? ==> SaveToken(c, old(State()), snd, a, t, nonce, tok, mustUpdate, retErr) == Err(r.error)
      ensures r.Ok? ==> Writes(c, old(State()), State(), a, t, nonce, tok, retErr)
    {
      hide CheckFrozenPauseProperties, SaveMeta, Saves, Writes, TokenKey;
      var allowed := CheckFrozenPauseProperties(c, State(), a, t, nonce, tok, retErr);
      if allowed.Fail? {
        return Err(allowed.error);
      }
      var key := TokenKey(t, nonce);
      if c.flags.saveToSystem {
        var saved := SaveMetaDataToSystemAccount(Some(Stored(users, a, key)), c.shardOf(snd), key, nonce, tok, mustUpdate);
        if saved.Err? {
          return Err(saved.error);
        }
      }
      if tok.value <= 0 {
        users := Ledger.Remove(users, a, key);
      } else if !c.flags.saveToSystem {
        users := Put(users, a, key, tok);
      } else {
        users := Put(users, a, key, Token(tok.kind, tok.value, tok.properties, None, []));
      }
      SaveTokenWrites(c, old(State()), snd, a, t, nonce, tok, mustUpdate, retErr, State());
      return Ok(());
    }

    method WasAlreadySentToDestinationShardAndUpdateState(t: Bytes, nonce: uint64, dst: Address) returns (r: Result<bool>)
      modifies this`sys
      ensures r.Ok? ==> WasAlreadySent(c, old(sys), t, nonce, dst) == Ok((r.value, sys))
      ensures r.Err? ==> WasAlreadySent(c, old(sys), t, nonce, dst) == Err(r.error)
      ensures r.Ok? && AsksBitmap(c, nonce, dst) ==> AnswersAndSets(c, old(sys), sys, TokenKey(t, nonce), c.shardOf(dst), r.value)
      ensures r.Ok? && !AsksBitmap(c, nonce, dst) ==> sys == old(sys) && r.value == CountsAsSent(c, nonce, dst)
    {
      if !c.flags.saveToSystem {
        return Ok(false);
      }
      if nonce == 0 {
        return Ok(true);
      }
      var dstShard := c.shardOf(dst);
      if dstShard == c.self {
        return Ok(true);
      }
      if c.flags.sendAlways {
        return Ok(false);
      }
      if dstShard == METACHAIN {
        return Ok(true);
      }
      var key := TokenKey(t, nonce);
      var entry :- ReadSys(sys, key);
      if entry.None? {
        return Ok(false);
      }
      var properties := Pad(entry.value.properties, c.numShards);
      if BitSet(properties, dstShard) {
        return Ok(true);
      }
      sys := sys[key := Entry(entry.value.(properties := Mark(properties, dstShard)))];
      return Ok(false);
    }

    /** Saves the metadata of a message whose processing failed. */
    method SaveNFTMetaDataToSystemAccount(env: Envelope) returns (r: Result<()>)
      modifies this`sys
      ensures r.Ok? ==> SaveMetaOfMessage(c, old(sys), env) == Ok(sys)
      ensures r.Err? ==> SaveMetaOfMessage(c, old(sys), env) == Err(r.error)
      ensures r.Ok? && UsesBits(c) ==> if IsSaved(c, env) then SavesMessage(c, old(sys), sys, env, env.items) else sys == old(sys)
    {
      hide SaveMeta, SaveMetaOfItems;
      if !c.flags.saveToSystem || c.flags.sendAlways || env.carrier == ByTransfer {
        return Ok(());
      }
      if c.shardOf(env.caller) == c.shardOf(env.recipient) || c.self != c.shardOf(env.recipient) {
        return Ok(());
      }
      ghost var before := sys;
      assert env.items[..0] == [];
      NoItemsSaved(c, sys, env);
      var i := 0;
      while i < |env.items|
        invariant 0 <= i <= |env.items|
        invariant SaveMetaOfItems(c, before, env, env.items[..i]) == Ok(sys)
      {
        var item := env.items[i];
        OneItemMoreSaved(c, before, env, env.items, i);
        if item.body.Payload? && (env.carrier == ByNftTransfer || item.nonce > 0) {
          var saved := SaveMetaDataToSystemAccount(None, c.shardOf(env.caller), item.Key(), item.nonce, item.body.data, true);
          if saved.Err? {
            SaveMetaOfItemsStops(c, before, env, env.items, i + 1);
            return Err(saved.error);
          }
        }
        i := i + 1;
      }
      assert env.items[..i] == env.items;
      if UsesBits(c) {
        SavedMessage(c, old(sys), env, sys);
      }
      return Ok(());
    }

    // ---- dctTransfer.go and the credit of the NFT transfers ----

    method AddToDCTBalance(a: Address, t: Bytes, delta: int, retErr: bool) returns (r: Result<()>)
      modifies this`users
      ensures r.Ok? ==> AddToBalance(c, old(State()), a, t, delta, retErr) == Ok(State())
      ensures r.Err? ==> AddToBalance(c, old(State()), a, t, delta, retErr) == Err(r.error) && users == old(users)
      ensures r.Ok? ==> ChangesFungible(old(users), users, a, t, delta)
    {
      var tok := ReadRaw(users, a, t);
      if tok.kind != Fungible {
        return Err(ErrOnlyFungibleTokensHaveBalanceTransfer);
      }
      var allowed := CheckFrozeAndPause(c, sys, a, t, tok, retErr);
      if allowed.Fail? {
        return Err(allowed.error);
      }
      tok := tok.(value := tok.value + delta);
      if tok.value < 0 {
        return Err(ErrInsufficientFunds);
      }
      users := SaveRaw(users, a, t, tok);
      AddToBalanceChanges(c, old(State()), a, t, delta, retErr, State());
      return Ok(());
    }

    /** Answers with the token as it stands after the addition, which the program keeps in the caller's object. */
    method AddNFTToDestination(snd: Address, dst: Address, tok: Token, t: Bytes, nonce: uint64, retErr: bool)
      returns (r: Result<Token>)
      modifies this`sys, this`users
      ensures r.Ok? ==> AddToDestination(c, old(State()), snd, dst, tok, t, nonce, retErr) == Ok((State(), r.value))
      ensures r.Err? ==> AddToDestination(c, old(State()), snd, dst, tok, t, nonce, retErr) == Err(r.error)
      ensures r.Ok? && Balance(old(users), dst, TokenKey(t, nonce)) + tok.value >= 0 ==>
                Adds(old(users), users, dst, TokenKey(t, nonce), tok.value)
    {
      var current, _ :- ReadTokenParts(dst, t, nonce);
      var allowed := CheckFrozeAndPause(c, sys, dst, t, current, retErr);
      if allowed.Fail? {
        return Err(allowed.error);
      }
      var merged := tok.(value := tok.value + current.value);
      var saved := SaveDCTNFTToken(snd, dst, t, nonce, merged, false, retErr);
      if saved.Err? {
        return Err(saved.error);
      }
      if c.shardOf(snd) != c.shardOf(dst) {
        var counted := AddToLiquiditySystemAcc(t, nonce, tok.value);
        if counted.Err? {
          return Err(counted.error);
        }
      }
      if merged.value >= 0 {
        CreditAdds(c, old(State()), snd, dst, tok, t, nonce, retErr, State(), merged);
      }
      return Ok(merged);
    }

    /** `ReadToken` on the fields. */
    method ReadTokenParts(a: Address, t: Bytes, nonce: uint64) returns (r: Result<Token>, isNew: bool)
      ensures r.Ok? ==> ReadToken(c, State(), a, t, nonce) == Ok((r.value, isNew))
      ensures r.Err? ==> ReadToken(c, State(), a, t, nonce) == Err(r.error)
      ensures r.Ok? ==> Reads(c, State(), a, t, nonce, r.value, isNew)
    {
      var key := TokenKey(t, nonce);
      if (a, key) !in users {
        return Ok(NO_TOKEN), true;
      }
      var tok := users[(a, key)];
      if c.flags.saveToSystem && nonce != 0 {
        var entry := ReadSys(sys, key);
        if entry.Err? {
          return Err(entry.error), false;
        }
        if entry.value.Some? && entry.value.value.meta.Some? {
          tok := tok.(meta := entry.value.value.meta);
        }
      }
      return Ok(tok), false;
    }

    // ---- multiDCTNFTTransfer.go ----

    method TransferOneTokenOnSenderShard(snd: Address, dst: Address, mv: Move, retErr: bool) returns (r: Result<Token>)
      modifies this`sys, this`users
      ensures r.Ok? ==> SendOne(c, old(State()), snd, dst, mv, retErr) == Ok((State(), r.value))
      ensures r.Err? ==> SendOne(c, old(State()), snd, dst, mv, retErr) == Err(r.error)
      ensures r.Ok? && NonNegative(old(users)) && snd != dst ==> MovesBalances(old(users), users, snd, dst, ToShard(c, dst), mv)
    {
      hide SaveToken, AddToLiquidity, ReadTokenOnSender, CheckLimitedTransfer, AddToDestination, MovesBalances, NonNegative;
      if mv.value == 0 {
        return Err(ErrInvalidNFTQuantity);
      }
      var tok :- ReadTokenOnSender(c, State(), snd, mv.token, mv.nonce);
      if tok.value < mv.value {
        return Err(ErrInsufficientQuantityDCT);
      }
      var debited := SaveDCTNFTToken(snd, snd, mv.token, mv.nonce, tok.(value := tok.value - mv.value), false, retErr);
      if debited.Err? {
        return Err(debited.error);
      }
      tok := tok.(value := mv.value);
      var limited := CheckLimitedTransfer(c, State(), snd, dst, ToShard(c, dst), mv.token, retErr);
      if limited.Fail? {
        return Err(limited.error);
      }
      if ToShard(c, dst) {
        r := AddNFTToDestination(snd, dst, tok, mv.token, mv.nonce, retErr);
        if r.Err? {
          return;
        }
      } else {
        var counted := AddToLiquiditySystemAcc(mv.token, mv.nonce, -(mv.value as int));
        if counted.Err? {
          return Err(counted.error);
        }
        r := Ok(tok);
      }
      if NonNegative(old(users)) && snd != dst {
        SendOneMoves(c, old(State()), snd, dst, mv, retErr, State(), r.value);
      }
    }

    /** The loop over the list of the call. */
    method TransferAllOnSenderShard(snd: Address, dst: Address, moves: seq<Move>, retErr: bool) returns (r: Result<seq<Token>>)
      modifies this`sys, this`users
      ensures r.Ok? ==> SendAll(c, old(State()), snd, dst, moves, retErr) == Ok((State(), r.value))
      ensures r.Err? ==> SendAll(c, old(State()), snd, dst, moves, retErr) == Err(r.error)
    {
      hide SendOne;
      ghost var before := State();
      var tokens := [];
      var i := 0;
      while i < |moves|
        invariant 0 <= i <= |moves|
        invariant SendAll(c, before, snd, dst, moves[..i], retErr) == Ok((State(), tokens))
      {
        assert moves[..i + 1][..i] == moves[..i];
        var tok := TransferOneTokenOnSenderShard(snd, dst, moves[i], retErr);
        if tok.Err? {
          SendAllStops(c, before, snd, dst, moves, retErr, i + 1);
          return Err(tok.error);
        }
        tokens := tokens + [tok.value];
        i := i + 1;
      }
      assert moves[..i] == moves;
      return Ok(tokens);
    }

    /** The loop that chooses the shipped form of every token and pays for copying it. */
    method CreateOutputItems(dst: Address, moves: seq<Move>, tokens: seq<Token>, gasProvided: nat)
      returns (r: Result<seq<Item>>, gas: nat)
      requires |moves| == |tokens|
      modifies this`sys
      ensures r.Ok? ==> ShipAll(c, old(sys), dst, moves, tokens, gasProvided) == Ok((sys, r.value, gas))
      ensures r.Err? ==> ShipAll(c, old(sys), dst, moves, tokens, gasProvided) == Err(r.error)
    {
      hide WasAlreadySent, CopyCost, FromNat;
      ghost var before := sys;
      var items := [];
      gas := gasProvided;
      var i := 0;
      while i < |moves|
        invariant 0 <= i <= |moves|
        invariant ShipAll(c, before, dst, moves[..i], tokens[..i], gasProvided) == Ok((sys, items, gas))
      {
        var mv := moves[i];
        assert moves[..i + 1][..i] == moves[..i] && tokens[..i + 1][..i] == tokens[..i];
        var body := Amount(mv.value);
        if mv.nonce > 0 {
          var wasSent := WasAlreadySentToDestinationShardAndUpdateState(mv.token, mv.nonce, dst);
          if wasSent.Err? {
            ShipAllStops(c, before, dst, moves, tokens, gasProvided, i + 1);
            return Err(wasSent.error), 0;
          }
          if !wasSent.value || mv.value == 1 || |FromNat(mv.value)| > MAX_OPT_VALUE_LENGTH {
            if CopyCost(c, tokens[i]) > gas {
              ShipAllStops(c, before, dst, moves, tokens, gasProvided, i + 1);
              return Err(ErrNotEnoughGas), 0;
            }
            gas := gas - CopyCost(c, tokens[i]);
            body := Payload(tokens[i]);
          }
        }
        items := items + [Item(mv.token, mv.nonce, body)];
        i := i + 1;
      }
      assert moves[..i] == moves && tokens[..i] == tokens;
      return Ok(items), gas;
    }

    method MultiTransferOnSenderShard(inp: Input, dst: Address, moves: seq<Move>, extra: seq<Bytes>) returns (r: Result<Output>)
      modifies this`sys, this`users
      ensures r.Ok? ==> MultiSend(c, old(State()), inp, dst, moves, extra) == Ok((State(), r.value))
      ensures r.Err? ==> MultiSend(c, old(State()), inp, dst, moves, extra) == Err(r.error)
      ensures r.Ok? && NonNegative(old(users)) ==> FoldsBalances(old(users), users, inp.caller, dst, ToShard(c, dst), moves)
      ensures r.Ok? ==> Sends(c, inp, dst, ByMultiTransfer, extra, r.value) && GasGoes(r.value, CallFollows(c, inp, dst, extra))
    {
      hide SendAll, ShipAll, Finish, CheckPayable, CheckDestination, MultiCost;
      var destination := CheckDestination(c, inp, dst);
      if destination.Fail? {
        return Err(destination.error);
      }
      if moves == [] {
        return Err(ErrInvalidArguments);
      }
      var cost := MultiCost(c, |moves|);
      if inp.gasProvided < cost {
        return Err(ErrNotEnoughGas);
      }
      if ToShard(c, dst) {
        var payable := CheckPayable(c, inp, dst, extra);
        if payable.Fail? {
          return Err(payable.error);
        }
      }
      var tokens := TransferAllOnSenderShard(inp.caller, dst, moves, inp.retErr);
      if tokens.Err? {
        return Err(tokens.error);
      }
      var items, gas := CreateOutputItems(dst, moves, tokens.value, inp.gasProvided - cost);
      if items.Err? {
        return Err(items.error);
      }
      r := Ok(Finish(c, inp, dst, ByMultiTransfer, items.value, extra, gas));
      if NonNegative(old(users)) {
        MultiSendMoves(c, old(State()), inp, dst, moves, extra, State(), r.value);
      }
      MultiTransferSends(c, old(State()), inp, dst, moves, extra, State(), r.value);
    }

    /** The loop over the list of an arriving message, for either kind of NFT transfer and for the fungible one. */
    method CreditOnDestination(env: Envelope) returns (r: Result<()>)
      modifies this`sys, this`users
      ensures r.Ok? ==> CreditAll(c, old(State()), env, env.items) == Ok(State())
      ensures r.Err? ==> CreditAll(c, old(State()), env, env.items) == Err(r.error)
    {
      hide AddToDestination, AddToBalance;
      ghost var before := State();
      var i := 0;
      while i < |env.items|
        invariant 0 <= i <= |env.items|
        invariant CreditAll(c, before, env, env.items[..i]) == Ok(State())
      {
        var item := env.items[i];
        assert env.items[..i + 1][..i] == env.items[..i];
        var credited: Result<()>;
        if env.carrier == ByNftTransfer || (env.carrier == ByMultiTransfer && item.nonce > 0) {
          var added := AddNFTToDestination(env.caller, env.recipient, ArrivingToken(item), item.token, item.nonce, env.retErr);
          credited := if added.Ok? then Ok(()) else Err(added.error);
        } else {
          credited := AddToDCTBalance(env.recipient, item.token, item.Value(), env.retErr);
        }
        if credited.Err? {
          CreditAllStops(c, before, env, env.items, i + 1);
          return Err(credited.error);
        }
        i := i + 1;
      }
      assert env.items[..i] == env.items;
      return Ok(());
    }

    /** The destination half of all three transfers; `gas` is what the message provides. */
    method Receive(env: Envelope, gas: uint64) returns (r: Result<Output>)
      modifies this`sys, this`users
      ensures r.Ok? ==> Deliver(c, old(State()), env, gas) == Ok((State(), r.value))
      ensures r.Err? ==> Deliver(c, old(State()), env, gas) == Err(r.error)
      ensures r.Ok? ==> MayBePaid(c, env.caller, env.callType, env.retErr, env.recipient, env.extra)
      ensures r.Ok? && env.carrier != ByTransfer ==> GasGoes(r.value, |env.extra| > 0 && IsContract(env.recipient))
    {
      var inp := Input(env.caller, gas, env.callType, env.retErr);
      if env.carrier == ByTransfer {
        if c.shardOf(env.recipient) == METACHAIN && !c.flags.transferToMeta {
          return Err(ErrInvalidRcvAddr);
        }
        if exists item <- env.items :: item.Value() <= 0 {
          return Err(ErrNegativeValue);
        }
      }
      if env.items == [] {
        return Err(ErrInvalidArguments);
      }
      var payable := CheckPayable(c, inp, env.recipient, env.extra);
      if payable.Fail? {
        return Err(payable.error);
      }
      var credited := CreditOnDestination(env);
      if credited.Err? {
        return Err(credited.error);
      }
      r := Ok(DeliveryGas(c, inp, env));
      DeliveryMayBePaid(c, old(State()), env, gas, State(), r.value);
      DeliveryGasGoes(c, old(State()), env, gas, State(), r.value);
    }

    // ---- dctNFTTransfer.go, sender half ----

    method NFTTransferOnSenderShard(inp: Input, dst: Address, mv: Move, extra: seq<Bytes>) returns (r: Result<Output>)
      modifies this`sys, this`users
      ensures r.Ok? ==> NftSend(c, old(State()), inp, dst, mv, extra) == Ok((State(), r.value))
      ensures r.Err? ==> NftSend(c, old(State()), inp, dst, mv, extra) == Err(r.error)
      ensures r.Ok? && NonNegative(old(users)) ==> MovesBalances(old(users), users, inp.caller, dst, ToShard(c, dst), mv)
      ensures r.Ok? ==> Sends(c, inp, dst, ByNftTransfer, extra, r.value) && GasGoes(r.value, CallFollows(c, inp, dst, extra))
    {
      hide NftSendOne, WasAlreadySent, CopyCost, Finish, CheckDestination;
      var destination := CheckDestination(c, inp, dst);
      if destination.Fail? {
        return Err(destination.error);
      }
      if inp.gasProvided < c.costs.nftTransfer {
        return Err(ErrNotEnoughGas);
      }
      var moved := MoveOneNFT(inp, dst, mv, extra);
      if moved.Err? {
        return Err(moved.error);
      }
      var tok := moved.value;
      var gas := inp.gasProvided - c.costs.nftTransfer;
      var wasSent := WasAlreadySentToDestinationShardAndUpdateState(mv.token, mv.nonce, dst);
      if wasSent.Err? {
        return Err(wasSent.error);
      }
      var body := Amount(mv.value);
      if !wasSent.value || tok.value == 1 {
        if CopyCost(c, tok) > gas {
          return Err(ErrNotEnoughGas);
        }
        gas := gas - CopyCost(c, tok);
        body := Payload(tok);
      }
      r := Ok(Finish(c, inp, dst, ByNftTransfer, [Item(mv.token, mv.nonce, body)], extra, gas));
      if NonNegative(old(users)) {
        NftSendMoves(c, old(State()), inp, dst, mv, extra, State(), r.value);
      }
      NftTransferSends(c, old(State()), inp, dst, mv, extra, State(), r.value);
    }

    /** The changes of balances; answers with the program's token object after them. */
    method MoveOneNFT(inp: Input, dst: Address, mv: Move, extra: seq<Bytes>) returns (r: Result<Token>)
      modifies this`sys, this`users
      ensures r.Ok? ==> NftSendOne(c, old(State()), inp, dst, mv, extra) == Ok((State(), r.value))
      ensures r.Err? ==> NftSendOne(c, old(State()), inp, dst, mv, extra) == Err(r.error)
      ensures r.Ok? && NonNegative(old(users)) && inp.caller != dst ==>
                MovesBalances(old(users), users, inp.caller, dst, ToShard(c, dst), mv)
    {
      hide SaveToken, NftMoveOn, ReadTokenOnSender, CheckLimitedTransfer, MovesBalances, NonNegative;
      var tok :- ReadTokenOnSender(c, State(), inp.caller, mv.token, mv.nonce);
      if mv.nonce == 0 {
        return Err(ErrNFTDoesNotHaveMetadata);
      }
      if tok.value < mv.value {
        return Err(ErrInvalidNFTQuantity);
      }
      if c.flags.checkTransfer && mv.value == 0 {
        return Err(ErrInvalidNFTQuantity);
      }
      var debited := SaveDCTNFTToken(inp.caller, inp.caller, mv.token, mv.nonce, tok.(value := tok.value - mv.value), false, inp.retErr);
      if debited.Err? {
        return Err(debited.error);
      }
      tok := tok.(value := mv.value);
      var moved := MoveOn(inp, dst, tok, mv, extra);
      if moved.Err? {
        return Err(moved.error);
      }
      var limited := CheckLimitedTransfer(c, State(), inp.caller, dst, ToShard(c, dst), mv.token, inp.retErr);
      if limited.Fail? {
        return Err(limited.error);
      }
      r := moved;
      if NonNegative(old(users)) && inp.caller != dst {
        NftSendOneMoves(c, old(State()), inp, dst, mv, extra, State(), r.value);
      }
    }

    method MoveOn(inp: Input, dst: Address, tok: Token, mv: Move, extra: seq<Bytes>) returns (r: Result<Token>)
      modifies this`sys, this`users
      ensures r.Ok? ==> NftMoveOn(c, old(State()), inp, dst, tok, mv, extra) == Ok((State(), r.value))
      ensures r.Err? ==> NftMoveOn(c, old(State()), inp, dst, tok, mv, extra) == Err(r.error)
      ensures r.Ok? && ToShard(c, dst) && Balance(old(users), dst, TokenKey(mv.token, mv.nonce)) + tok.value >= 0 ==>
                Adds(old(users), users, dst, TokenKey(mv.token, mv.nonce), tok.value)
      ensures !ToShard(c, dst) ==> users == old(users) && (r.Ok? ==> r.value == tok)
    {
      if ToShard(c, dst) {
        var payable := CheckPayable(c, inp, dst, extra);
        if payable.Fail? {
          return Err(payable.error);
        }
        r := AddNFTToDestination(inp.caller, dst, tok, mv.token, mv.nonce, inp.retErr);
        return;
      }
      var counted := AddToLiquiditySystemAcc(mv.token, mv.nonce, -(mv.value as int));
      if counted.Err? {
        return Err(counted.error);
      }
      return Ok(tok);
    }

    // ---- dctTransfer.go, sender half ----

    method TransferOnSenderShard(inp: Input, dst: Address, t: Bytes, value: nat, extra: seq<Bytes>) returns (r: Result<Output>)
      modifies this`users
      ensures r.Ok? ==> FungibleSend(c, old(State()), inp, dst, t, value, extra) == Ok((State(), r.value))
      ensures r.Err? ==> FungibleSend(c, old(State()), inp, dst, t, value, extra) == Err(r.error)
      ensures r.Ok? ==> MovesFungible(old(users), users, inp.caller, dst, ToShard(c, dst), t, value)
      ensures r.Ok? ==> Sends(c, inp, dst, ByTransfer, extra, r.value)
      ensures r.Ok? ==> GasGoes(r.value, if c.shardOf(dst) == c.self then CallFollows(c, inp, dst, extra) else IsContract(inp.caller))
    {
      hide AddToBalance, CheckLimitedTransfer, CheckPayable, MovesFungible, IsSCCallAfter, IsSmartContractAddress;
      if c.shardOf(dst) == METACHAIN && !c.flags.transferToMeta {
        return Err(ErrInvalidRcvAddr);
      }
      if value == 0 {
        return Err(ErrNegativeValue);
      }
      var limited := CheckLimitedTransfer(c, State(), inp.caller, dst, ToShard(c, dst), t, inp.retErr);
      if limited.Fail? {
        return Err(limited.error);
      }
      if inp.gasProvided < c.costs.transfer {
        return Err(ErrNotEnoughGas);
      }
      var debited := AddToDCTBalance(inp.caller, t, -(value as int), inp.retErr);
      if debited.Err? {
        return Err(debited.error);
      }
      var gas := inp.gasProvided - c.costs.transfer;
      if ToShard(c, dst) {
        var payable := CheckPayable(c, inp, dst, extra);
        if payable.Fail? {
          return Err(payable.error);
        }
        var credited := AddToDCTBalance(dst, t, value, inp.retErr);
        if credited.Err? {
          return Err(credited.error);
        }
        var (left, emitted) := SplitGas(gas, IsSCCallAfter(c, inp, dst, extra));
        r := Ok(Output(left, emitted, []));
      } else {
        var (left, emitted) := SplitGas(gas, IsSmartContractAddress(inp.caller));
        r := Ok(Output(left, emitted,
                       [Envelope(ByTransfer, inp.caller, dst, [Item(t, 0, Amount(value))], extra, inp.callType, inp.retErr)]));
      }
      FungibleSendMoves(c, old(State()), inp, dst, t, value, extra, State(), r.value);
      FungibleTransferSends(c, old(State()), inp, dst, t, value, extra, State(), r.value);
    }

    // ---- functions that change the supply or the metadata ----

    method NFTCreate(inp: Input, holder: Address, cr: Creation) returns (r: Result<Output>)
      modifies this`sys, this`users, this`nonces
      ensures r.Ok? ==> Create(c, old(State()), inp, holder, cr) == Ok((State(), r.value))
      ensures r.Err? ==> Create(c, old(State()), inp, holder, cr) == Err(r.error)
      ensures r.Ok? ==> Creates(c, old(State()), State(), inp.caller, holder, cr)
      ensures r.Ok? ==> ReadsCreated(c, old(State()), State(), inp.caller, holder, cr)
      ensures r.Ok? && UsesBits(c) && NextNonce(old(State()), holder, cr.token) > 0 ==>
                FreshBits(c, sys, TokenKey(cr.token, NextNonce(old(State()), holder, cr.token)), c.shardOf(holder))
    {
      hide SaveToken, AddToLiquidity, HasRole, ToNat;
      if inp.gasProvided < c.costs.create {
        return Err(ErrNotEnoughGas);
      }
      if inp.callType == ExecOnDestByCaller && |holder| != |inp.caller| {
        return Err(ErrInvalidAddressLength);
      }
      if (inp.callType == ExecOnDestByCaller) == (holder == inp.caller) {
        return Err(ErrInvalidRcvAddr);
      }
      if !HasRole(State(), holder, cr.token, Role.NFTCreate) {
        return Err(ErrActionNotAllowed);
      }
      var gasToUse := Wrap64(cr.argBytes * c.costs.storePerByte + c.costs.create);
      if inp.gasProvided < gasToUse {
        return Err(ErrNotEnoughGas);
      }
      var quantity := ToNat(cr.quantity);
      if cr.royalties > c.maxRoyalty || quantity == 0 {
        return Err(ErrInvalidArguments);
      }
      if quantity > 1 && !HasRole(State(), holder, cr.token, Role.NFTAddQuantity) {
        return Err(ErrActionNotAllowed);
      }
      if c.flags.valueLengthCheck && |cr.quantity| > MAX_OPT_VALUE_LENGTH {
        return Err(ErrInvalidArguments);
      }
      var nonce := NextNonce(State(), holder, cr.token);
      var meta := MetaData(nonce, cr.name, inp.caller, cr.royalties, cr.hash, cr.attributes, cr.uris);
      var saved := SaveDCTNFTToken(holder, holder, cr.token, nonce, Token(NonFungible, quantity, [], Some(meta), []), true, inp.retErr);
      if saved.Err? {
        return Err(saved.error);
      }
      var counted := AddToLiquiditySystemAcc(cr.token, nonce, quantity);
      if counted.Err? {
        return Err(counted.error);
      }
      nonces := nonces[(holder, cr.token) := nonce];
      r := Ok(Output(inp.gasProvided - gasToUse, 0, []));
      CreateCreates(c, old(State()), inp, holder, cr, State(), r.value);
      CreationIsRead(c, old(State()), inp, holder, cr, State(), r.value);
      if UsesBits(c) && NextNonce(old(State()), holder, cr.token) > 0 {
        CreationResetsBits(c, old(State()), inp, holder, cr, State(), r.value);
      }
    }

    method NFTAddQuantity(inp: Input, t: Bytes, nonce: uint64, quantity: Bytes) returns (r: Result<Output>)
      modifies this`sys, this`users
      ensures r.Ok? ==> AddQuantity(c, old(State()), inp, t, nonce, quantity) == Ok((State(), r.value))
      ensures r.Err? ==> AddQuantity(c, old(State()), inp, t, nonce, quantity) == Err(r.error)
      ensures r.Ok? && NonNegative(old(users)) ==> Adds(old(users), users, inp.caller, TokenKey(t, nonce), ToNat(quantity))
    {
      hide SaveToken, AddToLiquidity, ReadTokenOnSender, HasRole, ToNat;
      if inp.gasProvided < c.costs.addQuantity {
        return Err(ErrNotEnoughGas);
      }
      if !HasRole(State(), inp.caller, t, Role.NFTAddQuantity) {
        return Err(ErrActionNotAllowed);
      }
      var tok :- ReadTokenOnSender(c, State(), inp.caller, t, nonce);
      if nonce == 0 {
        return Err(ErrNFTDoesNotHaveMetadata);
      }
      if c.flags.valueLengthCheck && |quantity| > MAX_OPT_VALUE_LENGTH {
        return Err(ErrInvalidArguments);
      }
      var value := ToNat(quantity);
      var saved := SaveDCTNFTToken(inp.caller, inp.caller, t, nonce, tok.(value := tok.value + value), false, inp.retErr);
      if saved.Err? {
        return Err(saved.error);
      }
      var counted := AddToLiquiditySystemAcc(t, nonce, value);
      if counted.Err? {
        return Err(counted.error);
      }
      r := Ok(Output(inp.gasProvided - c.costs.addQuantity, 0, []));
      if NonNegative(old(users)) {
        AddQuantityAdds(c, old(State()), inp, t, nonce, quantity, State(), r.value);
      }
    }

    method NFTBurn(inp: Input, t: Bytes, nonce: uint64, value: nat) returns (r: Result<Output>)
      modifies this`sys, this`users
      ensures r.Ok? ==> Burn(c, old(State()), inp, t, nonce, value) == Ok((State(), r.value))
      ensures r.Err? ==> Burn(c, old(State()), inp, t, nonce, value) == Err(r.error)
      ensures r.Ok? ==> Adds(old(users), users, inp.caller, TokenKey(t, nonce), -(value as int))
    {
      hide SaveToken, AddToLiquidity, ReadTokenOnSender, HasRole, IsBurnForAll;
      if inp.gasProvided < c.costs.burn {
        return Err(ErrNotEnoughGas);
      }
      if !IsBurnForAll(sys, t) && !HasRole(State(), inp.caller, t, Role.NFTBurn) {
        return Err(ErrActionNotAllowed);
      }
      var tok :- ReadTokenOnSender(c, State(), inp.caller, t, nonce);
      if nonce == 0 {
        return Err(ErrNFTDoesNotHaveMetadata);
      }
      if tok.value < value {
        return Err(ErrInvalidNFTQuantity);
      }
      var saved := SaveDCTNFTToken(inp.caller, inp.caller, t, nonce, tok.(value := tok.value - value), false, inp.retErr);
      if saved.Err? {
        return Err(saved.error);
      }
      var counted := AddToLiquiditySystemAcc(t, nonce, -(value as int));
      if counted.Err? {
        return Err(counted.error);
      }
      r := Ok(Output(inp.gasProvided - c.costs.burn, 0, []));
      BurnTakes(c, old(State()), inp, t, nonce, value, State(), r.value);
    }

    /** The summed length of the URIs of a call. */
    static method LengthOfURIs(uris: seq<Bytes>) returns (length: nat)
      ensures length == TotalLength(uris)
    {
      length := 0;
      for i := 0 to |uris|
        invariant length == TotalLength(uris[..i])
      {
        assert uris[..i + 1][..i] == uris[..i];
        length := length + |uris[i]|;
      }
      assert uris[..|uris|] == uris;
    }

    method NFTUpdate(inp: Input, t: Bytes, nonce: uint64, update: Update) returns (r: Result<Output>)
      modifies this`sys, this`users
      ensures r.Ok? ==> UpdateMeta(c, old(State()), inp, t, nonce, update) == Ok((State(), r.value))
      ensures r.Err? ==> UpdateMeta(c, old(State()), inp, t, nonce, update) == Err(r.error)
      ensures r.Ok? && Balance(old(users), inp.caller, TokenKey(t, nonce)) > 0 ==>
                ReadsUpdated(c, old(State()), State(), inp.caller, t, nonce, update)
      ensures r.Ok? && UsesBits(c) ==> FreshBits(c, sys, TokenKey(t, nonce), c.shardOf(inp.caller))
    {
      hide SaveToken, ReadTokenOnSender, HasRole, TotalLength;
      var cost := if update.AddUris? then c.costs.addUri else c.costs.updateAttributes;
      if inp.gasProvided < cost {
        return Err(ErrNotEnoughGas);
      }
      if !HasRole(State(), inp.caller, t, update.Needs()) {
        return Err(ErrActionNotAllowed);
      }
      var length: nat;
      match update {
        case AddUris(uris) => length := LengthOfURIs(uris);
        case SetAttributes(attributes) => length := |attributes|;
      }
      var storeCost := Wrap64(length * c.costs.storePerByte);
      if inp.gasProvided < Wrap64(cost + storeCost) {
        return Err(ErrNotEnoughGas);
      }
      if nonce == 0 {
        return Err(ErrNFTDoesNotHaveMetadata);
      }
      var tok :- ReadTokenOnSender(c, State(), inp.caller, t, nonce);
      if tok.meta.None? {
        return Err(PanicNilMetadata);
      }
      tok := tok.(meta := Some(update.Apply(tok.meta.value)));
      var saved := SaveDCTNFTToken(inp.caller, inp.caller, t, nonce, tok, true, inp.retErr);
      if saved.Err? {
        return Err(saved.error);
      }
      r := Ok(Output(Wrap64(inp.gasProvided - cost - storeCost), 0, []));
      if Balance(old(users), inp.caller, TokenKey(t, nonce)) > 0 {
        UpdateIsRead(c, old(State()), inp, t, nonce, update, State(), r.value);
      }
      if UsesBits(c) {
        UpdateResetsBits(c, old(State()), inp, t, nonce, update, State(), r.value);
      }
    }

    method MintFungible(inp: Input, t: Bytes, quantity: Bytes) returns (r: Result<Output>)
      modifies this`users
      ensures r.Ok? ==> Mint(c, old(State()), inp, t, quantity) == Ok((State(), r.value))
      ensures r.Err? ==> Mint(c, old(State()), inp, t, quantity) == Err(r.error)
      ensures r.Ok? ==> Adds(old(users), users, inp.caller, t, ToNat(quantity))
    {
      if ToNat(quantity) == 0 {
        return Err(ErrNegativeValue);
      }
      if inp.gasProvided < c.costs.localMint {
        return Err(ErrNotEnoughGas);
      }
      if !HasRole(State(), inp.caller, t, LocalMint) {
        return Err(ErrActionNotAllowed);
      }
      if |quantity| > c.maxMintLength {
        return Err(ErrInvalidArguments);
      }
      var added := AddToDCTBalance(inp.caller, t, ToNat(quantity), inp.retErr);
      if added.Err? {
        return Err(added.error);
      }
      r := Ok(Output(inp.gasProvided - c.costs.localMint, 0, []));
      MintAdds(c, old(State()), inp, t, quantity, State(), r.value);
    }

    method LocalBurnFungible(inp: Input, t: Bytes, value: nat) returns (r: Result<Output>)
      modifies this`users
      ensures r.Ok? ==> BurnFungible(c, old(State()), inp, t, value) == Ok((State(), r.value))
      ensures r.Err? ==> BurnFungible(c, old(State()), inp, t, value) == Err(r.error)
      ensures r.Ok? ==> Adds(old(users), users, inp.caller, t, -(value as int))
    {
      if value == 0 {
        return Err(ErrNegativeValue);
      }
      if inp.gasProvided < c.costs.localBurn {
        return Err(ErrNotEnoughGas);
      }
      if !IsBurnForAll(sys, t) && !HasRole(State(), inp.caller, t, LocalBurn) {
        return Err(ErrActionNotAllowed);
      }
      var taken := AddToDCTBalance(inp.caller, t, -(value as int), inp.retErr);
      if taken.Err? {
        return Err(taken.error);
      }
      r := Ok(Output(inp.gasProvided - c.costs.localBurn, 0, []));
      BurnFungibleTakes(c, old(State()), inp, t, value, State(), r.value);
    }

    // ---- dctFreezeWipe.go, dctGlobalSettings.go ----

    method FreezeOrUnfreeze(a: Address, key: Bytes, freeze: bool) returns (amount: int)
      modifies this`users
      ensures State() == ToggleFreeze(old(State()), a, key, freeze)
      ensures amount == Balance(old(users), a, key)
      ensures Freezes(old(users), users, a, key, freeze)
    {
      var tok := ReadRaw(users, a, key);
      users := SaveRaw(users, a, key, tok.(properties := [if freeze then 1 else 0, 0]));
      amount := tok.value;
      ToggleFreezes(old(State()), a, key, freeze);
    }

    method WipeIfApplicable(a: Address, arg: Bytes) returns (r: Result<int>)
      modifies this`users, this`sys
      ensures r.Ok? ==> Wipe(c, old(State()), a, arg) == Ok(State()) && r.value == Balance(old(users), a, arg)
      ensures r.Err? ==> Wipe(c, old(State()), a, arg) == Err(r.error)
      ensures r.Ok? ==> Wipes(old(users), users, a, arg)
    {
      hide AddToLiquidity;
      var tok := ReadRaw(users, a, arg);
      if !Frozen(tok.properties) {
        return Err(ErrCannotWipeAccountNotFrozen);
      }
      users := Ledger.Remove(users, a, arg);
      if c.flags.wipeLiquidity {
        var (identifier, nonce) := ExtractForWipe(arg);
        var counted := AddToLiquiditySystemAcc(identifier, nonce, -tok.value);
        if counted.Err? {
          return Err(counted.error);
        }
      }
      return Ok(tok.value);
    }

    method ToggleGlobalSetting(key: Bytes, which: Setting, on: bool)
      modifies this`sys
      ensures State() == ToggleSetting(old(State()), key, which, on)
      ensures Sets(old(sys), sys, key, which, on)
    {
      var settings := ReadSettings(sys, key);
      match which {
        case PauseSetting => settings := settings.(paused := on);
        case LimitedTransferSetting => settings := settings.(limitedTransfer := on);
        case BurnForAllSetting => settings := settings.(burnForAll := on);
      }
      sys := sys[key := settings];
    }
  }

  // ---- a loop that stops early gives the error of the whole list ----

  lemma NoItemsSaved(c: Config, sys: Sys, env: Envelope)
    ensures SaveMetaOfItems(c, sys, env, []) == Ok(sys)
  {
  }

  lemma OneItemMoreSaved(c: Config, sys: Sys, env: Envelope, items: seq<Item>, i: nat)
    requires i < |items| && SaveMetaOfItems(c, sys, env, items[..i]).Ok?
    ensures SaveMetaOfItems(c, sys, env, items[..i + 1])
            == SaveMetaOfItem(c, SaveMetaOfItems(c, sys, env, items[..i]).value, env, items[i])
  {
    hide SaveMetaOfItem;
    assert items[..i + 1][..i] == items[..i];
  }

  lemma {:induction false} SaveMetaOfItemsStops(c: Config, sys: Sys, env: Envelope, items: seq<Item>, i: nat)
    requires i <= |items| && SaveMetaOfItems(c, sys, env, items[..i]).Err?
    ensures SaveMetaOfItems(c, sys, env, items) == SaveMetaOfItems(c, sys, env, items[..i])
  {
    hide SaveMetaOfItem;
    if i == |items| {
      assert items[..i] == items;
    } else {
      assert items[..|items| - 1][..i] == items[..i];
      SaveMetaOfItemsStops(c, sys, env, items[..|items| - 1], i);
    }
  }

  lemma {:induction false} SendAllStops(c: Config, sh: Shard, snd: Address, dst: Address, moves: seq<Move>, retErr: bool, i: nat)
    requires i <= |moves| && SendAll(c, sh, snd, dst, moves[..i], retErr).Err?
    ensures SendAll(c, sh, snd, dst, moves, retErr).Err?
    ensures SendAll(c, sh, snd, dst, moves, retErr).error == SendAll(c, sh, snd, dst, moves[..i], retErr).error
  {
    hide SendOne;
    if i == |moves| {
      assert moves[..i] == moves;
    } else {
      assert moves[..|moves| - 1][..i] == moves[..i];
      SendAllStops(c, sh, snd, dst, moves[..|moves| - 1], retErr, i);
    }
  }

  lemma {:induction false} ShipAllStops(c: Config, sys: Sys, dst: Address, moves: seq<Move>, tokens: seq<Token>, gas: nat, i: nat)
    requires |moves| == |tokens| && i <= |moves| && ShipAll(c, sys, dst, moves[..i], tokens[..i], gas).Err?
    ensures ShipAll(c, sys, dst, moves, tokens, gas).Err?
    ensures ShipAll(c, sys, dst, moves, tokens, gas).error == ShipAll(c, sys, dst, moves[..i], tokens[..i], gas).error
  {
    hide ShipOne;
    if i == |moves| {
      assert moves[..i] == moves && tokens[..i] == tokens;
    } else {
      assert moves[..|moves| - 1][..i] == moves[..i] && tokens[..|moves| - 1][..i] == tokens[..i];
      ShipAllStops(c, sys, dst, moves[..|moves| - 1], tokens[..|moves| - 1], gas, i);
    }
  }

  lemma {:induction false} CreditAllStops(c: Config, sh: Shard, env: Envelope, items: seq<Item>, i: nat)
    requires i <= |items| && CreditAll(c, sh, env, items[..i]).Err?
    ensures CreditAll(c, sh, env, items).Err?
    ensures CreditAll(c, sh, env, items).error == CreditAll(c, sh, env, items[..i]).error
  {
    hide CreditOne;
    if i == |items| {
      assert items[..i] == items;
    } else {
      assert items[..|items| - 1][..i] == items[..i];
      CreditAllStops(c, sh, env, items[..|items| - 1], i);
    }
  }
}
