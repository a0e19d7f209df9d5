/** Exactly when a call succeeds, told by what its caller can see, and what it then costs. */
module Acceptance {
  import opened Bytes
  import opened Keys
  import opened Wrappers
  import opened Ledger
  import opened Operations
  import opened World
  import opened Conservation
  import opened Effects
  import opened MetadataEffects
  import opened TransferEffects

  predicate IsFrozenAt(users: Users, a: Address, key: Bytes) {
    (a, key) in users && Frozen(users[(a, key)].properties)
  }

  /** The system account has nothing but metadata under a key of a token. */
  predicate Clean(sys: Sys, key: Bytes) {
    key in sys ==> sys[key].Entry?
  }

  // ---- fungible balances ----

  /** A balance may change: it is fungible and large enough, and its holder is exempt or neither frozen nor paused. */
  predicate BalanceMayChange(c: Config, sh: Shard, a: Address, t: Bytes, delta: int, retErr: bool) {
    && ((a, t) in sh.users ==> sh.users[(a, t)].kind == Fungible)
    && (retErr || a == c.dctSC || (!IsFrozenAt(sh.users, a, t) && !IsPaused(sh.sys, t)))
    && Balance(sh.users, a, t) + delta >= 0
  }

  lemma BalanceChangesExactly(c: Config, sh: Shard, a: Address, t: Bytes, delta: int, retErr: bool)
    ensures AddToBalance(c, sh, a, t, delta, retErr).Ok? <==> BalanceMayChange(c, sh, a, t, delta, retErr)
  {
  }

  lemma MintsExactly(c: Config, sh: Shard, inp: Input, t: Bytes, quantity: Bytes)
    ensures Mint(c, sh, inp, t, quantity).Ok? <==>
      && ToNat(quantity) > 0 && |quantity| <= c.maxMintLength && inp.gasProvided >= c.costs.localMint
      && (inp.caller, t) in sh.roles && LocalMint in sh.roles[(inp.caller, t)]
      && BalanceMayChange(c, sh, inp.caller, t, ToNat(quantity), inp.retErr)
    ensures Mint(c, sh, inp, t, quantity).Ok? ==>
              Mint(c, sh, inp, t, quantity).value.1 == Output(inp.gasProvided - c.costs.localMint, 0, [])
  {
    hide AddToBalance, BalanceMayChange, ToNat;
    BalanceChangesExactly(c, sh, inp.caller, t, ToNat(quantity), inp.retErr);
  }

  lemma BurnsFungibleExactly(c: Config, sh: Shard, inp: Input, t: Bytes, value: nat)
    ensures BurnFungible(c, sh, inp, t, value).Ok? <==>
      && value > 0 && inp.gasProvided >= c.costs.localBurn
      && ((t in sh.sys && sh.sys[t].Settings? && sh.sys[t].burnForAll)
          || ((inp.caller, t) in sh.roles && LocalBurn in sh.roles[(inp.caller, t)]))
      && BalanceMayChange(c, sh, inp.caller, t, -(value as int), inp.retErr)
    ensures BurnFungible(c, sh, inp, t, value).Ok? ==>
              BurnFungible(c, sh, inp, t, value).value.1 == Output(inp.gasProvided - c.costs.localBurn, 0, [])
  {
    hide AddToBalance, BalanceMayChange;
    BalanceChangesExactly(c, sh, inp.caller, t, -(value as int), inp.retErr);
  }

  lemma SendsFungibleExactly(c: Config, sh: Shard, inp: Input, dst: Address, t: Bytes, value: nat, extra: seq<Bytes>)
    ensures FungibleSend(c, sh, inp, dst, t, value, extra).Ok? <==>
      && value > 0 && inp.gasProvided >= c.costs.transfer
      && (c.shardOf(dst) == METACHAIN ==> c.flags.transferToMeta)
      && MayMove(c, sh, inp.caller, dst, t, inp.retErr)
      && BalanceMayChange(c, sh, inp.caller, t, -(value as int), inp.retErr)
      && (c.shardOf(dst) == c.self ==>
            MayBePaid(c, inp.caller, inp.callType, inp.retErr, dst, extra) && BalanceMayChange(c, sh, dst, t, value, inp.retErr))
  {
    hide MayMove, MayBePaid, CheckLimitedTransfer, CheckPayable, IsSCCallAfter, IsSmartContractAddress;
    LimitedExactly(c, sh, inp.caller, dst, t, inp.retErr);
    PayableExactly(c, inp, dst, extra);
    hide AddToBalance;
    BalanceChangesExactly(c, sh, inp.caller, t, -(value as int), inp.retErr);
    var debited := AddToBalance(c, sh, inp.caller, t, -(value as int), inp.retErr);
    if debited.Ok? {
      BalanceChangesExactly(c, debited.value, dst, t, value, inp.retErr);
      CreditAfterDebit(c, sh, inp.caller, t, -(value as int), inp.retErr, debited.value, dst, value);
    }
  }

  lemma CreditAfterDebit(c: Config, sh: Shard, a: Address, t: Bytes, delta: int, retErr: bool, after: Shard, b: Address, value: nat)
    requires (a != b || value == -delta) && AddToBalance(c, sh, a, t, delta, retErr) == Ok(after)
    ensures BalanceMayChange(c, after, b, t, value, retErr) <==> BalanceMayChange(c, sh, b, t, value, retErr)
  {
    hide CheckFrozeAndPause;
  }

  // ---- writing NFTs ----

  /** A holding may be written: its holder is exempt, or neither frozen nor paused, nor frozen for the whole collection. */
  predicate Writable(c: Config, sh: Shard, a: Address, t: Bytes, nonce: uint64, properties: Bytes, retErr: bool) {
    retErr ||
      (&& (a == c.dctSC || (!Frozen(properties) && !IsPaused(sh.sys, t) && !IsPaused(sh.sys, TokenKey(t, nonce))))
       && (c.flags.checkFrozenCollection && nonce > 0 ==> !IsFrozenAt(sh.users, a, t)))
  }

  lemma WritesExactly(c: Config, sh: Shard, snd: Address, a: Address, t: Bytes, nonce: uint64, tok: Token,
                      mustUpdate: bool, retErr: bool)
    requires Clean(sh.sys, TokenKey(t, nonce)) || nonce == 0
    ensures SaveToken(c, sh, snd, a, t, nonce, tok, mustUpdate, retErr).Ok? <==> Writable(c, sh, a, t, nonce, tok.properties, retErr)
  {
    hide TokenKey, Frozen, NewProperties;
  }

  lemma ReadsExactly(c: Config, sh: Shard, a: Address, t: Bytes, nonce: uint64)
    requires Clean(sh.sys, TokenKey(t, nonce)) || nonce == 0
    ensures ReadTokenOnSender(c, sh, a, t, nonce).Ok? <==> (a, TokenKey(t, nonce)) in sh.users
    ensures ReadTokenOnSender(c, sh, a, t, nonce).Ok? ==>
              ReadTokenOnSender(c, sh, a, t, nonce).value.value == Balance(sh.users, a, TokenKey(t, nonce))
              && ReadTokenOnSender(c, sh, a, t, nonce).value.properties == sh.users[(a, TokenKey(t, nonce))].properties
    ensures ReadTokenOnSender(c, sh, a, t, nonce).Ok? ==>
              (ReadTokenOnSender(c, sh, a, t, nonce).value.meta.Some? <==> KnowsMetadata(c, sh, a, t, nonce))
  {
    hide TokenKey;
  }

  /** The holder's token has metadata: with the account, or with the system account where that is asked. */
  predicate KnowsMetadata(c: Config, sh: Shard, a: Address, t: Bytes, nonce: uint64) {
    var key := TokenKey(t, nonce);
    && (a, key) in sh.users
    && (sh.users[(a, key)].meta.Some? || (c.flags.saveToSystem && nonce > 0 && HasMetadata(sh.sys, key)))
  }

  predicate RoleOf(sh: Shard, a: Address, t: Bytes, role: Role) {
    (a, t) in sh.roles && role in sh.roles[(a, t)]
  }

  lemma CreatesExactly(c: Config, sh: Shard, inp: Input, holder: Address, cr: Creation)
    requires Clean(sh.sys, TokenKey(cr.token, NextNonce(sh, holder, cr.token))) || NextNonce(sh, holder, cr.token) == 0
    ensures Create(c, sh, inp, holder, cr).Ok? <==>
      && inp.gasProvided >= c.costs.create && inp.gasProvided >= Wrap64(cr.argBytes * c.costs.storePerByte + c.costs.create)
      && (if inp.callType == ExecOnDestByCaller then holder != inp.caller && |holder| == |inp.caller| else holder == inp.caller)
      && RoleOf(sh, holder, cr.token, Role.NFTCreate)
      && ToNat(cr.quantity) > 0 && (ToNat(cr.quantity) > 1 ==> RoleOf(sh, holder, cr.token, Role.NFTAddQuantity))
      && (c.flags.valueLengthCheck ==> |cr.quantity| <= 32) && cr.royalties <= c.maxRoyalty
      && Writable(c, sh, holder, cr.token, NextNonce(sh, holder, cr.token), [], inp.retErr)
    ensures Create(c, sh, inp, holder, cr).Ok? ==>
              Create(c, sh, inp, holder, cr).value.1
              == Output(inp.gasProvided - Wrap64(cr.argBytes * c.costs.storePerByte + c.costs.create), 0, [])
  {
    hide TokenKey, ToNat, Writable, SaveToken, Wrap64;
    var nonce := NextNonce(sh, holder, cr.token);
    var meta := MetaData(nonce, cr.name, inp.caller, cr.royalties, cr.hash, cr.attributes, cr.uris);
    var tok := Token(NonFungible, ToNat(cr.quantity), [], Some(meta), []);
    WritesExactly(c, sh, holder, holder, cr.token, nonce, tok, true, inp.retErr);
    var saved := SaveToken(c, sh, holder, holder, cr.token, nonce, tok, true, inp.retErr);
    if saved.Ok? {
      CreatedCounts(c, sh, holder, cr.token, nonce, tok, inp.retErr, saved.value);
    }
  }

  lemma CreatedCounts(c: Config, sh: Shard, a: Address, t: Bytes, nonce: uint64, tok: Token, retErr: bool, saved: Shard)
    requires tok.meta.Some? && tok.value >= 0 && SaveToken(c, sh, a, a, t, nonce, tok, true, retErr) == Ok(saved)
    ensures AddToLiquidity(c, saved.sys, t, nonce, tok.value).Ok?
  {
    hide TokenKey, CheckFrozenPauseProperties, NewProperties;
  }

  lemma UpdatesExactly(c: Config, sh: Shard, inp: Input, t: Bytes, nonce: uint64, update: Update)
    requires Clean(sh.sys, TokenKey(t, nonce)) || nonce == 0
    ensures var cost := if update.AddUris? then c.costs.addUri else c.costs.updateAttributes;
      var store := Wrap64((if update.AddUris? then TotalLength(update.uris) else |update.attributes|) * c.costs.storePerByte);
      var r := UpdateMeta(c, sh, inp, t, nonce, update);
      && (r.Ok? <==>
            && inp.gasProvided >= cost && inp.gasProvided >= Wrap64(cost + store) && nonce > 0
            && RoleOf(sh, inp.caller, t, if update.AddUris? then Role.NFTAddURI else Role.NFTUpdateAttributes)
            && KnowsMetadata(c, sh, inp.caller, t, nonce)
            && Writable(c, sh, inp.caller, t, nonce, sh.users[(inp.caller, TokenKey(t, nonce))].properties, inp.retErr))
      && (r.Ok? ==> r.value.1 == Output(Wrap64(inp.gasProvided - cost - store), 0, []))
      && (r.Ok? ==> (r.value.1.gasRemaining == inp.gasProvided - cost - store <==> cost + store < TWO64))
  {
    hide TokenKey, Writable, SaveToken, ReadTokenOnSender, KnowsMetadata, TotalLength;
    ReadsExactly(c, sh, inp.caller, t, nonce);
    var own := ReadTokenOnSender(c, sh, inp.caller, t, nonce);
    if own.Ok? && own.value.meta.Some? {
      WritesExactly(c, sh, inp.caller, inp.caller, t, nonce, own.value.(meta := Some(update.Apply(own.value.meta.value))), true, inp.retErr);
    }
    KnownIsStored(c, sh, inp.caller, t, nonce);
    if UpdateMeta(c, sh, inp, t, nonce, update).Ok? {
      UpdateGas(c, sh, inp, t, nonce, update);
    }
  }

  lemma KnownIsStored(c: Config, sh: Shard, a: Address, t: Bytes, nonce: uint64)
    ensures KnowsMetadata(c, sh, a, t, nonce) ==> (a, TokenKey(t, nonce)) in sh.users
  {
  }

  /** The gas of an update is right exactly if its price fits 64 bits. */
  lemma UpdateGas(c: Config, sh: Shard, inp: Input, t: Bytes, nonce: uint64, update: Update)
    requires UpdateMeta(c, sh, inp, t, nonce, update).Ok?
    ensures var cost := if update.AddUris? then c.costs.addUri else c.costs.updateAttributes;
      var store := Wrap64(update.Length() * c.costs.storePerByte);
      UpdateMeta(c, sh, inp, t, nonce, update).value.1.gasRemaining == inp.gasProvided - cost - store <==> cost + store < TWO64
  {
    hide SaveToken, ReadTokenOnSender, HasRole, TotalLength, Wrap64;
    var cost := if update.AddUris? then c.costs.addUri else c.costs.updateAttributes;
    SubtractsExactly(inp.gasProvided, cost, Wrap64(update.Length() * c.costs.storePerByte));
  }

  lemma SubtractsExactly(gas: uint64, cost: uint64, store: uint64)
    requires Wrap64(cost + store) <= gas
    ensures Wrap64(gas - cost - store) == gas - cost - store <==> cost + store < TWO64
  {
  }

  /** The counter of a shard takes part in a change: there is an entry, or the account's own metadata makes one. */
  predicate CounterAllows(c: Config, sh: Shard, a: Address, t: Bytes, nonce: uint64, delta: int) {
    var key := TokenKey(t, nonce);
    Counts(c) && nonce > 0 ==>
      if key in sh.sys then
        sh.sys[key].Entry? && (sh.sys[key].token.reserved == [] || sh.sys[key].token.value + delta >= 0
                               || (c.flags.fixOldLiquidity && sh.sys[key].token.value == 0))
      else (a, key) in sh.users && sh.users[(a, key)].meta.Some? && (c.flags.fixOldLiquidity || delta >= 0)
  }

  lemma CounterAllowsExactly(c: Config, sh: Shard, a: Address, t: Bytes, nonce: uint64, own: Token, value: int, delta: int,
                             retErr: bool, saved: Shard)
    requires ReadTokenOnSender(c, sh, a, t, nonce) == Ok(own) && (Clean(sh.sys, TokenKey(t, nonce)) || nonce == 0)
    requires SaveToken(c, sh, a, a, t, nonce, own.(value := value), false, retErr) == Ok(saved)
    ensures AddToLiquidity(c, saved.sys, t, nonce, delta).Ok? <==> CounterAllows(c, sh, a, t, nonce, delta)
  {
    hide TokenKey, CheckFrozenPauseProperties, NewProperties;
    AddToLiquidityFailsExactly(c, saved.sys, t, nonce, delta);
    hide AddToLiquidity;
  }

  lemma AddsQuantityExactly(c: Config, sh: Shard, inp: Input, t: Bytes, nonce: uint64, quantity: Bytes)
    requires Clean(sh.sys, TokenKey(t, nonce)) || nonce == 0
    ensures AddQuantity(c, sh, inp, t, nonce, quantity).Ok? <==>
      && inp.gasProvided >= c.costs.addQuantity && nonce > 0 && RoleOf(sh, inp.caller, t, Role.NFTAddQuantity)
      && (c.flags.valueLengthCheck ==> |quantity| <= 32)
      && (inp.caller, TokenKey(t, nonce)) in sh.users
      && Writable(c, sh, inp.caller, t, nonce, sh.users[(inp.caller, TokenKey(t, nonce))].properties, inp.retErr)
      && CounterAllows(c, sh, inp.caller, t, nonce, ToNat(quantity))
    ensures AddQuantity(c, sh, inp, t, nonce, quantity).Ok? ==>
              AddQuantity(c, sh, inp, t, nonce, quantity).value.1 == Output(inp.gasProvided - c.costs.addQuantity, 0, [])
  {
    hide TokenKey, Writable, SaveToken, ReadTokenOnSender, ToNat, AddToLiquidity, CounterAllows;
    ReadsExactly(c, sh, inp.caller, t, nonce);
    var own := ReadTokenOnSender(c, sh, inp.caller, t, nonce);
    if own.Ok? {
      var more := own.value.(value := own.value.value + ToNat(quantity));
      WritesExactly(c, sh, inp.caller, inp.caller, t, nonce, more, false, inp.retErr);
      var saved := SaveToken(c, sh, inp.caller, inp.caller, t, nonce, more, false, inp.retErr);
      if saved.Ok? {
        CounterAllowsExactly(c, sh, inp.caller, t, nonce, own.value, more.value, ToNat(quantity), inp.retErr, saved.value);
      }
    }
  }

  lemma BurnsExactly(c: Config, sh: Shard, inp: Input, t: Bytes, nonce: uint64, value: nat)
    requires Clean(sh.sys, TokenKey(t, nonce)) || nonce == 0
    ensures Burn(c, sh, inp, t, nonce, value).Ok? <==>
      && inp.gasProvided >= c.costs.burn && nonce > 0
      && ((t in sh.sys && sh.sys[t].Settings? && sh.sys[t].burnForAll) || RoleOf(sh, inp.caller, t, Role.NFTBurn))
      && (inp.caller, TokenKey(t, nonce)) in sh.users && Balance(sh.users, inp.caller, TokenKey(t, nonce)) >= value
      && Writable(c, sh, inp.caller, t, nonce, sh.users[(inp.caller, TokenKey(t, nonce))].properties, inp.retErr)
      && CounterAllows(c, sh, inp.caller, t, nonce, -(value as int))
    ensures Burn(c, sh, inp, t, nonce, value).Ok? ==>
              Burn(c, sh, inp, t, nonce, value).value.1 == Output(inp.gasProvided - c.costs.burn, 0, [])
  {
    hide TokenKey, Writable, SaveToken, ReadTokenOnSender, AddToLiquidity, CounterAllows;
    ReadsExactly(c, sh, inp.caller, t, nonce);
    var own := ReadTokenOnSender(c, sh, inp.caller, t, nonce);
    if own.Ok? {
      var less := own.value.(value := own.value.value - value);
      WritesExactly(c, sh, inp.caller, inp.caller, t, nonce, less, false, inp.retErr);
      var saved := SaveToken(c, sh, inp.caller, inp.caller, t, nonce, less, false, inp.retErr);
      if saved.Ok? {
        CounterAllowsExactly(c, sh, inp.caller, t, nonce, own.value, less.value, -(value as int), inp.retErr, saved.value);
      }
    }
  }

  // ---- moving NFTs ----

  /** A destination in the shard may be credited: its own holding is not stopped, nor is the token that arrives. */
  predicate Creditable(c: Config, sh: Shard, dst: Address, t: Bytes, nonce: uint64, arriving: Bytes, retErr: bool) {
    && (retErr || dst == c.dctSC || (!IsFrozenAt(sh.users, dst, TokenKey(t, nonce)) && !IsPaused(sh.sys, t)))
    && Writable(c, sh, dst, t, nonce, arriving, retErr)
  }

  lemma CreditsExactly(c: Config, sh: Shard, snd: Address, dst: Address, tok: Token, t: Bytes, nonce: uint64, retErr: bool)
    requires Clean(sh.sys, TokenKey(t, nonce)) || nonce == 0
    requires c.shardOf(snd) == c.shardOf(dst)
    ensures AddToDestination(c, sh, snd, dst, tok, t, nonce, retErr).Ok? <==> Creditable(c, sh, dst, t, nonce, tok.properties, retErr)
  {
    hide TokenKey, SaveToken, Writable;
    var current := ReadToken(c, sh, dst, t, nonce);
    if current.Ok? {
      var merged := tok.(value := tok.value + current.value.0.value);
      WritesExactly(c, sh, snd, dst, t, nonce, merged, false, retErr);
    }
  }

  /** A debit leaves what others need for their checks. */
  lemma DebitKeepsChecks(c: Config, sh: Shard, snd: Address, t: Bytes, nonce: uint64, tok: Token, retErr: bool, debited: Shard,
                         dst: Address, arriving: Bytes)
    requires ValidToken(t) && snd != dst && (Clean(sh.sys, TokenKey(t, nonce)) || nonce == 0)
    requires SaveToken(c, sh, snd, snd, t, nonce, tok, false, retErr) == Ok(debited)
    ensures Clean(debited.sys, TokenKey(t, nonce)) || nonce == 0
    ensures Creditable(c, debited, dst, t, nonce, arriving, retErr) <==> Creditable(c, sh, dst, t, nonce, arriving, retErr)
    ensures MayMove(c, debited, snd, dst, t, retErr) <==> MayMove(c, sh, snd, dst, t, retErr)
  {
    if nonce > 0 {
      NftKeyIntro(t, nonce);
      FungibleKeyIsNotNftKey(t);
    }
    DebitKeepsOthers(c, sh, snd, t, nonce, tok, retErr, debited, dst);
    hide TokenKey, SaveToken, ValidToken, Frozen, IsNftKey;
  }

  lemma DebitKeepsOthers(c: Config, sh: Shard, snd: Address, t: Bytes, nonce: uint64, tok: Token, retErr: bool, debited: Shard,
                         dst: Address)
    requires snd != dst && (Clean(sh.sys, TokenKey(t, nonce)) || nonce == 0) && (nonce > 0 ==> TokenKey(t, nonce) != t)
    requires SaveToken(c, sh, snd, snd, t, nonce, tok, false, retErr) == Ok(debited)
    ensures nonce > 0 ==> Clean(debited.sys, TokenKey(t, nonce))
    ensures nonce == 0 ==> debited.sys == sh.sys
    ensures (t in debited.sys <==> t in sh.sys) && (t in sh.sys ==> debited.sys[t] == sh.sys[t])
    ensures forall k :: ((dst, k) in debited.users <==> (dst, k) in sh.users)
                        && ((dst, k) in sh.users ==> debited.users[(dst, k)] == sh.users[(dst, k)])
    ensures debited.roles == sh.roles && debited.transferRole == sh.transferRole
  {
    hide TokenKey, CheckFrozenPauseProperties, NewProperties;
  }

  /** One move of a multi-transfer succeeds exactly under these conditions. */
  lemma MovesExactly(c: Config, sh: Shard, snd: Address, dst: Address, mv: Move, retErr: bool)
    requires ValidToken(mv.token) && snd != dst && c.shardOf(snd) == c.self
    requires Clean(sh.sys, TokenKey(mv.token, mv.nonce)) || mv.nonce == 0
    ensures var key := TokenKey(mv.token, mv.nonce);
      SendOne(c, sh, snd, dst, mv, retErr).Ok? <==>
        && 0 < mv.value <= Balance(sh.users, snd, key) && (snd, key) in sh.users
        && Writable(c, sh, snd, mv.token, mv.nonce, sh.users[(snd, key)].properties, retErr)
        && MayMove(c, sh, snd, dst, mv.token, retErr)
        && (c.shardOf(dst) == c.self ==> Creditable(c, sh, dst, mv.token, mv.nonce, sh.users[(snd, key)].properties, retErr))
        && (c.shardOf(dst) != c.self ==> CounterAllows(c, sh, snd, mv.token, mv.nonce, -(mv.value as int)))
  {
    hide TokenKey, Writable, SaveToken, ReadTokenOnSender, AddToLiquidity, CounterAllows, ValidToken, MayMove, CheckLimitedTransfer;
    hide Creditable, AddToDestination;
    ReadsExactly(c, sh, snd, mv.token, mv.nonce);
    var own := ReadTokenOnSender(c, sh, snd, mv.token, mv.nonce);
    if own.Ok? && mv.value <= own.value.value {
      var less := own.value.(value := own.value.value - mv.value);
      WritesExactly(c, sh, snd, snd, mv.token, mv.nonce, less, false, retErr);
      var saved := SaveToken(c, sh, snd, snd, mv.token, mv.nonce, less, false, retErr);
      if saved.Ok? {
        var shipped := own.value.(value := mv.value);
        DebitKeepsChecks(c, sh, snd, mv.token, mv.nonce, less, retErr, saved.value, dst, shipped.properties);
        LimitedExactly(c, saved.value, snd, dst, mv.token, retErr);
        if ToShard(c, dst) {
          CreditsExactly(c, saved.value, snd, dst, shipped, mv.token, mv.nonce, retErr);
        } else {
          CounterAllowsExactly(c, sh, snd, mv.token, mv.nonce, own.value, less.value, -(mv.value as int), retErr, saved.value);
        }
      }
    }
  }

  lemma CreditKeepsMayMove(c: Config, sh: Shard, snd: Address, dst: Address, tok: Token, t: Bytes, nonce: uint64, retErr: bool,
                           after: Shard, merged: Token)
    requires ValidToken(t) && nonce > 0 && c.shardOf(snd) == c.shardOf(dst)
    requires AddToDestination(c, sh, snd, dst, tok, t, nonce, retErr) == Ok((after, merged))
    ensures MayMove(c, after, snd, dst, t, retErr) <==> MayMove(c, sh, snd, dst, t, retErr)
  {
    NftKeyIntro(t, nonce);
    FungibleKeyIsNotNftKey(t);
    var saved := AddToDestinationWrite(c, sh, snd, dst, tok, t, nonce, retErr, after, merged);
    WriteKeepsToken(c, sh, snd, dst, t, nonce, merged, retErr, saved);
    CreditKeepsRoles(c, sh, snd, dst, tok, t, nonce, retErr, after, merged);
    CreditHere(c, sh, snd, dst, tok, t, nonce, retErr, after, merged, saved);
    hide TokenKey, SaveToken, AddToDestination, ValidToken, IsNftKey;
  }

  lemma CreditHere(c: Config, sh: Shard, snd: Address, dst: Address, tok: Token, t: Bytes, nonce: uint64, retErr: bool,
                   after: Shard, merged: Token, saved: Shard)
    requires c.shardOf(snd) == c.shardOf(dst)
    requires AddToDestination(c, sh, snd, dst, tok, t, nonce, retErr) == Ok((after, merged))
    requires SaveToken(c, sh, snd, dst, t, nonce, merged, false, retErr) == Ok(saved)
    ensures after == saved
  {
    hide SaveToken;
  }

  lemma WriteKeepsToken(c: Config, sh: Shard, snd: Address, a: Address, t: Bytes, nonce: uint64, tok: Token, retErr: bool, after: Shard)
    requires TokenKey(t, nonce) != t && SaveToken(c, sh, snd, a, t, nonce, tok, false, retErr) == Ok(after)
    ensures (t in after.sys <==> t in sh.sys) && (t in sh.sys ==> after.sys[t] == sh.sys[t])
  {
    hide TokenKey, CheckFrozenPauseProperties, NewProperties;
  }

  lemma DepartureKeepsMayMove(c: Config, sh: Shard, snd: Address, dst: Address, t: Bytes, nonce: uint64, delta: int, retErr: bool,
                              sys: Sys)
    requires ValidToken(t) && nonce > 0 && AddToLiquidity(c, sh.sys, t, nonce, delta) == Ok(sys)
    ensures MayMove(c, sh.(sys := sys), snd, dst, t, retErr) <==> MayMove(c, sh, snd, dst, t, retErr)
  {
    NftKeyIntro(t, nonce);
    FungibleKeyIsNotNftKey(t);
    hide TokenKey, ValidToken, IsNftKey;
  }

  /** The single NFT transfer, before anything is shipped, succeeds exactly under these conditions. */
  lemma NftMovesExactly(c: Config, sh: Shard, inp: Input, dst: Address, mv: Move, extra: seq<Bytes>)
    requires ValidToken(mv.token) && inp.caller != dst && c.shardOf(inp.caller) == c.self
    requires Clean(sh.sys, TokenKey(mv.token, mv.nonce)) || mv.nonce == 0
    ensures var key := TokenKey(mv.token, mv.nonce);
      NftSendOne(c, sh, inp, dst, mv, extra).Ok? <==>
        && mv.nonce > 0 && mv.value <= Balance(sh.users, inp.caller, key) && (c.flags.checkTransfer ==> mv.value > 0)
        && (inp.caller, key) in sh.users
        && Writable(c, sh, inp.caller, mv.token, mv.nonce, sh.users[(inp.caller, key)].properties, inp.retErr)
        && MayMove(c, sh, inp.caller, dst, mv.token, inp.retErr)
        && (c.shardOf(dst) == c.self ==>
              && MayBePaid(c, inp.caller, inp.callType, inp.retErr, dst, extra)
              && Creditable(c, sh, dst, mv.token, mv.nonce, sh.users[(inp.caller, key)].properties, inp.retErr))
        && (c.shardOf(dst) != c.self ==> CounterAllows(c, sh, inp.caller, mv.token, mv.nonce, -(mv.value as int)))
  {
    hide TokenKey, Writable, SaveToken, ReadTokenOnSender, AddToLiquidity, CounterAllows, ValidToken, MayMove, CheckLimitedTransfer;
    hide Creditable, AddToDestination, MayBePaid, CheckPayable;
    var snd, retErr := inp.caller, inp.retErr;
    ReadsExactly(c, sh, snd, mv.token, mv.nonce);
    PayableExactly(c, inp, dst, extra);
    var own := ReadTokenOnSender(c, sh, snd, mv.token, mv.nonce);
    if own.Ok? && mv.nonce > 0 && mv.value <= own.value.value && (c.flags.checkTransfer ==> mv.value > 0) {
      var less := own.value.(value := own.value.value - mv.value);
      WritesExactly(c, sh, snd, snd, mv.token, mv.nonce, less, false, retErr);
      var saved := SaveToken(c, sh, snd, snd, mv.token, mv.nonce, less, false, retErr);
      if saved.Ok? {
        var shipped := own.value.(value := mv.value);
        DebitKeepsChecks(c, sh, snd, mv.token, mv.nonce, less, retErr, saved.value, dst, shipped.properties);
        assert DebitForNft(c, sh, snd, mv, retErr) == Ok((shipped, saved.value));
        MovesOnExactly(c, saved.value, inp, dst, shipped, mv, extra);
        if ToShard(c, dst) {
          CreditsExactly(c, saved.value, snd, dst, shipped, mv.token, mv.nonce, retErr);
        } else {
          CounterAllowsExactly(c, sh, snd, mv.token, mv.nonce, own.value, less.value, -(mv.value as int), retErr, saved.value);
        }
      }
    }
  }

  /** The rest of the transfer after the debit. */
  lemma MovesOnExactly(c: Config, sh: Shard, inp: Input, dst: Address, tok: Token, mv: Move, extra: seq<Bytes>)
    requires ValidToken(mv.token) && mv.nonce > 0 && c.shardOf(inp.caller) == c.self
    ensures var r := NftMoveOn(c, sh, inp, dst, tok, mv, extra);
      && (r.Ok? <==>
            if c.shardOf(dst) == c.self
            then CheckPayable(c, inp, dst, extra).Pass? && AddToDestination(c, sh, inp.caller, dst, tok, mv.token, mv.nonce, inp.retErr).Ok?
            else AddToLiquidity(c, sh.sys, mv.token, mv.nonce, -(mv.value as int)).Ok?)
      && (r.Ok? ==> (CheckLimitedTransfer(c, r.value.0, inp.caller, dst, ToShard(c, dst), mv.token, inp.retErr).Pass?
                     <==> MayMove(c, sh, inp.caller, dst, mv.token, inp.retErr)))
  {
    hide TokenKey, AddToLiquidity, ValidToken, MayMove, CheckLimitedTransfer, AddToDestination, CheckPayable;
    var r := NftMoveOn(c, sh, inp, dst, tok, mv, extra);
    if r.Ok? {
      LimitedExactly(c, r.value.0, inp.caller, dst, mv.token, inp.retErr);
      if ToShard(c, dst) {
        CreditKeepsMayMove(c, sh, inp.caller, dst, tok, mv.token, mv.nonce, inp.retErr, r.value.0, r.value.1);
      } else {
        DepartureKeepsMayMove(c, sh, inp.caller, dst, mv.token, mv.nonce, -(mv.value as int), inp.retErr, r.value.0.sys);
      }
    }
  }

  // ---- the system contract's functions ----

  lemma WipesExactly(c: Config, sh: Shard, a: Address, arg: Bytes)
    ensures Wipe(c, sh, a, arg).Ok? <==>
      && IsFrozenAt(sh.users, a, arg)
      && (c.flags.wipeLiquidity ==>
            var (t, nonce) := ExtractForWipe(arg);
            var key := TokenKey(t, nonce);
            Counts(c) && nonce > 0 ==>
              key in sh.sys && sh.sys[key].Entry?
              && (sh.sys[key].token.reserved == [] || sh.sys[key].token.value >= Balance(sh.users, a, arg)
                  || (c.flags.fixOldLiquidity && sh.sys[key].token.value == 0)))
    ensures Wipe(c, sh, a, arg).Ok? ==> Wipes(sh.users, Wipe(c, sh, a, arg).value.users, a, arg)
  {
    hide ExtractForWipe, TokenKey;
    var (t, nonce) := ExtractForWipe(arg);
    AddToLiquidityFailsExactly(c, sh.sys, t, nonce, -ReadRaw(sh.users, a, arg).value);
    hide AddToLiquidity;
  }

  /** As steps of the system, freezing and settings always succeed and change one holding or one setting. */
  lemma ContractCallsAlwaysSucceed(c: Config, sh: Shard, a: Address, key: Bytes, freeze: bool, which: Setting, on: bool)
    ensures var r := Execute(c, sh, FreezeCall(a, key, freeze));
            r.Ok? && r.value.1 == NO_OUTPUT && Freezes(sh.users, r.value.0.users, a, key, freeze) && r.value.0.sys == sh.sys
    ensures var r := Execute(c, sh, SettingCall(key, which, on));
            r.Ok? && r.value.1 == NO_OUTPUT && Sets(sh.sys, r.value.0.sys, key, which, on) && r.value.0.users == sh.users
  {
    hide Freezes;
    ToggleFreezes(sh, a, key, freeze);
    assert ToggleSetting(sh, key, which, on).sys - {key} == sh.sys - {key};
  }
}
