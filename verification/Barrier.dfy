/**
 * The freeze and pause barrier. Calls that return from a failed call (`ReturnCallAfterError`) and the account of the
 * DCT system contract are exempt in the program, and so they are here.
 */
module Barrier {
  import opened Bytes
  import opened Keys
  import opened Wrappers
  import opened Ledger
  import opened Operations
  import opened World
  import opened Conservation

  ghost predicate IsFrozen(users: Users, a: Address, key: Bytes) {
    (a, key) in users && Frozen(users[(a, key)].properties)
  }

  /**
   * Frozen holdings keep their amount and their frozen bit, balances of paused tokens do not move, and paused tokens
   * stay paused.
   */
  ghost predicate Respects(c: Config, before: Shard, after: Shard) {
    && (forall a, k :: a != c.dctSC && IsFrozen(before.users, a, k) ==>
          IsFrozen(after.users, a, k) && Balance(after.users, a, k) == Balance(before.users, a, k))
    && (forall a, t, n: nat :: a != c.dctSC && ValidToken(t) && IsPaused(before.sys, t) ==>
          Balance(after.users, a, TokenKey(t, n)) == Balance(before.users, a, TokenKey(t, n)))
    && (forall t :: ValidToken(t) && IsPaused(before.sys, t) ==> IsPaused(after.sys, t))
  }

  lemma RespectsRefl(c: Config, sh: Shard)
    ensures Respects(c, sh, sh)
  {
  }

  lemma RespectsTrans(c: Config, a: Shard, b: Shard, d: Shard)
    requires Respects(c, a, b) && Respects(c, b, d)
    ensures Respects(c, a, d)
  {
    hide IsFrozen, Balance, IsPaused, ValidToken, TokenKey;
  }

  /** Settings live under keys without nonce, so changes of token entries leave them alone. */
  ghost predicate SameSettings(before: Sys, after: Sys) {
    forall t :: ValidToken(t) && t in before && before[t].Settings? ==> t in after && after[t] == before[t]
  }

  lemma EntryChangeKeepsSettings(before: Sys, after: Sys, t: Bytes, nonce: uint64)
    requires ValidToken(t) && nonce > 0
    requires forall k :: k != TokenKey(t, nonce) && k in before ==> k in after && after[k] == before[k]
    ensures SameSettings(before, after)
  {
    NftKeyIntro(t, nonce);
    forall u | ValidToken(u) && u in before && before[u].Settings?
      ensures u in after && after[u] == before[u]
    {
      FungibleKeyIsNotNftKey(u);
    }
  }

  lemma SaveTokenKeepsSettings(c: Config, sh: Shard, snd: Address, a: Address, t: Bytes, nonce: uint64, tok: Token,
                               mustUpdate: bool, retErr: bool, after: Shard)
    requires ValidToken(t) && SaveToken(c, sh, snd, a, t, nonce, tok, mustUpdate, retErr) == Ok(after)
    ensures SameSettings(sh.sys, after.sys)
  {
    if nonce > 0 {
      EntryChangeKeepsSettings(sh.sys, after.sys, t, nonce);
    }
  }

  lemma AddToLiquidityKeepsSettings(c: Config, sys: Sys, t: Bytes, nonce: uint64, delta: int, after: Sys)
    requires ValidToken(t) && AddToLiquidity(c, sys, t, nonce, delta) == Ok(after)
    ensures SameSettings(sys, after)
  {
    if nonce > 0 {
      EntryChangeKeepsSettings(sys, after, t, nonce);
    }
  }

  /** A write that no check of the holder's own stops: the holder is exempt, or neither frozen nor paused. */
  lemma WriteRespects(c: Config, before: Shard, after: Shard, a: Address, t: Bytes, n: nat)
    requires ValidToken(t) && SameSettings(before.sys, after.sys)
    requires forall x :: x != (a, TokenKey(t, n)) ==> (x in after.users <==> x in before.users)
    requires forall x :: x != (a, TokenKey(t, n)) && x in before.users ==> after.users[x] == before.users[x]
    requires a == c.dctSC || (!IsFrozen(before.users, a, TokenKey(t, n)) && !IsPaused(before.sys, t))
    ensures Respects(c, before, after)
  {
    forall x, u, m: nat | x != c.dctSC && ValidToken(u) && IsPaused(before.sys, u)
      ensures Balance(after.users, x, TokenKey(u, m)) == Balance(before.users, x, TokenKey(u, m))
    {
      if x == a && TokenKey(u, m) == TokenKey(t, n) {
        TokenKeyInjective(u, m, t, n);
      }
    }
  }

  lemma SysChangeRespects(c: Config, sh: Shard, sys: Sys)
    requires SameSettings(sh.sys, sys)
    ensures Respects(c, sh, sh.(sys := sys))
  {
  }

  /** What the checks inside a token write guarantee about the token written. */
  lemma SaveTokenGuard(c: Config, sh: Shard, snd: Address, a: Address, t: Bytes, nonce: uint64, tok: Token,
                       mustUpdate: bool, retErr: bool, after: Shard)
    requires SaveToken(c, sh, snd, a, t, nonce, tok, mustUpdate, retErr) == Ok(after)
    ensures !retErr && a != c.dctSC ==> !Frozen(tok.properties) && !IsPaused(sh.sys, t)
    ensures forall x :: x != (a, TokenKey(t, nonce)) ==> (x in after.users <==> x in sh.users)
    ensures forall x :: x != (a, TokenKey(t, nonce)) && x in sh.users ==> after.users[x] == sh.users[x]
  {
  }

  lemma SaveTokenRespects(c: Config, sh: Shard, snd: Address, a: Address, t: Bytes, nonce: uint64, tok: Token,
                          mustUpdate: bool, after: Shard)
    requires ValidToken(t) && SaveToken(c, sh, snd, a, t, nonce, tok, mustUpdate, false) == Ok(after)
    requires a == c.dctSC || !IsFrozen(sh.users, a, TokenKey(t, nonce)) || Frozen(tok.properties)
    ensures Respects(c, sh, after)
  {
    hide SaveToken;
    SaveTokenGuard(c, sh, snd, a, t, nonce, tok, mustUpdate, false, after);
    SaveTokenKeepsSettings(c, sh, snd, a, t, nonce, tok, mustUpdate, false, after);
    WriteRespects(c, sh, after, a, t, nonce);
  }

  lemma ReadTokenProperties(c: Config, sh: Shard, a: Address, t: Bytes, nonce: uint64)
    ensures ReadToken(c, sh, a, t, nonce).Ok? ==>
              ReadToken(c, sh, a, t, nonce).value.0.properties == ReadRaw(sh.users, a, TokenKey(t, nonce)).properties
  {
  }

  /** A holder's own token, written back with the properties it was read with. */
  lemma RewriteRespects(c: Config, sh: Shard, a: Address, t: Bytes, nonce: uint64, own: Token, tok: Token,
                        mustUpdate: bool, after: Shard)
    requires ValidToken(t) && ReadToken(c, sh, a, t, nonce).Ok? && ReadToken(c, sh, a, t, nonce).value.0 == own
    requires tok.properties == own.properties
    requires SaveToken(c, sh, a, a, t, nonce, tok, mustUpdate, false) == Ok(after)
    ensures Respects(c, sh, after)
  {
    hide SaveToken, ReadToken, Respects;
    ReadTokenProperties(c, sh, a, t, nonce);
    SaveTokenRespects(c, sh, a, a, t, nonce, tok, mustUpdate, after);
  }

  lemma AddToDestinationRespects(c: Config, sh: Shard, snd: Address, dst: Address, tok: Token, t: Bytes, nonce: uint64,
                                 after: Shard, merged: Token)
    requires ValidToken(t) && AddToDestination(c, sh, snd, dst, tok, t, nonce, false) == Ok((after, merged))
    ensures Respects(c, sh, after)
  {
    ReadTokenProperties(c, sh, dst, t, nonce);
    var saved := AddToDestinationWrite(c, sh, snd, dst, tok, t, nonce, false, after, merged);
    assert dst != c.dctSC ==> !IsFrozen(sh.users, dst, TokenKey(t, nonce));
    assert SameSettings(saved.sys, after.sys) by {
      if c.shardOf(snd) != c.shardOf(dst) {
        AddToLiquidityKeepsSettings(c, saved.sys, t, nonce, tok.value, after.sys);
      }
    }
    hide AddToDestination, SaveToken, ReadToken, Respects;
    SaveTokenRespects(c, sh, snd, dst, t, nonce, merged, false, saved);
    SysChangeRespects(c, saved, after.sys);
    RespectsTrans(c, sh, saved, after);
  }

  lemma AddToBalanceRespects(c: Config, sh: Shard, a: Address, t: Bytes, delta: int, after: Shard)
    requires ValidToken(t) && AddToBalance(c, sh, a, t, delta, false) == Ok(after)
    ensures Respects(c, sh, after)
  {
    assert TokenKey(t, 0) == t + [] == t;
    WriteRespects(c, sh, after, a, t, 0);
  }

  // ---- transfers ----

  lemma DebitRespects(c: Config, sh: Shard, snd: Address, mv: Move, shipped: Token, debited: Shard)
    requires ValidToken(mv.token) && IsDebit(c, sh, snd, mv, false, shipped, debited)
    ensures Respects(c, sh, debited)
  {
    hide SaveToken, ReadToken, Respects;
    var own := shipped.(value := Balance(sh.users, snd, TokenKey(mv.token, mv.nonce)));
    RewriteRespects(c, sh, snd, mv.token, mv.nonce, own, own.(value := own.value - mv.value), false, debited);
  }

  lemma LiquidityRespects(c: Config, sh: Shard, t: Bytes, nonce: uint64, delta: int, after: Shard)
    requires ValidToken(t) && AddToLiquidity(c, sh.sys, t, nonce, delta) == Ok(after.sys) && after == sh.(sys := after.sys)
    ensures Respects(c, sh, after)
  {
    hide AddToLiquidity, Respects, SameSettings;
    AddToLiquidityKeepsSettings(c, sh.sys, t, nonce, delta, after.sys);
    SysChangeRespects(c, sh, after.sys);
  }

  lemma SendOneRespects(c: Config, sh: Shard, snd: Address, dst: Address, mv: Move, after: Shard, tok: Token)
    requires ValidToken(mv.token) && SendOne(c, sh, snd, dst, mv, false) == Ok((after, tok))
    ensures Respects(c, sh, after)
  {
    hide SaveToken, Respects, AddToDestination, AddToLiquidity, CheckLimitedTransfer, DebitForMulti;
    var (shipped, debited) := DebitForMulti(c, sh, snd, mv, false).value;
    MultiDebit(c, sh, snd, mv, false, shipped, debited);
    DebitRespects(c, sh, snd, mv, shipped, debited);
    if ToShard(c, dst) {
      AddToDestinationRespects(c, debited, snd, dst, shipped, mv.token, mv.nonce, after, tok);
    } else {
      LiquidityRespects(c, debited, mv.token, mv.nonce, -(mv.value as int), after);
    }
    RespectsTrans(c, sh, debited, after);
  }

  lemma {:induction false} SendAllRespects(c: Config, sh: Shard, snd: Address, dst: Address, moves: seq<Move>, after: Shard, tokens: seq<Token>)
    requires forall i :: 0 <= i < |moves| ==> ValidToken(moves[i].token)
    requires SendAll(c, sh, snd, dst, moves, false) == Ok((after, tokens))
    ensures Respects(c, sh, after)
  {
    hide SendOne, Respects, ValidToken;
    if moves == [] {
      RespectsRefl(c, sh);
    } else {
      var last := |moves| - 1;
      var (mid, init) := SendAll(c, sh, snd, dst, moves[..last], false).value;
      SendAllRespects(c, sh, snd, dst, moves[..last], mid, init);
      var (end, tok) := SendOne(c, mid, snd, dst, moves[last], false).value;
      SendOneRespects(c, mid, snd, dst, moves[last], end, tok);
      RespectsTrans(c, sh, mid, end);
    }
  }

  lemma WasAlreadySentKeepsSettings(c: Config, sys: Sys, t: Bytes, nonce: uint64, dst: Address)
    requires ValidToken(t) && nonce > 0 && WasAlreadySent(c, sys, t, nonce, dst).Ok?
    ensures SameSettings(sys, WasAlreadySent(c, sys, t, nonce, dst).value.1)
  {
    EntryChangeKeepsSettings(sys, WasAlreadySent(c, sys, t, nonce, dst).value.1, t, nonce);
  }

  lemma ShipOneKeepsSettings(c: Config, sys: Sys, dst: Address, mv: Move, tok: Token, gas: nat)
    requires ValidToken(mv.token) && ShipOne(c, sys, dst, mv, tok, gas).Ok?
    ensures SameSettings(sys, ShipOne(c, sys, dst, mv, tok, gas).value.0)
  {
    if mv.nonce > 0 {
      WasAlreadySentKeepsSettings(c, sys, mv.token, mv.nonce, dst);
      hide WasAlreadySent, SameSettings;
    }
  }

  lemma {:induction false} ShipAllKeepsSettings(c: Config, sys: Sys, dst: Address, moves: seq<Move>, tokens: seq<Token>, gas: nat)
    requires forall i :: 0 <= i < |moves| ==> ValidToken(moves[i].token)
    requires |moves| == |tokens| && ShipAll(c, sys, dst, moves, tokens, gas).Ok?
    ensures SameSettings(sys, ShipAll(c, sys, dst, moves, tokens, gas).value.0)
  {
    hide ShipOne, ValidToken, IsPaused;
    if moves != [] {
      var last := |moves| - 1;
      ShipAllKeepsSettings(c, sys, dst, moves[..last], tokens[..last], gas);
      var (before, items, left) := ShipAll(c, sys, dst, moves[..last], tokens[..last], gas).value;
      ShipOneKeepsSettings(c, before, dst, moves[last], tokens[last], left);
    }
  }

  lemma MultiSendRespects(c: Config, sh: Shard, inp: Input, dst: Address, moves: seq<Move>, extra: seq<Bytes>, after: Shard, out: Output)
    requires forall i :: 0 <= i < |moves| ==> ValidToken(moves[i].token)
    requires !inp.retErr && MultiSend(c, sh, inp, dst, moves, extra) == Ok((after, out))
    ensures Respects(c, sh, after)
  {
    hide SendAll, ShipAll, Respects, SameSettings, ValidToken, Finish, CheckPayable;
    var (moved, tokens) := SendAll(c, sh, inp.caller, dst, moves, false).value;
    SendAllRespects(c, sh, inp.caller, dst, moves, moved, tokens);
    ShipAllKeepsSettings(c, moved.sys, dst, moves, tokens, inp.gasProvided - MultiCost(c, |moves|));
    SysChangeRespects(c, moved, after.sys);
    RespectsTrans(c, sh, moved, after);
  }

  lemma NftSendOneRespects(c: Config, sh: Shard, inp: Input, dst: Address, mv: Move, extra: seq<Bytes>, after: Shard, tok: Token)
    requires ValidToken(mv.token) && !inp.retErr && NftSendOne(c, sh, inp, dst, mv, extra) == Ok((after, tok))
    ensures Respects(c, sh, after) && mv.nonce > 0
  {
    hide SaveToken, Respects, CheckPayable;
    var (shipped, debited) := DebitForNft(c, sh, inp.caller, mv, inp.retErr).value;
    NftDebit(c, sh, inp.caller, mv, inp.retErr, shipped, debited);
    hide AddToDestination, AddToLiquidity, CheckLimitedTransfer, DebitForNft;
    DebitRespects(c, sh, inp.caller, mv, shipped, debited);
    if ToShard(c, dst) {
      AddToDestinationRespects(c, debited, inp.caller, dst, shipped, mv.token, mv.nonce, after, tok);
    } else {
      LiquidityRespects(c, debited, mv.token, mv.nonce, -(mv.value as int), after);
    }
    RespectsTrans(c, sh, debited, after);
  }

  lemma NftShipKeepsSettings(c: Config, sys: Sys, dst: Address, mv: Move, tok: Token, gas: nat)
    requires ValidToken(mv.token) && mv.nonce > 0 && NftShip(c, sys, dst, mv, tok, gas).Ok?
    ensures SameSettings(sys, NftShip(c, sys, dst, mv, tok, gas).value.0)
  {
    WasAlreadySentKeepsSettings(c, sys, mv.token, mv.nonce, dst);
    hide WasAlreadySent, SameSettings;
  }

  lemma NftSendRespects(c: Config, sh: Shard, inp: Input, dst: Address, mv: Move, extra: seq<Bytes>, after: Shard, out: Output)
    requires ValidToken(mv.token) && !inp.retErr && NftSend(c, sh, inp, dst, mv, extra) == Ok((after, out))
    ensures Respects(c, sh, after)
  {
    hide NftSendOne, NftShip, Respects, SameSettings, Finish;
    var (moved, tok) := NftSendOne(c, sh, inp, dst, mv, extra).value;
    NftSendOneRespects(c, sh, inp, dst, mv, extra, moved, tok);
    NftShipKeepsSettings(c, moved.sys, dst, mv, tok, inp.gasProvided - c.costs.nftTransfer);
    SysChangeRespects(c, moved, after.sys);
    RespectsTrans(c, sh, moved, after);
  }

  lemma FungibleSendRespects(c: Config, sh: Shard, inp: Input, dst: Address, t: Bytes, value: nat, extra: seq<Bytes>,
                             after: Shard, out: Output)
    requires ValidToken(t) && !inp.retErr && FungibleSend(c, sh, inp, dst, t, value, extra) == Ok((after, out))
    ensures Respects(c, sh, after)
  {
    hide AddToBalance, Respects, CheckPayable, CheckLimitedTransfer;
    var debited := AddToBalance(c, sh, inp.caller, t, -(value as int), false).value;
    AddToBalanceRespects(c, sh, inp.caller, t, -(value as int), debited);
    if ToShard(c, dst) {
      AddToBalanceRespects(c, debited, dst, t, value, after);
      RespectsTrans(c, sh, debited, after);
    }
  }

  // ---- deliveries ----

  lemma CreditOneRespects(c: Config, sh: Shard, env: Envelope, item: Item, after: Shard)
    requires ValidToken(item.token) && !env.retErr && CreditOne(c, sh, env, item) == Ok(after)
    ensures Respects(c, sh, after)
  {
    hide AddToDestination, AddToBalance, Respects;
    if env.carrier == ByNftTransfer || (env.carrier == ByMultiTransfer && item.nonce > 0) {
      var r := AddToDestination(c, sh, env.caller, env.recipient, ArrivingToken(item), item.token, item.nonce, false).value;
      AddToDestinationRespects(c, sh, env.caller, env.recipient, ArrivingToken(item), item.token, item.nonce, r.0, r.1);
    } else {
      AddToBalanceRespects(c, sh, env.recipient, item.token, item.Value(), after);
    }
  }

  lemma {:induction false} CreditAllRespects(c: Config, sh: Shard, env: Envelope, items: seq<Item>)
    requires !env.retErr && (forall i :: 0 <= i < |items| ==> ValidToken(items[i].token))
    requires CreditAll(c, sh, env, items).Ok?
    ensures Respects(c, sh, CreditAll(c, sh, env, items).value)
  {
    hide CreditOne, Respects, ValidToken;
    if items == [] {
      RespectsRefl(c, sh);
    } else {
      var last := |items| - 1;
      CreditAllRespects(c, sh, env, items[..last]);
      var before := CreditAll(c, sh, env, items[..last]).value;
      var after := CreditOne(c, before, env, items[last]).value;
      CreditOneRespects(c, before, env, items[last], after);
      RespectsTrans(c, sh, before, after);
    }
  }

  /** An arriving message leaves frozen holdings and paused balances of its shard alone, or fails. */
  lemma DeliveryRespectsBarrier(c: Config, sh: Shard, env: Envelope, gas: uint64, after: Shard, out: Output)
    requires !env.retErr && (forall i :: 0 <= i < |env.items| ==> ValidToken(env.items[i].token))
    requires Deliver(c, sh, env, gas) == Ok((after, out))
    ensures Respects(c, sh, after)
  {
    hide CreditAll, Respects, ValidToken, CheckPayable;
    CreditAllRespects(c, sh, env, env.items);
  }

  // ---- all calls ----

  /** The exceptional calls: those of the system contract, and creation, which starts a fresh holding. */
  predicate IsOrdinary(call: Call) {
    IsTransfer(call) || call.AddQuantityCall? || call.BurnCall? || call.UpdateCall? || call.MintCall? || call.BurnFungibleCall?
  }

  predicate IsReturn(call: Call) {
    match call
    case FungibleCall(inp, _, _, _, _) => inp.retErr
    case NftCall(inp, _, _, _) => inp.retErr
    case MultiCall(inp, _, _, _) => inp.retErr
    case CreateCall(inp, _, _) => inp.retErr
    case AddQuantityCall(inp, _, _, _) => inp.retErr
    case BurnCall(inp, _, _, _) => inp.retErr
    case UpdateCall(inp, _, _, _) => inp.retErr
    case MintCall(inp, _, _) => inp.retErr
    case BurnFungibleCall(inp, _, _) => inp.retErr
    case _ => false
  }

  lemma AddQuantityRespects(c: Config, sh: Shard, inp: Input, t: Bytes, nonce: uint64, quantity: Bytes, after: Shard, out: Output)
    requires ValidToken(t) && !inp.retErr && AddQuantity(c, sh, inp, t, nonce, quantity) == Ok((after, out))
    ensures Respects(c, sh, after)
  {
    hide SaveToken, AddToLiquidity, Respects, ReadToken;
    var own := ReadTokenOnSender(c, sh, inp.caller, t, nonce).value;
    var more := own.(value := own.value + ToNat(quantity));
    var saved := SaveToken(c, sh, inp.caller, inp.caller, t, nonce, more, false, false).value;
    RewriteRespects(c, sh, inp.caller, t, nonce, own, more, false, saved);
    LiquidityRespects(c, saved, t, nonce, ToNat(quantity), after);
    RespectsTrans(c, sh, saved, after);
  }

  lemma BurnRespects(c: Config, sh: Shard, inp: Input, t: Bytes, nonce: uint64, value: nat, after: Shard, out: Output)
    requires ValidToken(t) && !inp.retErr && Burn(c, sh, inp, t, nonce, value) == Ok((after, out))
    ensures Respects(c, sh, after)
  {
    hide SaveToken, AddToLiquidity, Respects, ReadToken;
    var own := ReadTokenOnSender(c, sh, inp.caller, t, nonce).value;
    var less := own.(value := own.value - value);
    var saved := SaveToken(c, sh, inp.caller, inp.caller, t, nonce, less, false, false).value;
    RewriteRespects(c, sh, inp.caller, t, nonce, own, less, false, saved);
    LiquidityRespects(c, saved, t, nonce, -(value as int), after);
    RespectsTrans(c, sh, saved, after);
  }

  lemma UpdateRespects(c: Config, sh: Shard, inp: Input, t: Bytes, nonce: uint64, update: Update, after: Shard, out: Output)
    requires ValidToken(t) && !inp.retErr && UpdateMeta(c, sh, inp, t, nonce, update) == Ok((after, out))
    ensures Respects(c, sh, after)
  {
    hide SaveToken, Respects, ReadToken;
    var own := ReadTokenOnSender(c, sh, inp.caller, t, nonce).value;
    RewriteRespects(c, sh, inp.caller, t, nonce, own, own.(meta := Some(update.Apply(own.meta.value))), true, after);
  }

  lemma OrdinaryCallRespects(c: Config, sh: Shard, call: Call, after: Shard, out: Output)
    requires ValidTokens(call) && IsOrdinary(call) && !IsReturn(call) && Execute(c, sh, call) == Ok((after, out))
    ensures Respects(c, sh, after)
  {
    hide Respects, FungibleSend, NftSend, MultiSend, AddQuantity, Burn, UpdateMeta, AddToBalance, ValidToken;
    match call
    case FungibleCall(inp, dst, t, value, extra) => FungibleSendRespects(c, sh, inp, dst, t, value, extra, after, out);
    case NftCall(inp, dst, mv, extra) => NftSendRespects(c, sh, inp, dst, mv, extra, after, out);
    case MultiCall(inp, dst, moves, extra) => MultiSendRespects(c, sh, inp, dst, moves, extra, after, out);
    case AddQuantityCall(inp, t, nonce, quantity) => AddQuantityRespects(c, sh, inp, t, nonce, quantity, after, out);
    case BurnCall(inp, t, nonce, value) => BurnRespects(c, sh, inp, t, nonce, value, after, out);
    case UpdateCall(inp, t, nonce, update) => UpdateRespects(c, sh, inp, t, nonce, update, after, out);
    case MintCall(inp, t, quantity) => AddToBalanceRespects(c, sh, inp.caller, t, ToNat(quantity), after);
    case BurnFungibleCall(inp, t, value) => AddToBalanceRespects(c, sh, inp.caller, t, -(value as int), after);
  }

  /** The calls that may lift the barrier of one holding: unfreeze, wipe, and creation under that very key. */
  predicate Lifts(sh: Shard, call: Call, a: Address, k: Bytes) {
    || call == FreezeCall(a, k, false)
    || call == WipeCall(a, k)
    || (call.CreateCall? && call.holder == a && TokenKey(call.cr.token, NextNonce(sh, a, call.cr.token)) == k)
  }

  lemma CreateTouchesOneHolding(c: Config, sh: Shard, inp: Input, holder: Address, cr: Creation, after: Shard, out: Output)
    requires Create(c, sh, inp, holder, cr) == Ok((after, out))
    ensures forall x :: x != (holder, TokenKey(cr.token, NextNonce(sh, holder, cr.token))) ==> (x in after.users <==> x in sh.users)
    ensures forall x :: x != (holder, TokenKey(cr.token, NextNonce(sh, holder, cr.token))) && x in sh.users ==>
              after.users[x] == sh.users[x]
    ensures !inp.retErr && holder != c.dctSC ==> !IsPaused(sh.sys, cr.token)
  {
    hide AddToLiquidity, SaveToken, HasRole;
    var nonce := NextNonce(sh, holder, cr.token);
    var meta := MetaData(nonce, cr.name, inp.caller, cr.royalties, cr.hash, cr.attributes, cr.uris);
    var tok := Token(NonFungible, ToNat(cr.quantity), [], Some(meta), []);
    var saved := SaveToken(c, sh, holder, holder, cr.token, nonce, tok, true, inp.retErr).value;
    SaveTokenGuard(c, sh, holder, holder, cr.token, nonce, tok, true, inp.retErr, saved);
  }

  lemma FreezingKeepsFrozen(sh: Shard, holder: Address, key: Bytes, freeze: bool, a: Address, k: Bytes)
    requires IsFrozen(sh.users, a, k) && ((holder, key) == (a, k) ==> freeze)
    ensures IsFrozen(ToggleFreeze(sh, holder, key, freeze).users, a, k)
    ensures Balance(ToggleFreeze(sh, holder, key, freeze).users, a, k) == Balance(sh.users, a, k)
  {
    assert !AreZero([1, 0]) by {
      assert [1, 0][0] != 0;
    }
  }

  /** Nothing but those calls changes a frozen balance or clears its frozen bit. */
  lemma FreezeBarrier(c: Config, sh: Shard, call: Call, after: Shard, out: Output, a: Address, k: Bytes)
    requires ValidTokens(call) && !IsReturn(call) && a != c.dctSC && !Lifts(sh, call, a, k)
    requires Execute(c, sh, call) == Ok((after, out)) && IsFrozen(sh.users, a, k)
    ensures IsFrozen(after.users, a, k) && Balance(after.users, a, k) == Balance(sh.users, a, k)
  {
    if IsOrdinary(call) {
      hide Execute;
      OrdinaryCallRespects(c, sh, call, after, out);
    } else if call.CreateCall? {
      hide Create;
      CreateTouchesOneHolding(c, sh, call.inp, call.holder, call.cr, after, out);
    } else if call.FreezeCall? {
      FreezingKeepsFrozen(sh, call.holder, call.key, call.freeze, a, k);
    }
  }

  /** No call but the wipe of that very holding changes a balance of a paused token. */
  lemma PauseBarrier(c: Config, sh: Shard, call: Call, after: Shard, out: Output, a: Address, t: Bytes, n: nat)
    requires ValidTokens(call) && !IsReturn(call) && a != c.dctSC && call != WipeCall(a, TokenKey(t, n))
    requires Execute(c, sh, call) == Ok((after, out)) && ValidToken(t) && IsPaused(sh.sys, t)
    ensures Balance(after.users, a, TokenKey(t, n)) == Balance(sh.users, a, TokenKey(t, n))
  {
    if IsOrdinary(call) {
      hide Execute;
      OrdinaryCallRespects(c, sh, call, after, out);
    } else if call.CreateCall? {
      hide Create;
      CreateTouchesOneHolding(c, sh, call.inp, call.holder, call.cr, after, out);
      var made := NextNonce(sh, call.holder, call.cr.token);
      if TokenKey(t, n) == TokenKey(call.cr.token, made) {
        TokenKeyInjective(t, n, call.cr.token, made);
      }
    } else {
      hide TokenKey, ValidToken, AddToLiquidity, ExtractForWipe;
    }
  }

  /** With the collection check on, freezing an account for a token stops its writes under every nonce. */
  lemma FrozenCollectionBlocksWrites(c: Config, sh: Shard, snd: Address, a: Address, t: Bytes, nonce: uint64, tok: Token, mustUpdate: bool)
    requires c.flags.checkFrozenCollection && nonce > 0 && IsFrozen(sh.users, a, t)
    ensures SaveToken(c, sh, snd, a, t, nonce, tok, mustUpdate, false).Err?
  {
  }
}
