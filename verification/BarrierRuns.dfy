/**
 * The freeze and pause barrier over whole runs. Returns of failed calls pass the checks, so what a run must not contain
 * is a return to the protected account itself; all other accounts and shards may do what they like.
 */
module BarrierRuns {
  import opened Bytes
  import opened Keys
  import opened Wrappers
  import opened Ledger
  import opened Operations
  import opened World
  import opened Conservation
  import opened Barrier
  import opened ZeroHoldings

  // ---- which accounts an operation can touch ----

  /** All holdings of an account stay as they are. */
  ghost predicate SameFor(before: Users, after: Users, a: Address) {
    forall k :: ((a, k) in after <==> (a, k) in before) && ((a, k) in before ==> after[(a, k)] == before[(a, k)])
  }

  lemma SameForTrans(u: Users, v: Users, w: Users, a: Address)
    requires SameFor(u, v, a) && SameFor(v, w, a)
    ensures SameFor(u, w, a)
  {
  }

  lemma SaveTokenSameFor(c: Config, sh: Shard, snd: Address, b: Address, t: Bytes, nonce: uint64, tok: Token,
                         mustUpdate: bool, retErr: bool, after: Shard, a: Address)
    requires a != b && SaveToken(c, sh, snd, b, t, nonce, tok, mustUpdate, retErr) == Ok(after)
    ensures SameFor(sh.users, after.users, a)
  {
    hide SaveMeta, CheckFrozenPauseProperties, TokenKey;
  }

  lemma AddToBalanceSameFor(c: Config, sh: Shard, b: Address, t: Bytes, delta: int, retErr: bool, after: Shard, a: Address)
    requires a != b && AddToBalance(c, sh, b, t, delta, retErr) == Ok(after)
    ensures SameFor(sh.users, after.users, a)
  {
    hide CheckFrozeAndPause, AreZero;
  }

  lemma CreditSameFor(c: Config, sh: Shard, snd: Address, dst: Address, tok: Token, t: Bytes, nonce: uint64,
                      retErr: bool, after: Shard, merged: Token, a: Address)
    requires a != dst && AddToDestination(c, sh, snd, dst, tok, t, nonce, retErr) == Ok((after, merged))
    ensures SameFor(sh.users, after.users, a)
  {
    hide SameFor, SaveToken, AddToLiquidity, ReadToken;
    var saved := AddToDestinationWrite(c, sh, snd, dst, tok, t, nonce, retErr, after, merged);
    SaveTokenSameFor(c, sh, snd, dst, t, nonce, merged, false, retErr, saved, a);
  }

  lemma SendOneSameFor(c: Config, sh: Shard, snd: Address, dst: Address, mv: Move, retErr: bool, after: Shard, tok: Token, a: Address)
    requires a != snd && a != dst && SendOne(c, sh, snd, dst, mv, retErr) == Ok((after, tok))
    ensures SameFor(sh.users, after.users, a)
  {
    hide SameFor, SaveToken, AddToLiquidity, ReadTokenOnSender, AddToDestination, CheckLimitedTransfer;
    var own := ReadTokenOnSender(c, sh, snd, mv.token, mv.nonce).value;
    var (shipped, debited) := DebitForMulti(c, sh, snd, mv, retErr).value;
    SaveTokenSameFor(c, sh, snd, snd, mv.token, mv.nonce, own.(value := own.value - mv.value), false, retErr, debited, a);
    if ToShard(c, dst) {
      CreditSameFor(c, debited, snd, dst, shipped, mv.token, mv.nonce, retErr, after, tok, a);
      SameForTrans(sh.users, debited.users, after.users, a);
    }
  }

  lemma NoChange(users: Users, a: Address)
    ensures SameFor(users, users, a)
  {
  }

  lemma {:induction false} SendAllSameFor(c: Config, sh: Shard, snd: Address, dst: Address, moves: seq<Move>, retErr: bool,
                                          after: Shard, tokens: seq<Token>, a: Address)
    requires a != snd && a != dst && SendAll(c, sh, snd, dst, moves, retErr) == Ok((after, tokens))
    ensures SameFor(sh.users, after.users, a)
  {
    hide SameFor, SendOne;
    if moves == [] {
      NoChange(sh.users, a);
    } else {
      var last := |moves| - 1;
      var (mid, init) := SendAll(c, sh, snd, dst, moves[..last], retErr).value;
      SendAllSameFor(c, sh, snd, dst, moves[..last], retErr, mid, init, a);
      var (end, tok) := SendOne(c, mid, snd, dst, moves[last], retErr).value;
      SendOneSameFor(c, mid, snd, dst, moves[last], retErr, end, tok, a);
      SameForTrans(sh.users, mid.users, end.users, a);
    }
  }

  lemma MultiSendSameFor(c: Config, sh: Shard, inp: Input, dst: Address, moves: seq<Move>, extra: seq<Bytes>,
                         after: Shard, out: Output, a: Address)
    requires a != inp.caller && a != dst && MultiSend(c, sh, inp, dst, moves, extra) == Ok((after, out))
    ensures SameFor(sh.users, after.users, a)
  {
    hide SameFor, SendAll, ShipAll, CheckPayable, CheckDestination, Finish;
    var (moved, tokens) := SendAll(c, sh, inp.caller, dst, moves, inp.retErr).value;
    SendAllSameFor(c, sh, inp.caller, dst, moves, inp.retErr, moved, tokens, a);
  }

  lemma NftSendSameFor(c: Config, sh: Shard, inp: Input, dst: Address, mv: Move, extra: seq<Bytes>, after: Shard, out: Output, a: Address)
    requires a != inp.caller && a != dst && NftSend(c, sh, inp, dst, mv, extra) == Ok((after, out))
    ensures SameFor(sh.users, after.users, a)
  {
    hide SameFor, SaveToken, AddToLiquidity, ReadTokenOnSender, AddToDestination, CheckLimitedTransfer, NftShip, Finish, CheckPayable;
    var own := ReadTokenOnSender(c, sh, inp.caller, mv.token, mv.nonce).value;
    var (shipped, debited) := DebitForNft(c, sh, inp.caller, mv, inp.retErr).value;
    SaveTokenSameFor(c, sh, inp.caller, inp.caller, mv.token, mv.nonce, own.(value := own.value - mv.value), false, inp.retErr, debited, a);
    var (moved, final) := NftMoveOn(c, debited, inp, dst, shipped, mv, extra).value;
    if ToShard(c, dst) {
      CreditSameFor(c, debited, inp.caller, dst, shipped, mv.token, mv.nonce, inp.retErr, moved, final, a);
      SameForTrans(sh.users, debited.users, moved.users, a);
    }
  }

  lemma FungibleSendSameFor(c: Config, sh: Shard, inp: Input, dst: Address, t: Bytes, value: nat, extra: seq<Bytes>,
                            after: Shard, out: Output, a: Address)
    requires a != inp.caller && a != dst && FungibleSend(c, sh, inp, dst, t, value, extra) == Ok((after, out))
    ensures SameFor(sh.users, after.users, a)
  {
    hide SameFor, AddToBalance, CheckLimitedTransfer, CheckPayable, IsSCCallAfter;
    var debited := AddToBalance(c, sh, inp.caller, t, -(value as int), inp.retErr).value;
    AddToBalanceSameFor(c, sh, inp.caller, t, -(value as int), inp.retErr, debited, a);
    if ToShard(c, dst) {
      AddToBalanceSameFor(c, debited, dst, t, value, inp.retErr, after, a);
      SameForTrans(sh.users, debited.users, after.users, a);
    }
  }

  /** The accounts whose holdings a call can change. */
  predicate Concerns(call: Call, a: Address) {
    match call
    case FungibleCall(inp, dst, _, _, _) => a == inp.caller || a == dst
    case NftCall(inp, dst, _, _) => a == inp.caller || a == dst
    case MultiCall(inp, dst, _, _) => a == inp.caller || a == dst
    case CreateCall(_, holder, _) => a == holder
    case AddQuantityCall(inp, _, _, _) => a == inp.caller
    case BurnCall(inp, _, _, _) => a == inp.caller
    case UpdateCall(inp, _, _, _) => a == inp.caller
    case MintCall(inp, _, _) => a == inp.caller
    case BurnFungibleCall(inp, _, _) => a == inp.caller
    case FreezeCall(holder, _, _) => a == holder
    case WipeCall(holder, _) => a == holder
    case SettingCall(_, _, _) => false
    case RolesCall(_, _, _, _, _) => false
  }

  lemma NftCallSameFor(c: Config, sh: Shard, call: Call, after: Shard, out: Output, a: Address)
    requires IsNftCall(call) && !Concerns(call, a) && Execute(c, sh, call) == Ok((after, out))
    ensures SameFor(sh.users, after.users, a)
  {
    hide SameFor, SaveToken, AddToLiquidity, ReadTokenOnSender, HasRole, ToNat, TotalLength;
    match call
    case CreateCall(inp, holder, cr) =>
      var nonce := NextNonce(sh, holder, cr.token);
      var meta := MetaData(nonce, cr.name, inp.caller, cr.royalties, cr.hash, cr.attributes, cr.uris);
      var tok := Token(NonFungible, ToNat(cr.quantity), [], Some(meta), []);
      SaveTokenSameFor(c, sh, holder, holder, cr.token, nonce, tok, true, inp.retErr,
                       SaveToken(c, sh, holder, holder, cr.token, nonce, tok, true, inp.retErr).value, a);
    case AddQuantityCall(inp, t, nonce, quantity) =>
      var own := ReadTokenOnSender(c, sh, inp.caller, t, nonce).value;
      var more := own.(value := own.value + ToNat(quantity));
      SaveTokenSameFor(c, sh, inp.caller, inp.caller, t, nonce, more, false, inp.retErr,
                       SaveToken(c, sh, inp.caller, inp.caller, t, nonce, more, false, inp.retErr).value, a);
    case BurnCall(inp, t, nonce, value) =>
      var own := ReadTokenOnSender(c, sh, inp.caller, t, nonce).value;
      var less := own.(value := own.value - value);
      SaveTokenSameFor(c, sh, inp.caller, inp.caller, t, nonce, less, false, inp.retErr,
                       SaveToken(c, sh, inp.caller, inp.caller, t, nonce, less, false, inp.retErr).value, a);
    case UpdateCall(inp, t, nonce, update) =>
      var own := ReadTokenOnSender(c, sh, inp.caller, t, nonce).value;
      SaveTokenSameFor(c, sh, inp.caller, inp.caller, t, nonce, own.(meta := Some(update.Apply(own.meta.value))), true,
                       inp.retErr, after, a);
  }

  lemma ContractCallSameFor(c: Config, sh: Shard, call: Call, after: Shard, out: Output, a: Address)
    requires !IsNftCall(call) && !IsTransfer(call) && !Concerns(call, a) && Execute(c, sh, call) == Ok((after, out))
    ensures SameFor(sh.users, after.users, a)
  {
    hide AddToLiquidity, ExtractForWipe, AreZero, HasRole, AddToBalance, MultiSend, NftSend, FungibleSend, Create, AddQuantity, Burn, UpdateMeta;
    match call
    case MintCall(inp, t, quantity) => AddToBalanceSameFor(c, sh, inp.caller, t, ToNat(quantity), inp.retErr, after, a);
    case BurnFungibleCall(inp, t, value) => AddToBalanceSameFor(c, sh, inp.caller, t, -(value as int), inp.retErr, after, a);
    case _ =>
  }

  /** A call leaves all accounts alone that it does not concern, also when it is the return of a failed call. */
  lemma CallSameFor(c: Config, sh: Shard, call: Call, after: Shard, out: Output, a: Address)
    requires !Concerns(call, a) && Execute(c, sh, call) == Ok((after, out))
    ensures SameFor(sh.users, after.users, a)
  {
    if IsNftCall(call) {
      hide Execute;
      NftCallSameFor(c, sh, call, after, out, a);
    } else if !IsTransfer(call) {
      hide Execute;
      ContractCallSameFor(c, sh, call, after, out, a);
    } else {
      hide SameFor, MultiSend, NftSend, FungibleSend;
      match call
      case FungibleCall(inp, dst, t, value, extra) => FungibleSendSameFor(c, sh, inp, dst, t, value, extra, after, out, a);
      case NftCall(inp, dst, mv, extra) => NftSendSameFor(c, sh, inp, dst, mv, extra, after, out, a);
      case MultiCall(inp, dst, moves, extra) => MultiSendSameFor(c, sh, inp, dst, moves, extra, after, out, a);
    }
  }

  lemma {:induction false} CreditAllSameFor(c: Config, sh: Shard, env: Envelope, items: seq<Item>, a: Address)
    requires CreditAll(c, sh, env, items).Ok? && a != env.recipient
    ensures SameFor(sh.users, CreditAll(c, sh, env, items).value.users, a)
  {
    hide SameFor, AddToDestination, AddToBalance;
    if items == [] {
      NoChange(sh.users, a);
    } else {
      var last, item := |items| - 1, items[|items| - 1];
      CreditAllSameFor(c, sh, env, items[..last], a);
      var mid := CreditAll(c, sh, env, items[..last]).value;
      var end := CreditOne(c, mid, env, item).value;
      if env.carrier == ByNftTransfer || (env.carrier == ByMultiTransfer && item.nonce > 0) {
        var (credited, merged) := AddToDestination(c, mid, env.caller, env.recipient, ArrivingToken(item), item.token, item.nonce, env.retErr).value;
        CreditSameFor(c, mid, env.caller, env.recipient, ArrivingToken(item), item.token, item.nonce, env.retErr, credited, merged, a);
      } else {
        AddToBalanceSameFor(c, mid, env.recipient, item.token, item.Value(), env.retErr, end, a);
      }
      SameForTrans(sh.users, mid.users, end.users, a);
    }
  }

  // ---- settings outlive all calls but the one that changes them ----

  lemma SameSettingsTrans(a: Sys, b: Sys, d: Sys)
    requires SameSettings(a, b) && SameSettings(b, d)
    ensures SameSettings(a, d)
  {
    hide ValidToken, IsPaused;
  }

  lemma CreditKeepsSettings(c: Config, sh: Shard, snd: Address, dst: Address, tok: Token, t: Bytes, nonce: uint64,
                            retErr: bool, after: Shard, merged: Token)
    requires ValidToken(t) && AddToDestination(c, sh, snd, dst, tok, t, nonce, retErr) == Ok((after, merged))
    ensures SameSettings(sh.sys, after.sys)
  {
    hide SameSettings, SaveToken, AddToLiquidity, ReadToken, ValidToken;
    var saved := SaveToken(c, sh, snd, dst, t, nonce, merged, false, retErr).value;
    SaveTokenKeepsSettings(c, sh, snd, dst, t, nonce, merged, false, retErr, saved);
    if c.shardOf(snd) != c.shardOf(dst) {
      AddToLiquidityKeepsSettings(c, saved.sys, t, nonce, tok.value, after.sys);
      SameSettingsTrans(sh.sys, saved.sys, after.sys);
    }
  }

  lemma SendOneKeepsSettings(c: Config, sh: Shard, snd: Address, dst: Address, mv: Move, retErr: bool, after: Shard, tok: Token)
    requires ValidToken(mv.token) && SendOne(c, sh, snd, dst, mv, retErr) == Ok((after, tok))
    ensures SameSettings(sh.sys, after.sys)
  {
    hide SameSettings, SaveToken, AddToLiquidity, ReadTokenOnSender, AddToDestination, CheckLimitedTransfer, ValidToken;
    var own := ReadTokenOnSender(c, sh, snd, mv.token, mv.nonce).value;
    var (shipped, debited) := DebitForMulti(c, sh, snd, mv, retErr).value;
    SaveTokenKeepsSettings(c, sh, snd, snd, mv.token, mv.nonce, own.(value := own.value - mv.value), false, retErr, debited);
    if ToShard(c, dst) {
      CreditKeepsSettings(c, debited, snd, dst, shipped, mv.token, mv.nonce, retErr, after, tok);
    } else {
      AddToLiquidityKeepsSettings(c, debited.sys, mv.token, mv.nonce, -(mv.value as int), after.sys);
    }
    SameSettingsTrans(sh.sys, debited.sys, after.sys);
  }

  lemma SettingsStay(sys: Sys)
    ensures SameSettings(sys, sys)
  {
  }

  lemma {:induction false} SendAllKeepsSettings(c: Config, sh: Shard, snd: Address, dst: Address, moves: seq<Move>, retErr: bool,
                                                after: Shard, tokens: seq<Token>)
    requires forall i :: 0 <= i < |moves| ==> ValidToken(moves[i].token)
    requires SendAll(c, sh, snd, dst, moves, retErr) == Ok((after, tokens))
    ensures SameSettings(sh.sys, after.sys)
  {
    hide SameSettings, SendOne, ValidToken;
    if moves == [] {
      SettingsStay(sh.sys);
    } else {
      var last := |moves| - 1;
      var (mid, init) := SendAll(c, sh, snd, dst, moves[..last], retErr).value;
      SendAllKeepsSettings(c, sh, snd, dst, moves[..last], retErr, mid, init);
      var (end, tok) := SendOne(c, mid, snd, dst, moves[last], retErr).value;
      SendOneKeepsSettings(c, mid, snd, dst, moves[last], retErr, end, tok);
      SameSettingsTrans(sh.sys, mid.sys, end.sys);
    }
  }

  lemma MultiSendKeepsSettings(c: Config, sh: Shard, inp: Input, dst: Address, moves: seq<Move>, extra: seq<Bytes>, after: Shard, out: Output)
    requires forall i :: 0 <= i < |moves| ==> ValidToken(moves[i].token)
    requires MultiSend(c, sh, inp, dst, moves, extra) == Ok((after, out))
    ensures SameSettings(sh.sys, after.sys)
  {
    hide SameSettings, SendAll, ShipAll, CheckPayable, CheckDestination, Finish, ValidToken;
    var (moved, tokens) := SendAll(c, sh, inp.caller, dst, moves, inp.retErr).value;
    SendAllKeepsSettings(c, sh, inp.caller, dst, moves, inp.retErr, moved, tokens);
    ShipAllKeepsSettings(c, moved.sys, dst, moves, tokens, inp.gasProvided - MultiCost(c, |moves|));
    SameSettingsTrans(sh.sys, moved.sys, after.sys);
  }

  lemma NftSendKeepsSettings(c: Config, sh: Shard, inp: Input, dst: Address, mv: Move, extra: seq<Bytes>, after: Shard, out: Output)
    requires ValidToken(mv.token) && NftSend(c, sh, inp, dst, mv, extra) == Ok((after, out))
    ensures SameSettings(sh.sys, after.sys)
  {
    hide SameSettings, SaveToken, AddToLiquidity, ReadTokenOnSender, AddToDestination, CheckLimitedTransfer, NftShip, Finish, CheckPayable, ValidToken;
    var own := ReadTokenOnSender(c, sh, inp.caller, mv.token, mv.nonce).value;
    var (shipped, debited) := DebitForNft(c, sh, inp.caller, mv, inp.retErr).value;
    SaveTokenKeepsSettings(c, sh, inp.caller, inp.caller, mv.token, mv.nonce, own.(value := own.value - mv.value), false, inp.retErr, debited);
    var (moved, final) := NftMoveOn(c, debited, inp, dst, shipped, mv, extra).value;
    if ToShard(c, dst) {
      CreditKeepsSettings(c, debited, inp.caller, dst, shipped, mv.token, mv.nonce, inp.retErr, moved, final);
    } else {
      AddToLiquidityKeepsSettings(c, debited.sys, mv.token, mv.nonce, -(mv.value as int), moved.sys);
    }
    SameSettingsTrans(sh.sys, debited.sys, moved.sys);
    NftShipKeepsSettings(c, moved.sys, dst, mv, final, inp.gasProvided - c.costs.nftTransfer);
    SameSettingsTrans(sh.sys, moved.sys, after.sys);
  }

  lemma NftCallKeepsSettings(c: Config, sh: Shard, call: Call, after: Shard, out: Output)
    requires IsNftCall(call) && ValidTokens(call) && Execute(c, sh, call) == Ok((after, out))
    ensures SameSettings(sh.sys, after.sys)
  {
    hide SameSettings, SaveToken, AddToLiquidity, ReadTokenOnSender, HasRole, ToNat, TotalLength, ValidToken;
    match call
    case CreateCall(inp, holder, cr) =>
      var nonce := NextNonce(sh, holder, cr.token);
      var meta := MetaData(nonce, cr.name, inp.caller, cr.royalties, cr.hash, cr.attributes, cr.uris);
      var tok := Token(NonFungible, ToNat(cr.quantity), [], Some(meta), []);
      var saved := SaveToken(c, sh, holder, holder, cr.token, nonce, tok, true, inp.retErr).value;
      SaveTokenKeepsSettings(c, sh, holder, holder, cr.token, nonce, tok, true, inp.retErr, saved);
      AddToLiquidityKeepsSettings(c, saved.sys, cr.token, nonce, ToNat(cr.quantity), after.sys);
      SameSettingsTrans(sh.sys, saved.sys, after.sys);
    case AddQuantityCall(inp, t, nonce, quantity) =>
      var own := ReadTokenOnSender(c, sh, inp.caller, t, nonce).value;
      var more := own.(value := own.value + ToNat(quantity));
      var saved := SaveToken(c, sh, inp.caller, inp.caller, t, nonce, more, false, inp.retErr).value;
      SaveTokenKeepsSettings(c, sh, inp.caller, inp.caller, t, nonce, more, false, inp.retErr, saved);
      AddToLiquidityKeepsSettings(c, saved.sys, t, nonce, ToNat(quantity), after.sys);
      SameSettingsTrans(sh.sys, saved.sys, after.sys);
    case BurnCall(inp, t, nonce, value) =>
      var own := ReadTokenOnSender(c, sh, inp.caller, t, nonce).value;
      var less := own.(value := own.value - value);
      var saved := SaveToken(c, sh, inp.caller, inp.caller, t, nonce, less, false, inp.retErr).value;
      SaveTokenKeepsSettings(c, sh, inp.caller, inp.caller, t, nonce, less, false, inp.retErr, saved);
      AddToLiquidityKeepsSettings(c, saved.sys, t, nonce, -(value as int), after.sys);
      SameSettingsTrans(sh.sys, saved.sys, after.sys);
    case UpdateCall(inp, t, nonce, update) =>
      var own := ReadTokenOnSender(c, sh, inp.caller, t, nonce).value;
      SaveTokenKeepsSettings(c, sh, inp.caller, inp.caller, t, nonce, own.(meta := Some(update.Apply(own.meta.value))), true,
                             inp.retErr, after);
  }

  lemma LiquidityKeepsAllSettings(c: Config, sys: Sys, t: Bytes, nonce: uint64, delta: int, after: Sys, key: Bytes)
    requires AddToLiquidity(c, sys, t, nonce, delta) == Ok(after) && IsPaused(sys, key)
    ensures IsPaused(after, key)
  {
  }

  lemma WipeKeepsPaused(c: Config, sh: Shard, a: Address, key: Bytes, after: Shard, t: Bytes)
    requires Wipe(c, sh, a, key) == Ok(after) && IsPaused(sh.sys, t)
    ensures IsPaused(after.sys, t)
  {
    hide AddToLiquidity, ExtractForWipe;
    if c.flags.wipeLiquidity {
      var (identifier, nonce) := ExtractForWipe(key);
      LiquidityKeepsAllSettings(c, sh.sys, identifier, nonce, -ReadRaw(sh.users, a, key).value, after.sys, t);
    }
  }

  lemma BalanceCallKeepsSys(c: Config, sh: Shard, call: Call, after: Shard, out: Output)
    requires call.FungibleCall? || call.MintCall? || call.BurnFungibleCall? || call.FreezeCall? || call.RolesCall?
    requires Execute(c, sh, call) == Ok((after, out))
    ensures after.sys == sh.sys
  {
    hide CheckLimitedTransfer, CheckPayable, IsSCCallAfter, HasRole, SaveRaw, CheckFrozeAndPause, NftSend, MultiSend, Create, AddQuantity;
    hide Burn, UpdateMeta, Wipe;
  }

  /** A paused token is unpaused by the call for this alone; returns of failed calls do not unpause it either. */
  lemma OnlyUnpauseUnpauses(c: Config, sh: Shard, call: Call, after: Shard, out: Output, t: Bytes)
    requires ValidTokens(call) && call != SettingCall(t, PauseSetting, false)
    requires Execute(c, sh, call) == Ok((after, out)) && ValidToken(t) && IsPaused(sh.sys, t)
    ensures IsPaused(after.sys, t)
  {
    if IsNftCall(call) {
      hide Execute, ValidToken;
      NftCallKeepsSettings(c, sh, call, after, out);
    } else {
      hide MultiSend, NftSend, FungibleSend, Wipe, ValidToken, AddToBalance, HasRole, SaveRaw;
      match call
      case NftCall(inp, dst, mv, extra) => NftSendKeepsSettings(c, sh, inp, dst, mv, extra, after, out);
      case MultiCall(inp, dst, moves, extra) => MultiSendKeepsSettings(c, sh, inp, dst, moves, extra, after, out);
      case WipeCall(a, key) => WipeKeepsPaused(c, sh, a, key, after, t);
      case SettingCall(_, _, _) =>
      case _ => BalanceCallKeepsSys(c, sh, call, after, out);
    }
  }

  lemma {:induction false} CreditAllKeepsSettings(c: Config, sh: Shard, env: Envelope, items: seq<Item>)
    requires CreditAll(c, sh, env, items).Ok? && forall i :: 0 <= i < |items| ==> ValidToken(items[i].token)
    ensures SameSettings(sh.sys, CreditAll(c, sh, env, items).value.sys)
  {
    hide SameSettings, CreditOne, ValidToken;
    if items == [] {
      SettingsStay(sh.sys);
    } else {
      var last := |items| - 1;
      CreditAllKeepsSettings(c, sh, env, items[..last]);
      var mid := CreditAll(c, sh, env, items[..last]).value;
      var end := CreditOne(c, mid, env, items[last]).value;
      CreditOneKeepsSettings(c, mid, env, items[last], end);
      SameSettingsTrans(sh.sys, mid.sys, end.sys);
    }
  }

  lemma CreditOneKeepsSettings(c: Config, sh: Shard, env: Envelope, item: Item, after: Shard)
    requires ValidToken(item.token) && CreditOne(c, sh, env, item) == Ok(after)
    ensures SameSettings(sh.sys, after.sys)
  {
    hide SameSettings, AddToDestination, SaveRaw, CheckFrozeAndPause, ValidToken;
    if env.carrier == ByNftTransfer || (env.carrier == ByMultiTransfer && item.nonce > 0) {
      var (end, merged) := AddToDestination(c, sh, env.caller, env.recipient, ArrivingToken(item), item.token, item.nonce, env.retErr).value;
      CreditKeepsSettings(c, sh, env.caller, env.recipient, ArrivingToken(item), item.token, item.nonce, env.retErr, end, merged);
    } else {
      SettingsStay(sh.sys);
    }
  }

  lemma {:induction false} SavedMetaKeepsSettings(c: Config, sys: Sys, env: Envelope, items: seq<Item>, after: Sys)
    requires forall i :: 0 <= i < |items| ==> ValidToken(items[i].token)
    requires SaveMetaOfItems(c, sys, env, items) == Ok(after)
    ensures SameSettings(sys, after)
  {
    if items != [] {
      var item := items[|items| - 1];
      var before := SaveMetaOfItems(c, sys, env, items[..|items| - 1]).value;
      hide ValidToken, SaveMetaOfItem, IsPaused;
      SavedMetaKeepsSettings(c, sys, env, items[..|items| - 1], before);
      SavedMetaOfItemKeepsSettings(c, before, env, item, after);
    }
  }

  lemma SavedMetaOfItemKeepsSettings(c: Config, sys: Sys, env: Envelope, item: Item, after: Sys)
    requires ValidToken(item.token) && SaveMetaOfItem(c, sys, env, item) == Ok(after)
    ensures SameSettings(sys, after)
  {
    if item.nonce > 0 {
      hide ValidToken, IsPaused, SameSettings, NewProperties, NewReserved;
      EntryChangeKeepsSettings(sys, after, item.token, item.nonce);
    }
  }

  lemma SavedMessageKeepsSettings(c: Config, sys: Sys, env: Envelope, after: Sys)
    requires ValidItems(env) && SaveMetaOfMessage(c, sys, env) == Ok(after)
    ensures SameSettings(sys, after)
  {
    hide ValidToken, SaveMetaOfItems;
    if c.flags.saveToSystem && !c.flags.sendAlways && env.carrier != ByTransfer
       && c.shardOf(env.caller) != c.shardOf(env.recipient) && c.self == c.shardOf(env.recipient) {
      SavedMetaKeepsSettings(c, sys, env, env.items, after);
    }
  }

  // ---- steps ----

  /**
   * Steps under which the freeze of one holding in shard `s` must last: only what concerns the account itself matters.
   * No call lifts the freeze, and neither a return call nor a returned message reaches the account.
   */
  predicate LeavesFrozen(c: Config, w: World, act: Action, s: nat, a: Address, k: Bytes) {
    match act
    case Run(r, call) =>
      r == s && s < |w.shards| && Concerns(call, a) ==> ValidTokens(call) && !IsReturn(call) && !Lifts(w.shards[s], call, a, k)
    case Arrive(i, _) =>
      i < |w.net| && c.shardOf(w.net[i].recipient) == s && w.net[i].recipient == a ==> !w.net[i].retErr && ValidItems(w.net[i])
    case HandOver(_, _, _) => true
  }

  /** Steps under which the pause of a token in shard `s` must last, and the balance of one of its holdings. */
  predicate LeavesPaused(c: Config, w: World, act: Action, s: nat, a: Address, t: Bytes, n: nat) {
    match act
    case Run(r, call) =>
      r == s ==>
        && ValidTokens(call) && call != SettingCall(t, PauseSetting, false)
        && (Concerns(call, a) ==> !IsReturn(call) && call != WipeCall(a, TokenKey(t, n)))
    case Arrive(i, _) =>
      i < |w.net| && c.shardOf(w.net[i].recipient) == s ==> ValidItems(w.net[i]) && (w.net[i].recipient == a ==> !w.net[i].retErr)
    case HandOver(_, _, _) => true
  }

  /** Where a message does not arrive, nothing changes. */
  lemma ArrivalElsewhere(c: Config, w: World, i: nat, gas: uint64, after: World, s: nat)
    requires Next(c, w, Arrive(i, gas)) == Some(after) && s < |w.shards|
    ensures i < |w.net| && |after.shards| == |w.shards|
    ensures c.shardOf(w.net[i].recipient) != s ==> after.shards[s] == w.shards[s]
  {
    hide Deliver, SaveMetaOfMessage, IsNext;
  }

  /** Where it arrives, one delivery happens, or its failure leaves all accounts alone. */
  lemma ArrivalHere(c: Config, w: World, i: nat, gas: uint64, after: World, s: nat)
    requires Next(c, w, Arrive(i, gas)) == Some(after) && i < |w.net| && c.shardOf(w.net[i].recipient) == s
    ensures s < |w.shards| == |after.shards|
    ensures match Deliver(At(c, s), w.shards[s], w.net[i], gas)
            case Ok((sh, out)) => after.shards[s] == sh
            case Err(_) => after.shards[s].users == w.shards[s].users
                           && SaveMetaOfMessage(At(c, s), w.shards[s].sys, w.net[i]) == Ok(after.shards[s].sys)
  {
    hide Deliver, SaveMetaOfMessage, IsNext;
  }

  lemma DeliverySameFor(c: Config, sh: Shard, env: Envelope, gas: uint64, a: Address)
    requires Deliver(c, sh, env, gas).Ok? && a != env.recipient
    ensures SameFor(sh.users, Deliver(c, sh, env, gas).value.0.users, a)
  {
    hide CreditAll, CheckPayable, SameFor;
    CreditAllSameFor(c, sh, env, env.items, a);
  }

  lemma DeliveryKeepsSettings(c: Config, sh: Shard, env: Envelope, gas: uint64)
    requires Deliver(c, sh, env, gas).Ok? && ValidItems(env)
    ensures SameSettings(sh.sys, Deliver(c, sh, env, gas).value.0.sys)
  {
    hide CreditAll, CheckPayable, SameSettings, ValidToken;
    CreditAllKeepsSettings(c, sh, env, env.items);
  }

  lemma FrozenArrival(c: Config, w: World, i: nat, gas: uint64, after: World, s: nat, a: Address, k: Bytes)
    requires Next(c, w, Arrive(i, gas)) == Some(after) && s < |w.shards| && a != c.dctSC
    requires LeavesFrozen(c, w, Arrive(i, gas), s, a, k) && IsFrozen(w.shards[s].users, a, k)
    ensures |after.shards| == |w.shards| && IsFrozen(after.shards[s].users, a, k)
    ensures Balance(after.shards[s].users, a, k) == Balance(w.shards[s].users, a, k)
  {
    hide Next, Deliver, SaveMetaOfMessage, Frozen;
    ArrivalElsewhere(c, w, i, gas, after, s);
    var env := w.net[i];
    if c.shardOf(env.recipient) == s {
      ArrivalHere(c, w, i, gas, after, s);
      if Deliver(At(c, s), w.shards[s], env, gas).Ok? {
        if env.recipient == a {
          var (sh, out) := Deliver(At(c, s), w.shards[s], env, gas).value;
          DeliveryRespectsBarrier(At(c, s), w.shards[s], env, gas, sh, out);
        } else {
          DeliverySameFor(At(c, s), w.shards[s], env, gas, a);
        }
      }
    }
  }

  lemma FrozenStep(c: Config, w: World, act: Action, after: World, s: nat, a: Address, k: Bytes)
    requires Next(c, w, act) == Some(after) && s < |w.shards| && a != c.dctSC
    requires LeavesFrozen(c, w, act, s, a, k) && IsFrozen(w.shards[s].users, a, k)
    ensures |after.shards| == |w.shards| && IsFrozen(after.shards[s].users, a, k)
    ensures Balance(after.shards[s].users, a, k) == Balance(w.shards[s].users, a, k)
  {
    match act
    case Run(r, call) =>
      hide Execute, ValidTokens, IsReturn, Lifts, Concerns, Frozen;
      var (sh, out) := Execute(At(c, r), w.shards[r], call).value;
      if r == s {
        if Concerns(call, a) {
          FreezeBarrier(At(c, s), w.shards[s], call, sh, out, a, k);
        } else {
          CallSameFor(At(c, s), w.shards[s], call, sh, out, a);
        }
      }
    case Arrive(i, gas) =>
      hide Next, LeavesFrozen;
      FrozenArrival(c, w, i, gas, after, s, a, k);
    case HandOver(from, to, t) =>
      hide Next;
      HandOverKeepsTokens(c, w, from, to, t, after);
  }

  lemma PausedArrival(c: Config, w: World, i: nat, gas: uint64, after: World, s: nat, a: Address, t: Bytes, n: nat)
    requires Next(c, w, Arrive(i, gas)) == Some(after) && s < |w.shards| && a != c.dctSC && ValidToken(t)
    requires LeavesPaused(c, w, Arrive(i, gas), s, a, t, n) && IsPaused(w.shards[s].sys, t)
    ensures |after.shards| == |w.shards| && IsPaused(after.shards[s].sys, t)
    ensures Balance(after.shards[s].users, a, TokenKey(t, n)) == Balance(w.shards[s].users, a, TokenKey(t, n))
  {
    hide Next, Deliver, SaveMetaOfMessage, TokenKey, ValidToken;
    ArrivalElsewhere(c, w, i, gas, after, s);
    var env := w.net[i];
    if c.shardOf(env.recipient) == s {
      ArrivalHere(c, w, i, gas, after, s);
      if Deliver(At(c, s), w.shards[s], env, gas).Ok? {
        DeliveryKeepsSettings(At(c, s), w.shards[s], env, gas);
        if env.recipient == a {
          var (sh, out) := Deliver(At(c, s), w.shards[s], env, gas).value;
          DeliveryRespectsBarrier(At(c, s), w.shards[s], env, gas, sh, out);
        } else {
          DeliverySameFor(At(c, s), w.shards[s], env, gas, a);
        }
      } else {
        SavedMessageKeepsSettings(At(c, s), w.shards[s].sys, env, after.shards[s].sys);
      }
    }
  }

  lemma PausedStep(c: Config, w: World, act: Action, after: World, s: nat, a: Address, t: Bytes, n: nat)
    requires Next(c, w, act) == Some(after) && s < |w.shards| && a != c.dctSC && ValidToken(t)
    requires LeavesPaused(c, w, act, s, a, t, n) && IsPaused(w.shards[s].sys, t)
    ensures |after.shards| == |w.shards| && IsPaused(after.shards[s].sys, t)
    ensures Balance(after.shards[s].users, a, TokenKey(t, n)) == Balance(w.shards[s].users, a, TokenKey(t, n))
  {
    match act
    case Run(r, call) =>
      hide Execute, ValidTokens, IsReturn, ValidToken, TokenKey, Concerns;
      var (sh, out) := Execute(At(c, r), w.shards[r], call).value;
      if r == s {
        OnlyUnpauseUnpauses(At(c, s), w.shards[s], call, sh, out, t);
        if Concerns(call, a) {
          PauseBarrier(At(c, s), w.shards[s], call, sh, out, a, t, n);
        } else {
          CallSameFor(At(c, s), w.shards[s], call, sh, out, a);
        }
      }
    case Arrive(i, gas) =>
      hide Next, LeavesPaused, ValidToken, TokenKey;
      PausedArrival(c, w, i, gas, after, s, a, t, n);
    case HandOver(from, to, u) =>
      hide Next, ValidToken, TokenKey;
      HandOverKeepsTokens(c, w, from, to, u, after);
  }

  // ---- runs ----

  predicate FrozenRun(c: Config, w: World, acts: seq<Action>, s: nat, a: Address, k: Bytes) {
    acts == [] ||
    var last := |acts| - 1;
    && FrozenRun(c, w, acts[..last], s, a, k)
    && (Reach(c, w, acts[..last]).Some? ==> LeavesFrozen(c, Reach(c, w, acts[..last]).value, acts[last], s, a, k))
  }

  predicate PausedRun(c: Config, w: World, acts: seq<Action>, s: nat, a: Address, t: Bytes, n: nat) {
    acts == [] ||
    var last := |acts| - 1;
    && PausedRun(c, w, acts[..last], s, a, t, n)
    && (Reach(c, w, acts[..last]).Some? ==> LeavesPaused(c, Reach(c, w, acts[..last]).value, acts[last], s, a, t, n))
  }

  /**
   * Over a whole run a frozen holding keeps its amount and its frozen bit, whatever other accounts and shards do, returns
   * and return calls of theirs included.
   */
  lemma {:induction false} FrozenHoldingStays(c: Config, w: World, acts: seq<Action>, after: World, s: nat, a: Address, k: Bytes)
    requires Reach(c, w, acts) == Some(after) && FrozenRun(c, w, acts, s, a, k)
    requires s < |w.shards| && a != c.dctSC && IsFrozen(w.shards[s].users, a, k)
    ensures |after.shards| == |w.shards| && IsFrozen(after.shards[s].users, a, k)
    ensures Balance(after.shards[s].users, a, k) == Balance(w.shards[s].users, a, k)
  {
    hide Next, LeavesFrozen, IsFrozen, Balance;
    if acts != [] {
      var last := |acts| - 1;
      var v := Reach(c, w, acts[..last]).value;
      FrozenHoldingStays(c, w, acts[..last], v, s, a, k);
      FrozenStep(c, v, acts[last], after, s, a, k);
    }
  }

  /** Over a whole run, a token that is paused in a shard stays paused, and none of its balances there moves. */
  lemma {:induction false} PausedBalanceStays(c: Config, w: World, acts: seq<Action>, after: World, s: nat, a: Address, t: Bytes, n: nat)
    requires Reach(c, w, acts) == Some(after) && PausedRun(c, w, acts, s, a, t, n)
    requires s < |w.shards| && a != c.dctSC && ValidToken(t) && IsPaused(w.shards[s].sys, t)
    ensures |after.shards| == |w.shards| && IsPaused(after.shards[s].sys, t)
    ensures Balance(after.shards[s].users, a, TokenKey(t, n)) == Balance(w.shards[s].users, a, TokenKey(t, n))
  {
    hide Next, LeavesPaused, IsPaused, Balance, ValidToken, TokenKey;
    if acts != [] {
      var last := |acts| - 1;
      var v := Reach(c, w, acts[..last]).value;
      PausedBalanceStays(c, w, acts[..last], v, s, a, t, n);
      PausedStep(c, v, acts[last], after, s, a, t, n);
    }
  }
}
