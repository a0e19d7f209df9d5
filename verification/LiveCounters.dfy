/**
 * Liquidity counters are really kept: under the liquidity protocol the entry of an NFT has a live counter in every state
 * of every run, until its metadata is overwritten.
 */
module LiveCounters {
  import opened Bytes
  import opened Keys
  import opened Wrappers
  import opened Ledger
  import opened Operations
  import opened Totals
  import opened World
  import opened Conservation
  import opened Liquidity
  import opened MetadataEffects
  import BarrierRuns

  /** An entry under the key keeps a counter, if there is one. */
  predicate Live(sys: Sys, key: Bytes) {
    key in sys ==> sys[key].Entry? && sys[key].token.reserved != []
  }

  lemma SaveTokenKeepsLive(c: Config, sh: Shard, snd: Address, a: Address, t: Bytes, nonce: uint64, tok: Token,
                           mustUpdate: bool, retErr: bool, after: Shard, key: Bytes)
    requires Liquidity.Active(c) && PlainUsers(sh.users) && Live(sh.sys, key)
    requires mustUpdate && nonce > 0 && key == TokenKey(t, nonce) ==> key !in sh.sys
    requires SaveToken(c, sh, snd, a, t, nonce, tok, mustUpdate, retErr) == Ok(after)
    ensures Live(after.sys, key)
  {
    SaveTokenSaves(c, sh, snd, a, t, nonce, tok, mustUpdate, retErr, after);
    hide SaveToken, TokenKey, NoBits, BitsAre;
    var own := TokenKey(t, nonce);
    if key != own && key in after.sys {
      assert key in after.sys - {own} && key in sh.sys - {own};
      assert (after.sys - {own})[key] == (sh.sys - {own})[key];
    }
  }

  lemma LiquidityKeepsLive(c: Config, sys: Sys, t: Bytes, nonce: uint64, delta: int, after: Sys, key: Bytes)
    requires Live(sys, key) && AddToLiquidity(c, sys, t, nonce, delta) == Ok(after)
    requires nonce > 0 && key == TokenKey(t, nonce) && key in sys ==> !IsOldTokenBranch(c, sys[key].token, delta)
    ensures Live(after, key)
  {
    hide TokenKey;
  }

  // ---- transfers ----

  lemma CreditKeepsLive(c: Config, sh: Shard, snd: Address, dst: Address, tok: Token, t: Bytes, nonce: uint64,
                        retErr: bool, after: Shard, merged: Token, key: Bytes)
    requires Liquidity.Active(c) && PlainUsers(sh.users) && Live(sh.sys, key) && tok.value >= 0
    requires AddToDestination(c, sh, snd, dst, tok, t, nonce, retErr) == Ok((after, merged))
    ensures Live(after.sys, key)
  {
    hide SaveToken, AddToLiquidity, ReadToken, TokenKey, PlainUsers, Live;
    var saved := SaveToken(c, sh, snd, dst, t, nonce, merged, false, retErr).value;
    SaveTokenKeepsLive(c, sh, snd, dst, t, nonce, merged, false, retErr, saved, key);
    if c.shardOf(snd) != c.shardOf(dst) {
      LiquidityKeepsLive(c, saved.sys, t, nonce, tok.value, after.sys, key);
    }
  }

  lemma DebitKeepsLive(c: Config, sh: Shard, snd: Address, mv: Move, retErr: bool, shipped: Token, debited: Shard, key: Bytes)
    requires Liquidity.Active(c) && Agrees(sh) && Live(sh.sys, key) && IsDebit(c, sh, snd, mv, retErr, shipped, debited)
    ensures Live(debited.sys, key) && PlainUsers(debited.users)
  {
    hide SaveToken, ReadToken, TokenKey, HoldersHaveEntry, CountsUpTo;
    var own := shipped.(value := Balance(sh.users, snd, TokenKey(mv.token, mv.nonce)));
    SaveTokenKeepsLive(c, sh, snd, snd, mv.token, mv.nonce, own.(value := own.value - mv.value), false, retErr, debited, key);
    KeepsPlain(c, sh, snd, snd, mv.token, mv.nonce, own.(value := own.value - mv.value), false, retErr, debited);
  }

  /** What leaves a shard never retires a counter: it was at least as large as what leaves. */
  lemma DepartureKeepsLive(c: Config, sh: Shard, snd: Address, mv: Move, retErr: bool, shipped: Token, debited: Shard,
                           after: Sys, key: Bytes)
    requires Liquidity.Active(c) && Agrees(sh) && ValidToken(mv.token) && Live(sh.sys, key)
    requires IsDebit(c, sh, snd, mv, retErr, shipped, debited)
    requires AddToLiquidity(c, debited.sys, mv.token, mv.nonce, -(mv.value as int)) == Ok(after)
    ensures Live(after, key)
  {
    DebitKeepsLive(c, sh, snd, mv, retErr, shipped, debited, key);
    if mv.nonce > 0 && mv.value > 0 {
      DebitNeverMeetsDeadBranches(c, sh, snd, mv, retErr, shipped, debited);
    }
    hide Agrees, IsDebit, TokenKey, ValidToken;
    if mv.nonce > 0 {
      LiquidityKeepsLive(c, debited.sys, mv.token, mv.nonce, -(mv.value as int), after, key);
    }
  }

  lemma SendOneKeepsLive(c: Config, sh: Shard, snd: Address, dst: Address, mv: Move, retErr: bool, after: Shard, tok: Token, key: Bytes)
    requires Liquidity.Active(c) && Agrees(sh) && ValidToken(mv.token) && Live(sh.sys, key)
    requires SendOne(c, sh, snd, dst, mv, retErr) == Ok((after, tok))
    ensures Live(after.sys, key)
  {
    var (shipped, debited) := DebitForMulti(c, sh, snd, mv, retErr).value;
    MultiDebit(c, sh, snd, mv, retErr, shipped, debited);
    hide DebitForMulti, Agrees, IsDebit, AddToLiquidity, AddToDestination, CheckLimitedTransfer, ValidToken, Live, PlainUsers;
    SentAmount(c, sh, snd, mv, retErr, shipped, debited);
    DebitKeepsLive(c, sh, snd, mv, retErr, shipped, debited, key);
    if ToShard(c, dst) {
      CreditKeepsLive(c, debited, snd, dst, shipped, mv.token, mv.nonce, retErr, after, tok, key);
    } else {
      DepartureKeepsLive(c, sh, snd, mv, retErr, shipped, debited, after.sys, key);
    }
  }

  lemma SentAmount(c: Config, sh: Shard, snd: Address, mv: Move, retErr: bool, shipped: Token, debited: Shard)
    requires IsDebit(c, sh, snd, mv, retErr, shipped, debited)
    ensures shipped.value == mv.value >= 0
  {
    hide SaveToken, ReadToken;
  }

  lemma {:induction false} SendAllKeepsLive(c: Config, sh: Shard, snd: Address, dst: Address, moves: seq<Move>, retErr: bool,
                                            after: Shard, tokens: seq<Token>, key: Bytes)
    requires Liquidity.Active(c) && Agrees(sh) && c.shardOf(snd) == c.self && Live(sh.sys, key)
    requires forall i :: 0 <= i < |moves| ==> ValidToken(moves[i].token)
    requires SendAll(c, sh, snd, dst, moves, retErr) == Ok((after, tokens))
    ensures Live(after.sys, key)
  {
    hide SendOne, Agrees, ValidToken, Live;
    if moves != [] {
      var last := |moves| - 1;
      var (mid, init) := SendAll(c, sh, snd, dst, moves[..last], retErr).value;
      SendAllKeepsLive(c, sh, snd, dst, moves[..last], retErr, mid, init, key);
      SendAllAgrees(c, sh, snd, dst, moves[..last], retErr, mid, init);
      var (end, tok) := SendOne(c, mid, snd, dst, moves[last], retErr).value;
      SendOneKeepsLive(c, mid, snd, dst, moves[last], retErr, end, tok, key);
    }
  }

  lemma MultiSendKeepsLive(c: Config, sh: Shard, inp: Input, dst: Address, moves: seq<Move>, extra: seq<Bytes>,
                           after: Shard, out: Output, key: Bytes)
    requires Liquidity.Active(c) && Agrees(sh) && c.shardOf(inp.caller) == c.self && Live(sh.sys, key)
    requires forall i :: 0 <= i < |moves| ==> ValidToken(moves[i].token)
    requires MultiSend(c, sh, inp, dst, moves, extra) == Ok((after, out))
    ensures Live(after.sys, key)
  {
    hide SendAll, ShipAll, CheckPayable, CheckDestination, Finish, Agrees, ValidToken, Live;
    var (moved, tokens) := SendAll(c, sh, inp.caller, dst, moves, inp.retErr).value;
    SendAllKeepsLive(c, sh, inp.caller, dst, moves, inp.retErr, moved, tokens, key);
    SendAllAgrees(c, sh, inp.caller, dst, moves, inp.retErr, moved, tokens);
    NonNegativeUsers(sh);
    DestinationIsOther(c, inp, dst);
    MultiTransferIsAFold(c, sh, inp.caller, dst, moves, inp.retErr, moved, tokens);
    ShipAllLiquidity(c, moved.sys, dst, moves, tokens, inp.gasProvided - MultiCost(c, |moves|));
  }

  lemma DestinationIsOther(c: Config, inp: Input, dst: Address)
    ensures CheckDestination(c, inp, dst).Pass? ==> dst != inp.caller
  {
  }

  lemma NftSendKeepsLive(c: Config, sh: Shard, inp: Input, dst: Address, mv: Move, extra: seq<Bytes>, after: Shard, out: Output, key: Bytes)
    requires Liquidity.Active(c) && Agrees(sh) && ValidToken(mv.token) && Live(sh.sys, key)
    requires NftSend(c, sh, inp, dst, mv, extra) == Ok((after, out))
    ensures Live(after.sys, key)
  {
    var (shipped, debited) := DebitForNft(c, sh, inp.caller, mv, inp.retErr).value;
    NftDebit(c, sh, inp.caller, mv, inp.retErr, shipped, debited);
    hide DebitForNft, Agrees, IsDebit, AddToLiquidity, AddToDestination, CheckLimitedTransfer, CheckPayable, Finish, CopyCost;
    hide ValidToken, Live, PlainUsers;
    SentAmount(c, sh, inp.caller, mv, inp.retErr, shipped, debited);
    DebitKeepsLive(c, sh, inp.caller, mv, inp.retErr, shipped, debited, key);
    var (moved, final) := NftMoveOn(c, debited, inp, dst, shipped, mv, extra).value;
    if ToShard(c, dst) {
      CreditKeepsLive(c, debited, inp.caller, dst, shipped, mv.token, mv.nonce, inp.retErr, moved, final, key);
    } else {
      DepartureKeepsLive(c, sh, inp.caller, mv, inp.retErr, shipped, debited, moved.sys, key);
    }
  }

  // ---- other calls ----

  /** Calls that overwrite the metadata of the key: updates of it, and a creation on top of it. */
  predicate Overwrites(sh: Shard, call: Call, key: Bytes) {
    || (call.UpdateCall? && key == TokenKey(call.t, call.nonce))
    || (call.CreateCall? && key in sh.sys && key == TokenKey(call.cr.token, NextNonce(sh, call.holder, call.cr.token)))
  }

  lemma CreateKeepsLive(c: Config, sh: Shard, inp: Input, holder: Address, cr: Creation, after: Shard, out: Output, key: Bytes)
    requires Liquidity.Active(c) && Agrees(sh) && Live(sh.sys, key) && Create(c, sh, inp, holder, cr) == Ok((after, out))
    requires !Overwrites(sh, CreateCall(inp, holder, cr), key)
    ensures Live(after.sys, key)
  {
    hide SaveToken, AddToLiquidity, HasRole, ToNat, TokenKey, Live, HoldersHaveEntry, CountsUpTo, PlainUsers;
    var nonce := NextNonce(sh, holder, cr.token);
    var meta := MetaData(nonce, cr.name, inp.caller, cr.royalties, cr.hash, cr.attributes, cr.uris);
    var tok := Token(NonFungible, ToNat(cr.quantity), [], Some(meta), []);
    var saved := SaveToken(c, sh, holder, holder, cr.token, nonce, tok, true, inp.retErr).value;
    SaveTokenKeepsLive(c, sh, holder, holder, cr.token, nonce, tok, true, inp.retErr, saved, key);
    LiquidityKeepsLive(c, saved.sys, cr.token, nonce, ToNat(cr.quantity), after.sys, key);
  }

  lemma AddQuantityKeepsLive(c: Config, sh: Shard, inp: Input, t: Bytes, nonce: uint64, quantity: Bytes, after: Shard, out: Output, key: Bytes)
    requires Liquidity.Active(c) && Agrees(sh) && Live(sh.sys, key) && AddQuantity(c, sh, inp, t, nonce, quantity) == Ok((after, out))
    ensures Live(after.sys, key)
  {
    hide SaveToken, AddToLiquidity, HasRole, ToNat, TokenKey, Live, HoldersHaveEntry, CountsUpTo, PlainUsers, ReadTokenOnSender;
    var tok := ReadTokenOnSender(c, sh, inp.caller, t, nonce).value;
    var more := tok.(value := tok.value + ToNat(quantity));
    var saved := SaveToken(c, sh, inp.caller, inp.caller, t, nonce, more, false, inp.retErr).value;
    SaveTokenKeepsLive(c, sh, inp.caller, inp.caller, t, nonce, more, false, inp.retErr, saved, key);
    LiquidityKeepsLive(c, saved.sys, t, nonce, ToNat(quantity), after.sys, key);
  }

  lemma BurnKeepsLive(c: Config, sh: Shard, inp: Input, t: Bytes, nonce: uint64, value: nat, after: Shard, out: Output, key: Bytes)
    requires Liquidity.Active(c) && Agrees(sh) && ValidToken(t) && Live(sh.sys, key) && Burn(c, sh, inp, t, nonce, value) == Ok((after, out))
    ensures Live(after.sys, key)
  {
    hide SaveToken, AddToLiquidity, HasRole, TokenKey, Live, Agrees, ValidToken, ReadToken;
    ReadTokenValue(c, sh, inp.caller, t, nonce);
    var own := ReadTokenOnSender(c, sh, inp.caller, t, nonce).value;
    var saved := SaveToken(c, sh, inp.caller, inp.caller, t, nonce, own.(value := own.value - value), false, inp.retErr).value;
    var mv := Move(t, nonce, value);
    assert IsDebit(c, sh, inp.caller, mv, inp.retErr, own.(value := value), saved);
    DepartureKeepsLive(c, sh, inp.caller, mv, inp.retErr, own.(value := value), saved, after.sys, key);
  }

  lemma UpdateKeepsLive(c: Config, sh: Shard, inp: Input, t: Bytes, nonce: uint64, update: Update, after: Shard, out: Output, key: Bytes)
    requires Liquidity.Active(c) && Agrees(sh) && Live(sh.sys, key) && UpdateMeta(c, sh, inp, t, nonce, update) == Ok((after, out))
    requires key != TokenKey(t, nonce)
    ensures Live(after.sys, key)
  {
    hide SaveToken, HasRole, TokenKey, Live, HoldersHaveEntry, CountsUpTo, PlainUsers, ReadTokenOnSender, TotalLength;
    var own := ReadTokenOnSender(c, sh, inp.caller, t, nonce).value;
    SaveTokenKeepsLive(c, sh, inp.caller, inp.caller, t, nonce, own.(meta := Some(update.Apply(own.meta.value))), true, inp.retErr, after, key);
  }

  lemma WipeKeepsLive(c: Config, sh: Shard, a: Address, arg: Bytes, after: Shard, key: Bytes)
    requires Liquidity.Active(c) && Agrees(sh) && Live(sh.sys, key) && Wipeable(arg) && Wipe(c, sh, a, arg) == Ok(after)
    ensures Live(after.sys, key)
  {
    hide Agrees, Live, Wipe, ValidToken, TokenKey, FromNat;
    var t: Bytes, n: uint64 :| ValidToken(t) && DASH !in FromNat(n) && arg == TokenKey(t, n);
    DashFreeWipeKeepsLive(c, sh, a, t, n, after, key);
  }

  lemma DashFreeWipeKeepsLive(c: Config, sh: Shard, a: Address, t: Bytes, n: uint64, after: Shard, key: Bytes)
    requires Liquidity.Active(c) && Agrees(sh) && Live(sh.sys, key) && ValidToken(t) && DASH !in FromNat(n)
    requires Wipe(c, sh, a, TokenKey(t, n)) == Ok(after)
    ensures Live(after.sys, key)
  {
    hide AddToLiquidity, TokenKey, ValidToken, Agrees, ExtractForWipe, FromNat, Live, NonNegative;
    WipeSplitIsExact(t, n);
    var balance := Balance(sh.users, a, TokenKey(t, n));
    NonNegativeUsers(sh);
    NonNegativeBalance(sh.users, a, TokenKey(t, n));
    if n > 0 && balance > 0 {
      CounterIsLarger(c, sh, a, t, n, balance, key);
    }
    LiquidityKeepsLive(c, sh.sys, t, n, -balance, after.sys, key);
  }

  lemma CounterIsLarger(c: Config, sh: Shard, a: Address, t: Bytes, n: uint64, balance: nat, key: Bytes)
    requires Liquidity.Active(c) && Agrees(sh) && ValidToken(t) && n > 0 && Live(sh.sys, key)
    requires 0 < balance <= Balance(sh.users, a, TokenKey(t, n))
    ensures key == TokenKey(t, n) && key in sh.sys ==> !IsOldTokenBranch(c, sh.sys[key].token, -(balance as int))
  {
    hide AddToLiquidity, TokenKey, ValidToken, Agrees;
    CounterCoversBalance(c, sh, a, t, n, balance);
  }

  lemma NftCallKeepsLive(c: Config, sh: Shard, call: Call, after: Shard, out: Output, key: Bytes)
    requires Liquidity.Active(c) && Agrees(sh) && ValidTokens(call) && IsNftCall(call) && !Overwrites(sh, call, key)
    requires Live(sh.sys, key) && Execute(c, sh, call) == Ok((after, out))
    ensures Live(after.sys, key)
  {
    hide Create, AddQuantity, Burn, UpdateMeta, Agrees, ValidToken, Live, TokenKey;
    match call
    case CreateCall(inp, holder, cr) => CreateKeepsLive(c, sh, inp, holder, cr, after, out, key);
    case AddQuantityCall(inp, t, nonce, quantity) => AddQuantityKeepsLive(c, sh, inp, t, nonce, quantity, after, out, key);
    case BurnCall(inp, t, nonce, value) => BurnKeepsLive(c, sh, inp, t, nonce, value, after, out, key);
    case UpdateCall(inp, t, nonce, update) => UpdateKeepsLive(c, sh, inp, t, nonce, update, after, out, key);
  }

  lemma CallKeepsLive(c: Config, sh: Shard, call: Call, after: Shard, out: Output, key: Bytes)
    requires Liquidity.Active(c) && Agrees(sh) && RunsIn(c, call, c.self) && Liquidity.Allowed(sh, call) && !Overwrites(sh, call, key)
    requires IsNftKey(key) && Live(sh.sys, key) && Execute(c, sh, call) == Ok((after, out))
    ensures Live(after.sys, key)
  {
    if IsNftCall(call) {
      hide Execute, Agrees, IsNftKey, Live;
      NftCallKeepsLive(c, sh, call, after, out, key);
    } else {
      hide MultiSend, NftSend, FungibleSend, Wipe, AddToBalance, HasRole, SaveRaw, Agrees, IsNftKey, ValidToken, Wipeable;
      match call
      case NftCall(inp, dst, mv, extra) => NftSendKeepsLive(c, sh, inp, dst, mv, extra, after, out, key);
      case MultiCall(inp, dst, moves, extra) => MultiSendKeepsLive(c, sh, inp, dst, moves, extra, after, out, key);
      case WipeCall(a, arg) => WipeKeepsLive(c, sh, a, arg, after, key);
      case SettingCall(t, _, _) => FungibleKeyIsNotNftKey(t);
      case _ => BarrierRuns.BalanceCallKeepsSys(c, sh, call, after, out);
    }
  }

  // ---- deliveries ----

  lemma CreditOneKeepsLive(c: Config, sh: Shard, env: Envelope, item: Item, after: Shard, key: Bytes)
    requires Liquidity.Active(c) && Agrees(sh) && Live(sh.sys, key) && item.Value() >= 0 && CreditOne(c, sh, env, item) == Ok(after)
    ensures Live(after.sys, key)
  {
    hide AddToDestination, SaveRaw, CheckFrozeAndPause, HoldersHaveEntry, CountsUpTo, PlainUsers, Live;
    if env.carrier == ByNftTransfer || (env.carrier == ByMultiTransfer && item.nonce > 0) {
      var (end, merged) := AddToDestination(c, sh, env.caller, env.recipient, ArrivingToken(item), item.token, item.nonce, env.retErr).value;
      CreditKeepsLive(c, sh, env.caller, env.recipient, ArrivingToken(item), item.token, item.nonce, env.retErr, end, merged, key);
    }
  }

  lemma {:induction false} CreditAllKeepsLive(c: Config, sh: Shard, env: Envelope, items: seq<Item>, key: Bytes)
    requires Liquidity.Active(c) && Agrees(sh) && c.shardOf(env.caller) != c.shardOf(env.recipient) && Live(sh.sys, key)
    requires forall i :: 0 <= i < |items| ==> Liquidity.GoodItem(items[i])
    requires env.carrier == ByNftTransfer ==> forall i :: 0 <= i < |items| ==> items[i].nonce > 0
    requires env.carrier == ByTransfer ==> FungibleItems(items)
    requires CreditAll(c, sh, env, items).Ok?
    ensures Live(CreditAll(c, sh, env, items).value.sys, key)
  {
    hide CreditOne, Agrees, Live;
    if items != [] {
      var last := |items| - 1;
      CreditAllKeepsLive(c, sh, env, items[..last], key);
      CreditAllAgrees(c, sh, env, items[..last]);
      var mid := CreditAll(c, sh, env, items[..last]).value;
      assert Liquidity.GoodItem(items[last]);
      CreditOneKeepsLive(c, mid, env, items[last], CreditOne(c, mid, env, items[last]).value, key);
    }
  }

  lemma ArrivalKeepsLive(c: Config, w: World, i: nat, gas: uint64, after: World, s: nat, key: Bytes)
    requires Liquidity.Active(c) && WorldAgrees(c, w) && Next(c, w, Arrive(i, gas)) == Some(after)
    requires s < |w.shards| && Live(w.shards[s].sys, key)
    ensures |after.shards| == |w.shards| && Live(after.shards[s].sys, key)
  {
    hide CreditAll, CheckPayable, Agrees, IsNext, Live;
    var env := w.net[i];
    assert GoodEnvelope(c, env);
    if c.shardOf(env.recipient) == s && Deliver(At(c, s), w.shards[s], env, gas).Ok? {
      CreditAllKeepsLive(At(c, s), w.shards[s], env, env.items, key);
    }
  }

  // ---- whole runs ----

  predicate LeavesMetadata(w: World, act: Action, s: nat, key: Bytes) {
    act.Run? && act.shard == s && s < |w.shards| ==> !Overwrites(w.shards[s], act.call, key)
  }

  predicate LiveRun(c: Config, w: World, acts: seq<Action>, s: nat, key: Bytes) {
    acts == [] ||
    var last := |acts| - 1;
    && LiveRun(c, w, acts[..last], s, key)
    && (Reach(c, w, acts[..last]).Some? ==> LeavesMetadata(Reach(c, w, acts[..last]).value, acts[last], s, key))
  }

  lemma StepKeepsLive(c: Config, w: World, act: Action, after: World, s: nat, key: Bytes)
    requires Liquidity.Active(c) && WorldAgrees(c, w) && AllowedAction(w, act) && Next(c, w, act) == Some(after)
    requires s < |w.shards| && LeavesMetadata(w, act, s, key) && IsNftKey(key) && Live(w.shards[s].sys, key)
    ensures |after.shards| == |w.shards| && Live(after.shards[s].sys, key)
  {
    match act
    case Run(r, call) =>
      hide Execute, Agrees, IsNftKey, Live, Overwrites, Liquidity.Allowed, GoodNet;
      var (sh, out) := Execute(At(c, r), w.shards[r], call).value;
      if r == s {
        assert RunsIn(At(c, s), call, s);
        CallKeepsLive(At(c, s), w.shards[s], call, sh, out, key);
      }
    case Arrive(i, gas) =>
      hide Next, WorldAgrees, IsNftKey;
      ArrivalKeepsLive(c, w, i, gas, after, s, key);
    case HandOver(from, to, t) =>
      hide Next;
      HandOverKeepsTokens(c, w, from, to, t, after);
  }

  lemma {:induction false} RunKeepsLive(c: Config, w: World, acts: seq<Action>, after: World, s: nat, key: Bytes)
    requires Liquidity.Active(c) && WorldAgrees(c, w) && AllowedRun(c, w, acts) && Reach(c, w, acts) == Some(after)
    requires s < |w.shards| && LiveRun(c, w, acts, s, key) && IsNftKey(key) && Live(w.shards[s].sys, key)
    ensures |after.shards| == |w.shards| && Live(after.shards[s].sys, key)
  {
    hide Next, WorldAgrees, AllowedAction, LeavesMetadata, IsNftKey, Live;
    if acts != [] {
      var last := |acts| - 1;
      var v := Reach(c, w, acts[..last]).value;
      RunKeepsLive(c, w, acts[..last], v, s, key);
      RunAgrees(c, w, acts[..last], v);
      StepKeepsLive(c, v, acts[last], after, s, key);
    }
  }

  /** From genesis every entry of an NFT keeps a live counter of its shard's balances until its metadata is overwritten. */
  lemma CountersAreKept(c: Config, w: World, acts: seq<Action>, after: World, s: nat, key: Bytes)
    requires Liquidity.Active(c) && Genesis(w) && AllowedRun(c, w, acts) && Reach(c, w, acts) == Some(after)
    requires s < |w.shards| && LiveRun(c, w, acts, s, key) && IsNftKey(key)
    ensures |after.shards| == |w.shards|
    ensures key in after.shards[s].sys ==> CounterIs(after.shards[s].sys, key, Total(after.shards[s].users, key))
    ensures Total(after.shards[s].users, key) > 0 ==> key in after.shards[s].sys
  {
    GenesisAgrees(c, w);
    RunKeepsLive(c, w, acts, after, s, key);
    RunAgrees(c, w, acts, after);
    hide Reach, AllowedRun, LiveRun, Genesis, IsNftKey;
    assert Agrees(after.shards[s]);
    if key !in after.shards[s].sys {
      NoEntryNoBalance(after.shards[s].users, after.shards[s].sys, key);
    }
  }
}
