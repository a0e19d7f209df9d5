/**
 * Messages that return: under the liquidity protocol a message marked as the return of a failed call is always credited,
 * whatever was frozen, paused or limited meanwhile. So what a failed delivery sends back reaches its sender.
 */
module Returns {
  import opened Bytes
  import opened Keys
  import opened Wrappers
  import opened Ledger
  import opened Operations
  import opened World
  import opened Conservation
  import opened Liquidity
  import opened TransferEffects
  import Acceptance
  import MetadataEffects
  import TransferParser

  /** Under the identifier of a token lie only fungible balances. */
  ghost predicate FungibleKinds(users: Users) {
    forall x :: x in users && ValidToken(x.1) ==> users[x].kind == Fungible
  }

  /** A message moves something, and a positive amount of each token. */
  predicate Positive(env: Envelope) {
    env.items != [] && forall i :: 0 <= i < |env.items| ==> env.items[i].Value() > 0
  }

  // ---- one delivery ----

  lemma NftCreditSucceeds(c: Config, sh: Shard, snd: Address, dst: Address, tok: Token, t: Bytes, nonce: uint64)
    requires Active(c) && Agrees(sh) && ValidToken(t) && nonce > 0 && tok.value > 0 && tok.meta.Some?
    ensures AddToDestination(c, sh, snd, dst, tok, t, nonce, true).Ok?
  {
    hide AddToLiquidity, SaveToken, TokenKey, ValidToken, PlainUsers, HoldersHaveEntry;
    var key := TokenKey(t, nonce);
    NftKeyIntro(t, nonce);
    ReadTokenValue(c, sh, dst, t, nonce);
    var merged := tok.(value := tok.value + Balance(sh.users, dst, key));
    Acceptance.WritesExactly(c, sh, snd, dst, t, nonce, merged, false, true);
    var saved := SaveToken(c, sh, snd, dst, t, nonce, merged, false, true).value;
    CreditNeverMeetsDeadBranches(c, sh, snd, dst, tok, t, nonce, true, saved);
    hide IsNftKey;
  }

  lemma CreditOneSucceeds(c: Config, sh: Shard, env: Envelope, item: Item)
    requires Active(c) && Agrees(sh) && FungibleKinds(sh.users) && GoodItem(item) && item.Value() > 0 && env.retErr
    requires env.carrier == ByNftTransfer ==> item.nonce > 0
    ensures CreditOne(c, sh, env, item).Ok?
  {
    hide AddToDestination, AddToBalance, ValidToken, HoldersHaveEntry, CountsUpTo;
    if env.carrier == ByNftTransfer || (env.carrier == ByMultiTransfer && item.nonce > 0) {
      hide Agrees;
      NftCreditSucceeds(c, sh, env.caller, env.recipient, ArrivingToken(item), item.token, item.nonce);
    } else {
      NonNegativeUsers(sh);
      NonNegativeBalance(sh.users, env.recipient, item.token);
      Acceptance.BalanceChangesExactly(c, sh, env.recipient, item.token, item.Value(), true);
    }
  }

  lemma {:induction false} CreditAllSucceeds(c: Config, sh: Shard, env: Envelope, items: seq<Item>)
    requires Active(c) && Agrees(sh) && FungibleKinds(sh.users) && env.retErr && c.shardOf(env.caller) != c.shardOf(env.recipient)
    requires forall i :: 0 <= i < |items| ==> GoodItem(items[i]) && items[i].Value() > 0
    requires env.carrier == ByNftTransfer ==> forall i :: 0 <= i < |items| ==> items[i].nonce > 0
    ensures CreditAll(c, sh, env, items).Ok?
  {
    hide Agrees, FungibleKinds, CreditOne, ValidToken;
    assert forall i :: 0 <= i < |items| ==> ValidToken(items[i].token);
    hide GoodItem;
    if items != [] {
      var last := |items| - 1;
      CreditAllSucceeds(c, sh, env, items[..last]);
      CreditAllAgrees(c, sh, env, items[..last]);
      CreditsKeepKinds(c, sh, env, items[..last]);
      CreditOneSucceeds(c, CreditAll(c, sh, env, items[..last]).value, env, items[last]);
    }
  }

  /** A return is credited: nothing that may have changed since its tokens left can stop it. */
  lemma ReturnIsCredited(c: Config, sh: Shard, env: Envelope, gas: uint64)
    requires Active(c) && c.flags.fixAsyncCallback && Agrees(sh) && FungibleKinds(sh.users)
    requires env.retErr && GoodEnvelope(c, env) && Positive(env)
    requires env.carrier == ByTransfer && c.shardOf(env.recipient) == METACHAIN ==> c.flags.transferToMeta
    ensures Deliver(c, sh, env, gas).Ok?
  {
    hide CreditAll, CheckPayable, Agrees, FungibleKinds, DeliveryGas;
    CreditAllSucceeds(c, sh, env, env.items);
    PayableExactly(c, Input(env.caller, gas, env.callType, env.retErr), env.recipient, env.extra);
  }

  // ---- identifiers keep fungible balances ----

  lemma SaveTokenKeepsKinds(c: Config, sh: Shard, snd: Address, a: Address, t: Bytes, nonce: uint64, tok: Token,
                            mustUpdate: bool, retErr: bool, after: Shard)
    requires ValidToken(t) && FungibleKinds(sh.users) && (nonce == 0 ==> tok.kind == Fungible)
    requires SaveToken(c, sh, snd, a, t, nonce, tok, mustUpdate, retErr) == Ok(after)
    ensures FungibleKinds(after.users)
  {
    if nonce > 0 && ValidToken(TokenKey(t, nonce)) {
      NftKeyIntro(t, nonce);
      FungibleKeyIsNotNftKey(TokenKey(t, nonce));
    }
    hide TokenKey, SaveMeta, CheckFrozenPauseProperties, ValidToken, IsNftKey;
  }

  lemma CreditKeepsKinds(c: Config, sh: Shard, snd: Address, dst: Address, tok: Token, t: Bytes, nonce: uint64,
                         retErr: bool, after: Shard, merged: Token)
    requires ValidToken(t) && FungibleKinds(sh.users) && (nonce == 0 ==> tok.kind == Fungible)
    requires AddToDestination(c, sh, snd, dst, tok, t, nonce, retErr) == Ok((after, merged))
    ensures FungibleKinds(after.users)
  {
    hide FungibleKinds, SaveToken, AddToLiquidity, ReadToken, ValidToken;
    var saved := AddToDestinationWrite(c, sh, snd, dst, tok, t, nonce, retErr, after, merged);
    SaveTokenKeepsKinds(c, sh, snd, dst, t, nonce, merged, false, retErr, saved);
  }

  lemma AddToBalanceKeepsKinds(c: Config, sh: Shard, a: Address, t: Bytes, delta: int, retErr: bool, after: Shard)
    requires FungibleKinds(sh.users) && AddToBalance(c, sh, a, t, delta, retErr) == Ok(after)
    ensures FungibleKinds(after.users)
  {
    hide ValidToken, CheckFrozeAndPause, AreZero;
  }

  lemma OwnKind(c: Config, sh: Shard, a: Address, t: Bytes, nonce: uint64, own: Token)
    requires ValidToken(t) && FungibleKinds(sh.users) && ReadTokenOnSender(c, sh, a, t, nonce) == Ok(own)
    ensures nonce == 0 ==> own.kind == Fungible
  {
    FungibleKeyIsNotNftKey(t);
  }

  lemma SendOneKeepsKinds(c: Config, sh: Shard, snd: Address, dst: Address, mv: Move, retErr: bool, after: Shard, tok: Token)
    requires ValidToken(mv.token) && FungibleKinds(sh.users) && SendOne(c, sh, snd, dst, mv, retErr) == Ok((after, tok))
    ensures FungibleKinds(after.users)
  {
    hide FungibleKinds, SaveToken, AddToLiquidity, ReadTokenOnSender, AddToDestination, CheckLimitedTransfer, ValidToken;
    var own := ReadTokenOnSender(c, sh, snd, mv.token, mv.nonce).value;
    var (shipped, debited) := DebitForMulti(c, sh, snd, mv, retErr).value;
    OwnKind(c, sh, snd, mv.token, mv.nonce, own);
    SaveTokenKeepsKinds(c, sh, snd, snd, mv.token, mv.nonce, own.(value := own.value - mv.value), false, retErr, debited);
    if ToShard(c, dst) {
      CreditKeepsKinds(c, debited, snd, dst, shipped, mv.token, mv.nonce, retErr, after, tok);
    }
  }

  lemma {:induction false} SendAllKeepsKinds(c: Config, sh: Shard, snd: Address, dst: Address, moves: seq<Move>,
                                             retErr: bool, after: Shard, tokens: seq<Token>)
    requires forall i :: 0 <= i < |moves| ==> ValidToken(moves[i].token)
    requires FungibleKinds(sh.users) && SendAll(c, sh, snd, dst, moves, retErr) == Ok((after, tokens))
    ensures FungibleKinds(after.users)
  {
    hide FungibleKinds, SendOne, ValidToken;
    if moves != [] {
      var last := |moves| - 1;
      var (mid, init) := SendAll(c, sh, snd, dst, moves[..last], retErr).value;
      SendAllKeepsKinds(c, sh, snd, dst, moves[..last], retErr, mid, init);
      var (end, tok) := SendOne(c, mid, snd, dst, moves[last], retErr).value;
      SendOneKeepsKinds(c, mid, snd, dst, moves[last], retErr, end, tok);
    }
  }

  lemma MultiSendKeepsKinds(c: Config, sh: Shard, inp: Input, dst: Address, moves: seq<Move>, extra: seq<Bytes>, after: Shard, out: Output)
    requires forall i :: 0 <= i < |moves| ==> ValidToken(moves[i].token)
    requires FungibleKinds(sh.users) && MultiSend(c, sh, inp, dst, moves, extra) == Ok((after, out))
    ensures FungibleKinds(after.users)
  {
    hide FungibleKinds, SendAll, ShipAll, CheckPayable, CheckDestination, Finish, ValidToken;
    var (moved, tokens) := SendAll(c, sh, inp.caller, dst, moves, inp.retErr).value;
    SendAllKeepsKinds(c, sh, inp.caller, dst, moves, inp.retErr, moved, tokens);
  }

  lemma NftSendKeepsKinds(c: Config, sh: Shard, inp: Input, dst: Address, mv: Move, extra: seq<Bytes>, after: Shard, out: Output)
    requires ValidToken(mv.token) && FungibleKinds(sh.users) && NftSend(c, sh, inp, dst, mv, extra) == Ok((after, out))
    ensures FungibleKinds(after.users)
  {
    hide FungibleKinds, SaveToken, AddToLiquidity, ReadTokenOnSender, AddToDestination, CheckLimitedTransfer, NftShip, Finish;
    hide CheckPayable, ValidToken;
    var own := ReadTokenOnSender(c, sh, inp.caller, mv.token, mv.nonce).value;
    var (shipped, debited) := DebitForNft(c, sh, inp.caller, mv, inp.retErr).value;
    SaveTokenKeepsKinds(c, sh, inp.caller, inp.caller, mv.token, mv.nonce, own.(value := own.value - mv.value), false, inp.retErr, debited);
    if ToShard(c, dst) {
      var (moved, final) := NftMoveOn(c, debited, inp, dst, shipped, mv, extra).value;
      CreditKeepsKinds(c, debited, inp.caller, dst, shipped, mv.token, mv.nonce, inp.retErr, moved, final);
    }
  }

  lemma FungibleSendKeepsKinds(c: Config, sh: Shard, inp: Input, dst: Address, t: Bytes, value: nat, extra: seq<Bytes>,
                               after: Shard, out: Output)
    requires FungibleKinds(sh.users) && FungibleSend(c, sh, inp, dst, t, value, extra) == Ok((after, out))
    ensures FungibleKinds(after.users)
  {
    hide FungibleKinds, AddToBalance, CheckLimitedTransfer, CheckPayable, IsSCCallAfter;
    var debited := AddToBalance(c, sh, inp.caller, t, -(value as int), inp.retErr).value;
    AddToBalanceKeepsKinds(c, sh, inp.caller, t, -(value as int), inp.retErr, debited);
    if ToShard(c, dst) {
      AddToBalanceKeepsKinds(c, debited, dst, t, value, inp.retErr, after);
    }
  }

  lemma NftCallKeepsKinds(c: Config, sh: Shard, call: Call, after: Shard, out: Output)
    requires IsNftCall(call) && ValidTokens(call) && FungibleKinds(sh.users) && Execute(c, sh, call) == Ok((after, out))
    requires call.CreateCall? ==> NextNonce(sh, call.holder, call.cr.token) > 0
    ensures FungibleKinds(after.users)
  {
    hide FungibleKinds, SaveToken, AddToLiquidity, ReadTokenOnSender, HasRole, ToNat, TotalLength, ValidToken;
    match call
    case CreateCall(inp, holder, cr) =>
      var nonce := NextNonce(sh, holder, cr.token);
      var meta := MetaData(nonce, cr.name, inp.caller, cr.royalties, cr.hash, cr.attributes, cr.uris);
      var tok := Token(NonFungible, ToNat(cr.quantity), [], Some(meta), []);
      SaveTokenKeepsKinds(c, sh, holder, holder, cr.token, nonce, tok, true, inp.retErr,
                          SaveToken(c, sh, holder, holder, cr.token, nonce, tok, true, inp.retErr).value);
    case AddQuantityCall(inp, t, nonce, quantity) =>
      var own := ReadTokenOnSender(c, sh, inp.caller, t, nonce).value;
      var more := own.(value := own.value + ToNat(quantity));
      SaveTokenKeepsKinds(c, sh, inp.caller, inp.caller, t, nonce, more, false, inp.retErr,
                          SaveToken(c, sh, inp.caller, inp.caller, t, nonce, more, false, inp.retErr).value);
    case BurnCall(inp, t, nonce, value) =>
      var own := ReadTokenOnSender(c, sh, inp.caller, t, nonce).value;
      var less := own.(value := own.value - value);
      SaveTokenKeepsKinds(c, sh, inp.caller, inp.caller, t, nonce, less, false, inp.retErr,
                          SaveToken(c, sh, inp.caller, inp.caller, t, nonce, less, false, inp.retErr).value);
    case UpdateCall(inp, t, nonce, update) =>
      var own := ReadTokenOnSender(c, sh, inp.caller, t, nonce).value;
      SaveTokenKeepsKinds(c, sh, inp.caller, inp.caller, t, nonce, own.(meta := Some(update.Apply(own.meta.value))), true,
                          inp.retErr, after);
  }

  lemma ContractKeepsKinds(c: Config, sh: Shard, call: Call, after: Shard, out: Output)
    requires call.FreezeCall? || call.WipeCall? || call.SettingCall? || call.RolesCall?
    requires FungibleKinds(sh.users) && Execute(c, sh, call) == Ok((after, out))
    ensures FungibleKinds(after.users)
  {
    hide ValidToken, AreZero, AddToLiquidity, ExtractForWipe, MultiSend, NftSend, FungibleSend, Create, AddQuantity, Burn, UpdateMeta;
    hide Mint, BurnFungible, Frozen;
  }

  lemma CallKeepsKinds(c: Config, sh: Shard, call: Call, after: Shard, out: Output)
    requires ValidTokens(call) && FungibleKinds(sh.users) && Execute(c, sh, call) == Ok((after, out))
    requires call.CreateCall? ==> NextNonce(sh, call.holder, call.cr.token) > 0
    ensures FungibleKinds(after.users)
  {
    if IsNftCall(call) {
      hide Execute, FungibleKinds;
      NftCallKeepsKinds(c, sh, call, after, out);
    } else {
      hide FungibleKinds, MultiSend, NftSend, FungibleSend, AddToBalance, ValidToken, HasRole, ToggleFreeze, Wipe, ToggleSetting;
      match call
      case FungibleCall(inp, dst, t, value, extra) => FungibleSendKeepsKinds(c, sh, inp, dst, t, value, extra, after, out);
      case NftCall(inp, dst, mv, extra) => NftSendKeepsKinds(c, sh, inp, dst, mv, extra, after, out);
      case MultiCall(inp, dst, moves, extra) => MultiSendKeepsKinds(c, sh, inp, dst, moves, extra, after, out);
      case MintCall(inp, t, quantity) => AddToBalanceKeepsKinds(c, sh, inp.caller, t, ToNat(quantity), inp.retErr, after);
      case BurnFungibleCall(inp, t, value) => AddToBalanceKeepsKinds(c, sh, inp.caller, t, -(value as int), inp.retErr, after);
      case _ => ContractKeepsKinds(c, sh, call, after, out);
    }
  }

  lemma CreditOneKeepsKinds(c: Config, sh: Shard, env: Envelope, item: Item, after: Shard)
    requires ValidToken(item.token) && FungibleKinds(sh.users) && CreditOne(c, sh, env, item) == Ok(after)
    requires env.carrier == ByNftTransfer ==> item.nonce > 0
    ensures FungibleKinds(after.users)
  {
    hide FungibleKinds, AddToDestination, AddToBalance, ValidToken;
    if env.carrier == ByNftTransfer || (env.carrier == ByMultiTransfer && item.nonce > 0) {
      var (end, merged) := AddToDestination(c, sh, env.caller, env.recipient, ArrivingToken(item), item.token, item.nonce, env.retErr).value;
      CreditKeepsKinds(c, sh, env.caller, env.recipient, ArrivingToken(item), item.token, item.nonce, env.retErr, end, merged);
    } else {
      AddToBalanceKeepsKinds(c, sh, env.recipient, item.token, item.Value(), env.retErr, after);
    }
  }

  lemma {:induction false} CreditsKeepKinds(c: Config, sh: Shard, env: Envelope, items: seq<Item>)
    requires FungibleKinds(sh.users) && CreditAll(c, sh, env, items).Ok?
    requires forall i :: 0 <= i < |items| ==> ValidToken(items[i].token)
    requires env.carrier == ByNftTransfer ==> forall i :: 0 <= i < |items| ==> items[i].nonce > 0
    ensures FungibleKinds(CreditAll(c, sh, env, items).value.users)
  {
    hide FungibleKinds, CreditOne, ValidToken;
    if items != [] {
      var last := |items| - 1;
      CreditsKeepKinds(c, sh, env, items[..last]);
      var mid := CreditAll(c, sh, env, items[..last]).value;
      CreditOneKeepsKinds(c, mid, env, items[last], CreditOne(c, mid, env, items[last]).value);
    }
  }

  // ---- messages move positive amounts ----

  ghost predicate PositiveNet(net: seq<Envelope>) {
    forall i :: 0 <= i < |net| ==> Positive(net[i])
  }

  lemma MultiSendIsPositive(c: Config, sh: Shard, inp: Input, dst: Address, moves: seq<Move>, extra: seq<Bytes>, after: Shard, out: Output)
    requires MultiSend(c, sh, inp, dst, moves, extra) == Ok((after, out))
    ensures PositiveNet(out.sent)
  {
    MultiTransferSends(c, sh, inp, dst, moves, extra, after, out);
    hide MultiSend, CallFollows;
    if !ToShard(c, dst) {
      TransferParser.MultiSendCarries(c, sh, inp, dst, moves, extra, after, out);
      var items := out.sent[0].items;
      assert forall i :: 0 <= i < |items| ==> TransferParser.MoveOf(items[i]) == Some(moves[i]) && moves[i].value > 0;
    }
  }

  /** For a single NFT this needs the flag that refuses an amount of zero. */
  lemma NftSendIsPositive(c: Config, sh: Shard, inp: Input, dst: Address, mv: Move, extra: seq<Bytes>, after: Shard, out: Output)
    requires c.flags.checkTransfer && ValidToken(mv.token) && NftSend(c, sh, inp, dst, mv, extra) == Ok((after, out))
    ensures PositiveNet(out.sent)
  {
    NftTransferSends(c, sh, inp, dst, mv, extra, after, out);
    NftTransferMayMove(c, sh, inp, dst, mv, extra, after, out);
    hide NftSend, CallFollows, ValidToken;
    if !ToShard(c, dst) {
      MetadataEffects.NftSentIsHeld(c, sh, inp, dst, mv, extra, after, out);
    }
  }

  lemma FungibleSendIsPositive(c: Config, sh: Shard, inp: Input, dst: Address, t: Bytes, value: nat, extra: seq<Bytes>,
                               after: Shard, out: Output)
    requires FungibleSend(c, sh, inp, dst, t, value, extra) == Ok((after, out))
    ensures PositiveNet(out.sent)
  {
    FungibleTransferSends(c, sh, inp, dst, t, value, extra, after, out);
    FungibleTransferMayMove(c, sh, inp, dst, t, value, extra, after, out);
    hide FungibleSend, CallFollows;
  }

  lemma CallIsPositive(c: Config, sh: Shard, call: Call, after: Shard, out: Output)
    requires c.flags.checkTransfer && ValidTokens(call) && Execute(c, sh, call) == Ok((after, out))
    ensures PositiveNet(out.sent)
  {
    hide PositiveNet, MultiSend, NftSend, FungibleSend, ValidToken;
    match call
    case FungibleCall(inp, dst, t, value, extra) => FungibleSendIsPositive(c, sh, inp, dst, t, value, extra, after, out);
    case NftCall(inp, dst, mv, extra) => NftSendIsPositive(c, sh, inp, dst, mv, extra, after, out);
    case MultiCall(inp, dst, moves, extra) => MultiSendIsPositive(c, sh, inp, dst, moves, extra, after, out);
    case _ => OthersSendNothing(c, sh, call, after, out);
  }

  lemma OthersSendNothing(c: Config, sh: Shard, call: Call, after: Shard, out: Output)
    requires !IsTransfer(call) && Execute(c, sh, call) == Ok((after, out))
    ensures PositiveNet(out.sent)
  {
    hide MultiSend, NftSend, FungibleSend, AddToBalance, SaveToken, AddToLiquidity, ReadTokenOnSender, HasRole, ToNat, TotalLength;
  }

  // ---- whole runs ----

  ghost predicate Returnable(w: World) {
    PositiveNet(w.net) && forall s :: 0 <= s < |w.shards| ==> FungibleKinds(w.shards[s].users)
  }

  lemma RunStepKeepsReturnable(c: Config, w: World, s: nat, call: Call, after: World)
    requires c.flags.checkTransfer && Returnable(w) && Next(c, w, Run(s, call)) == Some(after) && Allowed(w.shards[s], call)
    ensures Returnable(after)
  {
    hide Execute, FungibleKinds, Positive, RunsIn, ValidTokens;
    var (sh, out) := Execute(At(c, s), w.shards[s], call).value;
    CallKeepsKinds(At(c, s), w.shards[s], call, sh, out);
    CallIsPositive(At(c, s), w.shards[s], call, sh, out);
  }

  lemma DeliveryKeepsKinds(c: Config, sh: Shard, env: Envelope, gas: uint64)
    requires FungibleKinds(sh.users) && GoodEnvelope(c, env) && Deliver(c, sh, env, gas).Ok?
    ensures FungibleKinds(Deliver(c, sh, env, gas).value.0.users)
  {
    hide FungibleKinds, CreditAll, CheckPayable;
    CreditsKeepKinds(c, sh, env, env.items);
  }

  lemma ArrivalKeepsReturnable(c: Config, w: World, i: nat, gas: uint64, after: World)
    requires Returnable(w) && WorldAgrees(c, w) && Next(c, w, Arrive(i, gas)) == Some(after)
    ensures Returnable(after)
  {
    hide Deliver, FungibleKinds, SaveMetaOfMessage, IsNext, Agrees;
    var env := w.net[i];
    var s := c.shardOf(env.recipient);
    assert GoodEnvelope(c, env) && Positive(env) && Positive(Bounce(env));
    hide GoodEnvelope, Positive;
    if Deliver(At(c, s), w.shards[s], env, gas).Ok? {
      SameGoodEnvelope(c, At(c, s), env);
      DeliveryKeepsKinds(At(c, s), w.shards[s], env, gas);
    }
  }

  lemma SameGoodEnvelope(c: Config, d: Config, env: Envelope)
    requires GoodEnvelope(c, env) && d.shardOf == c.shardOf
    ensures GoodEnvelope(d, env)
  {
  }

  lemma {:induction false} RunKeepsReturnable(c: Config, w: World, acts: seq<Action>, after: World)
    requires Active(c) && c.flags.checkTransfer && WorldAgrees(c, w) && Returnable(w)
    requires AllowedRun(c, w, acts) && Reach(c, w, acts) == Some(after)
    ensures Returnable(after)
  {
    if acts != [] {
      hide Next, Returnable, WorldAgrees, Allowed;
      var last := |acts| - 1;
      var v := Reach(c, w, acts[..last]).value;
      RunKeepsReturnable(c, w, acts[..last], v);
      RunAgrees(c, w, acts[..last], v);
      match acts[last]
      case Run(s, call) =>
        RunNamesShard(c, v, s, call);
        RunStepKeepsReturnable(c, v, s, call, after);
      case Arrive(i, gas) => ArrivalKeepsReturnable(c, v, i, gas, after);
      case HandOver(from, to, t) => HandOverKeepsReturnable(c, v, from, to, t, after);
    }
  }

  lemma RunNamesShard(c: Config, w: World, s: nat, call: Call)
    requires Next(c, w, Run(s, call)).Some?
    ensures s < |w.shards|
  {
  }

  lemma HandOverKeepsReturnable(c: Config, w: World, from: Address, to: Address, t: Bytes, after: World)
    requires Returnable(w) && Next(c, w, HandOver(from, to, t)) == Some(after)
    ensures Returnable(after)
  {
    HandOverKeepsTokens(c, w, from, to, t, after);
    hide Next, FungibleKinds;
  }

  /** In every state of every run, a return whose turn it is leaves the net for good, with its tokens credited. */
  lemma ReturnsAreCredited(c: Config, w: World, acts: seq<Action>, after: World, i: nat, gas: uint64)
    requires Active(c) && c.flags.checkTransfer && c.flags.fixAsyncCallback
    requires Genesis(w) && AllowedRun(c, w, acts) && Reach(c, w, acts) == Some(after)
    requires i < |after.net| && IsNext(c, after.net, i) && c.shardOf(after.net[i].recipient) < |after.shards|
    requires after.net[i].retErr
    requires after.net[i].carrier == ByTransfer && c.shardOf(after.net[i].recipient) == METACHAIN ==> c.flags.transferToMeta
    ensures Deliver(At(c, c.shardOf(after.net[i].recipient)), after.shards[c.shardOf(after.net[i].recipient)], after.net[i], gas).Ok?
    ensures Next(c, after, Arrive(i, gas)).Some? && Next(c, after, Arrive(i, gas)).value.net == Without(after.net, i)
  {
    GenesisAgrees(c, w);
    RunAgrees(c, w, acts, after);
    RunKeepsReturnable(c, w, acts, after);
    var env := after.net[i];
    var s := c.shardOf(env.recipient);
    assert WorldAgrees(c, after) && Agrees(after.shards[s]) && FungibleKinds(after.shards[s].users) && Positive(env);
    hide Deliver, Agrees, FungibleKinds, Genesis, AllowedRun, Reach, GoodEnvelope, IsNext, Positive;
    SameGoodEnvelope(c, At(c, s), env);
    ReturnIsCredited(At(c, s), after.shards[s], env, gas);
  }

  /** A delivery that fails sends back all its items, to the account they came from, as such a return. */
  lemma FailureReturnsEverything(c: Config, w: World, i: nat, gas: uint64, after: World)
    requires Next(c, w, Arrive(i, gas)) == Some(after)
    requires Deliver(At(c, c.shardOf(w.net[i].recipient)), w.shards[c.shardOf(w.net[i].recipient)], w.net[i], gas).Err?
    ensures |after.net| == |w.net| && after.net[..|w.net| - 1] == Without(w.net, i)
    ensures var back := after.net[|w.net| - 1];
      && back.retErr && back.recipient == w.net[i].caller && back.caller == w.net[i].recipient
      && back.items == w.net[i].items && back.carrier == w.net[i].carrier && back.extra == []
    ensures forall s :: 0 <= s < |w.shards| ==> after.shards[s].users == w.shards[s].users
  {
    hide Deliver, SaveMetaOfMessage, IsNext;
  }
}
