/**
 * The liquidity counter agrees with the real balances: with the liquidity protocol on from genesis, every entry of
 * a shard's system account that keeps a counter counts exactly what the accounts of that shard hold.
 */
module Liquidity {
  import opened Bytes
  import opened Keys
  import opened Wrappers
  import opened Ledger
  import opened Operations
  import opened Totals
  import opened World
  import opened Conservation
  import Seqs

  /** The flags of the liquidity protocol; the other flags may have any value. */
  predicate Active(c: Config) {
    c.flags.saveToSystem && c.flags.sendAlways && c.flags.wipeLiquidity
  }

  ghost predicate PlainUsers(users: Users) {
    forall x :: x in users ==> users[x].value >= 0 && users[x].meta.None?
  }

  /** Every positive NFT balance has its entry in the system account of the shard. */
  ghost predicate HoldersHaveEntry(users: Users, sys: Sys) {
    forall x :: x in users && users[x].value > 0 && IsNftKey(x.1) ==> x.1 in sys
  }

  /** Every NFT entry holds metadata, and its counter, if it keeps one, is `off[key]` above the balances. */
  ghost predicate CountsUpTo(users: Users, sys: Sys, key: Bytes, off: int) {
    forall k :: k in sys && IsNftKey(k) ==>
      && sys[k].Entry? && sys[k].token.meta.Some?
      && (sys[k].token.reserved != [] ==> sys[k].token.value == Total(users, k) + if k == key then off else 0)
  }

  /** The state in the middle of a call, when the counter of one key is still `off` away from the balances. */
  ghost predicate AgreesUpTo(users: Users, sys: Sys, key: Bytes, off: int) {
    PlainUsers(users) && HoldersHaveEntry(users, sys) && CountsUpTo(users, sys, key, off)
  }

  ghost predicate Agrees(sh: Shard) {
    AgreesUpTo(sh.users, sh.sys, [], 0)
  }

  lemma NoOffset(users: Users, sys: Sys, k: Bytes, m: Bytes)
    requires AgreesUpTo(users, sys, k, 0)
    ensures AgreesUpTo(users, sys, m, 0)
  {
  }

  // ---- the two storage operations ----

  /** The entry of a key after its metadata was offered to the system account. */
  lemma SaveMetaEntry(c: Config, sys: Sys, stored: Option<Token>, sndShard: nat, key: Bytes, nonce: uint64, tok: Token,
                      mustUpdate: bool, after: Sys)
    requires Active(c) && SaveMeta(c, sys, Some(stored), sndShard, key, nonce, tok, mustUpdate) == Ok(after)
    requires key in sys ==> sys[key].Entry? && sys[key].token.meta.Some?
    ensures forall k :: k != key ==> (k in after <==> k in sys) && (k in sys ==> after[k] == sys[k])
    ensures key in sys ==> key in after
    ensures nonce > 0 && tok.meta.Some? ==> key in after
    ensures key in after ==>
      && after[key].Entry? && after[key].token.meta.Some?
      && (after[key].token.reserved != [] ==> after[key].token.value == if key in sys then sys[key].token.value else 0)
      && (after[key].token.reserved != [] && key in sys ==> sys[key].token.reserved != [])
  {
  }

  /** Nobody holds a key that has no entry. */
  lemma NoEntryNoBalance(users: Users, sys: Sys, key: Bytes)
    requires PlainUsers(users) && HoldersHaveEntry(users, sys) && IsNftKey(key) && key !in sys
    ensures Total(users, key) == 0
  {
    TotalZero(users, key);
  }

  lemma KeepsPlain(c: Config, sh: Shard, snd: Address, a: Address, t: Bytes, nonce: uint64, tok: Token,
                   mustUpdate: bool, retErr: bool, after: Shard)
    requires c.flags.saveToSystem && SaveToken(c, sh, snd, a, t, nonce, tok, mustUpdate, retErr) == Ok(after)
    requires PlainUsers(sh.users)
    ensures PlainUsers(after.users)
    ensures forall x :: x in after.users && x != (a, TokenKey(t, nonce)) ==> x in sh.users && after.users[x] == sh.users[x]
    ensures (a, TokenKey(t, nonce)) in after.users ==> after.users[(a, TokenKey(t, nonce))].value == tok.value > 0
  {
  }

  lemma SaveTokenMeta(c: Config, sh: Shard, snd: Address, a: Address, t: Bytes, nonce: uint64, tok: Token,
                      mustUpdate: bool, retErr: bool, after: Shard)
    requires c.flags.saveToSystem && SaveToken(c, sh, snd, a, t, nonce, tok, mustUpdate, retErr) == Ok(after)
    ensures SaveMeta(c, sh.sys, Some(Stored(sh.users, a, TokenKey(t, nonce))), c.shardOf(snd), TokenKey(t, nonce),
                     nonce, tok, mustUpdate) == Ok(after.sys)
  {
  }

  /** Writing a token moves the counter away from the balances by what the holder gained. */
  lemma SaveTokenAgrees(c: Config, sh: Shard, snd: Address, a: Address, t: Bytes, nonce: uint64, tok: Token,
                        mustUpdate: bool, retErr: bool, after: Shard, off: int)
    requires Active(c) && ValidToken(t) && nonce > 0
    requires SaveToken(c, sh, snd, a, t, nonce, tok, mustUpdate, retErr) == Ok(after) && tok.value >= 0
    requires AgreesUpTo(sh.users, sh.sys, TokenKey(t, nonce), off)
    requires tok.value > 0 ==> tok.meta.Some? || TokenKey(t, nonce) in sh.sys
    requires off == 0 || TokenKey(t, nonce) in sh.sys
    ensures AgreesUpTo(after.users, after.sys, TokenKey(t, nonce), off + Balance(sh.users, a, TokenKey(t, nonce)) - tok.value)
    ensures TokenKey(t, nonce) in sh.sys || tok.meta.Some? ==> TokenKey(t, nonce) in after.sys
  {
    var key := TokenKey(t, nonce);
    NftKeyIntro(t, nonce);
    SaveTokenSets(c, sh, snd, a, t, nonce, tok, mustUpdate, retErr, after);
    KeepsPlain(c, sh, snd, a, t, nonce, tok, mustUpdate, retErr, after);
    SaveTokenMeta(c, sh, snd, a, t, nonce, tok, mustUpdate, retErr, after);
    SaveMetaEntry(c, sh.sys, Stored(sh.users, a, key), c.shardOf(snd), key, nonce, tok, mustUpdate, after.sys);
    if key !in sh.sys {
      NoEntryNoBalance(sh.users, sh.sys, key);
      TotalBounds(sh.users, a, key);
    }
  }

  /** A write under a key without nonce leaves all counters alone. */
  lemma SaveFungibleAgrees(c: Config, sh: Shard, snd: Address, a: Address, t: Bytes, tok: Token,
                           mustUpdate: bool, retErr: bool, after: Shard)
    requires Active(c) && ValidToken(t) && Agrees(sh)
    requires SaveToken(c, sh, snd, a, t, 0, tok, mustUpdate, retErr) == Ok(after) && tok.value >= 0
    ensures Agrees(after)
  {
    FungibleKeyIsNotNftKey(t);
    SaveTokenSets(c, sh, snd, a, t, 0, tok, mustUpdate, retErr, after);
    KeepsPlain(c, sh, snd, a, t, 0, tok, mustUpdate, retErr, after);
    SaveTokenMeta(c, sh, snd, a, t, 0, tok, mustUpdate, retErr, after);
  }

  /** When the counter is back at the balances and says zero, nobody is left to need the entry. */
  lemma EmptyCounter(users: Users, sys: Sys, key: Bytes)
    requires PlainUsers(users) && HoldersHaveEntry(users, sys) && Total(users, key) == 0
    ensures HoldersHaveEntry(users, sys - {key})
  {
    forall x | x in users && users[x].value > 0 && IsNftKey(x.1)
      ensures x.1 in sys - {key}
    {
      TotalBounds(users, x.0, key);
    }
  }

  /** Adding the missing amount to the counter brings it back to the balances. */
  lemma AddToLiquidityAgrees(c: Config, users: Users, sys: Sys, t: Bytes, nonce: uint64, delta: int, after: Sys)
    requires Active(c) && ValidToken(t) && nonce > 0
    requires AgreesUpTo(users, sys, TokenKey(t, nonce), -delta)
    requires AddToLiquidity(c, sys, t, nonce, delta) == Ok(after)
    ensures AgreesUpTo(users, after, [], 0)
  {
    var key := TokenKey(t, nonce);
    NftKeyIntro(t, nonce);
    if sys[key].token.reserved != [] && sys[key].token.value + delta == 0 {
      EmptyCounter(users, sys, key);
    }
  }

  // ---- moving tokens ----

  /** A positive NFT balance always reads non-nil metadata, and its system entry is there. */
  lemma HolderReadsMetadata(c: Config, sh: Shard, a: Address, t: Bytes, nonce: uint64)
    requires Active(c) && Agrees(sh) && ValidToken(t) && nonce > 0
    requires Balance(sh.users, a, TokenKey(t, nonce)) > 0
    ensures ReadToken(c, sh, a, t, nonce).Ok? && ReadToken(c, sh, a, t, nonce).value.0.meta.Some?
    ensures TokenKey(t, nonce) in sh.sys
  {
    NftKeyIntro(t, nonce);
  }

  /** After a debit the counter is ahead of the balances by the amount on its way. */
  lemma DebitAgrees(c: Config, sh: Shard, snd: Address, mv: Move, retErr: bool, shipped: Token, debited: Shard)
    requires Active(c) && Agrees(sh) && ValidToken(mv.token) && mv.nonce > 0
    requires IsDebit(c, sh, snd, mv, retErr, shipped, debited)
    ensures AgreesUpTo(debited.users, debited.sys, TokenKey(mv.token, mv.nonce), mv.value)
    ensures mv.value > 0 ==> shipped.meta.Some? && TokenKey(mv.token, mv.nonce) in debited.sys
  {
    var key := TokenKey(mv.token, mv.nonce);
    var own := shipped.(value := Balance(sh.users, snd, key));
    if own.value > 0 {
      HolderReadsMetadata(c, sh, snd, mv.token, mv.nonce);
    }
    NoOffset(sh.users, sh.sys, [], key);
    SaveTokenAgrees(c, sh, snd, snd, mv.token, mv.nonce, own.(value := own.value - mv.value), false, retErr, debited, 0);
  }

  lemma DebitFungibleAgrees(c: Config, sh: Shard, snd: Address, mv: Move, retErr: bool, shipped: Token, debited: Shard)
    requires Active(c) && Agrees(sh) && ValidToken(mv.token) && mv.nonce == 0
    requires IsDebit(c, sh, snd, mv, retErr, shipped, debited)
    ensures Agrees(debited)
  {
    var own := shipped.(value := Balance(sh.users, snd, TokenKey(mv.token, mv.nonce)));
    SaveFungibleAgrees(c, sh, snd, snd, mv.token, own.(value := own.value - mv.value), false, retErr, debited);
  }

  /** The credit in the same shard closes the gap that the debit opened. */
  lemma CreditHereAgrees(c: Config, sh: Shard, snd: Address, dst: Address, tok: Token, t: Bytes, nonce: uint64,
                         retErr: bool, after: Shard, merged: Token)
    requires Active(c) && ValidToken(t) && nonce > 0 && c.shardOf(snd) == c.shardOf(dst)
    requires AgreesUpTo(sh.users, sh.sys, TokenKey(t, nonce), tok.value) && tok.value >= 0
    requires tok.value > 0 ==> TokenKey(t, nonce) in sh.sys
    requires AddToDestination(c, sh, snd, dst, tok, t, nonce, retErr) == Ok((after, merged))
    ensures Agrees(after)
  {
    hide SaveToken, AddToLiquidity, ReadToken, ValidToken;
    var saved := AddToDestinationWrite(c, sh, snd, dst, tok, t, nonce, retErr, after, merged);
    assert saved == after;
    NftKeyIntro(t, nonce);
    SaveTokenAgrees(c, sh, snd, dst, t, nonce, merged, false, retErr, saved, tok.value);
    NoOffset(saved.users, saved.sys, TokenKey(t, nonce), []);
  }

  lemma CreditFungibleAgrees(c: Config, sh: Shard, snd: Address, dst: Address, tok: Token, t: Bytes,
                             retErr: bool, after: Shard, merged: Token)
    requires Active(c) && ValidToken(t) && Agrees(sh) && tok.value >= 0
    requires AddToDestination(c, sh, snd, dst, tok, t, 0, retErr) == Ok((after, merged))
    ensures Agrees(after)
  {
    hide IsNftKey, SaveToken, HoldersHaveEntry, CountsUpTo;
    NonNegativeBalance(sh.users, dst, TokenKey(t, 0));
    var saved := AddToDestinationWrite(c, sh, snd, dst, tok, t, 0, retErr, after, merged);
    SaveFungibleAgrees(c, sh, snd, dst, t, merged, false, retErr, saved);
  }

  /** A credit that comes from another shard adds to the counter what it adds to the balance. */
  lemma CreditFromElsewhereAgrees(c: Config, sh: Shard, snd: Address, dst: Address, tok: Token, t: Bytes, nonce: uint64,
                                  retErr: bool, after: Shard, merged: Token)
    requires Active(c) && ValidToken(t) && nonce > 0 && c.shardOf(snd) != c.shardOf(dst)
    requires Agrees(sh) && tok.value >= 0 && (tok.value > 0 ==> tok.meta.Some?)
    requires AddToDestination(c, sh, snd, dst, tok, t, nonce, retErr) == Ok((after, merged))
    ensures Agrees(after)
  {
    hide SaveToken, ReadToken;
    var key := TokenKey(t, nonce);
    var saved := AddToDestinationWrite(c, sh, snd, dst, tok, t, nonce, retErr, after, merged);
    NftKeyIntro(t, nonce);
    NoOffset(sh.users, sh.sys, [], key);
    SaveTokenAgrees(c, sh, snd, dst, t, nonce, merged, false, retErr, saved, 0);
    AddToLiquidityAgrees(c, saved.users, saved.sys, t, nonce, tok.value, after.sys);
  }

  /** One step of a multi-transfer, for a sender of this shard. */
  lemma SendOneAgrees(c: Config, sh: Shard, snd: Address, dst: Address, mv: Move, retErr: bool, after: Shard, tok: Token)
    requires Active(c) && Agrees(sh) && ValidToken(mv.token) && c.shardOf(snd) == c.self
    requires SendOne(c, sh, snd, dst, mv, retErr) == Ok((after, tok))
    ensures Agrees(after)
    ensures !ToShard(c, dst) && mv.nonce > 0 ==> tok.meta.Some?
  {
    hide SaveToken, ReadTokenOnSender, CheckLimitedTransfer, IsNftKey, AgreesUpTo;
    var (shipped, debited) := DebitForMulti(c, sh, snd, mv, retErr).value;
    MultiDebit(c, sh, snd, mv, retErr, shipped, debited);
    if mv.nonce == 0 {
      DebitFungibleAgrees(c, sh, snd, mv, retErr, shipped, debited);
      if ToShard(c, dst) {
        CreditFungibleAgrees(c, debited, snd, dst, shipped, mv.token, retErr, after, tok);
      }
    } else {
      DebitAgrees(c, sh, snd, mv, retErr, shipped, debited);
      if ToShard(c, dst) {
        CreditHereAgrees(c, debited, snd, dst, shipped, mv.token, mv.nonce, retErr, after, tok);
      } else {
        AddToLiquidityAgrees(c, debited.users, debited.sys, mv.token, mv.nonce, -(mv.value as int), after.sys);
      }
    }
  }

  lemma {:induction false} SendAllAgrees(c: Config, sh: Shard, snd: Address, dst: Address, moves: seq<Move>, retErr: bool,
                                         after: Shard, tokens: seq<Token>)
    requires Active(c) && Agrees(sh) && c.shardOf(snd) == c.self
    requires forall i :: 0 <= i < |moves| ==> ValidToken(moves[i].token)
    requires SendAll(c, sh, snd, dst, moves, retErr) == Ok((after, tokens))
    ensures Agrees(after) && |tokens| == |moves|
    ensures !ToShard(c, dst) ==> forall i :: 0 <= i < |moves| && moves[i].nonce > 0 ==> tokens[i].meta.Some?
  {
    hide IsNftKey, SendOne, AgreesUpTo;
    if moves != [] {
      var last := |moves| - 1;
      var (mid, init) := SendAll(c, sh, snd, dst, moves[..last], retErr).value;
      SendAllAgrees(c, sh, snd, dst, moves[..last], retErr, mid, init);
      var (end, tok) := SendOne(c, mid, snd, dst, moves[last], retErr).value;
      SendOneAgrees(c, mid, snd, dst, moves[last], retErr, end, tok);
    }
  }

  // ---- messages ----

  /** With this protocol every NFT travels with its metadata. */
  ghost predicate GoodItem(item: Item) {
    && ValidToken(item.token) && item.Value() >= 0
    && (item.nonce > 0 ==> item.body.Payload? && (item.Value() > 0 ==> item.body.data.meta.Some?))
  }

  ghost predicate GoodEnvelope(c: Config, env: Envelope) {
    && c.shardOf(env.caller) != c.shardOf(env.recipient)
    && (forall i :: 0 <= i < |env.items| ==> GoodItem(env.items[i]))
    && (env.carrier == ByNftTransfer ==> forall i :: 0 <= i < |env.items| ==> env.items[i].nonce > 0)
    && (env.carrier == ByTransfer ==> FungibleItems(env.items))
  }

  lemma ShipOneLiquidity(c: Config, sys: Sys, dst: Address, mv: Move, tok: Token, gas: nat)
    requires Active(c) && ShipOne(c, sys, dst, mv, tok, gas).Ok? && ValidToken(mv.token)
    ensures ShipOne(c, sys, dst, mv, tok, gas).value.0 == sys
    ensures !ToShard(c, dst) && tok.value == mv.value && (mv.nonce > 0 ==> tok.meta.Some?) ==>
              GoodItem(ShipOne(c, sys, dst, mv, tok, gas).value.1)
  {
  }

  lemma {:induction false} ShipAllLiquidity(c: Config, sys: Sys, dst: Address, moves: seq<Move>, tokens: seq<Token>, gas: nat)
    requires Active(c) && |moves| == |tokens| && ShipAll(c, sys, dst, moves, tokens, gas).Ok?
    requires forall i :: 0 <= i < |moves| ==> ValidToken(moves[i].token)
    requires !ToShard(c, dst) ==> forall i :: 0 <= i < |moves| ==> tokens[i].value == moves[i].value
    requires !ToShard(c, dst) ==> forall i :: 0 <= i < |moves| && moves[i].nonce > 0 ==> tokens[i].meta.Some?
    ensures ShipAll(c, sys, dst, moves, tokens, gas).value.0 == sys
    ensures !ToShard(c, dst) ==>
              forall i :: 0 <= i < |moves| ==> GoodItem(ShipAll(c, sys, dst, moves, tokens, gas).value.1[i])
  {
    if moves != [] {
      var last := |moves| - 1;
      ShipAllLiquidity(c, sys, dst, moves[..last], tokens[..last], gas);
      var (before, items, left) := ShipAll(c, sys, dst, moves[..last], tokens[..last], gas).value;
      ShipOneLiquidity(c, before, dst, moves[last], tokens[last], left);
    }
  }

  ghost predicate GoodNet(c: Config, net: seq<Envelope>) {
    forall i :: 0 <= i < |net| ==> GoodEnvelope(c, net[i])
  }

  lemma MultiSendAgrees(c: Config, sh: Shard, inp: Input, dst: Address, moves: seq<Move>, extra: seq<Bytes>, after: Shard, out: Output)
    requires Active(c) && Agrees(sh) && c.shardOf(inp.caller) == c.self
    requires forall i :: 0 <= i < |moves| ==> ValidToken(moves[i].token)
    requires MultiSend(c, sh, inp, dst, moves, extra) == Ok((after, out))
    ensures Agrees(after) && GoodNet(c, out.sent)
  {
    hide SendAll, ShipAll, IsNftKey, HoldersHaveEntry, CountsUpTo;
    var (moved, tokens) := SendAll(c, sh, inp.caller, dst, moves, inp.retErr).value;
    SendAllAgrees(c, sh, inp.caller, dst, moves, inp.retErr, moved, tokens);
    MultiTransferIsAFold(c, sh, inp.caller, dst, moves, inp.retErr, moved, tokens);
    ShipAllLiquidity(c, moved.sys, dst, moves, tokens, inp.gasProvided - MultiCost(c, |moves|));
  }

  lemma NftSendOneAgrees(c: Config, sh: Shard, inp: Input, dst: Address, mv: Move, extra: seq<Bytes>, after: Shard, tok: Token)
    requires Active(c) && Agrees(sh) && c.shardOf(inp.caller) == c.self && ValidToken(mv.token)
    requires NftSendOne(c, sh, inp, dst, mv, extra) == Ok((after, tok))
    ensures Agrees(after)
    ensures !ToShard(c, dst) ==> tok.value == mv.value && (mv.value > 0 ==> tok.meta.Some?)
    ensures mv.nonce > 0
  {
    hide AgreesUpTo, CheckPayable, CheckLimitedTransfer, IsSCCallAfter, ReadToken, SaveToken, AddToLiquidity;
    var (shipped, debited) := DebitForNft(c, sh, inp.caller, mv, inp.retErr).value;
    NftDebit(c, sh, inp.caller, mv, inp.retErr, shipped, debited);
    DebitAgrees(c, sh, inp.caller, mv, inp.retErr, shipped, debited);
    if ToShard(c, dst) {
      CreditHereAgrees(c, debited, inp.caller, dst, shipped, mv.token, mv.nonce, inp.retErr, after, tok);
    } else {
      AddToLiquidityAgrees(c, debited.users, debited.sys, mv.token, mv.nonce, -(mv.value as int), after.sys);
    }
  }

  lemma NftSendAgrees(c: Config, sh: Shard, inp: Input, dst: Address, mv: Move, extra: seq<Bytes>, after: Shard, out: Output)
    requires Active(c) && Agrees(sh) && c.shardOf(inp.caller) == c.self && ValidToken(mv.token)
    requires NftSend(c, sh, inp, dst, mv, extra) == Ok((after, out))
    ensures Agrees(after) && GoodNet(c, out.sent)
  {
    hide IsNftKey, AgreesUpTo, NftSendOne;
    var (moved, tok) := NftSendOne(c, sh, inp, dst, mv, extra).value;
    NftSendOneAgrees(c, sh, inp, dst, mv, extra, moved, tok);
  }

  // ---- balances without nonce, frozen bits, settings ----

  /** A change at one key that keeps the sum over the key, or concerns no NFT, leaves all counters agreeing. */
  lemma QuietChangeAgrees(users: Users, sys: Sys, a: Address, key: Bytes, after: Users)
    requires AgreesUpTo(users, sys, [], 0) && PlainUsers(after)
    requires SetsBalance(users, after, a, key, Balance(after, a, key))
    requires IsNftKey(key) ==> Balance(after, a, key) == Balance(users, a, key)
    ensures AgreesUpTo(after, sys, [], 0)
  {
    forall x | x in after && after[x].value > 0 && IsNftKey(x.1)
      ensures x.1 in sys
    {
      assert Balance(after, x.0, x.1) == Balance(users, x.0, x.1) > 0;
    }
  }

  lemma AddToBalanceAgrees(c: Config, sh: Shard, a: Address, t: Bytes, delta: int, retErr: bool, after: Shard)
    requires Agrees(sh) && ValidToken(t)
    requires AddToBalance(c, sh, a, t, delta, retErr) == Ok(after)
    ensures Agrees(after)
  {
    FungibleKeyIsNotNftKey(t);
    AddToBalanceSets(c, sh, a, t, delta, retErr, after);
    QuietChangeAgrees(sh.users, sh.sys, a, t, after.users);
  }

  lemma FungibleSendAgrees(c: Config, sh: Shard, inp: Input, dst: Address, t: Bytes, value: nat, extra: seq<Bytes>,
                           after: Shard, out: Output)
    requires Agrees(sh) && ValidToken(t) && c.shardOf(inp.caller) == c.self
    requires FungibleSend(c, sh, inp, dst, t, value, extra) == Ok((after, out))
    ensures Agrees(after) && GoodNet(c, out.sent)
  {
    var debited := AddToBalance(c, sh, inp.caller, t, -(value as int), inp.retErr).value;
    AddToBalanceAgrees(c, sh, inp.caller, t, -(value as int), inp.retErr, debited);
    if ToShard(c, dst) {
      AddToBalanceAgrees(c, debited, dst, t, value, inp.retErr, after);
    }
  }

  lemma FreezeAgrees(sh: Shard, a: Address, key: Bytes, freeze: bool)
    requires Agrees(sh)
    ensures Agrees(ToggleFreeze(sh, a, key, freeze))
  {
    FreezeConserves(sh, a, key, freeze);
    QuietChangeAgrees(sh.users, sh.sys, a, key, ToggleFreeze(sh, a, key, freeze).users);
  }

  /** The wiped key is one that the splitter takes apart correctly. */
  ghost predicate Wipeable(key: Bytes) {
    exists t: Bytes, n: uint64 :: ValidToken(t) && DASH !in FromNat(n) && key == TokenKey(t, n)
  }

  lemma WipeAgrees(c: Config, sh: Shard, a: Address, key: Bytes, after: Shard)
    requires Active(c) && Agrees(sh) && Wipeable(key)
    requires Wipe(c, sh, a, key) == Ok(after)
    ensures Agrees(after)
  {
    var t: Bytes, n: uint64 :| ValidToken(t) && DASH !in FromNat(n) && key == TokenKey(t, n);
    WipeSplitIsExact(t, n);
    var wiped := Remove(sh.users, a, key);
    RemoveSets(sh.users, a, key);
    if n == 0 {
      FungibleKeyIsNotNftKey(t);
      QuietChangeAgrees(sh.users, sh.sys, a, key, wiped);
    } else {
      AddToLiquidityAgrees(c, wiped, sh.sys, t, n, -Balance(sh.users, a, key), after.sys);
    }
  }

  lemma ChangesOneEntry(c: Config, sys: Sys, t: Bytes, nonce: uint64, delta: int, after: Sys, key: Bytes)
    requires AddToLiquidity(c, sys, t, nonce, delta) == Ok(after) && (nonce > 0 ==> key != TokenKey(t, nonce))
    ensures key in sys ==> key in after && after[key] == sys[key]
  {
  }

  lemma CounterIsTotal(sh: Shard, key: Bytes)
    requires Agrees(sh) && IsNftKey(key) && key in sh.sys
    ensures sh.sys[key].Entry?
    ensures sh.sys[key].token.reserved != [] ==> sh.sys[key].token.value == Total(sh.users, key)
  {
  }

  lemma DashedWipeLeavesCounter(c: Config, sh: Shard, a: Address, t: Bytes, n: uint64, after: Shard)
    requires ValidToken(t) && DASH in FromNat(n) && TokenKey(t, n) in sh.sys
    requires Wipe(c, sh, a, TokenKey(t, n)) == Ok(after)
    ensures TokenKey(t, n) in after.sys && after.sys[TokenKey(t, n)] == sh.sys[TokenKey(t, n)]
  {
    hide AddToLiquidity, ValidToken, ExtractForWipe, TokenKey, ToUint64, FromNat, Seqs.Before, Frozen;
    var key := TokenKey(t, n);
    ExtractFromKey(t, n);
    DashedDigits(n);
    var (identifier, nonce) := ExtractForWipe(key);
    if nonce > 0 && TokenKey(identifier, nonce) == key {
      TokenKeyInjective(t, n, t, nonce);
    }
    if c.flags.wipeLiquidity {
      ChangesOneEntry(c, sh.sys, identifier, nonce, -ReadRaw(sh.users, a, key).value, after.sys, key);
    }
  }

  /**
   * Wiping a positive balance whose counter is live keeps the agreement exactly when no byte of the nonce is a dash:
   * otherwise the splitter names another key, and the counter stays where it was.
   */
  lemma WipeAgreesExactly(c: Config, sh: Shard, a: Address, t: Bytes, n: uint64, after: Shard)
    requires Active(c) && Agrees(sh) && ValidToken(t) && n > 0 && Balance(sh.users, a, TokenKey(t, n)) > 0
    requires TokenKey(t, n) in sh.sys && sh.sys[TokenKey(t, n)].Entry? && sh.sys[TokenKey(t, n)].token.reserved != []
    requires Wipe(c, sh, a, TokenKey(t, n)) == Ok(after)
    ensures Agrees(after) <==> DASH !in FromNat(n)
  {
    var key := TokenKey(t, n);
    hide Agrees, ValidToken, TokenKey, FromNat, IsNftKey;
    NftKeyIntro(t, n);
    if DASH !in FromNat(n) {
      assert Wipeable(key);
      WipeAgrees(c, sh, a, key, after);
    } else {
      DashedWipeLeavesCounter(c, sh, a, t, n, after);
      CounterIsTotal(sh, key);
      assert after.users == Remove(sh.users, a, key);
      RemoveSets(sh.users, a, key);
      if Agrees(after) {
        CounterIsTotal(after, key);
      }
    }
  }

  lemma SettingAgrees(sh: Shard, t: Bytes, which: Setting, on: bool)
    requires Agrees(sh) && ValidToken(t)
    ensures Agrees(ToggleSetting(sh, t, which, on))
  {
    FungibleKeyIsNotNftKey(t);
  }

  // ---- supply-changing calls on NFTs ----

  lemma CreateAgrees(c: Config, sh: Shard, inp: Input, holder: Address, cr: Creation, after: Shard, out: Output)
    requires Active(c) && Agrees(sh) && ValidToken(cr.token) && NextNonce(sh, holder, cr.token) > 0
    requires Balance(sh.users, holder, TokenKey(cr.token, NextNonce(sh, holder, cr.token))) == 0
    requires Create(c, sh, inp, holder, cr) == Ok((after, out))
    ensures Agrees(after)
  {
    var nonce := NextNonce(sh, holder, cr.token);
    var meta := MetaData(nonce, cr.name, inp.caller, cr.royalties, cr.hash, cr.attributes, cr.uris);
    var tok := Token(NonFungible, ToNat(cr.quantity), [], Some(meta), []);
    var saved := SaveToken(c, sh, holder, holder, cr.token, nonce, tok, true, inp.retErr).value;
    NoOffset(sh.users, sh.sys, [], TokenKey(cr.token, nonce));
    SaveTokenAgrees(c, sh, holder, holder, cr.token, nonce, tok, true, inp.retErr, saved, 0);
    AddToLiquidityAgrees(c, saved.users, saved.sys, cr.token, nonce, ToNat(cr.quantity), after.sys);
  }

  /** A token that the caller holds, rewritten with a new value or new metadata. */
  lemma RewriteAgrees(c: Config, sh: Shard, a: Address, t: Bytes, nonce: uint64, own: Token, tok: Token,
                      mustUpdate: bool, retErr: bool, saved: Shard)
    requires Active(c) && Agrees(sh) && ValidToken(t) && nonce > 0
    requires ReadTokenOnSender(c, sh, a, t, nonce) == Ok(own)
    requires tok.value >= 0 && (own.meta.Some? ==> tok.meta.Some?)
    requires tok.value > 0 ==> own.value > 0 || tok.meta.Some?
    requires SaveToken(c, sh, a, a, t, nonce, tok, mustUpdate, retErr) == Ok(saved)
    ensures own.value == Balance(sh.users, a, TokenKey(t, nonce))
    ensures AgreesUpTo(saved.users, saved.sys, TokenKey(t, nonce), own.value - tok.value)
  {
    ReadTokenValue(c, sh, a, t, nonce);
    if own.value > 0 {
      HolderReadsMetadata(c, sh, a, t, nonce);
    }
    NoOffset(sh.users, sh.sys, [], TokenKey(t, nonce));
    SaveTokenAgrees(c, sh, a, a, t, nonce, tok, mustUpdate, retErr, saved, 0);
  }

  /** The rewrite, followed by the counter's share of it. */
  lemma RewriteAndCountAgrees(c: Config, sh: Shard, a: Address, t: Bytes, nonce: uint64, own: Token, tok: Token,
                              retErr: bool, saved: Shard, sys: Sys)
    requires Active(c) && Agrees(sh) && ValidToken(t) && nonce > 0
    requires ReadTokenOnSender(c, sh, a, t, nonce) == Ok(own)
    requires tok.value >= 0 && (own.meta.Some? ==> tok.meta.Some?)
    requires tok.value > 0 ==> own.value > 0 || tok.meta.Some?
    requires SaveToken(c, sh, a, a, t, nonce, tok, false, retErr) == Ok(saved)
    requires AddToLiquidity(c, saved.sys, t, nonce, tok.value - own.value) == Ok(sys)
    ensures Agrees(saved.(sys := sys))
  {
    hide SaveToken, ReadToken, HoldersHaveEntry, CountsUpTo, IsNftKey;
    RewriteAgrees(c, sh, a, t, nonce, own, tok, false, retErr, saved);
    AddToLiquidityAgrees(c, saved.users, saved.sys, t, nonce, tok.value - own.value, sys);
  }

  /** Quantity cannot be added to an empty holding without an entry: the liquidity step fails. */
  lemma NoEntryNoQuantity(c: Config, sh: Shard, a: Address, t: Bytes, nonce: uint64, tok: Token, retErr: bool, saved: Shard, delta: int)
    requires Active(c) && nonce > 0 && tok.meta.None? && TokenKey(t, nonce) !in sh.sys
    requires SaveToken(c, sh, a, a, t, nonce, tok, false, retErr) == Ok(saved)
    ensures AddToLiquidity(c, saved.sys, t, nonce, delta) == Err(ErrNilDCTData)
  {
  }

  lemma AddQuantityAgrees(c: Config, sh: Shard, inp: Input, t: Bytes, nonce: uint64, quantity: Bytes, after: Shard, out: Output)
    requires Active(c) && Agrees(sh) && ValidToken(t)
    requires AddQuantity(c, sh, inp, t, nonce, quantity) == Ok((after, out))
    ensures Agrees(after)
  {
    hide SaveToken, HoldersHaveEntry;
    var own := ReadTokenOnSender(c, sh, inp.caller, t, nonce).value;
    var more := own.(value := own.value + ToNat(quantity));
    var saved := SaveToken(c, sh, inp.caller, inp.caller, t, nonce, more, false, inp.retErr).value;
    NftKeyIntro(t, nonce);
    if own.meta.None? && TokenKey(t, nonce) !in sh.sys {
      NoEntryNoQuantity(c, sh, inp.caller, t, nonce, more, inp.retErr, saved, ToNat(quantity));
    } else {
      ReadTokenValue(c, sh, inp.caller, t, nonce);
      NonNegativeBalance(sh.users, inp.caller, TokenKey(t, nonce));
      RewriteAndCountAgrees(c, sh, inp.caller, t, nonce, own, more, inp.retErr, saved, after.sys);
    }
  }

  lemma BurnAgrees(c: Config, sh: Shard, inp: Input, t: Bytes, nonce: uint64, value: nat, after: Shard, out: Output)
    requires Active(c) && Agrees(sh) && ValidToken(t)
    requires Burn(c, sh, inp, t, nonce, value) == Ok((after, out))
    ensures Agrees(after)
  {
    hide SaveToken, HoldersHaveEntry, AddToLiquidity;
    var own := ReadTokenOnSender(c, sh, inp.caller, t, nonce).value;
    var less := own.(value := own.value - value);
    var saved := SaveToken(c, sh, inp.caller, inp.caller, t, nonce, less, false, inp.retErr).value;
    RewriteAndCountAgrees(c, sh, inp.caller, t, nonce, own, less, inp.retErr, saved, after.sys);
  }

  lemma UpdateAgrees(c: Config, sh: Shard, inp: Input, t: Bytes, nonce: uint64, update: Update, after: Shard, out: Output)
    requires Active(c) && Agrees(sh) && ValidToken(t)
    requires UpdateMeta(c, sh, inp, t, nonce, update) == Ok((after, out))
    ensures Agrees(after)
  {
    ReadTokenValue(c, sh, inp.caller, t, nonce);
    NonNegativeBalance(sh.users, inp.caller, TokenKey(t, nonce));
    var own := ReadTokenOnSender(c, sh, inp.caller, t, nonce).value;
    var updated := own.(meta := Some(update.Apply(own.meta.value)));
    RewriteAgrees(c, sh, inp.caller, t, nonce, own, updated, true, inp.retErr, after);
    NoOffset(after.users, after.sys, TokenKey(t, nonce), []);
  }

  // ---- deliveries ----

  lemma CreditOneAgrees(c: Config, sh: Shard, env: Envelope, item: Item, after: Shard)
    requires Active(c) && Agrees(sh) && GoodItem(item) && c.shardOf(env.caller) != c.shardOf(env.recipient)
    requires env.carrier == ByNftTransfer ==> item.nonce > 0
    requires CreditOne(c, sh, env, item) == Ok(after)
    ensures Agrees(after)
  {
    if env.carrier == ByNftTransfer || (env.carrier == ByMultiTransfer && item.nonce > 0) {
      var r := AddToDestination(c, sh, env.caller, env.recipient, ArrivingToken(item), item.token, item.nonce, env.retErr).value;
      CreditFromElsewhereAgrees(c, sh, env.caller, env.recipient, ArrivingToken(item), item.token, item.nonce,
                                env.retErr, r.0, r.1);
    } else {
      AddToBalanceAgrees(c, sh, env.recipient, item.token, item.Value(), env.retErr, after);
    }
  }

  lemma {:induction false} CreditAllAgrees(c: Config, sh: Shard, env: Envelope, items: seq<Item>)
    requires Active(c) && Agrees(sh) && c.shardOf(env.caller) != c.shardOf(env.recipient)
    requires forall i :: 0 <= i < |items| ==> GoodItem(items[i])
    requires env.carrier == ByNftTransfer ==> forall i :: 0 <= i < |items| ==> items[i].nonce > 0
    requires CreditAll(c, sh, env, items).Ok?
    ensures Agrees(CreditAll(c, sh, env, items).value)
  {
    if items != [] {
      var last := |items| - 1;
      CreditAllAgrees(c, sh, env, items[..last]);
      var before := CreditAll(c, sh, env, items[..last]).value;
      CreditOneAgrees(c, before, env, items[last], CreditOne(c, before, env, items[last]).value);
    }
  }

  // ---- whole runs ----

  /**
   * What the protocol asks of a call: identifiers accepted by ValidateToken, wiped keys whose nonce has no dash byte,
   * and created nonces of which the creator holds nothing yet.
   */
  ghost predicate Allowed(sh: Shard, call: Call) {
    && ValidTokens(call)
    && (call.CreateCall? ==>
          var nonce := NextNonce(sh, call.holder, call.cr.token);
          nonce > 0 && Balance(sh.users, call.holder, TokenKey(call.cr.token, nonce)) == 0)
    && (call.WipeCall? ==> Wipeable(call.key))
  }

  lemma TransferAgrees(c: Config, sh: Shard, call: Call, after: Shard, out: Output)
    requires Active(c) && Agrees(sh) && RunsIn(c, call, c.self) && Allowed(sh, call) && IsTransfer(call)
    requires Execute(c, sh, call) == Ok((after, out))
    ensures Agrees(after) && GoodNet(c, out.sent)
  {
    match call
    case FungibleCall(inp, dst, t, value, extra) => FungibleSendAgrees(c, sh, inp, dst, t, value, extra, after, out);
    case NftCall(inp, dst, mv, extra) => NftSendAgrees(c, sh, inp, dst, mv, extra, after, out);
    case MultiCall(inp, dst, moves, extra) => MultiSendAgrees(c, sh, inp, dst, moves, extra, after, out);
  }

  lemma NftCallAgrees(c: Config, sh: Shard, call: Call, after: Shard, out: Output)
    requires Active(c) && Agrees(sh) && Allowed(sh, call) && IsNftCall(call)
    requires Execute(c, sh, call) == Ok((after, out))
    ensures Agrees(after) && out.sent == []
  {
    hide IsNftKey, AgreesUpTo, SaveToken, AddToLiquidity;
    match call
    case CreateCall(inp, holder, cr) => CreateAgrees(c, sh, inp, holder, cr, after, out);
    case AddQuantityCall(inp, t, nonce, quantity) => AddQuantityAgrees(c, sh, inp, t, nonce, quantity, after, out);
    case BurnCall(inp, t, nonce, value) => BurnAgrees(c, sh, inp, t, nonce, value, after, out);
    case UpdateCall(inp, t, nonce, update) => UpdateAgrees(c, sh, inp, t, nonce, update, after, out);
  }

  lemma OtherCallAgrees(c: Config, sh: Shard, call: Call, after: Shard, out: Output)
    requires Active(c) && Agrees(sh) && Allowed(sh, call) && !IsTransfer(call) && !IsNftCall(call)
    requires Execute(c, sh, call) == Ok((after, out))
    ensures Agrees(after) && out.sent == []
  {
    match call
    case MintCall(inp, t, quantity) => AddToBalanceAgrees(c, sh, inp.caller, t, ToNat(quantity), inp.retErr, after);
    case BurnFungibleCall(inp, t, value) => AddToBalanceAgrees(c, sh, inp.caller, t, -(value as int), inp.retErr, after);
    case FreezeCall(a, k, freeze) => FreezeAgrees(sh, a, k, freeze);
    case WipeCall(a, k) => WipeAgrees(c, sh, a, k, after);
    case SettingCall(t, which, on) => SettingAgrees(sh, t, which, on);
    case RolesCall(a, t, roles, addresses, restart) =>
  }

  lemma ExecuteAgrees(c: Config, sh: Shard, call: Call, after: Shard, out: Output)
    requires Active(c) && Agrees(sh) && RunsIn(c, call, c.self) && Allowed(sh, call)
    requires Execute(c, sh, call) == Ok((after, out))
    ensures Agrees(after) && GoodNet(c, out.sent)
  {
    if IsTransfer(call) {
      TransferAgrees(c, sh, call, after, out);
    } else if IsNftCall(call) {
      NftCallAgrees(c, sh, call, after, out);
    } else {
      OtherCallAgrees(c, sh, call, after, out);
    }
  }

  ghost predicate WorldAgrees(c: Config, w: World) {
    (forall s :: 0 <= s < |w.shards| ==> Agrees(w.shards[s])) && GoodNet(c, w.net)
  }

  ghost predicate AllowedAction(w: World, act: Action) {
    act.Run? && act.shard < |w.shards| ==> Allowed(w.shards[act.shard], act.call)
  }

  lemma RunStepAgrees(c: Config, w: World, s: nat, call: Call, after: World)
    requires Active(c) && WorldAgrees(c, w) && Next(c, w, Run(s, call)) == Some(after)
    requires Allowed(w.shards[s], call)
    ensures WorldAgrees(c, after)
  {
    var (sh, out) := Execute(At(c, s), w.shards[s], call).value;
    assert RunsIn(At(c, s), call, s);
    ExecuteAgrees(At(c, s), w.shards[s], call, sh, out);
    assert forall i :: 0 <= i < |out.sent| ==> GoodEnvelope(At(c, s), out.sent[i]) && GoodEnvelope(c, out.sent[i]);
  }

  lemma ArriveStepAgrees(c: Config, w: World, i: nat, gas: uint64, after: World)
    requires Active(c) && WorldAgrees(c, w) && Next(c, w, Arrive(i, gas)) == Some(after)
    ensures WorldAgrees(c, after)
  {
    var env := w.net[i];
    var s := c.shardOf(env.recipient);
    assert GoodEnvelope(c, env);
    match Deliver(At(c, s), w.shards[s], env, gas)
    case Ok((sh, _)) =>
      CreditAllAgrees(At(c, s), w.shards[s], env, env.items);
    case Err(_) =>
      assert after.shards[s] == w.shards[s];
      assert GoodEnvelope(c, Bounce(env));
  }

  /** A run whose calls are all allowed, each in the state it meets. */
  ghost predicate AllowedRun(c: Config, w: World, acts: seq<Action>) {
    acts == [] ||
    var last := |acts| - 1;
    && AllowedRun(c, w, acts[..last])
    && (Reach(c, w, acts[..last]).Some? ==> AllowedAction(Reach(c, w, acts[..last]).value, acts[last]))
  }

  lemma {:induction false} RunAgrees(c: Config, w: World, acts: seq<Action>, after: World)
    requires Active(c) && WorldAgrees(c, w) && AllowedRun(c, w, acts) && Reach(c, w, acts) == Some(after)
    ensures WorldAgrees(c, after)
  {
    if acts != [] {
      var last := |acts| - 1;
      var v := Reach(c, w, acts[..last]).value;
      RunAgrees(c, w, acts[..last], v);
      match acts[last]
      case Run(s, call) => RunStepAgrees(c, v, s, call, after);
      case Arrive(i, gas) => ArriveStepAgrees(c, v, i, gas, after);
      case HandOver(from, to, t) => HandOverKeepsTokens(c, v, from, to, t, after);
    }
  }

  lemma GenesisAgrees(c: Config, w: World)
    requires Genesis(w)
    ensures WorldAgrees(c, w)
  {
  }

  /** In every state that a run from genesis reaches, each live counter equals its shard's balances. */
  lemma LiquidityIsTheSumOfBalances(c: Config, w: World, acts: seq<Action>, after: World, s: nat, key: Bytes)
    requires Active(c) && Genesis(w) && AllowedRun(c, w, acts) && Reach(c, w, acts) == Some(after)
    requires s < |after.shards| && IsNftKey(key) && key in after.shards[s].sys
    ensures after.shards[s].sys[key].Entry?
    ensures after.shards[s].sys[key].token.reserved != [] ==>
              after.shards[s].sys[key].token.value == Total(after.shards[s].users, key)
  {
    GenesisAgrees(c, w);
    RunAgrees(c, w, acts, after);
  }

  /** In every such state a positive balance comes with metadata in the holder's shard. */
  lemma HoldersAlwaysReadMetadata(c: Config, w: World, acts: seq<Action>, after: World, s: nat, a: Address, t: Bytes, nonce: uint64)
    requires Active(c) && Genesis(w) && AllowedRun(c, w, acts) && Reach(c, w, acts) == Some(after)
    requires s < |after.shards| && ValidToken(t) && nonce > 0 && Balance(after.shards[s].users, a, TokenKey(t, nonce)) > 0
    ensures ReadToken(At(c, s), after.shards[s], a, t, nonce).Ok?
    ensures ReadToken(At(c, s), after.shards[s], a, t, nonce).value.0.meta.Some?
  {
    GenesisAgrees(c, w);
    RunAgrees(c, w, acts, after);
    HolderReadsMetadata(At(c, s), after.shards[s], a, t, nonce);
  }

  /**
   * Taking a positive amount off a holder never meets the error for a negative counter, the error for a missing
   * entry, or the branch for tokens older than the protocol.
   */
  lemma DebitNeverMeetsDeadBranches(c: Config, sh: Shard, snd: Address, mv: Move, retErr: bool, shipped: Token, debited: Shard)
    requires Active(c) && Agrees(sh) && ValidToken(mv.token) && mv.nonce > 0 && mv.value > 0
    requires IsDebit(c, sh, snd, mv, retErr, shipped, debited)
    ensures AddToLiquidity(c, debited.sys, mv.token, mv.nonce, -(mv.value as int)).Ok?
    ensures var entry := debited.sys[TokenKey(mv.token, mv.nonce)];
      entry.Entry? && (entry.token.reserved != [] ==> !IsOldTokenBranch(c, entry.token, -(mv.value as int)))
  {
    DebitAgrees(c, sh, snd, mv, retErr, shipped, debited);
    NftKeyIntro(mv.token, mv.nonce);
    TotalBounds(debited.users, snd, TokenKey(mv.token, mv.nonce));
  }

  /** The counter of an NFT that somebody holds is live and large enough, or not kept at all. */
  lemma CounterCoversBalance(c: Config, sh: Shard, a: Address, t: Bytes, nonce: uint64, value: nat)
    requires Active(c) && Agrees(sh) && ValidToken(t) && nonce > 0 && 0 < value <= Balance(sh.users, a, TokenKey(t, nonce))
    ensures TokenKey(t, nonce) in sh.sys && sh.sys[TokenKey(t, nonce)].Entry?
    ensures AddToLiquidity(c, sh.sys, t, nonce, -(value as int)).Ok?
    ensures var entry := sh.sys[TokenKey(t, nonce)].token;
            entry.reserved != [] ==> !IsOldTokenBranch(c, entry, -(value as int))
  {
    var key := TokenKey(t, nonce);
    NftKeyIntro(t, nonce);
    NonNegativeUsers(sh);
    TotalBounds(sh.users, a, key);
  }

  lemma NonNegativeUsers(sh: Shard)
    requires Agrees(sh)
    ensures NonNegative(sh.users)
  {
  }

  /** Neither does a burn of a positive amount that the holder has: it fails before the counter, or not at all. */
  lemma BurnNeverMeetsDeadBranches(c: Config, sh: Shard, inp: Input, t: Bytes, nonce: uint64, value: nat)
    requires Active(c) && Agrees(sh) && ValidToken(t) && nonce > 0 && 0 < value <= Balance(sh.users, inp.caller, TokenKey(t, nonce))
    requires c.costs.burn <= inp.gasProvided && (IsBurnForAll(sh.sys, t) || HasRole(sh, inp.caller, t, Role.NFTBurn))
    ensures ReadTokenOnSender(c, sh, inp.caller, t, nonce).Ok?
    ensures var own := ReadTokenOnSender(c, sh, inp.caller, t, nonce).value;
            var saved := SaveToken(c, sh, inp.caller, inp.caller, t, nonce, own.(value := own.value - value), false, inp.retErr);
            Burn(c, sh, inp, t, nonce, value).Ok? <==> saved.Ok?
    ensures AddToLiquidity(c, sh.sys, t, nonce, -(value as int)).Ok?
  {
    hide SaveToken, AddToLiquidity, HasRole;
    var key := TokenKey(t, nonce);
    CounterCoversBalance(c, sh, inp.caller, t, nonce, value);
    HolderReadsMetadata(c, sh, inp.caller, t, nonce);
    ReadTokenValue(c, sh, inp.caller, t, nonce);
    var own := ReadTokenOnSender(c, sh, inp.caller, t, nonce).value;
    var saved := SaveToken(c, sh, inp.caller, inp.caller, t, nonce, own.(value := own.value - value), false, inp.retErr);
    if saved.Ok? {
      CounterAfterSave(c, sh, inp.caller, t, nonce, own, value, inp.retErr, saved.value);
    }
  }

  lemma CounterAfterSave(c: Config, sh: Shard, a: Address, t: Bytes, nonce: uint64, own: Token, value: nat, retErr: bool, saved: Shard)
    requires Active(c) && Agrees(sh) && ValidToken(t) && nonce > 0 && 0 < value <= Balance(sh.users, a, TokenKey(t, nonce))
    requires ReadTokenOnSender(c, sh, a, t, nonce) == Ok(own)
    requires SaveToken(c, sh, a, a, t, nonce, own.(value := own.value - value), false, retErr) == Ok(saved)
    ensures AddToLiquidity(c, saved.sys, t, nonce, -(value as int)).Ok?
  {
    var mv := Move(t, nonce, value);
    ReadTokenValue(c, sh, a, t, nonce);
    assert IsDebit(c, sh, a, mv, retErr, own.(value := value), saved);
    DebitNeverMeetsDeadBranches(c, sh, a, mv, retErr, own.(value := value), saved);
  }

  /** A wipe of a positive frozen balance always succeeds, if no byte of the nonce is a dash. */
  lemma WipeNeverMeetsDeadBranches(c: Config, sh: Shard, a: Address, t: Bytes, nonce: uint64)
    requires Active(c) && Agrees(sh) && ValidToken(t) && nonce > 0 && DASH !in FromNat(nonce)
    requires var key := TokenKey(t, nonce); Balance(sh.users, a, key) > 0 && Frozen(sh.users[(a, key)].properties)
    ensures Wipe(c, sh, a, TokenKey(t, nonce)).Ok?
  {
    hide AddToLiquidity, ExtractForWipe, Agrees, FromNat, ValidToken, TokenKey;
    CounterCoversBalance(c, sh, a, t, nonce, Balance(sh.users, a, TokenKey(t, nonce)));
    WipeSplitIsExact(t, nonce);
  }

  /** Crediting a positive amount from another shard does not fail at the counter either. */
  lemma CreditNeverMeetsDeadBranches(c: Config, sh: Shard, snd: Address, dst: Address, tok: Token, t: Bytes, nonce: uint64,
                                     retErr: bool, saved: Shard)
    requires Active(c) && Agrees(sh) && ValidToken(t) && nonce > 0 && tok.value > 0 && tok.meta.Some?
    requires SaveToken(c, sh, snd, dst, t, nonce, tok.(value := tok.value + Balance(sh.users, dst, TokenKey(t, nonce))),
                       false, retErr) == Ok(saved)
    ensures AddToLiquidity(c, saved.sys, t, nonce, tok.value).Ok?
  {
    hide SaveToken;
    var key := TokenKey(t, nonce);
    NonNegativeBalance(sh.users, dst, key);
    NoOffset(sh.users, sh.sys, [], key);
    NftKeyIntro(t, nonce);
    SaveTokenAgrees(c, sh, snd, dst, t, nonce, tok.(value := tok.value + Balance(sh.users, dst, key)), false, retErr, saved, 0);
    TotalBounds(saved.users, dst, key);
  }
}
