/** What single operations achieve, told in balances, bits, settings and counters. */
module Effects {
  import opened Bytes
  import opened Keys
  import opened Wrappers
  import opened Ledger
  import opened Operations
  import opened Totals
  import opened Conservation

  /** One balance changes by `delta`; every other balance stays. */
  ghost predicate Adds(before: Users, after: Users, a: Address, key: Bytes, delta: int) {
    SetsBalance(before, after, a, key, Balance(before, a, key) + delta)
  }

  /** No other holding changes, of this account or any other. */
  ghost predicate OnlyHolding(before: Users, after: Users, a: Address, key: Bytes) {
    forall x :: x != (a, key) ==> (x in after <==> x in before) && (x in before ==> after[x] == before[x])
  }

  /** The system account has metadata under a key. */
  predicate HasMetadata(sys: Sys, key: Bytes) {
    key in sys && sys[key].Entry? && sys[key].token.meta.Some?
  }

  /** Nothing but metadata is stored under the key, if anything is. */
  predicate NoOtherEntry(sys: Sys, key: Bytes) {
    key in sys ==> HasMetadata(sys, key)
  }

  /** A write sets the balance and stores the token, without its metadata where the system account keeps that; it needs a holder who is neither frozen nor paused, and leaves metadata where there is some. */
  ghost predicate Writes(c: Config, before: Shard, after: Shard, a: Address, t: Bytes, nonce: uint64, tok: Token, retErr: bool) {
    && (tok.value >= 0 ==> SetsBalance(before.users, after.users, a, TokenKey(t, nonce), tok.value))
    && ((a, TokenKey(t, nonce)) in after.users <==> tok.value > 0)
    && (tok.value > 0 && c.flags.saveToSystem ==>
          after.users[(a, TokenKey(t, nonce))] == Token(tok.kind, tok.value, tok.properties, None, []))
    && (tok.value > 0 && !c.flags.saveToSystem ==> after.users[(a, TokenKey(t, nonce))] == tok)
    && (!retErr && a != c.dctSC ==> !Frozen(tok.properties) && !IsPaused(before.sys, t))
    && (c.flags.saveToSystem && nonce > 0 && tok.meta.Some? && NoOtherEntry(before.sys, TokenKey(t, nonce)) ==>
          HasMetadata(after.sys, TokenKey(t, nonce)))
  }

  lemma SaveTokenWrites(c: Config, sh: Shard, snd: Address, a: Address, t: Bytes, nonce: uint64, tok: Token,
                        mustUpdate: bool, retErr: bool, after: Shard)
    requires SaveToken(c, sh, snd, a, t, nonce, tok, mustUpdate, retErr) == Ok(after)
    ensures Writes(c, sh, after, a, t, nonce, tok, retErr)
  {
    hide SetsBalance;
    if tok.value >= 0 {
      SaveTokenSets(c, sh, snd, a, t, nonce, tok, mustUpdate, retErr, after);
    }
  }

  /** Without the bitmap, tokens count as sent within the shard and, in the bitmap protocol, to the metachain. */
  predicate CountsAsSent(c: Config, nonce: uint64, dst: Address) {
    && c.flags.saveToSystem
    && (nonce == 0 || c.shardOf(dst) == c.self || (!c.flags.sendAlways && c.shardOf(dst) == METACHAIN))
  }

  /** The regime in which the answer comes from the bitmap. */
  predicate AsksBitmap(c: Config, nonce: uint64, dst: Address) {
    c.flags.saveToSystem && !c.flags.sendAlways && nonce > 0 && c.shardOf(dst) != c.self && c.shardOf(dst) != METACHAIN
  }

  /** The bit of the destination's shard is answered and then set; nothing else of any entry changes. */
  ghost predicate AnswersAndSets(c: Config, before: Sys, after: Sys, key: Bytes, d: nat, answer: bool) {
    && (forall k :: k in before <==> k in after)
    && (answer <==> key in before && before[key].Entry? && BitSet(before[key].token.properties, d))
    && (key in before && before[key].Entry? && d < c.numShards ==> after[key].Entry? && BitSet(after[key].token.properties, d))
    && (forall k :: k in before && k != key ==> after[k] == before[k])
    && (key in before && before[key].Entry? ==>
          && after[key].Entry? && after[key].token == before[key].token.(properties := after[key].token.properties)
          && forall u: nat :: u != d ==> BitSet(after[key].token.properties, u) == BitSet(before[key].token.properties, u))
  }

  lemma CreditAdds(c: Config, sh: Shard, snd: Address, dst: Address, tok: Token, t: Bytes, nonce: uint64, retErr: bool,
                   after: Shard, merged: Token)
    requires AddToDestination(c, sh, snd, dst, tok, t, nonce, retErr) == Ok((after, merged))
    requires Balance(sh.users, dst, TokenKey(t, nonce)) + tok.value >= 0
    ensures Adds(sh.users, after.users, dst, TokenKey(t, nonce), tok.value)
    ensures merged.value == Balance(after.users, dst, TokenKey(t, nonce))
  {
    hide AddToDestination;
    AddToDestinationSets(c, sh, snd, dst, tok, t, nonce, retErr, after, merged);
  }

  /** The stored token, with the metadata of the shard where it has any; an empty fungible token if nothing is stored. */
  ghost predicate Reads(c: Config, sh: Shard, a: Address, t: Bytes, nonce: uint64, tok: Token, isNew: bool) {
    var key := TokenKey(t, nonce);
    && tok.value == Balance(sh.users, a, key) && (isNew <==> (a, key) !in sh.users)
    && (isNew ==> tok == Token(Fungible, 0, [], None, []))
    && (!isNew ==> tok == sh.users[(a, key)].(meta :=
          if c.flags.saveToSystem && nonce > 0 && HasMetadata(sh.sys, key) then sh.sys[key].token.meta else sh.users[(a, key)].meta))
  }

  /** A fungible balance changes by the amount; what is left is stored unless it is empty without properties. */
  ghost predicate ChangesFungible(before: Users, after: Users, a: Address, t: Bytes, delta: int) {
    && Adds(before, after, a, t, delta) && OnlyHolding(before, after, a, t)
    && ((a, t) in after ==>
          after[(a, t)] == (if (a, t) in before then before[(a, t)] else Token(Fungible, 0, [], None, [])).(value := Balance(before, a, t) + delta))
    && ((a, t) !in after ==> (a, t) in before ==> forall i :: 0 <= i < |before[(a, t)].properties| ==> before[(a, t)].properties[i] == 0)
  }

  lemma AddToBalanceChanges(c: Config, sh: Shard, a: Address, t: Bytes, delta: int, retErr: bool, after: Shard)
    requires AddToBalance(c, sh, a, t, delta, retErr) == Ok(after)
    ensures ChangesFungible(sh.users, after.users, a, t, delta)
  {
    hide SetsBalance, CheckFrozeAndPause, Balance;
    AddToBalanceSets(c, sh, a, t, delta, retErr, after);
    BalanceRead(sh.users, a, t);
  }

  lemma BalanceRead(users: Users, a: Address, t: Bytes)
    ensures ReadRaw(users, a, t).value == Balance(users, a, t)
  {
  }

  /** What an arriving item stores: the sum, with the kind and properties of a payload, or those of a plain NFT. */
  lemma ArrivalStores(c: Config, sh: Shard, env: Envelope, item: Item, after: Shard)
    requires CreditOne(c, sh, env, item) == Ok(after) && item.nonce > 0 && env.carrier != ByTransfer
    ensures var key := item.Key();
      var sum := Balance(sh.users, env.recipient, key) + item.Value();
      && ((env.recipient, key) in after.users <==> sum > 0)
      && (sum > 0 ==>
            var stored := after.users[(env.recipient, key)];
            stored.value == sum && stored.kind == (if item.body.Payload? then item.body.data.kind else NonFungible)
            && stored.properties == (if item.body.Payload? then item.body.data.properties else []))
  {
    hide TokenKey, SaveToken, AddToLiquidity, Writes;
    var (end, merged) := AddToDestination(c, sh, env.caller, env.recipient, ArrivingToken(item), item.token, item.nonce, env.retErr).value;
    var saved := AddToDestinationWrite(c, sh, env.caller, env.recipient, ArrivingToken(item), item.token, item.nonce, env.retErr, end, merged);
    SaveTokenWrites(c, sh, env.caller, env.recipient, item.token, item.nonce, merged, false, env.retErr, saved);
    WritesStore(c, sh, saved, env.recipient, item.token, item.nonce, merged, env.retErr);
  }

  lemma WritesStore(c: Config, before: Shard, after: Shard, a: Address, t: Bytes, nonce: uint64, tok: Token, retErr: bool)
    requires Writes(c, before, after, a, t, nonce, tok, retErr)
    ensures (a, TokenKey(t, nonce)) in after.users <==> tok.value > 0
    ensures tok.value > 0 ==>
              var stored := after.users[(a, TokenKey(t, nonce))];
              stored.value == tok.value && stored.kind == tok.kind && stored.properties == tok.properties
  {
  }

  /** A transfer without nonce: the sender loses and a destination in the shard gains, which cancels for oneself. */
  ghost predicate MovesFungible(before: Users, after: Users, snd: Address, dst: Address, here: bool, t: Bytes, value: nat) {
    forall x, k :: Balance(after, x, k)
      == Balance(before, x, k) - (if x == snd && k == t then value else 0) + (if here && x == dst && k == t then value else 0)
  }

  lemma FungibleSendMoves(c: Config, sh: Shard, inp: Input, dst: Address, t: Bytes, value: nat, extra: seq<Bytes>,
                          after: Shard, out: Output)
    requires FungibleSend(c, sh, inp, dst, t, value, extra) == Ok((after, out))
    ensures MovesFungible(sh.users, after.users, inp.caller, dst, ToShard(c, dst), t, value)
    ensures Balance(sh.users, inp.caller, t) >= value
  {
    hide AddToBalance, CheckLimitedTransfer, CheckPayable, IsSCCallAfter, Total, NonNegative;
    var debited := AddToBalance(c, sh, inp.caller, t, -(value as int), inp.retErr).value;
    AddToBalanceSets(c, sh, inp.caller, t, -(value as int), inp.retErr, debited);
    if ToShard(c, dst) {
      AddToBalanceSets(c, debited, dst, t, value, inp.retErr, after);
    }
  }

  lemma NftSendMoves(c: Config, sh: Shard, inp: Input, dst: Address, mv: Move, extra: seq<Bytes>, after: Shard, out: Output)
    requires NftSend(c, sh, inp, dst, mv, extra) == Ok((after, out)) && NonNegative(sh.users)
    ensures MovesBalances(sh.users, after.users, inp.caller, dst, ToShard(c, dst), mv)
  {
    hide NftSendOne, NftShip, Finish, MovesBalances, NonNegative;
    var (moved, tok) := NftSendOne(c, sh, inp, dst, mv, extra).value;
    NftSendOneMoves(c, sh, inp, dst, mv, extra, moved, tok);
  }

  lemma MultiSendMoves(c: Config, sh: Shard, inp: Input, dst: Address, moves: seq<Move>, extra: seq<Bytes>, after: Shard, out: Output)
    requires MultiSend(c, sh, inp, dst, moves, extra) == Ok((after, out)) && NonNegative(sh.users)
    ensures FoldsBalances(sh.users, after.users, inp.caller, dst, ToShard(c, dst), moves)
  {
    hide SendAll, ShipAll, Finish, CheckPayable, FoldsBalances, NonNegative;
    var (moved, tokens) := SendAll(c, sh, inp.caller, dst, moves, inp.retErr).value;
    MultiTransferIsAFold(c, sh, inp.caller, dst, moves, inp.retErr, moved, tokens);
  }

  /** A creation: the creator's counter advances by one, its new nonce holds the quantity, and the metadata is there. */
  ghost predicate Creates(c: Config, before: Shard, after: Shard, caller: Address, holder: Address, cr: Creation) {
    var nonce := Wrap64(LatestNonce(before, holder, cr.token) + 1);
    && SetsBalance(before.users, after.users, holder, TokenKey(cr.token, nonce), ToNat(cr.quantity))
    && LatestNonce(after, holder, cr.token) == nonce
    && (forall b, u :: (b, u) != (holder, cr.token) ==> LatestNonce(after, b, u) == LatestNonce(before, b, u))
    && HasRole(before, holder, cr.token, Role.NFTCreate) && (ToNat(cr.quantity) > 1 ==> HasRole(before, holder, cr.token, Role.NFTAddQuantity))
    && (c.flags.saveToSystem && !c.flags.sendAlways && nonce > 0 ==>
          HasMetadata(after.sys, TokenKey(cr.token, nonce))
          && after.sys[TokenKey(cr.token, nonce)].token.meta.value.creator == caller)
  }

  lemma CreateCreates(c: Config, sh: Shard, inp: Input, holder: Address, cr: Creation, after: Shard, out: Output)
    requires Create(c, sh, inp, holder, cr) == Ok((after, out))
    ensures Creates(c, sh, after, inp.caller, holder, cr)
  {
    hide SaveToken, HasRole, ToNat, SetsBalance;
    var nonce := NextNonce(sh, holder, cr.token);
    var meta := MetaData(nonce, cr.name, inp.caller, cr.royalties, cr.hash, cr.attributes, cr.uris);
    var tok := Token(NonFungible, ToNat(cr.quantity), [], Some(meta), []);
    var saved := SaveToken(c, sh, holder, holder, cr.token, nonce, tok, true, inp.retErr).value;
    SaveTokenSets(c, sh, holder, holder, cr.token, nonce, tok, true, inp.retErr, saved);
    if c.flags.saveToSystem && nonce > 0 {
      SavesMetadata(c, sh, holder, cr.token, nonce, tok, inp.retErr, saved);
    }
  }

  lemma SavesMetadata(c: Config, sh: Shard, a: Address, t: Bytes, nonce: uint64, tok: Token, retErr: bool, saved: Shard)
    requires c.flags.saveToSystem && nonce > 0 && tok.meta.Some?
    requires SaveToken(c, sh, a, a, t, nonce, tok, true, retErr) == Ok(saved)
    ensures HasMetadata(saved.sys, TokenKey(t, nonce)) && saved.sys[TokenKey(t, nonce)].token.meta == tok.meta
  {
    hide CheckFrozenPauseProperties, TokenKey, NewProperties;
  }

  lemma AddQuantityAdds(c: Config, sh: Shard, inp: Input, t: Bytes, nonce: uint64, quantity: Bytes, after: Shard, out: Output)
    requires AddQuantity(c, sh, inp, t, nonce, quantity) == Ok((after, out)) && NonNegative(sh.users)
    ensures Adds(sh.users, after.users, inp.caller, TokenKey(t, nonce), ToNat(quantity))
    ensures nonce > 0 && HasRole(sh, inp.caller, t, Role.NFTAddQuantity)
  {
    hide AddToLiquidity, ReadToken, SaveToken, HasRole, SetsBalance;
    ReadTokenValue(c, sh, inp.caller, t, nonce);
    var tok := ReadTokenOnSender(c, sh, inp.caller, t, nonce).value;
    var more := tok.(value := tok.value + ToNat(quantity));
    var saved := SaveToken(c, sh, inp.caller, inp.caller, t, nonce, more, false, inp.retErr).value;
    NonNegativeBalance(sh.users, inp.caller, TokenKey(t, nonce));
    SaveTokenSets(c, sh, inp.caller, inp.caller, t, nonce, more, false, inp.retErr, saved);
  }

  lemma BurnTakes(c: Config, sh: Shard, inp: Input, t: Bytes, nonce: uint64, value: nat, after: Shard, out: Output)
    requires Burn(c, sh, inp, t, nonce, value) == Ok((after, out))
    ensures Adds(sh.users, after.users, inp.caller, TokenKey(t, nonce), -(value as int))
    ensures nonce > 0 && value <= Balance(sh.users, inp.caller, TokenKey(t, nonce))
  {
    hide AddToLiquidity, ReadToken, SaveToken, HasRole, SetsBalance;
    ReadTokenValue(c, sh, inp.caller, t, nonce);
    var tok := ReadTokenOnSender(c, sh, inp.caller, t, nonce).value;
    var less := tok.(value := tok.value - value);
    var saved := SaveToken(c, sh, inp.caller, inp.caller, t, nonce, less, false, inp.retErr).value;
    SaveTokenSets(c, sh, inp.caller, inp.caller, t, nonce, less, false, inp.retErr, saved);
  }

  lemma MintAdds(c: Config, sh: Shard, inp: Input, t: Bytes, quantity: Bytes, after: Shard, out: Output)
    requires Mint(c, sh, inp, t, quantity) == Ok((after, out))
    ensures Adds(sh.users, after.users, inp.caller, t, ToNat(quantity)) && HasRole(sh, inp.caller, t, LocalMint)
  {
    hide AddToBalance, SetsBalance, HasRole;
    AddToBalanceSets(c, sh, inp.caller, t, ToNat(quantity), inp.retErr, after);
  }

  lemma BurnFungibleTakes(c: Config, sh: Shard, inp: Input, t: Bytes, value: nat, after: Shard, out: Output)
    requires BurnFungible(c, sh, inp, t, value) == Ok((after, out))
    ensures Adds(sh.users, after.users, inp.caller, t, -(value as int)) && value <= Balance(sh.users, inp.caller, t)
  {
    hide AddToBalance, SetsBalance, HasRole;
    AddToBalanceSets(c, sh, inp.caller, t, -(value as int), inp.retErr, after);
  }

  // ---- what a holding keeps ----

  /** All but the amount stays, and the metadata is dropped where the system account keeps it. */
  predicate OnlyAmountChanges(c: Config, before: Token, after: Token) {
    || after == before.(value := after.value)
    || (c.flags.saveToSystem && after == before.(value := after.value, meta := None, reserved := []))
  }

  /** An account gets no new holding, and what it keeps changes in amounts only. */
  ghost predicate KeepsRest(c: Config, before: Users, after: Users, a: Address) {
    forall k :: (a, k) in after ==> (a, k) in before && OnlyAmountChanges(c, before[(a, k)], after[(a, k)])
  }

  /** A write of what was read, with another amount. */
  lemma RewriteKeepsRest(c: Config, sh: Shard, a: Address, t: Bytes, nonce: uint64, own: Token, value: int, retErr: bool, after: Shard)
    requires ReadTokenOnSender(c, sh, a, t, nonce) == Ok(own)
    requires SaveToken(c, sh, a, a, t, nonce, own.(value := value), false, retErr) == Ok(after)
    ensures KeepsRest(c, sh.users, after.users, a)
  {
    hide TokenKey, CheckFrozenPauseProperties, SaveMeta;
  }

  lemma CreditKeepsOthers(c: Config, sh: Shard, snd: Address, dst: Address, tok: Token, t: Bytes, nonce: uint64, retErr: bool,
                          after: Shard, merged: Token)
    requires snd != dst && AddToDestination(c, sh, snd, dst, tok, t, nonce, retErr) == Ok((after, merged))
    ensures KeepsRest(c, sh.users, after.users, snd)
  {
    hide TokenKey, CheckFrozenPauseProperties, CheckFrozeAndPause, SaveMeta, AddToLiquidity, ReadToken;
  }

  lemma KeepsRestTrans(c: Config, first: Users, second: Users, third: Users, a: Address)
    requires KeepsRest(c, first, second, a) && KeepsRest(c, second, third, a)
    ensures KeepsRest(c, first, third, a)
  {
  }

  lemma SendOneKeepsRest(c: Config, sh: Shard, snd: Address, dst: Address, mv: Move, retErr: bool, after: Shard, tok: Token)
    requires snd != dst && SendOne(c, sh, snd, dst, mv, retErr) == Ok((after, tok))
    ensures KeepsRest(c, sh.users, after.users, snd)
  {
    hide KeepsRest, SaveToken, ReadTokenOnSender, AddToDestination, AddToLiquidity, CheckLimitedTransfer;
    var own := ReadTokenOnSender(c, sh, snd, mv.token, mv.nonce).value;
    var (shipped, debited) := DebitForMulti(c, sh, snd, mv, retErr).value;
    RewriteKeepsRest(c, sh, snd, mv.token, mv.nonce, own, own.value - mv.value, retErr, debited);
    if ToShard(c, dst) {
      CreditKeepsOthers(c, debited, snd, dst, shipped, mv.token, mv.nonce, retErr, after, tok);
      KeepsRestTrans(c, sh.users, debited.users, after.users, snd);
    }
  }

  lemma {:induction false} SendAllKeepsRest(c: Config, sh: Shard, snd: Address, dst: Address, moves: seq<Move>, retErr: bool,
                                            after: Shard, tokens: seq<Token>)
    requires snd != dst && SendAll(c, sh, snd, dst, moves, retErr) == Ok((after, tokens))
    ensures KeepsRest(c, sh.users, after.users, snd)
  {
    hide SendOne;
    if moves != [] {
      hide KeepsRest;
      var last := |moves| - 1;
      var (mid, init) := SendAll(c, sh, snd, dst, moves[..last], retErr).value;
      SendAllKeepsRest(c, sh, snd, dst, moves[..last], retErr, mid, init);
      var (end, tok) := SendOne(c, mid, snd, dst, moves[last], retErr).value;
      SendOneKeepsRest(c, mid, snd, dst, moves[last], retErr, end, tok);
      KeepsRestTrans(c, sh.users, mid.users, after.users, snd);
    }
  }

  /** What the sender of a multi-transfer keeps differs in amounts only. */
  lemma MultiSenderKeepsRest(c: Config, sh: Shard, inp: Input, dst: Address, moves: seq<Move>, extra: seq<Bytes>, after: Shard, out: Output)
    requires MultiSend(c, sh, inp, dst, moves, extra) == Ok((after, out))
    ensures KeepsRest(c, sh.users, after.users, inp.caller)
  {
    hide SendAll, ShipAll, Finish, CheckPayable, KeepsRest;
    var (moved, tokens) := SendAll(c, sh, inp.caller, dst, moves, inp.retErr).value;
    SendAllKeepsRest(c, sh, inp.caller, dst, moves, inp.retErr, moved, tokens);
  }

  lemma NftSenderKeepsRest(c: Config, sh: Shard, inp: Input, dst: Address, mv: Move, extra: seq<Bytes>, after: Shard, out: Output)
    requires NftSend(c, sh, inp, dst, mv, extra) == Ok((after, out))
    ensures KeepsRest(c, sh.users, after.users, inp.caller)
  {
    hide KeepsRest, SaveToken, ReadTokenOnSender, AddToDestination, AddToLiquidity, CheckLimitedTransfer, CheckPayable, NftShip, Finish;
    var own := ReadTokenOnSender(c, sh, inp.caller, mv.token, mv.nonce).value;
    var (shipped, debited) := DebitForNft(c, sh, inp.caller, mv, inp.retErr).value;
    RewriteKeepsRest(c, sh, inp.caller, mv.token, mv.nonce, own, own.value - mv.value, inp.retErr, debited);
    if ToShard(c, dst) {
      var (end, tok) := NftMoveOn(c, debited, inp, dst, shipped, mv, extra).value;
      CreditKeepsOthers(c, debited, inp.caller, dst, shipped, mv.token, mv.nonce, inp.retErr, end, tok);
      KeepsRestTrans(c, sh.users, debited.users, after.users, inp.caller);
    }
  }

  /** Nor do a burn and an added quantity change anything but the amount. */
  lemma BurnerKeepsRest(c: Config, sh: Shard, inp: Input, t: Bytes, nonce: uint64, value: nat, after: Shard, out: Output)
    requires Burn(c, sh, inp, t, nonce, value) == Ok((after, out))
    ensures KeepsRest(c, sh.users, after.users, inp.caller)
  {
    hide KeepsRest, SaveToken, ReadTokenOnSender, AddToLiquidity, HasRole;
    var own := ReadTokenOnSender(c, sh, inp.caller, t, nonce).value;
    var saved := SaveToken(c, sh, inp.caller, inp.caller, t, nonce, own.(value := own.value - value), false, inp.retErr).value;
    RewriteKeepsRest(c, sh, inp.caller, t, nonce, own, own.value - value, inp.retErr, saved);
  }

  lemma AdderKeepsRest(c: Config, sh: Shard, inp: Input, t: Bytes, nonce: uint64, quantity: Bytes, after: Shard, out: Output)
    requires AddQuantity(c, sh, inp, t, nonce, quantity) == Ok((after, out))
    ensures KeepsRest(c, sh.users, after.users, inp.caller)
  {
    hide KeepsRest, SaveToken, ReadTokenOnSender, AddToLiquidity, HasRole, ToNat;
    var own := ReadTokenOnSender(c, sh, inp.caller, t, nonce).value;
    var more := own.value + ToNat(quantity);
    var saved := SaveToken(c, sh, inp.caller, inp.caller, t, nonce, own.(value := more), false, inp.retErr).value;
    RewriteKeepsRest(c, sh, inp.caller, t, nonce, own, more, inp.retErr, saved);
  }

  /** The holding is frozen exactly if asked; its amount stays, and an empty one is stored only to be frozen. */
  ghost predicate Freezes(before: Users, after: Users, a: Address, key: Bytes, freeze: bool) {
    && ((a, key) in after && Frozen(after[(a, key)].properties) <==> freeze)
    && Balance(after, a, key) == Balance(before, a, key) && OnlyHolding(before, after, a, key)
    && ((a, key) in after <==> freeze || Balance(before, a, key) != 0)
    && ((a, key) in before && (a, key) in after ==>
          after[(a, key)] == before[(a, key)].(properties := after[(a, key)].properties))
  }

  lemma ToggleFreezes(sh: Shard, a: Address, key: Bytes, freeze: bool)
    ensures Freezes(sh.users, ToggleFreeze(sh, a, key, freeze).users, a, key, freeze)
    ensures ToggleFreeze(sh, a, key, freeze) == sh.(users := ToggleFreeze(sh, a, key, freeze).users)
  {
    assert !AreZero([1, 0]) by {
      assert [1, 0][0] != 0;
    }
  }

  /** A frozen holding goes, whatever its amount; no other holding changes. */
  ghost predicate Wipes(before: Users, after: Users, a: Address, key: Bytes) {
    && (a, key) in before && Frozen(before[(a, key)].properties)
    && (a, key) !in after && OnlyHolding(before, after, a, key)
  }

  /** One setting of one token is as asked; its other settings, and all other entries, stay. */
  predicate Sets(before: Sys, after: Sys, key: Bytes, which: Setting, on: bool) {
    && IsPaused(after, key) == (if which.PauseSetting? then on else IsPaused(before, key))
    && IsLimitedTransfer(after, key) == (if which.LimitedTransferSetting? then on else IsLimitedTransfer(before, key))
    && IsBurnForAll(after, key) == (if which.BurnForAllSetting? then on else IsBurnForAll(before, key))
    && after - {key} == before - {key}
  }
}
