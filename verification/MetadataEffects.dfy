/** What the system account holds after metadata was offered to it, and what holders then read and ship. */
module MetadataEffects {
  import opened Bytes
  import opened Keys
  import opened Wrappers
  import opened Ledger
  import opened Operations
  import opened Conservation

  // ---- the entry that a save leaves ----

  /** Exactly the bits of this shard and of the sender's are set, the metachain aside. */
  ghost predicate BitsAre(c: Config, properties: Bytes, sndShard: nat) {
    forall u: nat :: BitSet(properties, u) <==> u < c.numShards && u != METACHAIN && (u == c.self || u == sndShard)
  }

  ghost predicate NoBits(properties: Bytes) {
    forall u: nat :: !BitSet(properties, u)
  }

  predicate KeepsOwnMetadata(user: Option<Option<Token>>) {
    user.Some? && user.value.Some? && user.value.value.meta.Some?
  }

  /** A written entry: the token's kind and metadata, amount zero, and either a fresh bitmap or the start of a counter. */
  ghost predicate Fresh(c: Config, entry: Token, user: Option<Option<Token>>, wasThere: bool, sndShard: nat, tok: Token) {
    && entry.kind == tok.kind && entry.value == 0 && entry.meta == tok.meta
    && (!c.flags.sendAlways ==> BitsAre(c, entry.properties, sndShard) && entry.reserved == [])
    && (c.flags.sendAlways ==>
          && NoBits(entry.properties)
          && (entry.reserved != [] <==> !wasThere && !(c.flags.fixOldLiquidity && KeepsOwnMetadata(user))))
  }

  /** An entry that is not written only takes over metadata, and only where it keeps no counter. */
  ghost predicate Refreshed(c: Config, before: SysValue, after: SysValue, tok: Token) {
    if c.flags.alwaysSaveMeta && c.flags.sendAlways && before.Entry? && before.token.reserved == []
    then after == Entry(before.token.(meta := tok.meta))
    else after == before
  }

  /** What one save does to the system account. */
  ghost predicate Saves(c: Config, before: Sys, after: Sys, user: Option<Option<Token>>, sndShard: nat, key: Bytes,
                        nonce: uint64, tok: Token, mustUpdate: bool) {
    && after - {key} == before - {key}
    && (nonce == 0 || tok.meta.None? ==> after == before)
    && (nonce > 0 && tok.meta.Some? ==> key in after)
    && (nonce > 0 && tok.meta.Some? && (mustUpdate || key !in before) ==>
          after[key].Entry? && Fresh(c, after[key].token, user, key in before, sndShard, tok))
    && (nonce > 0 && tok.meta.Some? && !mustUpdate && key in before ==> Refreshed(c, before[key], after[key], tok))
  }

  lemma NewPropertiesAreFresh(c: Config, isNew: bool, sndShard: nat)
    ensures !c.flags.sendAlways ==> BitsAre(c, NewProperties(c, isNew, sndShard), sndShard)
    ensures c.flags.sendAlways ==> NoBits(NewProperties(c, isNew, sndShard))
  {
    var zeros := Zeros(c.numShards);
    assert NoBits(zeros);
    if !c.flags.sendAlways {
      MarkSets(zeros, c.self);
      var own := if c.self != METACHAIN then Mark(zeros, c.self) else zeros;
      MarkSets(own, sndShard);
    }
  }

  lemma SaveMetaSaves(c: Config, sys: Sys, user: Option<Option<Token>>, sndShard: nat, key: Bytes, nonce: uint64,
                      tok: Token, mustUpdate: bool, after: Sys)
    requires SaveMeta(c, sys, user, sndShard, key, nonce, tok, mustUpdate) == Ok(after)
    ensures Saves(c, sys, after, user, sndShard, key, nonce, tok, mustUpdate)
  {
    NewPropertiesAreFresh(c, key !in sys, sndShard);
    hide NewProperties, BitsAre, NoBits;
    if nonce > 0 && tok.meta.Some? {
      assert after - {key} == sys - {key};
    }
  }

  lemma MarkSets(properties: Bytes, d: nat)
    ensures |Mark(properties, d)| == |properties|
    ensures forall u: nat :: BitSet(Mark(properties, d), u) <==> BitSet(properties, u) || (u == d && d < |properties|)
  {
  }

  /** The entry under a key was just written, with a fresh bitmap. */
  ghost predicate FreshBits(c: Config, sys: Sys, key: Bytes, sndShard: nat) {
    key in sys && sys[key].Entry? && BitsAre(c, sys[key].token.properties, sndShard)
  }

  /** The bitmap protocol. */
  predicate UsesBits(c: Config) {
    c.flags.saveToSystem && !c.flags.sendAlways
  }

  lemma SaveTokenSaves(c: Config, sh: Shard, snd: Address, a: Address, t: Bytes, nonce: uint64, tok: Token,
                       mustUpdate: bool, retErr: bool, after: Shard)
    requires c.flags.saveToSystem && SaveToken(c, sh, snd, a, t, nonce, tok, mustUpdate, retErr) == Ok(after)
    ensures Saves(c, sh.sys, after.sys, Some(Stored(sh.users, a, TokenKey(t, nonce))), c.shardOf(snd), TokenKey(t, nonce), nonce,
                  tok, mustUpdate)
  {
    hide SaveMeta, CheckFrozenPauseProperties, TokenKey, Saves;
    var key := TokenKey(t, nonce);
    SaveMetaSaves(c, sh.sys, Some(Stored(sh.users, a, key)), c.shardOf(snd), key, nonce, tok, mustUpdate, after.sys);
  }

  // ---- creations and updates ----

  /** After a creation under the bitmap protocol, only this shard knows the metadata. */
  lemma CreationResetsBits(c: Config, sh: Shard, inp: Input, holder: Address, cr: Creation, after: Shard, out: Output)
    requires UsesBits(c) && Create(c, sh, inp, holder, cr) == Ok((after, out)) && NextNonce(sh, holder, cr.token) > 0
    ensures FreshBits(c, after.sys, TokenKey(cr.token, NextNonce(sh, holder, cr.token)), c.shardOf(holder))
  {
    hide SaveToken, HasRole, ToNat, TokenKey, BitsAre, NoBits;
    var nonce := NextNonce(sh, holder, cr.token);
    var meta := MetaData(nonce, cr.name, inp.caller, cr.royalties, cr.hash, cr.attributes, cr.uris);
    var tok := Token(NonFungible, ToNat(cr.quantity), [], Some(meta), []);
    var saved := SaveToken(c, sh, holder, holder, cr.token, nonce, tok, true, inp.retErr).value;
    SaveTokenSaves(c, sh, holder, holder, cr.token, nonce, tok, true, inp.retErr, saved);
  }

  /** After an update, too: all other shards have to be told anew. */
  lemma UpdateResetsBits(c: Config, sh: Shard, inp: Input, t: Bytes, nonce: uint64, update: Update, after: Shard, out: Output)
    requires UsesBits(c) && UpdateMeta(c, sh, inp, t, nonce, update) == Ok((after, out))
    ensures FreshBits(c, after.sys, TokenKey(t, nonce), c.shardOf(inp.caller))
  {
    hide SaveToken, HasRole, ReadTokenOnSender, TokenKey, BitsAre, NoBits;
    var own := ReadTokenOnSender(c, sh, inp.caller, t, nonce).value;
    var tok := own.(meta := Some(update.Apply(own.meta.value)));
    SaveTokenSaves(c, sh, inp.caller, inp.caller, t, nonce, tok, true, inp.retErr, after);
  }

  /** A message that is saved after its delivery failed: the keys of its metadata. */
  predicate SavesItem(item: Item, key: Bytes) {
    item.body.Payload? && item.body.data.meta.Some? && item.nonce > 0 && item.Key() == key
  }

  ghost predicate SavesKey(items: seq<Item>, key: Bytes) {
    exists i :: 0 <= i < |items| && SavesItem(items[i], key)
  }

  /** Every key that the message carries metadata of has a fresh bitmap; no other entry changes. */
  ghost predicate SavesMessage(c: Config, before: Sys, after: Sys, env: Envelope, items: seq<Item>) {
    && (forall key :: SavesKey(items, key) ==> FreshBits(c, after, key, c.shardOf(env.caller)))
    && (forall key :: !SavesKey(items, key) ==> (key in after <==> key in before) && (key in before ==> after[key] == before[key]))
  }

  /** Messages whose metadata is saved: NFT transfers from another shard. */
  predicate IsSaved(c: Config, env: Envelope) {
    env.carrier != ByTransfer && c.shardOf(env.caller) != c.shardOf(env.recipient) && c.self == c.shardOf(env.recipient)
  }

  lemma SavedMessage(c: Config, sys: Sys, env: Envelope, after: Sys)
    requires UsesBits(c) && SaveMetaOfMessage(c, sys, env) == Ok(after)
    ensures if IsSaved(c, env) then SavesMessage(c, sys, after, env, env.items) else after == sys
  {
    hide SaveMetaOfItems, SavesMessage;
    if IsSaved(c, env) {
      SavedItems(c, sys, env, env.items, after);
    }
  }

  lemma SavesKeySnoc(items: seq<Item>, item: Item, key: Bytes)
    ensures SavesKey(items + [item], key) <==> SavesKey(items, key) || SavesItem(item, key)
  {
    var all := items + [item];
    if SavesKey(items, key) {
      var i :| 0 <= i < |items| && SavesItem(items[i], key);
      assert SavesItem(all[i], key);
    }
    if SavesItem(item, key) {
      assert SavesItem(all[|items|], key);
    }
  }

  lemma {:induction false} SavedItems(c: Config, sys: Sys, env: Envelope, items: seq<Item>, after: Sys)
    requires UsesBits(c) && SaveMetaOfItems(c, sys, env, items) == Ok(after)
    ensures SavesMessage(c, sys, after, env, items)
  {
    if items != [] {
      var init, item := items[..|items| - 1], items[|items| - 1];
      var mid := SaveMetaOfItems(c, sys, env, init).value;
      SavedItems(c, sys, env, init, mid);
      SavedItem(c, mid, env, item, after);
      assert items == init + [item];
      hide SavesItem, FreshBits, SavesKey, SaveMetaOfItem, SaveMetaOfItems;
      forall key
        ensures SavesKey(items, key) ==> FreshBits(c, after, key, c.shardOf(env.caller))
        ensures !SavesKey(items, key) ==> (key in after <==> key in sys) && (key in sys ==> after[key] == sys[key])
      {
        SavesKeySnoc(init, item, key);
        if SavesKey(init, key) && !SavesItem(item, key) {
          SameEntrySameBits(c, mid, after, key, c.shardOf(env.caller));
        }
      }
    }
  }

  lemma SameEntrySameBits(c: Config, before: Sys, after: Sys, key: Bytes, sndShard: nat)
    requires FreshBits(c, before, key, sndShard) && (key in before ==> key in after && after[key] == before[key])
    ensures FreshBits(c, after, key, sndShard)
  {
  }

  lemma SavedItem(c: Config, sys: Sys, env: Envelope, item: Item, after: Sys)
    requires UsesBits(c) && SaveMetaOfItem(c, sys, env, item) == Ok(after)
    ensures forall key :: SavesItem(item, key) ==> FreshBits(c, after, key, c.shardOf(env.caller))
    ensures forall key :: !SavesItem(item, key) ==> (key in after <==> key in sys) && (key in sys ==> after[key] == sys[key])
  {
    hide SaveMeta, BitsAre, NoBits, TokenKey;
    if item.body.Payload? && (env.carrier == ByNftTransfer || item.nonce > 0) {
      SaveMetaSaves(c, sys, None, c.shardOf(env.caller), item.Key(), item.nonce, item.body.data, true, after);
      forall key | key != item.Key()
        ensures (key in after <==> key in sys) && (key in sys ==> after[key] == sys[key])
      {
        assert key in after <==> key in after - {item.Key()};
        assert key in sys <==> key in sys - {item.Key()};
        assert key in sys ==> (after - {item.Key()})[key] == (sys - {item.Key()})[key];
      }
    }
  }

  // ---- what is shipped ----

  /** What an account holds, with the metadata of the shard where that has some. */
  function Held(c: Config, sh: Shard, a: Address, t: Bytes, nonce: uint64): Token
    requires (a, TokenKey(t, nonce)) in sh.users
  {
    var key := TokenKey(t, nonce);
    var stored := sh.users[(a, key)];
    if c.flags.saveToSystem && nonce > 0 && key in sh.sys && sh.sys[key].Entry? && sh.sys[key].token.meta.Some?
    then stored.(meta := sh.sys[key].token.meta)
    else stored
  }

  lemma ReadIsHeld(c: Config, sh: Shard, a: Address, t: Bytes, nonce: uint64, tok: Token)
    requires ReadTokenOnSender(c, sh, a, t, nonce) == Ok(tok)
    ensures (a, TokenKey(t, nonce)) in sh.users && tok == Held(c, sh, a, t, nonce)
  {
    hide TokenKey;
  }

  /** Out of the shard goes what the sender holds, with the amount that is moved. */
  lemma SentIsHeld(c: Config, sh: Shard, snd: Address, dst: Address, mv: Move, retErr: bool, after: Shard, tok: Token)
    requires !ToShard(c, dst) && SendOne(c, sh, snd, dst, mv, retErr) == Ok((after, tok))
    ensures (snd, TokenKey(mv.token, mv.nonce)) in sh.users && tok == Held(c, sh, snd, mv.token, mv.nonce).(value := mv.value)
  {
    hide SaveToken, ReadTokenOnSender, Held, AddToLiquidity, CheckLimitedTransfer;
    ReadIsHeld(c, sh, snd, mv.token, mv.nonce, ReadTokenOnSender(c, sh, snd, mv.token, mv.nonce).value);
  }

  /** The message of a single NFT transfer: the amount, or the token that the sender holds with that amount. */
  lemma NftSentIsHeld(c: Config, sh: Shard, inp: Input, dst: Address, mv: Move, extra: seq<Bytes>, after: Shard, out: Output)
    requires !ToShard(c, dst) && NftSend(c, sh, inp, dst, mv, extra) == Ok((after, out))
    ensures (inp.caller, TokenKey(mv.token, mv.nonce)) in sh.users
    ensures |out.sent| == 1 && |out.sent[0].items| == 1
    ensures out.sent[0].items[0].body == Amount(mv.value)
            || out.sent[0].items[0].body == Payload(Held(c, sh, inp.caller, mv.token, mv.nonce).(value := mv.value))
  {
    hide SaveToken, ReadTokenOnSender, Held, AddToLiquidity, CheckLimitedTransfer, WasAlreadySent, CopyCost, IsSCCallAfter;
    hide CheckDestination, CheckPayable;
    ReadIsHeld(c, sh, inp.caller, mv.token, mv.nonce, ReadTokenOnSender(c, sh, inp.caller, mv.token, mv.nonce).value);
  }

  /** Exactly which tokens travel without their metadata. */
  predicate TravelsBare(c: Config, sys: Sys, dst: Address, mv: Move) {
    && mv.nonce > 0 && mv.value != 1 && |FromNat(mv.value)| <= 32 && c.flags.saveToSystem
    && (c.shardOf(dst) == c.self
        || (!c.flags.sendAlways
            && (c.shardOf(dst) == METACHAIN
                || (TokenKey(mv.token, mv.nonce) in sys && sys[TokenKey(mv.token, mv.nonce)].Entry?
                    && BitSet(sys[TokenKey(mv.token, mv.nonce)].token.properties, c.shardOf(dst))))))
  }

  /** The shipped form of one token of a multi-transfer, and what it costs. */
  lemma ShipsExactly(c: Config, sys: Sys, dst: Address, mv: Move, tok: Token, gas: nat, after: Sys, item: Item, left: nat)
    requires ShipOne(c, sys, dst, mv, tok, gas) == Ok((after, item, left))
    ensures item.token == mv.token && item.nonce == mv.nonce
    ensures item.body == if mv.nonce == 0 || TravelsBare(c, sys, dst, mv) then Amount(mv.value) else Payload(tok)
    ensures left == gas - if item.body.Payload? then Wrap64(|c.marshal(tok)| * c.costs.copyPerByte) else 0
  {
    hide FromNat, TokenKey;
  }

  /** That of a single NFT: here long amounts travel bare, too. */
  lemma NftShipsExactly(c: Config, sys: Sys, dst: Address, mv: Move, tok: Token, gas: nat, after: Sys, item: Item, left: nat)
    requires NftShip(c, sys, dst, mv, tok, gas) == Ok((after, item, left)) && mv.nonce > 0 && tok.value == mv.value
    ensures item.token == mv.token && item.nonce == mv.nonce
    ensures |FromNat(mv.value)| <= 32 ==>
              item.body == if TravelsBare(c, sys, dst, mv) then Amount(mv.value) else Payload(tok)
    ensures item.body == Payload(tok) || (item.body == Amount(mv.value) && mv.value != 1)
    ensures left == gas - if item.body.Payload? then Wrap64(|c.marshal(tok)| * c.costs.copyPerByte) else 0
  {
    hide FromNat, TokenKey;
  }

  /** A sender's debit writes no entry under the bitmap protocol. */
  lemma DebitKeepsEntries(c: Config, sh: Shard, snd: Address, dst: Address, mv: Move, retErr: bool, after: Shard, tok: Token)
    requires UsesBits(c) && !ToShard(c, dst) && SendOne(c, sh, snd, dst, mv, retErr) == Ok((after, tok))
    requires TokenKey(mv.token, mv.nonce) in sh.sys
    ensures after.sys == sh.sys && tok.value == mv.value
  {
    hide CheckLimitedTransfer, TokenKey, CheckFrozenPauseProperties, FromNat;
  }

  /** A shard whose bit is not set gets the marshalled token, and the sender pays for its bytes. */
  lemma UnmarkedShardGetsPayload(c: Config, sh: Shard, inp: Input, dst: Address, mv: Move, extra: seq<Bytes>, after: Shard, out: Output)
    requires UsesBits(c) && !ToShard(c, dst) && c.shardOf(dst) != METACHAIN && mv.nonce > 0
    requires var key := TokenKey(mv.token, mv.nonce);
             key in sh.sys && sh.sys[key].Entry? && !BitSet(sh.sys[key].token.properties, c.shardOf(dst))
    requires MultiSend(c, sh, inp, dst, [mv], extra) == Ok((after, out))
    ensures (inp.caller, TokenKey(mv.token, mv.nonce)) in sh.users && |out.sent| == 1
    ensures out.sent[0].items
            == [Item(mv.token, mv.nonce, Payload(Held(c, sh, inp.caller, mv.token, mv.nonce).(value := mv.value)))]
    ensures Left(out) + Wrap64(|c.marshal(out.sent[0].items[0].body.data)| * c.costs.copyPerByte) + MultiCost(c, 1) == inp.gasProvided
  {
    hide ShipOne, SendOne, Held, CheckPayable, IsSCCallAfter, CheckDestination, TokenKey, FromNat, MultiCost;
    var moves := [mv];
    assert moves[..0] == [];
    assert SendAll(c, sh, inp.caller, dst, [], inp.retErr) == Ok((sh, []));
    assert SendAll(c, sh, inp.caller, dst, moves, inp.retErr).Ok?;
    var (moved, tok) := SendOne(c, sh, inp.caller, dst, mv, inp.retErr).value;
    var tokens := [tok];
    assert [] + [tok] == tokens;
    assert SendAll(c, sh, inp.caller, dst, moves, inp.retErr) == Ok((moved, tokens));
    DebitKeepsEntries(c, sh, inp.caller, dst, mv, inp.retErr, moved, tok);
    SentIsHeld(c, sh, inp.caller, dst, mv, inp.retErr, moved, tok);
    var gas := inp.gasProvided - MultiCost(c, 1);
    assert tokens[..0] == [];
    assert ShipAll(c, moved.sys, dst, [], [], gas) == Ok((moved.sys, [], gas));
    var (marked, item, left) := ShipOne(c, moved.sys, dst, mv, tokens[0], gas).value;
    ShipsExactly(c, moved.sys, dst, mv, tokens[0], gas, marked, item, left);
  }

  /** The first transfer after an update carries the new metadata to the other shard, whatever was sent there before. */
  lemma UpdateIsSentAgain(c: Config, sh: Shard, inp: Input, t: Bytes, nonce: uint64, update: Update, after: Shard, out: Output,
                          next: Input, dst: Address, value: nat, extra: seq<Bytes>, last: Shard, sent: Output)
    requires UsesBits(c) && c.shardOf(inp.caller) == c.self && !ToShard(c, dst) && c.shardOf(dst) != METACHAIN
    requires UpdateMeta(c, sh, inp, t, nonce, update) == Ok((after, out))
    requires MultiSend(c, after, next, dst, [Move(t, nonce, value)], extra) == Ok((last, sent))
    ensures |sent.sent| == 1 && |sent.sent[0].items| == 1 && sent.sent[0].items[0].body.Payload?
    ensures (inp.caller, TokenKey(t, nonce)) in sh.users
    ensures var was, now := Held(c, sh, inp.caller, t, nonce).meta, sent.sent[0].items[0].body.data.meta;
            was.Some? && now.Some? && Updated(was.value, now.value, update)
    ensures Left(sent) + Wrap64(|c.marshal(sent.sent[0].items[0].body.data)| * c.costs.copyPerByte) + MultiCost(c, 1) == next.gasProvided
  {
    UpdateResetsBits(c, sh, inp, t, nonce, update, after, out);
    EntryIsUpdated(c, sh, inp, t, nonce, update, after, out);
    hide UpdateMeta, Updated, MultiSend, TokenKey, MultiCost;
    UnmarkedShardGetsPayload(c, after, next, dst, Move(t, nonce, value), extra, last, sent);
  }

  lemma EntryIsUpdated(c: Config, sh: Shard, inp: Input, t: Bytes, nonce: uint64, update: Update, after: Shard, out: Output)
    requires c.flags.saveToSystem && UpdateMeta(c, sh, inp, t, nonce, update) == Ok((after, out))
    ensures nonce > 0 && (inp.caller, TokenKey(t, nonce)) in sh.users
    ensures TokenKey(t, nonce) in after.sys && after.sys[TokenKey(t, nonce)].Entry?
    ensures var was, now := Held(c, sh, inp.caller, t, nonce).meta, after.sys[TokenKey(t, nonce)].token.meta;
            was.Some? && now.Some? && Updated(was.value, now.value, update)
  {
    hide SaveToken, ReadTokenOnSender, HasRole, TokenKey, Held, BitsAre, NoBits, TotalLength;
    var own := ReadTokenOnSender(c, sh, inp.caller, t, nonce).value;
    ReadIsHeld(c, sh, inp.caller, t, nonce, own);
    var tok := own.(meta := Some(update.Apply(own.meta.value)));
    SaveTokenSaves(c, sh, inp.caller, inp.caller, t, nonce, tok, true, inp.retErr, after);
  }

  function Left(out: Output): nat {
    out.gasRemaining + out.gasEmitted
  }

  // ---- what holders read ----

  /** The holder reads the quantity and exactly the fields of the call. */
  predicate ReadsCreated(c: Config, before: Shard, after: Shard, caller: Address, holder: Address, cr: Creation) {
    var nonce := NextNonce(before, holder, cr.token);
    nonce > 0 ==>
      ReadToken(c, after, holder, cr.token, nonce)
      == Ok((Token(NonFungible, ToNat(cr.quantity), [],
                   Some(MetaData(nonce, cr.name, caller, cr.royalties, cr.hash, cr.attributes, cr.uris)), []), false))
  }

  lemma CreationIsRead(c: Config, sh: Shard, inp: Input, holder: Address, cr: Creation, after: Shard, out: Output)
    requires Create(c, sh, inp, holder, cr) == Ok((after, out))
    ensures ReadsCreated(c, sh, after, inp.caller, holder, cr)
  {
    hide HasRole, ToNat, TokenKey, NewProperties, CheckFrozenPauseProperties;
  }

  /** What an update makes of metadata, field by field. */
  predicate Updated(before: MetaData, after: MetaData, update: Update) {
    && after.nonce == before.nonce && after.name == before.name && after.creator == before.creator
    && after.royalties == before.royalties && after.hash == before.hash
    && match update
       case AddUris(uris) =>
         && |after.uris| == |before.uris| + |uris| && after.uris[..|before.uris|] == before.uris
         && after.uris[|before.uris|..] == uris && after.attributes == before.attributes
       case SetAttributes(attributes) => after.attributes == attributes && after.uris == before.uris
  }

  /** The caller reads the same amount with updated metadata, and every other holder of the shard reads that metadata. */
  ghost predicate ReadsUpdated(c: Config, before: Shard, after: Shard, a: Address, t: Bytes, nonce: uint64, update: Update) {
    && ReadToken(c, before, a, t, nonce).Ok? && ReadToken(c, after, a, t, nonce).Ok?
    && var was, now := ReadToken(c, before, a, t, nonce).value.0, ReadToken(c, after, a, t, nonce).value.0;
       && now.value == was.value && now.kind == was.kind && now.properties == was.properties
       && was.meta.Some? && now.meta.Some? && Updated(was.meta.value, now.meta.value, update)
       && (c.flags.saveToSystem ==>
             forall b :: (b, TokenKey(t, nonce)) in after.users ==>
               ReadToken(c, after, b, t, nonce).Ok? && ReadToken(c, after, b, t, nonce).value.0.meta == now.meta)
  }

  lemma UpdateIsRead(c: Config, sh: Shard, inp: Input, t: Bytes, nonce: uint64, update: Update, after: Shard, out: Output)
    requires UpdateMeta(c, sh, inp, t, nonce, update) == Ok((after, out))
    requires Balance(sh.users, inp.caller, TokenKey(t, nonce)) > 0
    ensures ReadsUpdated(c, sh, after, inp.caller, t, nonce, update)
  {
    hide HasRole, TokenKey, SaveToken, TotalLength, ReadToken;
    ReadTokenValue(c, sh, inp.caller, t, nonce);
    var own := ReadTokenOnSender(c, sh, inp.caller, t, nonce).value;
    WrittenIsRead(c, sh, inp.caller, t, nonce, own, Some(update.Apply(own.meta.value)), inp.retErr, after);
  }

  lemma WrittenIsRead(c: Config, sh: Shard, a: Address, t: Bytes, nonce: uint64, own: Token, meta: Option<MetaData>, retErr: bool, after: Shard)
    requires ReadToken(c, sh, a, t, nonce) == Ok((own, false)) && own.value > 0 && nonce > 0 && meta.Some?
    requires SaveToken(c, sh, a, a, t, nonce, own.(meta := meta), true, retErr) == Ok(after)
    ensures ReadToken(c, after, a, t, nonce).Ok?
    ensures var now := ReadToken(c, after, a, t, nonce).value.0;
            now.value == own.value && now.kind == own.kind && now.properties == own.properties && now.meta == meta
    ensures c.flags.saveToSystem ==>
              forall b :: (b, TokenKey(t, nonce)) in after.users ==>
                ReadToken(c, after, b, t, nonce).Ok? && ReadToken(c, after, b, t, nonce).value.0.meta == meta
  {
    hide TokenKey, NewProperties, CheckFrozenPauseProperties;
  }

  // ---- the start of a counter ----

  /** The liquidity protocol: entries are written with a counter. */
  predicate Counts(c: Config) {
    c.flags.saveToSystem && c.flags.sendAlways
  }

  /** A live counter with this value. */
  predicate CounterIs(sys: Sys, key: Bytes, value: int) {
    key in sys && sys[key].Entry? && sys[key].token.reserved != [] && sys[key].token.value == value
  }

  /** What one change of liquidity does: a live counter moves by the amount and its entry goes at zero; all else stays. */
  ghost predicate Counted(c: Config, before: Sys, after: Sys, key: Bytes, nonce: uint64, delta: int) {
    && after - {key} == before - {key}
    && (!Counts(c) || nonce == 0 ==> after == before)
    && (Counts(c) && nonce > 0 ==>
          && key in before && before[key].Entry?
          && (before[key].token.reserved == [] ==> after == before)
          && (before[key].token.reserved != [] ==>
                if c.flags.fixOldLiquidity && before[key].token.value == 0 && delta < 0
                then key in after && after[key] == Entry(before[key].token.(reserved := []))
                else if before[key].token.value + delta == 0 then key !in after
                else before[key].token.value + delta > 0
                     && key in after && after[key] == Entry(before[key].token.(value := before[key].token.value + delta))))
  }

  lemma AddToLiquidityCounts(c: Config, sys: Sys, t: Bytes, nonce: uint64, delta: int, after: Sys)
    requires AddToLiquidity(c, sys, t, nonce, delta) == Ok(after)
    ensures Counted(c, sys, after, TokenKey(t, nonce), nonce, delta)
  {
    hide TokenKey;
    var key := TokenKey(t, nonce);
    assert after - {key} == sys - {key};
  }

  /** It fails exactly for a missing entry, for settings in its place, and for a live counter that would become negative. */
  lemma AddToLiquidityFailsExactly(c: Config, sys: Sys, t: Bytes, nonce: uint64, delta: int)
    ensures AddToLiquidity(c, sys, t, nonce, delta).Ok? <==>
      !Counts(c) || nonce == 0 ||
      (var key := TokenKey(t, nonce);
       key in sys && sys[key].Entry?
       && (sys[key].token.reserved == [] || sys[key].token.value + delta >= 0
           || (c.flags.fixOldLiquidity && sys[key].token.value == 0)))
  {
    hide TokenKey;
  }

  /** A creation where nothing is stored starts the counter at its quantity, whatever the other flags. */
  lemma CreationStartsCounter(c: Config, sh: Shard, inp: Input, holder: Address, cr: Creation, after: Shard, out: Output)
    requires Counts(c) && Create(c, sh, inp, holder, cr) == Ok((after, out)) && NextNonce(sh, holder, cr.token) > 0
    requires var key := TokenKey(cr.token, NextNonce(sh, holder, cr.token)); key !in sh.sys && (holder, key) !in sh.users
    ensures CounterIs(after.sys, TokenKey(cr.token, NextNonce(sh, holder, cr.token)), ToNat(cr.quantity))
  {
    hide HasRole, ToNat, TokenKey, NewProperties, CheckFrozenPauseProperties;
  }

  /** The first amount that arrives from another shard starts the counter at that amount. */
  lemma ArrivalStartsCounter(c: Config, sh: Shard, snd: Address, dst: Address, tok: Token, t: Bytes, nonce: uint64,
                             retErr: bool, after: Shard, merged: Token)
    requires Counts(c) && AddToDestination(c, sh, snd, dst, tok, t, nonce, retErr) == Ok((after, merged))
    requires c.shardOf(snd) != c.shardOf(dst) && nonce > 0 && tok.value > 0 && tok.meta.Some?
    requires TokenKey(t, nonce) !in sh.sys && (dst, TokenKey(t, nonce)) !in sh.users
    ensures CounterIs(after.sys, TokenKey(t, nonce), tok.value)
  {
    hide TokenKey, NewProperties, CheckFrozenPauseProperties, CheckFrozeAndPause;
  }
}
