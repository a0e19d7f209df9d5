/**
 * The "metadata already sent" bitmap is safe: with metadata kept on the system accounts and sent to each shard once,
 * a shard that receives only an amount always has the token's metadata, even after deliveries that failed.
 */
module Bitmap {
  import opened Bytes
  import opened Keys
  import opened Wrappers
  import opened Ledger
  import opened Operations
  import opened World
  import opened Conservation
  import Liquidity
  import ZeroHoldings

  /** The flags of the bitmap protocol; the other flags may have any value. */
  predicate Active(c: Config) {
    c.flags.saveToSystem && !c.flags.sendAlways
  }

  // ---- one shard ----

  ghost predicate EntriesHaveMeta(sys: Sys) {
    forall k :: k in sys && IsNftKey(k) ==> sys[k].Entry? && sys[k].token.meta.Some?
  }

  /**
   * With `backed`, every holder of an NFT is backed by an entry in its shard. The protocol itself does not need this: it
   * fails only when an exempt caller adds quantity to a holding that is empty but frozen.
   */
  ghost predicate Sound(backed: bool, sh: Shard) {
    && Liquidity.PlainUsers(sh.users) && EntriesHaveMeta(sh.sys)
    && (backed ==> Liquidity.HoldersHaveEntry(sh.users, sh.sys) && ZeroHoldings.ZeroIsFrozen(sh.users))
  }

  /** The entry of `k` says that shard `u` has its metadata. */
  predicate Bit(sys: Sys, k: Bytes, u: nat) {
    k in sys && sys[k].Entry? && BitSet(sys[k].token.properties, u)
  }

  ghost predicate KeysGrow(before: Sys, after: Sys) {
    forall k :: k in before ==> k in after
  }

  /** New bits are the shard's own, and those of the shard `from` for keys that this shard knows. */
  ghost predicate NewBits(before: Sys, after: Sys, self: nat, from: nat, known: Sys) {
    forall k, u :: IsNftKey(k) && Bit(after, k, u) ==> Bit(before, k, u) || u == self || (u == from && k in known)
  }

  lemma MarkedBits(properties: Bytes, m: nat, u: nat)
    requires BitSet(Mark(properties, m), u)
    ensures BitSet(properties, u) || u == m
  {
  }

  lemma NewPropertiesBits(c: Config, isNew: bool, sndShard: nat, u: nat)
    requires Active(c) && BitSet(NewProperties(c, isNew, sndShard), u)
    ensures u == c.self || u == sndShard
  {
    var zeros := Zeros(c.numShards);
    assert !BitSet(zeros, u);
  }

  lemma SaveMetaBits(c: Config, sys: Sys, user: Option<Option<Token>>, sndShard: nat, key: Bytes, nonce: uint64, tok: Token,
                     mustUpdate: bool, after: Sys, known: Sys)
    requires Active(c) && EntriesHaveMeta(sys)
    requires sndShard != c.self && nonce > 0 && tok.meta.Some? ==> key in known
    requires SaveMeta(c, sys, user, sndShard, key, nonce, tok, mustUpdate) == Ok(after)
    ensures EntriesHaveMeta(after) && KeysGrow(sys, after)
    ensures NewBits(sys, after, c.self, sndShard, known)
    ensures nonce > 0 && tok.meta.Some? ==> key in after
    ensures tok.meta.None? || nonce == 0 ==> after == sys
  {
    var isNew := key !in sys;
    forall u | BitSet(NewProperties(c, isNew, sndShard), u)
      ensures u == c.self || u == sndShard
    {
      NewPropertiesBits(c, isNew, sndShard, u);
    }
  }

  lemma SaveTokenSound(backed: bool, c: Config, sh: Shard, snd: Address, a: Address, t: Bytes, nonce: uint64, tok: Token,
                       mustUpdate: bool, retErr: bool, after: Shard, known: Sys)
    requires Active(c) && ValidToken(t) && Sound(backed, sh)
    requires c.shardOf(snd) != c.self && nonce > 0 && tok.meta.Some? ==> TokenKey(t, nonce) in known
    requires SaveToken(c, sh, snd, a, t, nonce, tok, mustUpdate, retErr) == Ok(after)
    requires backed && tok.value > 0 && nonce > 0 ==> tok.meta.Some? || TokenKey(t, nonce) in sh.sys
    ensures Sound(backed, after) && KeysGrow(sh.sys, after.sys)
    ensures NewBits(sh.sys, after.sys, c.self, c.shardOf(snd), known)
    ensures nonce > 0 && tok.meta.Some? ==> TokenKey(t, nonce) in after.sys
    ensures tok.meta.None? || nonce == 0 ==> after.sys == sh.sys
  {
    hide SaveToken, SaveMeta, NewBits, ValidToken, Bit, IsNftKey;
    var key := TokenKey(t, nonce);
    Liquidity.SaveTokenMeta(c, sh, snd, a, t, nonce, tok, mustUpdate, retErr, after);
    Liquidity.KeepsPlain(c, sh, snd, a, t, nonce, tok, mustUpdate, retErr, after);
    SaveMetaBits(c, sh.sys, Some(Stored(sh.users, a, key)), c.shardOf(snd), key, nonce, tok, mustUpdate, after.sys, known);
    if nonce == 0 {
      FungibleKeyIsNotNftKey(t);
    }
    OneHolderSound(backed, sh, after, a, key);
  }

  /** A shard stays sound when one holding becomes positive, with its entry there, or goes away. */
  lemma OneHolderSound(backed: bool, before: Shard, after: Shard, a: Address, key: Bytes)
    requires Sound(backed, before) && EntriesHaveMeta(after.sys) && KeysGrow(before.sys, after.sys)
    requires Liquidity.PlainUsers(after.users)
    requires forall x :: x in after.users && x != (a, key) ==> x in before.users && after.users[x] == before.users[x]
    requires (a, key) in after.users ==> after.users[(a, key)].value > 0
    requires backed && (a, key) in after.users && IsNftKey(key) ==> key in after.sys
    ensures Sound(backed, after)
  {
    hide IsNftKey;
  }

  /** Changes that set no bit but the shard's own: everything a shard does without sending. */
  ghost predicate Quiet(backed: bool, self: nat, before: Shard, after: Shard) {
    Sound(backed, after) && KeysGrow(before.sys, after.sys) && NewBits(before.sys, after.sys, self, self, map[])
  }

  lemma QuietRefl(backed: bool, self: nat, sh: Shard)
    requires Sound(backed, sh)
    ensures Quiet(backed, self, sh, sh)
  {
  }

  lemma QuietTrans(backed: bool, self: nat, a: Shard, b: Shard, d: Shard)
    requires Quiet(backed, self, a, b) && Quiet(backed, self, b, d)
    ensures Quiet(backed, self, a, d)
  {
    hide IsNftKey, Sound, Bit;
  }

  lemma OwnWriteIsQuiet(backed: bool, c: Config, sh: Shard, snd: Address, a: Address, t: Bytes, nonce: uint64, tok: Token,
                        mustUpdate: bool, retErr: bool, after: Shard)
    requires Active(c) && ValidToken(t) && Sound(backed, sh) && c.shardOf(snd) == c.self
    requires SaveToken(c, sh, snd, a, t, nonce, tok, mustUpdate, retErr) == Ok(after)
    requires backed && tok.value > 0 && nonce > 0 ==> tok.meta.Some? || TokenKey(t, nonce) in sh.sys
    ensures Quiet(backed, c.self, sh, after)
    ensures nonce > 0 && tok.meta.Some? ==> TokenKey(t, nonce) in after.sys
    ensures tok.meta.None? || nonce == 0 ==> after.sys == sh.sys
  {
    SaveTokenSound(backed, c, sh, snd, a, t, nonce, tok, mustUpdate, retErr, after, map[]);
    hide SaveToken, IsNftKey, Bit, Sound;
  }

  /** A change of balances under keys without nonce, or one that raises no NFT balance, is quiet. */
  lemma UsersChangeIsQuiet(backed: bool, self: nat, sh: Shard, users: Users)
    requires Sound(backed, sh) && Liquidity.PlainUsers(users) && (backed ==> ZeroHoldings.ZeroIsFrozen(users))
    requires backed ==> forall x :: x in users && users[x].value > 0 && IsNftKey(x.1) ==> x in sh.users && sh.users[x].value > 0
    ensures Quiet(backed, self, sh, sh.(users := users))
  {
  }

  // ---- the sender's side ----

  /** A token on its way carries metadata exactly when its shard has an entry for it. */
  ghost predicate KnownToken(backed: bool, sys: Sys, mv: Move, tok: Token) {
    && (mv.nonce > 0 ==> (tok.meta.Some? <==> TokenKey(mv.token, mv.nonce) in sys))
    && (backed && mv.nonce > 0 && mv.value > 0 ==> tok.meta.Some?)
  }

  lemma DebitIsQuiet(backed: bool, c: Config, sh: Shard, snd: Address, mv: Move, retErr: bool, shipped: Token, debited: Shard)
    requires Active(c) && Sound(backed, sh) && ValidToken(mv.token) && c.shardOf(snd) == c.self
    requires IsDebit(c, sh, snd, mv, retErr, shipped, debited)
    ensures Quiet(backed, c.self, sh, debited) && debited.sys == sh.sys
    ensures KnownToken(backed, debited.sys, mv, shipped)
  {
    var key := TokenKey(mv.token, mv.nonce);
    var own := shipped.(value := Balance(sh.users, snd, key));
    if mv.nonce > 0 {
      NftKeyIntro(mv.token, mv.nonce);
    }
    assert mv.nonce > 0 ==> (own.meta.Some? <==> key in sh.sys);
    OwnWriteIsQuiet(backed, c, sh, snd, snd, mv.token, mv.nonce, own.(value := own.value - mv.value), false, retErr, debited);
  }

  lemma CreditHereIsQuiet(backed: bool, c: Config, sh: Shard, snd: Address, dst: Address, tok: Token, t: Bytes, nonce: uint64,
                          retErr: bool, after: Shard, merged: Token)
    requires Active(c) && Sound(backed, sh) && ValidToken(t) && c.shardOf(snd) == c.self && tok.value >= 0
    requires backed && nonce > 0 && tok.value > 0 ==> tok.meta.Some?
    requires AddToDestination(c, sh, snd, dst, tok, t, nonce, retErr) == Ok((after, merged))
    ensures Quiet(backed, c.self, sh, after)
  {
    hide SaveToken, NewBits, KeysGrow;
    var saved := AddToDestinationWrite(c, sh, snd, dst, tok, t, nonce, retErr, after, merged);
    assert saved == after;
    if nonce > 0 {
      NftKeyIntro(t, nonce);
    }
    OwnWriteIsQuiet(backed, c, sh, snd, dst, t, nonce, merged, false, retErr, saved);
  }

  lemma SendOneIsQuiet(backed: bool, c: Config, sh: Shard, snd: Address, dst: Address, mv: Move, retErr: bool, after: Shard, tok: Token)
    requires Active(c) && Sound(backed, sh) && ValidToken(mv.token) && c.shardOf(snd) == c.self
    requires SendOne(c, sh, snd, dst, mv, retErr) == Ok((after, tok))
    ensures Quiet(backed, c.self, sh, after)
    ensures !ToShard(c, dst) ==> KnownToken(backed, after.sys, mv, tok) && tok.value == mv.value && after.sys == sh.sys
    ensures mv.value > 0
  {
    var (shipped, debited) := DebitForMulti(c, sh, snd, mv, retErr).value;
    MultiDebit(c, sh, snd, mv, retErr, shipped, debited);
    DebitIsQuiet(backed, c, sh, snd, mv, retErr, shipped, debited);
    hide SaveToken, ReadToken, Sound;
    if ToShard(c, dst) {
      CreditHereIsQuiet(backed, c, debited, snd, dst, shipped, mv.token, mv.nonce, retErr, after, tok);
      QuietTrans(backed, c.self, sh, debited, after);
    }
  }

  /** A token that is about to be shipped for a move. */
  ghost predicate TellingToken(backed: bool, sys: Sys, mv: Move, tok: Token) {
    tok.value == mv.value && KnownToken(backed, sys, mv, tok) && ValidToken(mv.token)
  }

  lemma {:induction false} SendAllIsQuiet(backed: bool, c: Config, sh: Shard, snd: Address, dst: Address, moves: seq<Move>, retErr: bool,
                                          after: Shard, tokens: seq<Token>)
    requires Active(c) && Sound(backed, sh) && c.shardOf(snd) == c.self
    requires forall i :: 0 <= i < |moves| ==> ValidToken(moves[i].token)
    requires SendAll(c, sh, snd, dst, moves, retErr) == Ok((after, tokens))
    ensures Quiet(backed, c.self, sh, after) && |tokens| == |moves|
    ensures forall i :: 0 <= i < |moves| ==> moves[i].value > 0
    ensures !ToShard(c, dst) ==> after.sys == sh.sys
    ensures !ToShard(c, dst) ==> forall i :: 0 <= i < |moves| ==> TellingToken(backed, after.sys, moves[i], tokens[i])
  {
    hide SendOne, Sound, NewBits, KeysGrow, IsNftKey, ValidToken;
    if moves != [] {
      var last := |moves| - 1;
      var (mid, init) := SendAll(c, sh, snd, dst, moves[..last], retErr).value;
      SendAllIsQuiet(backed, c, sh, snd, dst, moves[..last], retErr, mid, init);
      var (end, tok) := SendOne(c, mid, snd, dst, moves[last], retErr).value;
      SendOneIsQuiet(backed, c, mid, snd, dst, moves[last], retErr, end, tok);
      QuietTrans(backed, c.self, sh, mid, end);
    } else {
      QuietRefl(backed, c.self, sh);
    }
  }

  // ---- what is shipped ----

  predicate IsBare(item: Item) {
    item.nonce > 0 && item.body.Amount?
  }

  predicate CarriesMeta(item: Item, k: Bytes) {
    item.nonce > 0 && item.body.Payload? && item.body.data.meta.Some? && item.Key() == k
  }

  /** An item that its sender could only build with an entry of its own. */
  predicate Tells(item: Item) {
    item.nonce > 0 && (item.body.Amount? || item.body.data.meta.Some?)
  }

  /** One of the first `p` items carries the metadata of `k`. */
  ghost predicate Announced(items: seq<Item>, p: int, k: Bytes) {
    exists q :: 0 <= q < p && q < |items| && CarriesMeta(items[q], k)
  }

  /** The state of the sending loop: every new bit of shard `t` stands for an item that carries the metadata. */
  ghost predicate Shipped(before: Sys, after: Sys, t: nat, items: seq<Item>) {
    && (forall k :: k in before <==> k in after)
    && (forall k, u :: Bit(after, k, u) ==> Bit(before, k, u) || (u == t && Announced(items, |items|, k)))
    && (forall p :: 0 <= p < |items| && IsBare(items[p]) ==>
          Bit(before, items[p].Key(), t) || Announced(items, p, items[p].Key()))
    && (forall p :: 0 <= p < |items| && Tells(items[p]) ==> items[p].Key() in before)
    && (EntriesHaveMeta(before) ==> EntriesHaveMeta(after))
  }

  lemma ShippedNothing(sys: Sys, t: nat)
    ensures Shipped(sys, sys, t, [])
  {
  }

  lemma AnnouncedSnoc(items: seq<Item>, item: Item, p: int, k: Bytes)
    ensures p <= |items| ==> (Announced(items + [item], p, k) <==> Announced(items, p, k))
    ensures Announced(items + [item], |items| + 1, k) <==> Announced(items, |items|, k) || CarriesMeta(item, k)
  {
    if Announced(items, p, k) {
      var q :| 0 <= q < p && q < |items| && CarriesMeta(items[q], k);
      assert CarriesMeta((items + [item])[q], k);
    }
    if Announced(items, |items|, k) {
      var q :| 0 <= q < |items| && CarriesMeta(items[q], k);
      assert CarriesMeta((items + [item])[q], k);
    }
    if CarriesMeta(item, k) {
      assert CarriesMeta((items + [item])[|items|], k);
    }
  }

  /** A token of the sender's shard has metadata exactly when the shard has its entry. */
  ghost predicate ReadyToken(sys: Sys, mv: Move, tok: Token) {
    mv.nonce > 0 ==> (tok.meta.Some? <==> TokenKey(mv.token, mv.nonce) in sys)
  }

  /** One item against the entries of its sender: what it is and which bit it leaves. */
  ghost predicate ShipsOne(before: Sys, after: Sys, t: nat, item: Item) {
    && (forall k :: k in before <==> k in after)
    && (forall k, u :: Bit(after, k, u) ==> Bit(before, k, u) || (u == t && CarriesMeta(item, k)))
    && (IsBare(item) ==> Bit(before, item.Key(), t))
    && (Tells(item) ==> item.Key() in before)
    && (EntriesHaveMeta(before) ==> EntriesHaveMeta(after))
  }

  lemma WasAlreadySentBits(c: Config, sys: Sys, t: Bytes, nonce: uint64, dst: Address)
    requires Active(c) && nonce > 0 && c.shardOf(dst) != c.self && c.shardOf(dst) != METACHAIN
    requires WasAlreadySent(c, sys, t, nonce, dst).Ok?
    ensures var (sent, after) := WasAlreadySent(c, sys, t, nonce, dst).value;
      var key := TokenKey(t, nonce);
      && (forall k :: k in sys <==> k in after)
      && (sent ==> after == sys && Bit(sys, key, c.shardOf(dst)))
      && (forall k, u :: Bit(after, k, u) ==> Bit(sys, k, u) || (u == c.shardOf(dst) && k == key && key in sys))
      && (EntriesHaveMeta(sys) ==> EntriesHaveMeta(after))
  {
    var key := TokenKey(t, nonce);
    if key in sys && sys[key].Entry? {
      var padded := Pad(sys[key].token.properties, c.numShards);
      forall u | BitSet(Mark(padded, c.shardOf(dst)), u)
        ensures BitSet(sys[key].token.properties, u) || u == c.shardOf(dst)
      {
        MarkedBits(padded, c.shardOf(dst), u);
      }
    }
  }

  lemma ShipOneShips(c: Config, sys: Sys, dst: Address, mv: Move, tok: Token, gas: nat)
    requires Active(c) && c.shardOf(dst) != c.self && c.shardOf(dst) != METACHAIN
    requires ReadyToken(sys, mv, tok) && ShipOne(c, sys, dst, mv, tok, gas).Ok?
    ensures ShipsOne(sys, ShipOne(c, sys, dst, mv, tok, gas).value.0, c.shardOf(dst), ShipOne(c, sys, dst, mv, tok, gas).value.1)
  {
    if mv.nonce > 0 {
      WasAlreadySentBits(c, sys, mv.token, mv.nonce, dst);
      hide WasAlreadySent;
    }
  }

  lemma NftShipShips(c: Config, sys: Sys, dst: Address, mv: Move, tok: Token, gas: nat)
    requires Active(c) && c.shardOf(dst) != c.self && c.shardOf(dst) != METACHAIN && mv.nonce > 0
    requires ReadyToken(sys, mv, tok) && NftShip(c, sys, dst, mv, tok, gas).Ok?
    ensures ShipsOne(sys, NftShip(c, sys, dst, mv, tok, gas).value.0, c.shardOf(dst), NftShip(c, sys, dst, mv, tok, gas).value.1)
  {
    WasAlreadySentBits(c, sys, mv.token, mv.nonce, dst);
    hide WasAlreadySent;
  }

  lemma ShippedSnoc(before: Sys, mid: Sys, after: Sys, t: nat, items: seq<Item>, item: Item)
    requires Shipped(before, mid, t, items) && ShipsOne(mid, after, t, item)
    ensures Shipped(before, after, t, items + [item])
  {
    hide IsNftKey;
    var all := items + [item];
    forall k, u | Bit(after, k, u)
      ensures Bit(before, k, u) || (u == t && Announced(all, |all|, k))
    {
      AnnouncedSnoc(items, item, |items|, k);
    }
    forall p | 0 <= p < |all| && IsBare(all[p])
      ensures Bit(before, all[p].Key(), t) || Announced(all, p, all[p].Key())
    {
      AnnouncedSnoc(items, item, p, all[p].Key());
    }
  }

  lemma {:induction false} ShipAllShips(c: Config, sys: Sys, dst: Address, moves: seq<Move>, tokens: seq<Token>, gas: nat,
                                        after: Sys, items: seq<Item>, left: nat)
    requires Active(c) && c.shardOf(dst) != c.self && c.shardOf(dst) != METACHAIN && |moves| == |tokens|
    requires forall i :: 0 <= i < |moves| ==> ReadyToken(sys, moves[i], tokens[i])
    requires ShipAll(c, sys, dst, moves, tokens, gas) == Ok((after, items, left))
    ensures Shipped(sys, after, c.shardOf(dst), items)
  {
    hide ShipOne, EntriesHaveMeta, Bit;
    if moves == [] {
      ShippedNothing(sys, c.shardOf(dst));
    } else {
      var last := |moves| - 1;
      var (mid, init, rest) := ShipAll(c, sys, dst, moves[..last], tokens[..last], gas).value;
      ShipAllShips(c, sys, dst, moves[..last], tokens[..last], gas, mid, init, rest);
      var (end, item, gasLeft) := ShipOne(c, mid, dst, moves[last], tokens[last], rest).value;
      ShipOneShips(c, mid, dst, moves[last], tokens[last], rest);
      ShippedSnoc(sys, mid, end, c.shardOf(dst), init, item);
    }
  }

  // ---- the channel between two shards ----

  /** The items under way from shard `s` to shard `t`, oldest first. */
  function Chan(shardOf: Address -> nat, net: seq<Envelope>, s: nat, t: nat): seq<Item> {
    if net == [] then []
    else
      var last := net[|net| - 1];
      Chan(shardOf, net[..|net| - 1], s, t)
      + if shardOf(last.caller) == s && shardOf(last.recipient) == t then last.items else []
  }

  lemma {:induction false} ChanConcat(c: Config, m: seq<Envelope>, n: seq<Envelope>, s: nat, t: nat)
    ensures Chan(c.shardOf, m + n, s, t) == Chan(c.shardOf, m, s, t) + Chan(c.shardOf, n, s, t)
  {
    if n == [] {
      assert m + n == m;
    } else {
      ChanConcat(c, m, n[..|n| - 1], s, t);
      assert (m + n)[..|m + n| - 1] == m + n[..|n| - 1];
    }
  }

  lemma ChanOne(c: Config, e: Envelope, s: nat, t: nat)
    ensures Chan(c.shardOf, [e], s, t) == if c.shardOf(e.caller) == s && c.shardOf(e.recipient) == t then e.items else []
  {
    assert [e][..0] == [];
  }

  lemma {:induction false} ChanEmpty(c: Config, net: seq<Envelope>, s: nat, t: nat)
    requires forall j :: 0 <= j < |net| ==> !(c.shardOf(net[j].caller) == s && c.shardOf(net[j].recipient) == t)
    ensures Chan(c.shardOf, net, s, t) == []
  {
    if net != [] {
      ChanEmpty(c, net[..|net| - 1], s, t);
    }
  }

  /** Taking out the next message of a channel takes its items off the channel's front. */
  lemma ChanWithout(c: Config, net: seq<Envelope>, i: nat, s: nat, t: nat)
    requires i < |net| && IsNext(c, net, i)
    ensures Chan(c.shardOf, net, s, t)
         == (if c.shardOf(net[i].caller) == s && c.shardOf(net[i].recipient) == t then net[i].items else [])
            + Chan(c.shardOf, Without(net, i), s, t)
  {
    hide Chan;
    var e := net[i];
    var older, newer := Chan(c.shardOf, net[..i], s, t), Chan(c.shardOf, net[i + 1..], s, t);
    assert net == net[..i] + ([e] + net[i + 1..]);
    ChanConcat(c, net[..i], [e] + net[i + 1..], s, t);
    ChanConcat(c, [e], net[i + 1..], s, t);
    ChanConcat(c, net[..i], net[i + 1..], s, t);
    ChanOne(c, e, s, t);
    if c.shardOf(e.caller) == s && c.shardOf(e.recipient) == t {
      ChanEmpty(c, net[..i], s, t);
      assert Chan(c.shardOf, net, s, t) == [] + (e.items + newer) == e.items + ([] + newer);
    } else {
      assert Chan(c.shardOf, net, s, t) == older + ([] + newer) == [] + (older + newer);
    }
  }

  /**
   * What holds between two shards and the items under way: a set bit means that the other shard has the entry or
   * will get it; a bare amount never overtakes its metadata; and the sender has what it tells about.
   */
  ghost predicate PairSafe(src: Sys, dst: Sys, t: nat, chan: seq<Item>) {
    && (forall k :: IsNftKey(k) && Bit(src, k, t) ==> k in dst || Announced(chan, |chan|, k))
    && (forall p :: 0 <= p < |chan| && IsBare(chan[p]) ==> chan[p].Key() in dst || Announced(chan, p, chan[p].Key()))
    && (forall p :: 0 <= p < |chan| && Tells(chan[p]) ==> chan[p].Key() in src)
  }

  lemma PairDstGrows(src: Sys, dst: Sys, dst': Sys, t: nat, chan: seq<Item>)
    requires PairSafe(src, dst, t, chan) && KeysGrow(dst, dst')
    ensures PairSafe(src, dst', t, chan)
  {
  }

  lemma PairSrcChanges(src: Sys, src': Sys, self: nat, from: nat, known: Sys, dst: Sys, t: nat, chan: seq<Item>)
    requires PairSafe(src, dst, t, chan) && t != self
    requires KeysGrow(src, src') && NewBits(src, src', self, from, known)
    requires from == t ==> known == dst
    ensures PairSafe(src', dst, t, chan)
  {
    hide IsNftKey;
  }

  lemma AnnouncedInConcat(a: seq<Item>, b: seq<Item>, p: int, k: Bytes)
    ensures Announced(a, |a|, k) && p >= |a| ==> Announced(a + b, p, k)
    ensures Announced(b, p, k) && p <= |b| ==> Announced(a + b, |a| + p, k)
    ensures p <= |a| ==> (Announced(a + b, p, k) <==> Announced(a, p, k))
    ensures p >= 0 && Announced(a + b, |a| + p, k) ==> Announced(a, |a|, k) || Announced(b, p, k)
  {
    forall q | 0 <= q < |a| && CarriesMeta(a[q], k)
      ensures CarriesMeta((a + b)[q], k)
    {
    }
    forall q | 0 <= q < |b| && CarriesMeta(b[q], k)
      ensures CarriesMeta((a + b)[|a| + q], k)
    {
    }
    if p >= 0 && Announced(a + b, |a| + p, k) {
      var q :| 0 <= q < |a| + p && q < |a + b| && CarriesMeta((a + b)[q], k);
      assert q < |a| ==> CarriesMeta(a[q], k);
      assert q >= |a| ==> CarriesMeta(b[q - |a|], k);
    }
    if p <= |a| && Announced(a + b, p, k) {
      var q :| 0 <= q < p && q < |a + b| && CarriesMeta((a + b)[q], k);
      assert CarriesMeta(a[q], k);
    }
  }

  lemma PairSends(src: Sys, src': Sys, dst: Sys, t: nat, chan: seq<Item>, items: seq<Item>)
    requires PairSafe(src, dst, t, chan) && Shipped(src, src', t, items)
    requires forall p :: 0 <= p < |items| && items[p].nonce > 0 ==> IsNftKey(items[p].Key())
    ensures PairSafe(src', dst, t, chan + items)
  {
    var all := chan + items;
    forall k | IsNftKey(k) && Bit(src', k, t)
      ensures k in dst || Announced(all, |all|, k)
    {
      AnnouncedInConcat(chan, items, |all|, k);
      AnnouncedInConcat(chan, items, |items|, k);
    }
    forall p | 0 <= p < |all| && IsBare(all[p])
      ensures all[p].Key() in dst || Announced(all, p, all[p].Key())
    {
      AnnouncedInConcat(chan, items, p, all[p].Key());
      AnnouncedInConcat(chan, items, p - |chan|, all[p].Key());
    }
  }

  /** Sending to one shard leaves the bits of all others alone. */
  lemma PairSendsElsewhere(src: Sys, src': Sys, dst: Sys, t: nat, other: nat, chan: seq<Item>, items: seq<Item>)
    requires PairSafe(src, dst, t, chan) && Shipped(src, src', other, items) && other != t
    ensures PairSafe(src', dst, t, chan)
  {
  }

  lemma PairReceives(src: Sys, dst: Sys, dst': Sys, t: nat, items: seq<Item>, rest: seq<Item>)
    requires PairSafe(src, dst, t, items + rest) && KeysGrow(dst, dst')
    requires forall k :: Announced(items, |items|, k) ==> k in dst'
    ensures PairSafe(src, dst', t, rest)
  {
    var all := items + rest;
    forall k | IsNftKey(k) && Bit(src, k, t)
      ensures k in dst' || Announced(rest, |rest|, k)
    {
      AnnouncedInConcat(items, rest, |rest|, k);
    }
    forall p | 0 <= p < |rest| && IsBare(rest[p])
      ensures rest[p].Key() in dst' || Announced(rest, p, rest[p].Key())
    {
      assert all[|items| + p] == rest[p];
      AnnouncedInConcat(items, rest, p, rest[p].Key());
    }
    forall p | 0 <= p < |rest| && Tells(rest[p])
      ensures rest[p].Key() in src
    {
      assert all[|items| + p] == rest[p];
    }
  }

  /** Items that both sides know can be put on a channel at any time. */
  lemma PairReturns(src: Sys, dst: Sys, t: nat, chan: seq<Item>, items: seq<Item>)
    requires PairSafe(src, dst, t, chan)
    requires forall p :: 0 <= p < |items| && Tells(items[p]) ==> items[p].Key() in src && items[p].Key() in dst
    ensures PairSafe(src, dst, t, chan + items)
  {
    var all := chan + items;
    forall k | IsNftKey(k) && Bit(src, k, t)
      ensures k in dst || Announced(all, |all|, k)
    {
      AnnouncedInConcat(chan, items, |all|, k);
    }
    forall p | 0 <= p < |all| && IsBare(all[p])
      ensures all[p].Key() in dst || Announced(all, p, all[p].Key())
    {
      AnnouncedInConcat(chan, items, p, all[p].Key());
    }
  }

  // ---- the receiver's side ----

  /** What every message satisfies, whatever the bitmaps say. */
  ghost predicate GoodItem(backed: bool, item: Item) {
    && ValidToken(item.token) && item.Value() >= 0
    && (backed && item.nonce > 0 && item.Value() > 0 ==> Tells(item))
  }

  ghost predicate GoodMessage(backed: bool, c: Config, env: Envelope) {
    && c.shardOf(env.caller) != c.shardOf(env.recipient)
    && (forall i :: 0 <= i < |env.items| ==> GoodItem(backed, env.items[i]))
    && (env.carrier == ByNftTransfer ==> forall i :: 0 <= i < |env.items| ==> env.items[i].nonce > 0)
    && (env.carrier == ByTransfer ==> FungibleItems(env.items))
  }

  lemma NewBitsTrans(a: Sys, b: Sys, d: Sys, self: nat, from: nat, known: Sys)
    requires NewBits(a, b, self, from, known) && NewBits(b, d, self, from, known)
    ensures NewBits(a, d, self, from, known)
  {
    hide IsNftKey, Bit;
  }

  /** What a delivery, so far, has done to the entries of its shard. */
  ghost predicate Received(c: Config, before: Sys, after: Sys, env: Envelope, items: seq<Item>, known: Sys) {
    && KeysGrow(before, after)
    && NewBits(before, after, c.self, c.shardOf(env.caller), known)
    && (forall k :: Announced(items, |items|, k) ==> k in after)
  }

  lemma ReceivedSnoc(c: Config, before: Sys, mid: Sys, after: Sys, env: Envelope, items: seq<Item>, item: Item, known: Sys)
    requires Received(c, before, mid, env, items, known)
    requires KeysGrow(mid, after) && NewBits(mid, after, c.self, c.shardOf(env.caller), known)
    requires forall k :: CarriesMeta(item, k) ==> k in after
    ensures Received(c, before, after, env, items + [item], known)
  {
    NewBitsTrans(before, mid, after, c.self, c.shardOf(env.caller), known);
    hide NewBits, CarriesMeta;
    forall k | Announced(items + [item], |items| + 1, k)
      ensures k in after
    {
      AnnouncedSnoc(items, item, 0, k);
    }
  }

  lemma CreditOneReceives(backed: bool, c: Config, sh: Shard, env: Envelope, item: Item, known: Sys, after: Shard)
    requires Active(c) && Sound(backed, sh) && GoodItem(backed, item) && c.shardOf(env.caller) != c.self
    requires env.carrier == ByNftTransfer ==> item.nonce > 0
    requires env.carrier == ByTransfer ==> item.nonce == 0
    requires Tells(item) ==> item.Key() in known
    requires IsBare(item) ==> item.Key() in sh.sys
    requires CreditOne(c, sh, env, item) == Ok(after)
    ensures Sound(backed, after) && KeysGrow(sh.sys, after.sys)
    ensures NewBits(sh.sys, after.sys, c.self, c.shardOf(env.caller), known)
    ensures forall k :: CarriesMeta(item, k) ==> k in after.sys
  {
    if item.nonce > 0 {
      CreditNftReceives(backed, c, sh, env, item, known, after);
    } else {
      FungibleKeyIsNotNftKey(item.token);
      AddToBalanceIsQuiet(backed, c, sh, env.recipient, item.token, item.Value(), env.retErr, after);
    }
  }

  lemma CreditNftReceives(backed: bool, c: Config, sh: Shard, env: Envelope, item: Item, known: Sys, after: Shard)
    requires Active(c) && Sound(backed, sh) && GoodItem(backed, item) && c.shardOf(env.caller) != c.self
    requires item.nonce > 0 && env.carrier != ByTransfer
    requires Tells(item) ==> item.Key() in known
    requires IsBare(item) ==> item.Key() in sh.sys
    requires CreditOne(c, sh, env, item) == Ok(after)
    ensures Sound(backed, after) && KeysGrow(sh.sys, after.sys)
    ensures NewBits(sh.sys, after.sys, c.self, c.shardOf(env.caller), known)
    ensures forall k :: CarriesMeta(item, k) ==> k in after.sys
  {
    var merged := CreditNftWrite(c, sh, env, item, after);
    NftKeyIntro(item.token, item.nonce);
    hide SaveToken, Bit, CreditOne;
    SaveTokenSound(backed, c, sh, env.caller, env.recipient, item.token, item.nonce, merged, false, env.retErr, after, known);
  }

  lemma CreditNftWrite(c: Config, sh: Shard, env: Envelope, item: Item, after: Shard) returns (merged: Token)
    requires Active(c) && CreditOne(c, sh, env, item) == Ok(after)
    requires item.nonce > 0 && env.carrier != ByTransfer
    ensures merged == ArrivingToken(item).(value := Balance(sh.users, env.recipient, item.Key()) + item.Value())
    ensures SaveToken(c, sh, env.caller, env.recipient, item.token, item.nonce, merged, false, env.retErr) == Ok(after)
  {
    var r := AddToDestination(c, sh, env.caller, env.recipient, ArrivingToken(item), item.token, item.nonce, env.retErr).value;
    merged := r.1;
    var saved := AddToDestinationWrite(c, sh, env.caller, env.recipient, ArrivingToken(item), item.token, item.nonce,
                                       env.retErr, r.0, r.1);
  }

  lemma {:induction false} CreditAllReceives(backed: bool, c: Config, sh: Shard, env: Envelope, items: seq<Item>, known: Sys, after: Shard)
    requires Active(c) && Sound(backed, sh) && c.shardOf(env.caller) != c.self
    requires forall i :: 0 <= i < |items| ==> GoodItem(backed, items[i])
    requires env.carrier == ByNftTransfer ==> forall i :: 0 <= i < |items| ==> items[i].nonce > 0
    requires env.carrier == ByTransfer ==> FungibleItems(items)
    requires forall p :: 0 <= p < |items| && Tells(items[p]) ==> items[p].Key() in known
    requires forall p :: 0 <= p < |items| && IsBare(items[p]) ==>
               items[p].Key() in sh.sys || Announced(items, p, items[p].Key())
    requires CreditAll(c, sh, env, items) == Ok(after)
    ensures Sound(backed, after) && Received(c, sh.sys, after.sys, env, items, known)
  {
    hide CreditOne, Sound, Bit, IsNftKey, ValidToken;
    if items != [] {
      var last := |items| - 1;
      var init := items[..last];
      assert items == init + [items[last]];
      forall p | 0 <= p < |init| && IsBare(init[p])
        ensures init[p].Key() in sh.sys || Announced(init, p, init[p].Key())
      {
        AnnouncedSnoc(init, items[last], p, init[p].Key());
      }
      var mid := CreditAll(c, sh, env, init).value;
      CreditAllReceives(backed, c, sh, env, init, known, mid);
      AnnouncedSnoc(init, items[last], last, items[last].Key());
      CreditOneReceives(backed, c, mid, env, items[last], known, after);
      ReceivedSnoc(c, sh.sys, mid.sys, after.sys, env, init, items[last], known);
    }
  }

  /** Every bare amount finds its token's metadata in the shard at the moment it is credited. */
  lemma BareItemFindsMetadata(backed: bool, c: Config, sh: Shard, env: Envelope, items: seq<Item>, p: nat, known: Sys)
    requires Active(c) && Sound(backed, sh) && c.shardOf(env.caller) != c.self
    requires forall i :: 0 <= i < |items| ==> GoodItem(backed, items[i])
    requires env.carrier == ByNftTransfer ==> forall i :: 0 <= i < |items| ==> items[i].nonce > 0
    requires env.carrier == ByTransfer ==> FungibleItems(items)
    requires forall q :: 0 <= q < |items| && Tells(items[q]) ==> items[q].Key() in known
    requires forall q :: 0 <= q < |items| && IsBare(items[q]) ==>
               items[q].Key() in sh.sys || Announced(items, q, items[q].Key())
    requires p < |items| && IsBare(items[p]) && CreditAll(c, sh, env, items[..p]).Ok?
    ensures var sys := CreditAll(c, sh, env, items[..p]).value.sys;
      items[p].Key() in sys && sys[items[p].Key()].Entry? && sys[items[p].Key()].token.meta.Some?
  {
    hide NewBits, CreditOne, ValidToken;
    var init := items[..p];
    assert items == init + items[p..];
    forall q | 0 <= q < |init| && IsBare(init[q])
      ensures init[q].Key() in sh.sys || Announced(init, q, init[q].Key())
    {
      AnnouncedInConcat(init, items[p..], q, init[q].Key());
    }
    AnnouncedInConcat(init, items[p..], p, items[p].Key());
    CreditAllReceives(backed, c, sh, env, init, known, CreditAll(c, sh, env, init).value);
    NftKeyIntro(items[p].token, items[p].nonce);
  }

  lemma {:induction false} SaveMetaOfItemsReceives(c: Config, sys: Sys, env: Envelope, items: seq<Item>, known: Sys, after: Sys)
    requires Active(c) && EntriesHaveMeta(sys) && c.shardOf(env.caller) != c.self && env.carrier != ByTransfer
    requires forall p :: 0 <= p < |items| && Tells(items[p]) ==> items[p].Key() in known
    requires SaveMetaOfItems(c, sys, env, items) == Ok(after)
    ensures EntriesHaveMeta(after) && Received(c, sys, after, env, items, known)
  {
    if items != [] {
      var last := |items| - 1;
      var item := items[last];
      assert items == items[..last] + [item];
      var mid := SaveMetaOfItems(c, sys, env, items[..last]).value;
      SaveMetaOfItemsReceives(c, sys, env, items[..last], known, mid);
      if item.body.Payload? && (env.carrier == ByNftTransfer || item.nonce > 0) {
        SaveMetaBits(c, mid, None, c.shardOf(env.caller), item.Key(), item.nonce, item.body.data, true, after, known);
      }
      hide SaveMeta;
      ReceivedSnoc(c, sys, mid, after, env, items[..last], item, known);
    }
  }

  /** A failed message leaves its metadata behind, and both sides know what it tells about. */
  lemma FailedMessageReceives(backed: bool, c: Config, sh: Shard, env: Envelope, known: Sys, after: Sys)
    requires Active(c) && Sound(backed, sh) && GoodMessage(backed, c, env) && c.self == c.shardOf(env.recipient)
    requires forall p :: 0 <= p < |env.items| && Tells(env.items[p]) ==> env.items[p].Key() in known
    requires forall p :: 0 <= p < |env.items| && IsBare(env.items[p]) ==>
               env.items[p].Key() in sh.sys || Announced(env.items, p, env.items[p].Key())
    requires SaveMetaOfMessage(c, sh.sys, env) == Ok(after)
    ensures Sound(backed, sh.(sys := after)) && Received(c, sh.sys, after, env, env.items, known)
    ensures forall p :: 0 <= p < |env.items| && Tells(env.items[p]) ==> env.items[p].Key() in after
  {
    if env.carrier != ByTransfer {
      SaveMetaOfItemsReceives(c, sh.sys, env, env.items, known, after);
      hide SaveMetaOfItems, NewBits;
      forall p | 0 <= p < |env.items| && Tells(env.items[p])
        ensures env.items[p].Key() in after
      {
        if IsBare(env.items[p]) {
          if env.items[p].Key() !in sh.sys {
            var q :| 0 <= q < p && CarriesMeta(env.items[q], env.items[p].Key());
            assert Announced(env.items, |env.items|, env.items[p].Key());
          }
        } else {
          assert CarriesMeta(env.items[p], env.items[p].Key());
        }
      }
    }
  }

  // ---- calls that send nothing ----

  /**
   * What the protocol asks of a call: identifiers accepted by ValidateToken. For holders to be backed, quantity must be
   * added only by callers that the frozen bit stops.
   */
  predicate Allowed(backed: bool, c: Config, call: Call) {
    ValidTokens(call) && (backed && call.AddQuantityCall? ==> !call.inp.retErr && call.inp.caller != c.dctSC)
  }

  lemma CreateIsQuiet(backed: bool, c: Config, sh: Shard, inp: Input, holder: Address, cr: Creation, after: Shard, out: Output)
    requires Active(c) && Sound(backed, sh) && ValidToken(cr.token) && c.shardOf(holder) == c.self
    requires Create(c, sh, inp, holder, cr) == Ok((after, out))
    ensures Quiet(backed, c.self, sh, after) && out.sent == []
  {
    var nonce := NextNonce(sh, holder, cr.token);
    var meta := MetaData(nonce, cr.name, inp.caller, cr.royalties, cr.hash, cr.attributes, cr.uris);
    var tok := Token(NonFungible, ToNat(cr.quantity), [], Some(meta), []);
    var saved := SaveToken(c, sh, holder, holder, cr.token, nonce, tok, true, inp.retErr).value;
    OwnWriteIsQuiet(backed, c, sh, holder, holder, cr.token, nonce, tok, true, inp.retErr, saved);
    hide SaveToken, NewBits, HasRole;
    assert after.users == saved.users && after.sys == saved.sys;
  }

  lemma RewriteIsQuiet(backed: bool, c: Config, sh: Shard, a: Address, t: Bytes, nonce: uint64, own: Token, tok: Token,
                       mustUpdate: bool, retErr: bool, saved: Shard)
    requires Active(c) && Sound(backed, sh) && ValidToken(t) && nonce > 0 && c.shardOf(a) == c.self
    requires ReadTokenOnSender(c, sh, a, t, nonce) == Ok(own)
    requires backed && tok.value > 0 ==> own.value > 0 || tok.meta.Some? || TokenKey(t, nonce) in sh.sys
    requires SaveToken(c, sh, a, a, t, nonce, tok, mustUpdate, retErr) == Ok(saved)
    ensures Quiet(backed, c.self, sh, saved)
  {
    ReadTokenValue(c, sh, a, t, nonce);
    NftKeyIntro(t, nonce);
    assert backed && own.value > 0 ==> TokenKey(t, nonce) in sh.sys;
    OwnWriteIsQuiet(backed, c, sh, a, a, t, nonce, tok, mustUpdate, retErr, saved);
  }

  lemma AddQuantityIsQuiet(backed: bool, c: Config, sh: Shard, inp: Input, t: Bytes, nonce: uint64, quantity: Bytes, after: Shard, out: Output)
    requires Active(c) && Sound(backed, sh) && ValidToken(t) && c.shardOf(inp.caller) == c.self
    requires backed ==> !inp.retErr && inp.caller != c.dctSC
    requires AddQuantity(c, sh, inp, t, nonce, quantity) == Ok((after, out))
    ensures Quiet(backed, c.self, sh, after) && out.sent == []
  {
    ReadTokenValue(c, sh, inp.caller, t, nonce);
    NftKeyIntro(t, nonce);
    var own := ReadTokenOnSender(c, sh, inp.caller, t, nonce).value;
    RewriteIsQuiet(backed, c, sh, inp.caller, t, nonce, own, own.(value := own.value + ToNat(quantity)), false, inp.retErr, after);
  }

  lemma BurnIsQuiet(backed: bool, c: Config, sh: Shard, inp: Input, t: Bytes, nonce: uint64, value: nat, after: Shard, out: Output)
    requires Active(c) && Sound(backed, sh) && ValidToken(t) && c.shardOf(inp.caller) == c.self
    requires Burn(c, sh, inp, t, nonce, value) == Ok((after, out))
    ensures Quiet(backed, c.self, sh, after) && out.sent == []
  {
    var own := ReadTokenOnSender(c, sh, inp.caller, t, nonce).value;
    RewriteIsQuiet(backed, c, sh, inp.caller, t, nonce, own, own.(value := own.value - value), false, inp.retErr, after);
  }

  lemma UpdateIsQuiet(backed: bool, c: Config, sh: Shard, inp: Input, t: Bytes, nonce: uint64, update: Update, after: Shard, out: Output)
    requires Active(c) && Sound(backed, sh) && ValidToken(t) && c.shardOf(inp.caller) == c.self
    requires UpdateMeta(c, sh, inp, t, nonce, update) == Ok((after, out))
    ensures Quiet(backed, c.self, sh, after) && out.sent == []
  {
    var own := ReadTokenOnSender(c, sh, inp.caller, t, nonce).value;
    RewriteIsQuiet(backed, c, sh, inp.caller, t, nonce, own, own.(meta := Some(update.Apply(own.meta.value))), true, inp.retErr, after);
  }

  lemma AddToBalanceIsQuiet(backed: bool, c: Config, sh: Shard, a: Address, t: Bytes, delta: int, retErr: bool, after: Shard)
    requires Sound(backed, sh) && ValidToken(t) && AddToBalance(c, sh, a, t, delta, retErr) == Ok(after)
    ensures Quiet(backed, c.self, sh, after)
  {
    FungibleKeyIsNotNftKey(t);
    UsersChangeIsQuiet(backed, c.self, sh, after.users);
  }

  lemma SettingIsQuiet(backed: bool, self: nat, sh: Shard, t: Bytes, which: Setting, on: bool)
    requires Sound(backed, sh) && ValidToken(t)
    ensures Quiet(backed, self, sh, ToggleSetting(sh, t, which, on))
  {
    FungibleKeyIsNotNftKey(t);
  }

  lemma NftCallIsQuiet(backed: bool, c: Config, sh: Shard, call: Call, after: Shard, out: Output)
    requires Active(c) && Sound(backed, sh) && RunsIn(c, call, c.self) && Allowed(backed, c, call)
    requires IsNftCall(call) && Execute(c, sh, call) == Ok((after, out))
    ensures Quiet(backed, c.self, sh, after) && out.sent == []
  {
    hide Create, AddQuantity, Burn, UpdateMeta, Sound, ValidToken, Quiet;
    match call
    case CreateCall(inp, holder, cr) => CreateIsQuiet(backed, c, sh, inp, holder, cr, after, out);
    case AddQuantityCall(inp, t, nonce, quantity) => AddQuantityIsQuiet(backed, c, sh, inp, t, nonce, quantity, after, out);
    case BurnCall(inp, t, nonce, value) => BurnIsQuiet(backed, c, sh, inp, t, nonce, value, after, out);
    case UpdateCall(inp, t, nonce, update) => UpdateIsQuiet(backed, c, sh, inp, t, nonce, update, after, out);
  }

  lemma WipeIsQuiet(backed: bool, c: Config, sh: Shard, a: Address, key: Bytes, after: Shard)
    requires Active(c) && Sound(backed, sh) && Wipe(c, sh, a, key) == Ok(after)
    ensures Quiet(backed, c.self, sh, after)
  {
    UsersChangeIsQuiet(backed, c.self, sh, after.users);
  }

  lemma FreezeIsQuiet(backed: bool, self: nat, sh: Shard, a: Address, key: Bytes, freeze: bool)
    requires Sound(backed, sh)
    ensures Quiet(backed, self, sh, ToggleFreeze(sh, a, key, freeze))
  {
    hide IsNftKey, EntriesHaveMeta, KeysGrow, NewBits;
    UsersChangeIsQuiet(backed, self, sh, ToggleFreeze(sh, a, key, freeze).users);
  }

  lemma RolesAreQuiet(backed: bool, self: nat, before: Shard, after: Shard)
    requires Sound(backed, before) && after.users == before.users && after.sys == before.sys
    ensures Quiet(backed, self, before, after)
  {
  }

  lemma OtherCallIsQuiet(backed: bool, c: Config, sh: Shard, call: Call, after: Shard, out: Output)
    requires Active(c) && Sound(backed, sh) && Allowed(backed, c, call)
    requires !IsNftCall(call) && !IsTransfer(call) && Execute(c, sh, call) == Ok((after, out))
    ensures Quiet(backed, c.self, sh, after) && out.sent == []
  {
    hide AddToBalance, Quiet, Sound, Wipe, ToggleFreeze, ToggleSetting, ValidToken;
    match call
    case MintCall(inp, t, quantity) => AddToBalanceIsQuiet(backed, c, sh, inp.caller, t, ToNat(quantity), inp.retErr, after);
    case BurnFungibleCall(inp, t, value) => AddToBalanceIsQuiet(backed, c, sh, inp.caller, t, -(value as int), inp.retErr, after);
    case FreezeCall(a, k, freeze) => FreezeIsQuiet(backed, c.self, sh, a, k, freeze);
    case WipeCall(a, k) => WipeIsQuiet(backed, c, sh, a, k, after);
    case SettingCall(t, which, on) => SettingIsQuiet(backed, c.self, sh, t, which, on);
    case RolesCall(a, t, roles, addresses, restart) => RolesAreQuiet(backed, c.self, sh, after);
  }

  // ---- calls that send ----

  /** What a transfer does to its shard, through the state `mid` before anything is shipped. */
  ghost predicate Sends(backed: bool, c: Config, before: Shard, mid: Shard, after: Shard, out: Output) {
    && Quiet(backed, c.self, before, mid) && Sound(backed, after)
    && (out.sent == [] ==> after.sys == mid.sys)
    && (out.sent != [] ==>
          && |out.sent| == 1 && GoodMessage(backed, c, out.sent[0]) && c.shardOf(out.sent[0].caller) == c.self
          && (if c.shardOf(out.sent[0].recipient) == METACHAIN then after.sys == mid.sys
              else Shipped(mid.sys, after.sys, c.shardOf(out.sent[0].recipient), out.sent[0].items)))
  }

  lemma ShippedIsSound(backed: bool, sh: Shard, sys: Sys, t: nat, items: seq<Item>)
    requires Sound(backed, sh) && Shipped(sh.sys, sys, t, items)
    ensures Sound(backed, sh.(sys := sys))
  {
  }

  lemma ShipOneGood(backed: bool, c: Config, sys: Sys, dst: Address, mv: Move, tok: Token, gas: nat)
    requires ValidToken(mv.token) && ShipOne(c, sys, dst, mv, tok, gas).Ok?
    requires tok.value == mv.value && (backed && mv.nonce > 0 && mv.value > 0 ==> tok.meta.Some?)
    ensures GoodItem(backed, ShipOne(c, sys, dst, mv, tok, gas).value.1)
  {
  }

  lemma {:induction false} ShipAllGood(backed: bool, c: Config, sys: Sys, dst: Address, moves: seq<Move>, tokens: seq<Token>, gas: nat)
    requires |moves| == |tokens| && ShipAll(c, sys, dst, moves, tokens, gas).Ok?
    requires forall i :: 0 <= i < |moves| ==> ValidToken(moves[i].token) && tokens[i].value == moves[i].value
    requires backed ==> forall i :: 0 <= i < |moves| ==> moves[i].nonce > 0 ==> tokens[i].meta.Some?
    ensures forall i :: 0 <= i < |moves| ==> GoodItem(backed, ShipAll(c, sys, dst, moves, tokens, gas).value.1[i])
  {
    hide ShipOne, GoodItem, ValidToken;
    if moves != [] {
      var last := |moves| - 1;
      ShipAllGood(backed, c, sys, dst, moves[..last], tokens[..last], gas);
      var (before, items, left) := ShipAll(c, sys, dst, moves[..last], tokens[..last], gas).value;
      ShipOneGood(backed, c, before, dst, moves[last], tokens[last], left);
    }
  }

  /** With the destination in this shard or on the metachain nothing is marked as sent. */
  lemma ShipOneStays(c: Config, sys: Sys, dst: Address, mv: Move, tok: Token, gas: nat)
    requires Active(c) && (ToShard(c, dst) || c.shardOf(dst) == METACHAIN) && ShipOne(c, sys, dst, mv, tok, gas).Ok?
    ensures ShipOne(c, sys, dst, mv, tok, gas).value.0 == sys
  {
  }

  lemma {:induction false} ShipAllStays(c: Config, sys: Sys, dst: Address, moves: seq<Move>, tokens: seq<Token>, gas: nat)
    requires Active(c) && (ToShard(c, dst) || c.shardOf(dst) == METACHAIN) && |moves| == |tokens|
    requires ShipAll(c, sys, dst, moves, tokens, gas).Ok?
    ensures ShipAll(c, sys, dst, moves, tokens, gas).value.0 == sys
  {
    hide ShipOne;
    if moves != [] {
      var last := |moves| - 1;
      ShipAllStays(c, sys, dst, moves[..last], tokens[..last], gas);
      var (before, items, left) := ShipAll(c, sys, dst, moves[..last], tokens[..last], gas).value;
      ShipOneStays(c, before, dst, moves[last], tokens[last], left);
    }
  }

  /** The end of a transfer: gas and messages after everything is shipped. */
  lemma FinishSends(backed: bool, c: Config, sh: Shard, mid: Shard, after: Shard, inp: Input, dst: Address, carrier: Carrier,
                    items: seq<Item>, extra: seq<Bytes>, left: nat)
    requires Quiet(backed, c.self, sh, mid) && after == mid.(sys := after.sys) && c.shardOf(inp.caller) == c.self
    requires carrier != ByTransfer && (carrier == ByNftTransfer ==> forall i :: 0 <= i < |items| ==> items[i].nonce > 0)
    requires ToShard(c, dst) || c.shardOf(dst) == METACHAIN ==> after.sys == mid.sys
    requires !ToShard(c, dst) ==> forall i :: 0 <= i < |items| ==> GoodItem(backed, items[i])
    requires !ToShard(c, dst) && c.shardOf(dst) != METACHAIN ==> Shipped(mid.sys, after.sys, c.shardOf(dst), items)
    ensures Sends(backed, c, sh, mid, after, Finish(c, inp, dst, carrier, items, extra, left))
  {
    hide NewBits, GoodItem, IsNftKey;
    if !ToShard(c, dst) && c.shardOf(dst) != METACHAIN {
      ShippedIsSound(backed, mid, after.sys, c.shardOf(dst), items);
    }
  }

  lemma MultiSendSends(backed: bool, c: Config, sh: Shard, inp: Input, dst: Address, moves: seq<Move>, extra: seq<Bytes>, after: Shard, out: Output)
    returns (mid: Shard)
    requires Active(c) && Sound(backed, sh) && c.shardOf(inp.caller) == c.self
    requires forall i :: 0 <= i < |moves| ==> ValidToken(moves[i].token)
    requires MultiSend(c, sh, inp, dst, moves, extra) == Ok((after, out))
    ensures Sends(backed, c, sh, mid, after, out)
  {
    hide SendAll, ShipAll, Sound, NewBits, KeysGrow, ValidToken, Shipped, Sends, Finish, CheckPayable, IsNftKey;
    var all := SendAll(c, sh, inp.caller, dst, moves, inp.retErr).value;
    mid := all.0;
    var tokens := all.1;
    var gas := inp.gasProvided - MultiCost(c, |moves|);
    var (sys, items, left) := ShipAll(c, mid.sys, dst, moves, tokens, gas).value;
    SendAllIsQuiet(backed, c, sh, inp.caller, dst, moves, inp.retErr, mid, tokens);
    if ToShard(c, dst) || c.shardOf(dst) == METACHAIN {
      ShipAllStays(c, mid.sys, dst, moves, tokens, gas);
    }
    if !ToShard(c, dst) {
      ShipAllGood(backed, c, mid.sys, dst, moves, tokens, gas);
      if c.shardOf(dst) != METACHAIN {
        ShipAllShips(c, mid.sys, dst, moves, tokens, gas, sys, items, left);
      }
    }
    FinishSends(backed, c, sh, mid, after, inp, dst, ByMultiTransfer, items, extra, left);
  }

  lemma NftSendOneIsQuiet(backed: bool, c: Config, sh: Shard, inp: Input, dst: Address, mv: Move, extra: seq<Bytes>, after: Shard, tok: Token)
    requires Active(c) && Sound(backed, sh) && ValidToken(mv.token) && c.shardOf(inp.caller) == c.self
    requires NftSendOne(c, sh, inp, dst, mv, extra) == Ok((after, tok))
    ensures Quiet(backed, c.self, sh, after) && mv.nonce > 0
    ensures !ToShard(c, dst) ==> KnownToken(backed, after.sys, mv, tok) && tok.value == mv.value
  {
    hide SaveToken, CheckPayable;
    var (shipped, debited) := DebitForNft(c, sh, inp.caller, mv, inp.retErr).value;
    NftDebit(c, sh, inp.caller, mv, inp.retErr, shipped, debited);
    hide SaveToken, ReadToken, Sound, DebitForNft, AddToDestination, NewBits, KeysGrow, IsNftKey, CheckLimitedTransfer;
    DebitIsQuiet(backed, c, sh, inp.caller, mv, inp.retErr, shipped, debited);
    if ToShard(c, dst) {
      CreditHereIsQuiet(backed, c, debited, inp.caller, dst, shipped, mv.token, mv.nonce, inp.retErr, after, tok);
      QuietTrans(backed, c.self, sh, debited, after);
    }
  }

  lemma NftShipStays(c: Config, sys: Sys, dst: Address, mv: Move, tok: Token, gas: nat)
    requires Active(c) && (ToShard(c, dst) || c.shardOf(dst) == METACHAIN) && NftShip(c, sys, dst, mv, tok, gas).Ok?
    ensures NftShip(c, sys, dst, mv, tok, gas).value.0 == sys
  {
  }

  lemma NftShipGood(backed: bool, c: Config, sys: Sys, dst: Address, mv: Move, tok: Token, gas: nat)
    requires ValidToken(mv.token) && NftShip(c, sys, dst, mv, tok, gas).Ok?
    requires tok.value == mv.value && mv.nonce > 0 && (backed && mv.value > 0 ==> tok.meta.Some?)
    ensures GoodItem(backed, NftShip(c, sys, dst, mv, tok, gas).value.1)
    ensures NftShip(c, sys, dst, mv, tok, gas).value.1.nonce == mv.nonce
  {
  }

  lemma NftShipShipped(c: Config, sys: Sys, dst: Address, mv: Move, tok: Token, gas: nat)
    requires Active(c) && c.shardOf(dst) != c.self && c.shardOf(dst) != METACHAIN && mv.nonce > 0
    requires ReadyToken(sys, mv, tok) && NftShip(c, sys, dst, mv, tok, gas).Ok?
    ensures Shipped(sys, NftShip(c, sys, dst, mv, tok, gas).value.0, c.shardOf(dst), [NftShip(c, sys, dst, mv, tok, gas).value.1])
  {
    hide NftShip, Shipped, ShipsOne;
    var (after, item, left) := NftShip(c, sys, dst, mv, tok, gas).value;
    NftShipShips(c, sys, dst, mv, tok, gas);
    ShippedNothing(sys, c.shardOf(dst));
    ShippedSnoc(sys, sys, after, c.shardOf(dst), [], item);
    assert [] + [item] == [item];
  }

  lemma NftSendSends(backed: bool, c: Config, sh: Shard, inp: Input, dst: Address, mv: Move, extra: seq<Bytes>, after: Shard, out: Output)
    returns (mid: Shard)
    requires Active(c) && Sound(backed, sh) && c.shardOf(inp.caller) == c.self && ValidToken(mv.token)
    requires NftSend(c, sh, inp, dst, mv, extra) == Ok((after, out))
    ensures Sends(backed, c, sh, mid, after, out)
  {
    hide NftSendOne, NftShip, Sound, NewBits, KeysGrow, ValidToken, Shipped, Sends, Finish, IsNftKey;
    var moved := NftSendOne(c, sh, inp, dst, mv, extra).value;
    mid := moved.0;
    var tok := moved.1;
    var gas := inp.gasProvided - c.costs.nftTransfer;
    var (sys, item, left) := NftShip(c, mid.sys, dst, mv, tok, gas).value;
    NftSendOneIsQuiet(backed, c, sh, inp, dst, mv, extra, mid, tok);
    if ToShard(c, dst) || c.shardOf(dst) == METACHAIN {
      NftShipStays(c, mid.sys, dst, mv, tok, gas);
    }
    if !ToShard(c, dst) {
      NftShipGood(backed, c, mid.sys, dst, mv, tok, gas);
      if c.shardOf(dst) != METACHAIN {
        NftShipShipped(c, mid.sys, dst, mv, tok, gas);
      }
    } else {
      NftShipNonce(c, mid.sys, dst, mv, tok, gas);
    }
    FinishSends(backed, c, sh, mid, after, inp, dst, ByNftTransfer, [item], extra, left);
  }

  lemma NftShipNonce(c: Config, sys: Sys, dst: Address, mv: Move, tok: Token, gas: nat)
    requires NftShip(c, sys, dst, mv, tok, gas).Ok?
    ensures NftShip(c, sys, dst, mv, tok, gas).value.1.nonce == mv.nonce
  {
  }

  lemma FungibleSendSends(backed: bool, c: Config, sh: Shard, inp: Input, dst: Address, t: Bytes, value: nat, extra: seq<Bytes>,
                          after: Shard, out: Output) returns (mid: Shard)
    requires Active(c) && Sound(backed, sh) && ValidToken(t) && c.shardOf(inp.caller) == c.self
    requires FungibleSend(c, sh, inp, dst, t, value, extra) == Ok((after, out))
    ensures Sends(backed, c, sh, mid, after, out)
  {
    var debited := AddToBalance(c, sh, inp.caller, t, -(value as int), inp.retErr).value;
    mid := after;
    AddToBalanceIsQuiet(backed, c, sh, inp.caller, t, -(value as int), inp.retErr, debited);
    hide AddToBalance, NewBits, Sound, Bit;
    if ToShard(c, dst) {
      AddToBalanceIsQuiet(backed, c, debited, dst, t, value, inp.retErr, after);
      QuietTrans(backed, c.self, sh, debited, after);
    } else {
      FungibleMessageShips(after.sys, c.shardOf(dst), t, value);
    }
  }

  lemma FungibleMessageShips(sys: Sys, shard: nat, t: Bytes, value: nat)
    ensures Shipped(sys, sys, shard, [Item(t, 0, Amount(value))])
  {
  }

  lemma TransferSends(backed: bool, c: Config, sh: Shard, call: Call, after: Shard, out: Output) returns (mid: Shard)
    requires Active(c) && Sound(backed, sh) && RunsIn(c, call, c.self) && Allowed(backed, c, call) && IsTransfer(call)
    requires Execute(c, sh, call) == Ok((after, out))
    ensures Sends(backed, c, sh, mid, after, out)
  {
    hide FungibleSend, NftSend, MultiSend, Sound, Sends, ValidToken;
    match call
    case FungibleCall(inp, dst, t, value, extra) => mid := FungibleSendSends(backed, c, sh, inp, dst, t, value, extra, after, out);
    case NftCall(inp, dst, mv, extra) => mid := NftSendSends(backed, c, sh, inp, dst, mv, extra, after, out);
    case MultiCall(inp, dst, moves, extra) => mid := MultiSendSends(backed, c, sh, inp, dst, moves, extra, after, out);
  }

  lemma ExecuteSends(backed: bool, c: Config, sh: Shard, call: Call, after: Shard, out: Output) returns (mid: Shard)
    requires Active(c) && Sound(backed, sh) && RunsIn(c, call, c.self) && Allowed(backed, c, call)
    requires Execute(c, sh, call) == Ok((after, out))
    ensures Sends(backed, c, sh, mid, after, out)
  {
    hide Execute, Sound, NewBits, RunsIn;
    if IsTransfer(call) {
      mid := TransferSends(backed, c, sh, call, after, out);
    } else {
      mid := after;
      if IsNftCall(call) {
        NftCallIsQuiet(backed, c, sh, call, after, out);
      } else {
        OtherCallIsQuiet(backed, c, sh, call, after, out);
      }
    }
  }

  // ---- whole runs ----

  ghost predicate Safe(backed: bool, c: Config, w: World) {
    && (forall s :: 0 <= s < |w.shards| ==> Sound(backed, w.shards[s]))
    && (forall i :: 0 <= i < |w.net| ==> GoodMessage(backed, c, w.net[i]) && c.shardOf(w.net[i].caller) < |w.shards|)
    && (forall s, t :: 0 <= s < |w.shards| && 0 <= t < |w.shards| && s != t ==>
          PairSafe(w.shards[s].sys, w.shards[t].sys, t, Chan(c.shardOf, w.net, s, t)))
  }

  /** Fewer shards than the number that names the metachain. */
  predicate FewShards(w: World) {
    |w.shards| <= METACHAIN
  }

  lemma ItemKeysAreNft(backed: bool, c: Config, env: Envelope)
    requires GoodMessage(backed, c, env)
    ensures forall p :: 0 <= p < |env.items| && env.items[p].nonce > 0 ==> IsNftKey(env.items[p].Key())
  {
    forall p | 0 <= p < |env.items| && env.items[p].nonce > 0
      ensures IsNftKey(env.items[p].Key())
    {
      NftKeyIntro(env.items[p].token, env.items[p].nonce);
    }
  }

  /** The pair of the running shard and another one, after the call. */
  lemma SenderPairSafe(backed: bool, c: Config, before: Shard, mid: Shard, after: Shard, out: Output, net: seq<Envelope>, dst: Sys, t: nat)
    requires Sends(backed, c, before, mid, after, out) && t != c.self && t < METACHAIN
    requires PairSafe(before.sys, dst, t, Chan(c.shardOf, net, c.self, t))
    ensures PairSafe(after.sys, dst, t, Chan(c.shardOf, net + out.sent, c.self, t))
  {
    var chan := Chan(c.shardOf, net, c.self, t);
    PairSrcChanges(before.sys, mid.sys, c.self, c.self, map[], dst, t, chan);
    hide PairSafe, Shipped, NewBits, Sound;
    if out.sent == [] {
      assert net + out.sent == net;
    } else {
      var env := out.sent[0];
      var u := c.shardOf(env.recipient);
      assert out.sent == [env];
      ChanConcat(c, net, [env], c.self, t);
      ChanOne(c, env, c.self, t);
      ItemKeysAreNft(backed, c, env);
      if u == t {
        PairSends(mid.sys, after.sys, dst, t, chan, env.items);
      } else {
        assert chan + [] == chan;
        if u != METACHAIN {
          PairSendsElsewhere(mid.sys, after.sys, dst, t, u, chan, env.items);
        }
      }
    }
  }

  /** The pair of another shard and the running one. */
  lemma OtherPairSafe(backed: bool, c: Config, before: Shard, mid: Shard, after: Shard, out: Output, net: seq<Envelope>, src: Sys, s: nat)
    requires Sends(backed, c, before, mid, after, out) && s != c.self
    requires PairSafe(src, before.sys, c.self, Chan(c.shardOf, net, s, c.self))
    ensures PairSafe(src, after.sys, c.self, Chan(c.shardOf, net + out.sent, s, c.self))
  {
    hide NewBits, Sound;
    assert KeysGrow(before.sys, after.sys);
    PairDstGrows(src, before.sys, after.sys, c.self, Chan(c.shardOf, net, s, c.self));
    SentElsewhere(c, net, out.sent, s, c.self);
  }

  /** Messages of another sender add nothing to a channel. */
  lemma SentElsewhere(c: Config, net: seq<Envelope>, sent: seq<Envelope>, s: nat, t: nat)
    requires forall i :: 0 <= i < |sent| ==> c.shardOf(sent[i].caller) != s
    ensures Chan(c.shardOf, net + sent, s, t) == Chan(c.shardOf, net, s, t)
  {
    ChanConcat(c, net, sent, s, t);
    ChanEmpty(c, sent, s, t);
  }

  lemma RunStepSafe(backed: bool, c: Config, w: World, s: nat, call: Call, after: World)
    requires Active(c) && Safe(backed, c, w) && FewShards(w) && Next(c, w, Run(s, call)) == Some(after)
    requires Allowed(backed, c, call)
    ensures Safe(backed, c, after)
  {
    hide Execute, PairSafe, Sound, ValidToken, RunsIn;
    var d := At(c, s);
    var (sh, out) := Execute(d, w.shards[s], call).value;
    AllowedAt(backed, c, s, call);
    var mid := ExecuteSends(backed, d, w.shards[s], call, sh, out);
    assert forall i :: 0 <= i < |out.sent| ==> GoodMessage(backed, d, out.sent[i]) && GoodMessage(backed, c, out.sent[i]) && c.shardOf(out.sent[i].caller) == s;
    forall a, b | 0 <= a < |w.shards| && 0 <= b < |w.shards| && a != b
      ensures PairSafe(after.shards[a].sys, after.shards[b].sys, b, Chan(c.shardOf, after.net, a, b))
    {
      assert PairSafe(w.shards[a].sys, w.shards[b].sys, b, Chan(c.shardOf, w.net, a, b));
      if a == s {
        SenderPairSafe(backed, d, w.shards[s], mid, sh, out, w.net, w.shards[b].sys, b);
      } else if b == s {
        OtherPairSafe(backed, d, w.shards[s], mid, sh, out, w.net, w.shards[a].sys, a);
      } else {
        SentElsewhere(d, w.net, out.sent, a, b);
      }
    }
  }

  lemma AllowedAt(backed: bool, c: Config, s: nat, call: Call)
    requires Allowed(backed, c, call)
    ensures Allowed(backed, At(c, s), call) && (RunsIn(c, call, s) ==> RunsIn(At(c, s), call, s))
  {
  }

  /** What the invariant says about the message at the head of a channel. */
  lemma HeadOfChannel(backed: bool, c: Config, w: World, i: nat, s: nat, t: nat)
    requires Safe(backed, c, w) && i < |w.net| && IsNext(c, w.net, i)
    requires s == c.shardOf(w.net[i].caller) && t == c.shardOf(w.net[i].recipient) && t < |w.shards|
    ensures s < |w.shards| && s != t && GoodMessage(backed, c, w.net[i])
    ensures forall p :: 0 <= p < |w.net[i].items| && Tells(w.net[i].items[p]) ==> w.net[i].items[p].Key() in w.shards[s].sys
    ensures forall p :: 0 <= p < |w.net[i].items| && IsBare(w.net[i].items[p]) ==>
              w.net[i].items[p].Key() in w.shards[t].sys || Announced(w.net[i].items, p, w.net[i].items[p].Key())
  {
    var items := w.net[i].items;
    var rest := Chan(c.shardOf, Without(w.net, i), s, t);
    ChanWithout(c, w.net, i, s, t);
    hide Chan, Sound;
    assert PairSafe(w.shards[s].sys, w.shards[t].sys, t, items + rest);
    forall p | 0 <= p < |items|
      ensures Tells(items[p]) ==> items[p].Key() in w.shards[s].sys
      ensures IsBare(items[p]) ==> items[p].Key() in w.shards[t].sys || Announced(items, p, items[p].Key())
    {
      assert (items + rest)[p] == items[p];
      AnnouncedInConcat(items, rest, p, items[p].Key());
    }
  }

  /** All pairs after the shard of the head message took it in, one way or the other. */
  lemma ReceiverPairsSafe(backed: bool, c: Config, w: World, i: nat, s: nat, t: nat, sys: Sys, a: nat, b: nat)
    requires Safe(backed, c, w) && i < |w.net| && IsNext(c, w.net, i)
    requires s == c.shardOf(w.net[i].caller) && t == c.shardOf(w.net[i].recipient) && s < |w.shards| && t < |w.shards| && s != t
    requires Received(At(c, t), w.shards[t].sys, sys, w.net[i], w.net[i].items, w.shards[s].sys)
    requires a < |w.shards| && b < |w.shards| && a != b
    ensures PairSafe(if a == t then sys else w.shards[a].sys, if b == t then sys else w.shards[b].sys, b,
                     Chan(c.shardOf, Without(w.net, i), a, b))
  {
    hide PairSafe, Chan, Sound, NewBits, KeysGrow;
    var rest := Chan(c.shardOf, Without(w.net, i), a, b);
    ChanWithout(c, w.net, i, a, b);
    assert PairSafe(w.shards[a].sys, w.shards[b].sys, b, Chan(c.shardOf, w.net, a, b));
    assert [] + rest == rest;
    if a == t {
      PairSrcChanges(w.shards[t].sys, sys, t, s, w.shards[s].sys, w.shards[b].sys, b, rest);
    } else if b == t {
      if a == s {
        PairReceives(w.shards[s].sys, w.shards[t].sys, sys, t, w.net[i].items, rest);
      } else {
        PairDstGrows(w.shards[a].sys, w.shards[t].sys, sys, t, rest);
      }
    }
  }

  lemma DeliveredSafe(backed: bool, c: Config, w: World, i: nat, s: nat, t: nat, sh: Shard)
    requires Safe(backed, c, w) && i < |w.net| && IsNext(c, w.net, i)
    requires s == c.shardOf(w.net[i].caller) && t == c.shardOf(w.net[i].recipient) && s < |w.shards| && t < |w.shards| && s != t
    requires Sound(backed, sh) && Received(At(c, t), w.shards[t].sys, sh.sys, w.net[i], w.net[i].items, w.shards[s].sys)
    ensures Safe(backed, c, World(w.shards[t := sh], Without(w.net, i)))
  {
    hide PairSafe, Chan, Sound, NewBits, KeysGrow, IsNext;
    forall a, b | 0 <= a < |w.shards| && 0 <= b < |w.shards| && a != b
      ensures PairSafe(w.shards[t := sh][a].sys, w.shards[t := sh][b].sys, b, Chan(c.shardOf, Without(w.net, i), a, b))
    {
      ReceiverPairsSafe(backed, c, w, i, s, t, sh.sys, a, b);
    }
  }

  /** Sending a message back whose items both sides know keeps everything safe. */
  lemma ReturnedSafe(backed: bool, c: Config, w: World, env: Envelope)
    requires Safe(backed, c, w) && GoodMessage(backed, c, env) && c.shardOf(env.caller) < |w.shards| && c.shardOf(env.recipient) < |w.shards|
    requires forall p :: 0 <= p < |env.items| && Tells(env.items[p]) ==>
               env.items[p].Key() in w.shards[c.shardOf(env.caller)].sys && env.items[p].Key() in w.shards[c.shardOf(env.recipient)].sys
    ensures Safe(backed, c, World(w.shards, w.net + [env]))
  {
    hide PairSafe, Chan, Sound, GoodMessage;
    forall a, b | 0 <= a < |w.shards| && 0 <= b < |w.shards| && a != b
      ensures PairSafe(w.shards[a].sys, w.shards[b].sys, b, Chan(c.shardOf, w.net + [env], a, b))
    {
      ChanConcat(c, w.net, [env], a, b);
      ChanOne(c, env, a, b);
      var chan := Chan(c.shardOf, w.net, a, b);
      assert PairSafe(w.shards[a].sys, w.shards[b].sys, b, chan);
      assert chan + [] == chan;
      if a == c.shardOf(env.caller) && b == c.shardOf(env.recipient) {
        PairReturns(w.shards[a].sys, w.shards[b].sys, b, chan, env.items);
      }
    }
  }

  lemma ArriveStepSafe(backed: bool, c: Config, w: World, i: nat, gas: uint64, after: World)
    requires Active(c) && Safe(backed, c, w) && Next(c, w, Arrive(i, gas)) == Some(after)
    ensures Safe(backed, c, after)
  {
    hide Safe, Sound, Received, CreditAll, SaveMetaOfMessage, IsNext, CheckPayable;
    var env := w.net[i];
    var s, t := c.shardOf(env.caller), c.shardOf(env.recipient);
    HeadOfChannel(backed, c, w, i, s, t);
    SoundShard(backed, c, w, t);
    var known := w.shards[s].sys;
    match Deliver(At(c, t), w.shards[t], env, gas)
    case Ok((sh, out)) =>
      CreditAllReceives(backed, At(c, t), w.shards[t], env, env.items, known, sh);
      DeliveredSafe(backed, c, w, i, s, t, sh);
    case Err(_) =>
      FailedStepSafe(backed, c, w, i, s, t, after);
  }

  lemma SoundShard(backed: bool, c: Config, w: World, t: nat)
    requires Safe(backed, c, w) && t < |w.shards|
    ensures Sound(backed, w.shards[t])
  {
  }

  lemma FailedStepSafe(backed: bool, c: Config, w: World, i: nat, s: nat, t: nat, after: World)
    requires Active(c) && Safe(backed, c, w) && i < |w.net| && IsNext(c, w.net, i)
    requires s == c.shardOf(w.net[i].caller) && t == c.shardOf(w.net[i].recipient) && s < |w.shards| && t < |w.shards| && s != t
    requires ArriveFailed(c, w, i, t) == Some(after)
    ensures Safe(backed, c, after)
  {
    hide Safe, Sound, Received, SaveMetaOfMessage, IsNext;
    var env := w.net[i];
    HeadOfChannel(backed, c, w, i, s, t);
    SoundShard(backed, c, w, t);
    var sys := SaveMetaOfMessage(At(c, t), w.shards[t].sys, env).value;
    FailedMessageReceives(backed, At(c, t), w.shards[t], env, w.shards[s].sys, sys);
    var sh := w.shards[t].(sys := sys);
    DeliveredSafe(backed, c, w, i, s, t, sh);
    ReturnedSafe(backed, c, World(w.shards[t := sh], Without(w.net, i)), Bounce(env));
  }

  lemma HandOverStepSafe(backed: bool, c: Config, w: World, from: Address, to: Address, t: Bytes, after: World)
    requires Safe(backed, c, w) && Next(c, w, HandOver(from, to, t)) == Some(after)
    ensures Safe(backed, c, after)
  {
    hide PairSafe, EntriesHaveMeta, ZeroHoldings.ZeroIsFrozen, GoodMessage, Next;
    HandOverKeepsTokens(c, w, from, to, t, after);
  }

  predicate AllowedRun(backed: bool, c: Config, acts: seq<Action>) {
    forall i :: 0 <= i < |acts| && acts[i].Run? ==> Allowed(backed, c, acts[i].call)
  }

  lemma GenesisSafe(backed: bool, c: Config, w: World)
    requires Genesis(w)
    ensures Safe(backed, c, w)
  {
  }

  lemma StepKeepsShards(c: Config, w: World, act: Action, after: World)
    requires Next(c, w, act) == Some(after)
    ensures |after.shards| == |w.shards|
  {
    hide Execute, Deliver, SaveMetaOfMessage, IsNext, RunsIn;
  }

  /**
   * The bitmap protocol is safe over every run from genesis: a set bit means that the other shard has the metadata or
   * that the metadata is on its way there, also when earlier deliveries failed.
   */
  lemma {:induction false} RunSafe(backed: bool, c: Config, w: World, acts: seq<Action>, after: World)
    requires Active(c) && Genesis(w) && FewShards(w) && AllowedRun(backed, c, acts) && Reach(c, w, acts) == Some(after)
    ensures Safe(backed, c, after) && |after.shards| == |w.shards|
  {
    hide Next, Safe, Allowed;
    if acts == [] {
      GenesisSafe(backed, c, w);
    } else {
      var last := |acts| - 1;
      var v := Reach(c, w, acts[..last]).value;
      RunSafe(backed, c, w, acts[..last], v);
      StepKeepsShards(c, v, acts[last], after);
      match acts[last]
      case Run(s, call) => RunStepSafe(backed, c, v, s, call, after);
      case Arrive(i, gas) => ArriveStepSafe(backed, c, v, i, gas, after);
      case HandOver(from, to, t) => HandOverStepSafe(backed, c, v, from, to, t, after);
    }
  }

  /** The meaning of a bit: the other shard holds the metadata, or an item carrying it is queued for it. */
  lemma SetBitIsTrue(c: Config, w: World, acts: seq<Action>, after: World, s: nat, t: nat, key: Bytes)
    requires Active(c) && Genesis(w) && FewShards(w) && AllowedRun(false, c, acts) && Reach(c, w, acts) == Some(after)
    requires s < |after.shards| && t < |after.shards| && s != t && IsNftKey(key) && Bit(after.shards[s].sys, key, t)
    ensures (key in after.shards[t].sys && after.shards[t].sys[key].Entry? && after.shards[t].sys[key].token.meta.Some?)
         || exists i, j :: 0 <= i < |after.net| && 0 <= j < |after.net[i].items|
              && c.shardOf(after.net[i].caller) == s && c.shardOf(after.net[i].recipient) == t
              && CarriesMeta(after.net[i].items[j], key)
  {
    RunSafe(false, c, w, acts, after);
    hide AllowedRun, Reach, Genesis;
    assert Sound(false, after.shards[t]);
    assert PairSafe(after.shards[s].sys, after.shards[t].sys, t, Chan(c.shardOf, after.net, s, t));
    var chan := Chan(c.shardOf, after.net, s, t);
    if key !in after.shards[t].sys {
      var q :| 0 <= q < |chan| && CarriesMeta(chan[q], key);
      QueuedItem(c, after.net, s, t, q);
    }
  }

  /** If no exempt caller adds quantity, whoever holds an NFT reads its metadata in every state of every run. */
  lemma HoldersAreBacked(c: Config, w: World, acts: seq<Action>, after: World, s: nat, a: Address, t: Bytes, nonce: uint64)
    requires Active(c) && Genesis(w) && FewShards(w) && AllowedRun(true, c, acts) && Reach(c, w, acts) == Some(after)
    requires s < |after.shards| && ValidToken(t) && nonce > 0 && Balance(after.shards[s].users, a, TokenKey(t, nonce)) > 0
    ensures ReadToken(At(c, s), after.shards[s], a, t, nonce).Ok?
    ensures ReadToken(At(c, s), after.shards[s], a, t, nonce).value.0.meta.Some?
  {
    RunSafe(true, c, w, acts, after);
    hide AllowedRun, Reach, Genesis, ValidToken;
    assert Sound(true, after.shards[s]);
    NftKeyIntro(t, nonce);
  }

  /** Every item of a channel sits in a message of that channel. */
  lemma {:induction false} QueuedItem(c: Config, net: seq<Envelope>, s: nat, t: nat, q: nat)
    requires q < |Chan(c.shardOf, net, s, t)|
    ensures exists i, j :: 0 <= i < |net| && 0 <= j < |net[i].items|
              && c.shardOf(net[i].caller) == s && c.shardOf(net[i].recipient) == t
              && net[i].items[j] == Chan(c.shardOf, net, s, t)[q]
  {
    var last := |net| - 1;
    var init := Chan(c.shardOf, net[..last], s, t);
    if q < |init| {
      QueuedItem(c, net[..last], s, t, q);
      var i, j :| 0 <= i < last && 0 <= j < |net[..last][i].items|
        && c.shardOf(net[i].caller) == s && c.shardOf(net[i].recipient) == t && net[..last][i].items[j] == init[q];
      assert net[i].items[j] == Chan(c.shardOf, net, s, t)[q];
    } else {
      assert net[last].items[q - |init|] == Chan(c.shardOf, net, s, t)[q];
    }
  }

  /**
   * Every amount that arrives without metadata finds the metadata in its shard when it is credited, in every state
   * that a run from genesis reaches.
   */
  lemma ArrivingAmountFindsMetadata(c: Config, w: World, acts: seq<Action>, after: World, i: nat, p: nat)
    requires Active(c) && Genesis(w) && FewShards(w) && AllowedRun(false, c, acts) && Reach(c, w, acts) == Some(after)
    requires i < |after.net| && IsNext(c, after.net, i) && c.shardOf(after.net[i].recipient) < |after.shards|
    requires p < |after.net[i].items| && IsBare(after.net[i].items[p])
    requires var t := c.shardOf(after.net[i].recipient);
      CreditAll(At(c, t), after.shards[t], after.net[i], after.net[i].items[..p]).Ok?
    ensures var t := c.shardOf(after.net[i].recipient);
      var sys := CreditAll(At(c, t), after.shards[t], after.net[i], after.net[i].items[..p]).value.sys;
      var key := after.net[i].items[p].Key();
      key in sys && sys[key].Entry? && sys[key].token.meta.Some?
  {
    var env := after.net[i];
    var s, t := c.shardOf(env.caller), c.shardOf(env.recipient);
    RunSafe(false, c, w, acts, after);
    HeadOfChannel(false, c, after, i, s, t);
    SoundShard(false, c, after, t);
    hide Safe, Sound, Reach, Genesis, AllowedRun, IsNext, CreditAll;
    BareItemFindsMetadata(false, At(c, t), after.shards[t], env, env.items, p, after.shards[s].sys);
  }
}
