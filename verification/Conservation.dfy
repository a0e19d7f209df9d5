/**
 * Conservation: no transfer, send, delivery or failed delivery changes how much of a key exists in all shards
 * and messages together, and every supply-changing call changes it by the amount it states.
 */
module Conservation {
  import opened Bytes
  import opened Keys
  import opened Wrappers
  import opened Ledger
  import opened Operations
  import opened Totals
  import opened World

  // ---- what a message holds ----

  function ItemAmount(item: Item, key: Bytes): int {
    if item.Key() == key then item.Value() else 0
  }

  function ItemsAmount(items: seq<Item>, key: Bytes): int {
    if items == [] then 0
    else ItemsAmount(items[..|items| - 1], key) + ItemAmount(items[|items| - 1], key)
  }

  function NetAmount(net: seq<Envelope>, key: Bytes): int {
    if net == [] then 0
    else NetAmount(net[..|net| - 1], key) + ItemsAmount(net[|net| - 1].items, key)
  }

  lemma {:induction false} NetAmountConcat(m: seq<Envelope>, n: seq<Envelope>, key: Bytes)
    ensures NetAmount(m + n, key) == NetAmount(m, key) + NetAmount(n, key)
  {
    if n == [] {
      assert m + n == m;
    } else {
      var init := n[..|n| - 1];
      NetAmountConcat(m, init, key);
      assert (m + n)[..|m + n| - 1] == m + init;
    }
  }

  lemma NetAmountOne(e: Envelope, key: Bytes)
    ensures NetAmount([e], key) == ItemsAmount(e.items, key)
  {
    assert [e][..0] == [];
  }

  lemma NetAmountWithout(net: seq<Envelope>, i: nat, key: Bytes)
    requires i < |net|
    ensures NetAmount(net, key) == NetAmount(Without(net, i), key) + ItemsAmount(net[i].items, key)
  {
    assert net == net[..i] + ([net[i]] + net[i + 1..]);
    NetAmountConcat(net[..i], [net[i]] + net[i + 1..], key);
    NetAmountConcat([net[i]], net[i + 1..], key);
    NetAmountConcat(net[..i], net[i + 1..], key);
    NetAmountOne(net[i], key);
  }

  // ---- the effect of one call on one shard ----

  /** The users' holdings differ only in `a`'s balance of `key`, which is now `v`. */
  ghost predicate SetsBalance(before: Users, after: Users, a: Address, key: Bytes, v: int) {
    && (forall x, k :: Balance(after, x, k) == if x == a && k == key then v else Balance(before, x, k))
    && (forall k :: Total(after, k) == Total(before, k) + if k == key then v - Balance(before, a, key) else 0)
    && (NonNegative(before) ==> NonNegative(after))
  }

  lemma RemoveSets(users: Users, a: Address, key: Bytes)
    ensures SetsBalance(users, Remove(users, a, key), a, key, 0)
  {
    TotalRemove(users, a, key);
  }

  lemma PutSets(users: Users, a: Address, key: Bytes, tok: Token)
    requires tok.value >= 0
    ensures SetsBalance(users, Put(users, a, key, tok), a, key, tok.value)
  {
    TotalPut(users, a, key, tok);
  }

  lemma SaveTokenSets(c: Config, sh: Shard, snd: Address, a: Address, t: Bytes, nonce: uint64, tok: Token,
                      mustUpdate: bool, retErr: bool, after: Shard)
    requires SaveToken(c, sh, snd, a, t, nonce, tok, mustUpdate, retErr) == Ok(after)
    requires tok.value >= 0
    ensures SetsBalance(sh.users, after.users, a, TokenKey(t, nonce), tok.value)
    ensures after == sh.(users := after.users, sys := after.sys)
  {
    var key := TokenKey(t, nonce);
    var kept := if c.flags.saveToSystem then Token(tok.kind, tok.value, tok.properties, None, []) else tok;
    RemoveSets(sh.users, a, key);
    PutSets(sh.users, a, key, kept);
  }

  lemma AddToBalanceSets(c: Config, sh: Shard, a: Address, t: Bytes, delta: int, retErr: bool, after: Shard)
    requires AddToBalance(c, sh, a, t, delta, retErr) == Ok(after)
    ensures Balance(sh.users, a, t) + delta >= 0
    ensures SetsBalance(sh.users, after.users, a, t, Balance(sh.users, a, t) + delta)
    ensures after == sh.(users := after.users)
  {
    var tok := ReadRaw(sh.users, a, t);
    RemoveSets(sh.users, a, t);
    PutSets(sh.users, a, t, tok.(value := tok.value + delta));
  }

  lemma ReadTokenValue(c: Config, sh: Shard, a: Address, t: Bytes, nonce: uint64)
    ensures ReadToken(c, sh, a, t, nonce).Ok? ==>
              ReadToken(c, sh, a, t, nonce).value.0.value == Balance(sh.users, a, TokenKey(t, nonce))
  {
  }

  /** The write inside a credit, and what follows it. */
  lemma AddToDestinationWrite(c: Config, sh: Shard, snd: Address, dst: Address, tok: Token, t: Bytes, nonce: uint64,
                              retErr: bool, after: Shard, merged: Token) returns (saved: Shard)
    requires AddToDestination(c, sh, snd, dst, tok, t, nonce, retErr) == Ok((after, merged))
    ensures merged == tok.(value := Balance(sh.users, dst, TokenKey(t, nonce)) + tok.value)
    ensures SaveToken(c, sh, snd, dst, t, nonce, merged, false, retErr) == Ok(saved)
    ensures after == saved.(sys := after.sys)
  {
    ReadTokenValue(c, sh, dst, t, nonce);
    saved := SaveToken(c, sh, snd, dst, t, nonce, merged, false, retErr).value;
  }

  lemma AddToDestinationSets(c: Config, sh: Shard, snd: Address, dst: Address, tok: Token, t: Bytes, nonce: uint64,
                             retErr: bool, after: Shard, merged: Token)
    requires AddToDestination(c, sh, snd, dst, tok, t, nonce, retErr) == Ok((after, merged))
    requires Balance(sh.users, dst, TokenKey(t, nonce)) + tok.value >= 0
    ensures merged == tok.(value := Balance(sh.users, dst, TokenKey(t, nonce)) + tok.value)
    ensures SetsBalance(sh.users, after.users, dst, TokenKey(t, nonce), merged.value)
    ensures after == sh.(users := after.users, sys := after.sys)
  {
    var saved := AddToDestinationWrite(c, sh, snd, dst, tok, t, nonce, retErr, after, merged);
    SaveTokenSets(c, sh, snd, dst, t, nonce, merged, false, retErr, saved);
  }

  // ---- moving a list of tokens ----

  /** The abstract move: `v` of the move's key from `snd` to `dst`, or out of the shard when `dst` is elsewhere. */
  function Moved(b: int, x: Address, k: Bytes, snd: Address, dst: Address, here: bool, mv: Move): int {
    if k != TokenKey(mv.token, mv.nonce) then b
    else if x == snd then b - mv.value
    else if here && x == dst then b + mv.value
    else b
  }

  /** Folding the abstract move over a list, in order, from a starting balance `b` of `x` at `k`. */
  function MovedAll(b: int, x: Address, k: Bytes, snd: Address, dst: Address, here: bool, moves: seq<Move>): int {
    if moves == [] then b
    else Moved(MovedAll(b, x, k, snd, dst, here, moves[..|moves| - 1]), x, k, snd, dst, here, moves[|moves| - 1])
  }

  function MovesAmount(moves: seq<Move>, key: Bytes): int {
    if moves == [] then 0
    else
      var last := moves[|moves| - 1];
      MovesAmount(moves[..|moves| - 1], key) + if TokenKey(last.token, last.nonce) == key then last.value else 0
  }

  /** The accounts and totals after one abstract move. */
  ghost predicate MovesBalances(before: Users, after: Users, snd: Address, dst: Address, here: bool, mv: Move) {
    && (forall x, k :: Balance(after, x, k) == Moved(Balance(before, x, k), x, k, snd, dst, here, mv))
    && (forall k :: Total(after, k) == Total(before, k) - if k == TokenKey(mv.token, mv.nonce) && !here then mv.value else 0)
    && Balance(before, snd, TokenKey(mv.token, mv.nonce)) >= mv.value
    && NonNegative(after)
  }

  /** A debit of the sender followed by a credit of another account is the abstract move. */
  lemma DebitThenCredit(before: Users, mid: Users, after: Users, snd: Address, dst: Address, mv: Move)
    requires NonNegative(before) && snd != dst
    requires Balance(before, snd, TokenKey(mv.token, mv.nonce)) >= mv.value
    requires SetsBalance(before, mid, snd, TokenKey(mv.token, mv.nonce),
                         Balance(before, snd, TokenKey(mv.token, mv.nonce)) - mv.value)
    requires SetsBalance(mid, after, dst, TokenKey(mv.token, mv.nonce),
                         Balance(mid, dst, TokenKey(mv.token, mv.nonce)) + mv.value)
    ensures MovesBalances(before, after, snd, dst, true, mv)
  {
  }

  lemma DebitOnly(before: Users, after: Users, snd: Address, dst: Address, mv: Move)
    requires NonNegative(before)
    requires Balance(before, snd, TokenKey(mv.token, mv.nonce)) >= mv.value
    requires SetsBalance(before, after, snd, TokenKey(mv.token, mv.nonce),
                         Balance(before, snd, TokenKey(mv.token, mv.nonce)) - mv.value)
    ensures MovesBalances(before, after, snd, dst, false, mv)
  {
  }

  lemma NonNegativeBalance(users: Users, a: Address, key: Bytes)
    requires NonNegative(users)
    ensures Balance(users, a, key) >= 0
  {
  }

  /** What a debit is, for either kind of transfer. */
  ghost predicate IsDebit(c: Config, sh: Shard, snd: Address, mv: Move, retErr: bool, shipped: Token, debited: Shard) {
    var own := shipped.(value := Balance(sh.users, snd, TokenKey(mv.token, mv.nonce)));
    && shipped.value == mv.value <= own.value
    && ReadToken(c, sh, snd, mv.token, mv.nonce) == Ok((own, false))
    && SaveToken(c, sh, snd, snd, mv.token, mv.nonce, own.(value := own.value - mv.value), false, retErr) == Ok(debited)
  }

  lemma MultiDebit(c: Config, sh: Shard, snd: Address, mv: Move, retErr: bool, shipped: Token, debited: Shard)
    requires DebitForMulti(c, sh, snd, mv, retErr) == Ok((shipped, debited))
    ensures IsDebit(c, sh, snd, mv, retErr, shipped, debited) && mv.value > 0
  {
    ReadTokenValue(c, sh, snd, mv.token, mv.nonce);
  }

  lemma NftDebit(c: Config, sh: Shard, snd: Address, mv: Move, retErr: bool, shipped: Token, debited: Shard)
    requires DebitForNft(c, sh, snd, mv, retErr) == Ok((shipped, debited))
    ensures IsDebit(c, sh, snd, mv, retErr, shipped, debited) && mv.nonce > 0
  {
    ReadTokenValue(c, sh, snd, mv.token, mv.nonce);
  }

  lemma DebitSets(c: Config, sh: Shard, snd: Address, mv: Move, retErr: bool, shipped: Token, debited: Shard)
    requires IsDebit(c, sh, snd, mv, retErr, shipped, debited)
    ensures SetsBalance(sh.users, debited.users, snd, TokenKey(mv.token, mv.nonce),
                        Balance(sh.users, snd, TokenKey(mv.token, mv.nonce)) - mv.value)
    ensures debited == sh.(users := debited.users, sys := debited.sys)
  {
    var left := shipped.(value := Balance(sh.users, snd, TokenKey(mv.token, mv.nonce)) - mv.value);
    SaveTokenSets(c, sh, snd, snd, mv.token, mv.nonce, left, false, retErr, debited);
  }

  /** A debit followed by the credit in the same shard. */
  lemma DebitAndCredit(c: Config, sh: Shard, snd: Address, dst: Address, mv: Move, retErr: bool, shipped: Token,
                       debited: Shard, after: Shard, merged: Token)
    requires NonNegative(sh.users) && snd != dst
    requires IsDebit(c, sh, snd, mv, retErr, shipped, debited)
    requires AddToDestination(c, debited, snd, dst, shipped, mv.token, mv.nonce, retErr) == Ok((after, merged))
    ensures MovesBalances(sh.users, after.users, snd, dst, true, mv)
    ensures after == sh.(users := after.users, sys := after.sys)
  {
    DebitSets(c, sh, snd, mv, retErr, shipped, debited);
    NonNegativeBalance(debited.users, dst, TokenKey(mv.token, mv.nonce));
    AddToDestinationSets(c, debited, snd, dst, shipped, mv.token, mv.nonce, retErr, after, merged);
    DebitThenCredit(sh.users, debited.users, after.users, snd, dst, mv);
  }

  lemma DebitAndLeave(c: Config, sh: Shard, snd: Address, dst: Address, mv: Move, retErr: bool, shipped: Token, debited: Shard)
    requires NonNegative(sh.users)
    requires IsDebit(c, sh, snd, mv, retErr, shipped, debited)
    ensures MovesBalances(sh.users, debited.users, snd, dst, false, mv)
    ensures debited == sh.(users := debited.users, sys := debited.sys)
  {
    DebitSets(c, sh, snd, mv, retErr, shipped, debited);
    DebitOnly(sh.users, debited.users, snd, dst, mv);
  }

  lemma SendOneMoves(c: Config, sh: Shard, snd: Address, dst: Address, mv: Move, retErr: bool, after: Shard, tok: Token)
    requires SendOne(c, sh, snd, dst, mv, retErr) == Ok((after, tok))
    requires NonNegative(sh.users) && snd != dst
    ensures MovesBalances(sh.users, after.users, snd, dst, ToShard(c, dst), mv)
    ensures !ToShard(c, dst) ==> tok.value == mv.value
    ensures after == sh.(users := after.users, sys := after.sys)
  {
    var (shipped, debited) := DebitForMulti(c, sh, snd, mv, retErr).value;
    MultiDebit(c, sh, snd, mv, retErr, shipped, debited);
    if ToShard(c, dst) {
      DebitAndCredit(c, sh, snd, dst, mv, retErr, shipped, debited, after, tok);
    } else {
      DebitAndLeave(c, sh, snd, dst, mv, retErr, shipped, debited);
    }
  }

  /** The accounts and totals after folding the abstract move over a list. */
  ghost predicate FoldsBalances(before: Users, after: Users, snd: Address, dst: Address, here: bool, moves: seq<Move>) {
    && (forall x, k :: Balance(after, x, k) == MovedAll(Balance(before, x, k), x, k, snd, dst, here, moves))
    && (forall k :: Total(after, k) == Total(before, k) - if here then 0 else MovesAmount(moves, k))
    && NonNegative(after)
  }

  lemma FoldStep(before: Users, mid: Users, after: Users, snd: Address, dst: Address, here: bool, moves: seq<Move>)
    requires moves != []
    requires FoldsBalances(before, mid, snd, dst, here, moves[..|moves| - 1])
    requires MovesBalances(mid, after, snd, dst, here, moves[|moves| - 1])
    ensures FoldsBalances(before, after, snd, dst, here, moves)
  {
  }

  /**
   * The loop of a multi-transfer refines the fold of the abstract move: repeated tokens add up, every other
   * balance of every account stays as it was, and what leaves the shard is what the list says.
   */
  lemma {:induction false} MultiTransferIsAFold(c: Config, sh: Shard, snd: Address, dst: Address, moves: seq<Move>,
                                                retErr: bool, after: Shard, tokens: seq<Token>)
    requires SendAll(c, sh, snd, dst, moves, retErr) == Ok((after, tokens))
    requires NonNegative(sh.users) && snd != dst
    ensures FoldsBalances(sh.users, after.users, snd, dst, ToShard(c, dst), moves)
    ensures after == sh.(users := after.users, sys := after.sys)
    ensures |tokens| == |moves|
    ensures !ToShard(c, dst) ==> forall i :: 0 <= i < |moves| ==> tokens[i].value == moves[i].value
  {
    hide SendOne;
    if moves != [] {
      var last := |moves| - 1;
      var (mid, init) := SendAll(c, sh, snd, dst, moves[..last], retErr).value;
      MultiTransferIsAFold(c, sh, snd, dst, moves[..last], retErr, mid, init);
      var (end, tok) := SendOne(c, mid, snd, dst, moves[last], retErr).value;
      assert end == after && tokens == init + [tok];
      SendOneMoves(c, mid, snd, dst, moves[last], retErr, after, tok);
      FoldStep(sh.users, mid.users, after.users, snd, dst, ToShard(c, dst), moves);
    }
  }

  /** The closed form of the fold: a sender loses, and a destination gains, the sum over the list. */
  lemma {:induction false} FoldIsASum(b: int, x: Address, k: Bytes, snd: Address, dst: Address, here: bool, moves: seq<Move>)
    requires snd != dst
    ensures MovedAll(b, x, k, snd, dst, here, moves)
         == if x == snd then b - MovesAmount(moves, k) else if here && x == dst then b + MovesAmount(moves, k) else b
  {
    if moves != [] {
      FoldIsASum(b, x, k, snd, dst, here, moves[..|moves| - 1]);
    }
  }

  // ---- what is shipped is what was debited ----

  /** An item carries the key and the amount of a move. */
  predicate Carries(item: Item, mv: Move) {
    item.Key() == TokenKey(mv.token, mv.nonce) && item.Value() == mv.value
  }

  lemma ShipOneCarries(c: Config, sys: Sys, dst: Address, mv: Move, tok: Token, gas: nat)
    requires ShipOne(c, sys, dst, mv, tok, gas).Ok? && tok.value == mv.value
    ensures Carries(ShipOne(c, sys, dst, mv, tok, gas).value.1, mv)
  {
  }

  lemma NftShipCarries(c: Config, sys: Sys, dst: Address, mv: Move, tok: Token, gas: nat)
    requires NftShip(c, sys, dst, mv, tok, gas).Ok? && tok.value == mv.value
    ensures Carries(NftShip(c, sys, dst, mv, tok, gas).value.1, mv)
  {
  }

  lemma {:induction false} ShipAllCarries(c: Config, sys: Sys, dst: Address, moves: seq<Move>, tokens: seq<Token>, gas: nat)
    requires |moves| == |tokens| && ShipAll(c, sys, dst, moves, tokens, gas).Ok?
    requires forall i :: 0 <= i < |moves| ==> tokens[i].value == moves[i].value
    ensures forall i :: 0 <= i < |moves| ==> Carries(ShipAll(c, sys, dst, moves, tokens, gas).value.1[i], moves[i])
  {
    hide ShipOne, Carries;
    if moves != [] {
      var last := |moves| - 1;
      ShipAllCarries(c, sys, dst, moves[..last], tokens[..last], gas);
      var (before, items, left) := ShipAll(c, sys, dst, moves[..last], tokens[..last], gas).value;
      ShipOneCarries(c, before, dst, moves[last], tokens[last], left);
    }
  }

  lemma {:induction false} CarriedAmounts(items: seq<Item>, moves: seq<Move>, key: Bytes)
    requires |items| == |moves| && forall i :: 0 <= i < |moves| ==> Carries(items[i], moves[i])
    ensures ItemsAmount(items, key) == MovesAmount(moves, key)
    ensures ItemsNonNegative(items)
  {
    if moves != [] {
      CarriedAmounts(items[..|items| - 1], moves[..|moves| - 1], key);
    }
  }

  ghost predicate ItemsNonNegative(items: seq<Item>) {
    forall i :: 0 <= i < |items| ==> items[i].Value() >= 0
  }

  ghost predicate NetNonNegative(net: seq<Envelope>) {
    forall i :: 0 <= i < |net| ==> ItemsNonNegative(net[i].items)
  }

  /** What one call does to the amount of a key in its shard plus what it sends. */
  ghost predicate Conserves(before: Shard, after: Shard, out: Output, key: Bytes, delta: int) {
    Total(after.users, key) + NetAmount(out.sent, key) == Total(before.users, key) + delta
  }

  lemma MultiSendConserves(c: Config, sh: Shard, inp: Input, dst: Address, moves: seq<Move>, extra: seq<Bytes>,
                           after: Shard, out: Output, key: Bytes)
    requires MultiSend(c, sh, inp, dst, moves, extra) == Ok((after, out))
    requires NonNegative(sh.users)
    ensures Conserves(sh, after, out, key, 0)
    ensures NonNegative(after.users) && NetNonNegative(out.sent)
  {
    var (moved, tokens) := SendAll(c, sh, inp.caller, dst, moves, inp.retErr).value;
    MultiTransferIsAFold(c, sh, inp.caller, dst, moves, inp.retErr, moved, tokens);
    var gas := inp.gasProvided - MultiCost(c, |moves|);
    var (sys, items, left) := ShipAll(c, moved.sys, dst, moves, tokens, gas).value;
    assert out == Finish(c, inp, dst, ByMultiTransfer, items, extra, left);
    if !ToShard(c, dst) {
      ShipAllCarries(c, moved.sys, dst, moves, tokens, gas);
      CarriedAmounts(items, moves, key);
      NetAmountOne(out.sent[0], key);
    }
  }

  lemma NftSendOneMoves(c: Config, sh: Shard, inp: Input, dst: Address, mv: Move, extra: seq<Bytes>, after: Shard, tok: Token)
    requires NftSendOne(c, sh, inp, dst, mv, extra) == Ok((after, tok))
    requires NonNegative(sh.users) && dst != inp.caller
    ensures MovesBalances(sh.users, after.users, inp.caller, dst, ToShard(c, dst), mv)
    ensures !ToShard(c, dst) ==> tok.value == mv.value
    ensures mv.nonce > 0
  {
    var (shipped, debited) := DebitForNft(c, sh, inp.caller, mv, inp.retErr).value;
    NftDebit(c, sh, inp.caller, mv, inp.retErr, shipped, debited);
    if ToShard(c, dst) {
      DebitAndCredit(c, sh, inp.caller, dst, mv, inp.retErr, shipped, debited, after, tok);
    } else {
      DebitAndLeave(c, sh, inp.caller, dst, mv, inp.retErr, shipped, debited);
    }
  }

  lemma OneItem(item: Item, key: Bytes)
    ensures ItemsAmount([item], key) == ItemAmount(item, key)
  {
    assert [item][..0] == [];
  }

  lemma NftSendConserves(c: Config, sh: Shard, inp: Input, dst: Address, mv: Move, extra: seq<Bytes>,
                         after: Shard, out: Output, key: Bytes)
    requires NftSend(c, sh, inp, dst, mv, extra) == Ok((after, out))
    requires NonNegative(sh.users)
    ensures Conserves(sh, after, out, key, 0)
    ensures NonNegative(after.users) && NetNonNegative(out.sent)
  {
    var (moved, tok) := NftSendOne(c, sh, inp, dst, mv, extra).value;
    var gas := inp.gasProvided - c.costs.nftTransfer;
    var item := NftShip(c, moved.sys, dst, mv, tok, gas).value.1;
    NftSendOneMoves(c, sh, inp, dst, mv, extra, moved, tok);
    if !ToShard(c, dst) {
      NftShipCarries(c, moved.sys, dst, mv, tok, gas);
      NetAmountOne(out.sent[0], key);
      OneItem(item, key);
    }
  }

  lemma FungibleSendConserves(c: Config, sh: Shard, inp: Input, dst: Address, t: Bytes, value: nat, extra: seq<Bytes>,
                              after: Shard, out: Output, key: Bytes)
    requires FungibleSend(c, sh, inp, dst, t, value, extra) == Ok((after, out))
    requires NonNegative(sh.users)
    ensures Conserves(sh, after, out, key, 0)
    ensures NonNegative(after.users) && NetNonNegative(out.sent)
  {
    var debited := AddToBalance(c, sh, inp.caller, t, -(value as int), inp.retErr).value;
    AddToBalanceSets(c, sh, inp.caller, t, -(value as int), inp.retErr, debited);
    if ToShard(c, dst) {
      AddToBalanceSets(c, debited, dst, t, value, inp.retErr, after);
    } else {
      var item := Item(t, 0, Amount(value));
      NetAmountOne(out.sent[0], key);
      OneItem(item, key);
      assert TokenKey(t, 0) == t + [] == t;
    }
  }

  // ---- deliveries ----

  lemma CreditOneConserves(c: Config, sh: Shard, env: Envelope, item: Item, after: Shard)
    requires CreditOne(c, sh, env, item) == Ok(after)
    requires env.carrier == ByTransfer ==> item.nonce == 0
    requires NonNegative(sh.users) && item.Value() >= 0
    ensures SetsBalance(sh.users, after.users, env.recipient, item.Key(),
                        Balance(sh.users, env.recipient, item.Key()) + item.Value())
    ensures NonNegative(after.users)
  {
    NonNegativeBalance(sh.users, env.recipient, item.Key());
    if env.carrier == ByNftTransfer || (env.carrier == ByMultiTransfer && item.nonce > 0) {
      var r := AddToDestination(c, sh, env.caller, env.recipient, ArrivingToken(item), item.token, item.nonce, env.retErr);
      AddToDestinationSets(c, sh, env.caller, env.recipient, ArrivingToken(item), item.token, item.nonce, env.retErr,
                           r.value.0, r.value.1);
    } else {
      assert item.Key() == item.token + [] == item.token;
      AddToBalanceSets(c, sh, env.recipient, item.token, item.Value(), env.retErr, after);
    }
  }

  /** A delivery credits the recipient with exactly the amounts of the message, and no other account. */
  lemma {:induction false} DeliveryCreditsItems(c: Config, sh: Shard, env: Envelope, items: seq<Item>)
    requires CreditAll(c, sh, env, items).Ok?
    requires env.carrier == ByTransfer ==> forall i :: 0 <= i < |items| ==> items[i].nonce == 0
    requires NonNegative(sh.users) && ItemsNonNegative(items)
    ensures var after := CreditAll(c, sh, env, items).value;
      && (forall x, k :: Balance(after.users, x, k)
                      == Balance(sh.users, x, k) + if x == env.recipient then ItemsAmount(items, k) else 0)
      && (forall k :: Total(after.users, k) == Total(sh.users, k) + ItemsAmount(items, k))
      && NonNegative(after.users)
  {
    if items != [] {
      var last := |items| - 1;
      DeliveryCreditsItems(c, sh, env, items[..last]);
      var before := CreditAll(c, sh, env, items[..last]).value;
      CreditOneConserves(c, before, env, items[last], CreditOne(c, before, env, items[last]).value);
    }
  }

  // ---- supply-changing calls ----

  /** The amount by which a call says it changes the supply of a key. */
  function CallDelta(sh: Shard, call: Call, key: Bytes): int {
    match call
    case CreateCall(_, holder, cr) =>
      // a fresh nonce replaces nothing: see Conservation.FreshCreateAddsItsQuantity
      var made := TokenKey(cr.token, NextNonce(sh, holder, cr.token));
      if key == made then ToNat(cr.quantity) - Balance(sh.users, holder, made) else 0
    case AddQuantityCall(_, t, nonce, quantity) => if key == TokenKey(t, nonce) then ToNat(quantity) else 0
    case BurnCall(_, t, nonce, value) => if key == TokenKey(t, nonce) then -(value as int) else 0
    case MintCall(_, t, quantity) => if key == t then ToNat(quantity) else 0
    case BurnFungibleCall(_, t, value) => if key == t then -(value as int) else 0
    case WipeCall(holder, k) => if key == k then -Balance(sh.users, holder, k) else 0
    case _ => 0
  }

  lemma CreateConserves(c: Config, sh: Shard, inp: Input, holder: Address, cr: Creation, after: Shard, out: Output, key: Bytes)
    requires Create(c, sh, inp, holder, cr) == Ok((after, out))
    requires NonNegative(sh.users)
    ensures Conserves(sh, after, out, key, CallDelta(sh, CreateCall(inp, holder, cr), key))
    ensures NonNegative(after.users) && out.sent == []
  {
    hide AddToLiquidity, SaveToken;
    var nonce := NextNonce(sh, holder, cr.token);
    var meta := MetaData(nonce, cr.name, inp.caller, cr.royalties, cr.hash, cr.attributes, cr.uris);
    var tok := Token(NonFungible, ToNat(cr.quantity), [], Some(meta), []);
    var saved := SaveToken(c, sh, holder, holder, cr.token, nonce, tok, true, inp.retErr).value;
    SaveTokenSets(c, sh, holder, holder, cr.token, nonce, tok, true, inp.retErr, saved);
  }

  lemma AddQuantityConserves(c: Config, sh: Shard, inp: Input, t: Bytes, nonce: uint64, quantity: Bytes,
                             after: Shard, out: Output, key: Bytes)
    requires AddQuantity(c, sh, inp, t, nonce, quantity) == Ok((after, out))
    requires NonNegative(sh.users)
    ensures Conserves(sh, after, out, key, CallDelta(sh, AddQuantityCall(inp, t, nonce, quantity), key))
    ensures NonNegative(after.users) && out.sent == []
  {
    hide AddToLiquidity, ReadToken, SaveToken;
    ReadTokenValue(c, sh, inp.caller, t, nonce);
    var tok := ReadTokenOnSender(c, sh, inp.caller, t, nonce).value;
    var more := tok.(value := tok.value + ToNat(quantity));
    var saved := SaveToken(c, sh, inp.caller, inp.caller, t, nonce, more, false, inp.retErr).value;
    NonNegativeBalance(sh.users, inp.caller, TokenKey(t, nonce));
    SaveTokenSets(c, sh, inp.caller, inp.caller, t, nonce, more, false, inp.retErr, saved);
  }

  lemma BurnConserves(c: Config, sh: Shard, inp: Input, t: Bytes, nonce: uint64, value: nat, after: Shard, out: Output, key: Bytes)
    requires Burn(c, sh, inp, t, nonce, value) == Ok((after, out))
    requires NonNegative(sh.users)
    ensures Conserves(sh, after, out, key, CallDelta(sh, BurnCall(inp, t, nonce, value), key))
    ensures NonNegative(after.users) && out.sent == []
  {
    hide AddToLiquidity, SaveToken;
    ReadTokenValue(c, sh, inp.caller, t, nonce);
    var tok := ReadTokenOnSender(c, sh, inp.caller, t, nonce).value;
    var less := tok.(value := tok.value - value);
    var saved := SaveToken(c, sh, inp.caller, inp.caller, t, nonce, less, false, inp.retErr).value;
    SaveTokenSets(c, sh, inp.caller, inp.caller, t, nonce, less, false, inp.retErr, saved);
  }

  lemma UpdateConserves(c: Config, sh: Shard, inp: Input, t: Bytes, nonce: uint64, update: Update,
                        after: Shard, out: Output, key: Bytes)
    requires UpdateMeta(c, sh, inp, t, nonce, update) == Ok((after, out))
    requires NonNegative(sh.users)
    ensures Conserves(sh, after, out, key, 0)
    ensures NonNegative(after.users) && out.sent == []
  {
    ReadTokenValue(c, sh, inp.caller, t, nonce);
    NonNegativeBalance(sh.users, inp.caller, TokenKey(t, nonce));
    var tok := ReadTokenOnSender(c, sh, inp.caller, t, nonce).value;
    var updated := tok.(meta := Some(update.Apply(tok.meta.value)));
    SaveTokenSets(c, sh, inp.caller, inp.caller, t, nonce, updated, true, inp.retErr, after);
  }

  lemma FreezeConserves(sh: Shard, a: Address, key: Bytes, freeze: bool)
    requires NonNegative(sh.users)
    ensures SetsBalance(sh.users, ToggleFreeze(sh, a, key, freeze).users, a, key, Balance(sh.users, a, key))
  {
    NonNegativeBalance(sh.users, a, key);
    var tok := ReadRaw(sh.users, a, key).(properties := [if freeze then 1 else 0, 0]);
    RemoveSets(sh.users, a, key);
    PutSets(sh.users, a, key, tok);
  }

  predicate IsTransfer(call: Call) {
    call.FungibleCall? || call.NftCall? || call.MultiCall?
  }

  lemma TransferConserves(c: Config, sh: Shard, call: Call, after: Shard, out: Output, key: Bytes)
    requires IsTransfer(call)
    requires Execute(c, sh, call) == Ok((after, out))
    requires NonNegative(sh.users)
    ensures Conserves(sh, after, out, key, 0)
    ensures NonNegative(after.users) && NetNonNegative(out.sent)
  {
    match call
    case FungibleCall(inp, dst, t, value, extra) => FungibleSendConserves(c, sh, inp, dst, t, value, extra, after, out, key);
    case NftCall(inp, dst, mv, extra) => NftSendConserves(c, sh, inp, dst, mv, extra, after, out, key);
    case MultiCall(inp, dst, moves, extra) => MultiSendConserves(c, sh, inp, dst, moves, extra, after, out, key);
  }

  predicate IsNftCall(call: Call) {
    call.CreateCall? || call.AddQuantityCall? || call.BurnCall? || call.UpdateCall?
  }

  lemma NftCallConserves(c: Config, sh: Shard, call: Call, after: Shard, out: Output, key: Bytes)
    requires IsNftCall(call)
    requires Execute(c, sh, call) == Ok((after, out))
    requires NonNegative(sh.users)
    ensures Conserves(sh, after, out, key, CallDelta(sh, call, key))
    ensures NonNegative(after.users) && out.sent == []
  {
    match call
    case CreateCall(inp, holder, cr) => CreateConserves(c, sh, inp, holder, cr, after, out, key);
    case AddQuantityCall(inp, t, nonce, quantity) => AddQuantityConserves(c, sh, inp, t, nonce, quantity, after, out, key);
    case BurnCall(inp, t, nonce, value) => BurnConserves(c, sh, inp, t, nonce, value, after, out, key);
    case UpdateCall(inp, t, nonce, update) => UpdateConserves(c, sh, inp, t, nonce, update, after, out, key);
  }

  lemma OtherCallConserves(c: Config, sh: Shard, call: Call, after: Shard, out: Output, key: Bytes)
    requires !IsTransfer(call) && !IsNftCall(call)
    requires Execute(c, sh, call) == Ok((after, out))
    requires NonNegative(sh.users)
    ensures Conserves(sh, after, out, key, CallDelta(sh, call, key))
    ensures NonNegative(after.users) && out.sent == []
  {
    hide FungibleSend, NftSend, MultiSend, Create, AddQuantity, Burn, UpdateMeta, AddToBalance, AddToLiquidity;
    match call
    case MintCall(inp, t, quantity) => AddToBalanceSets(c, sh, inp.caller, t, ToNat(quantity), inp.retErr, after);
    case BurnFungibleCall(inp, t, value) => AddToBalanceSets(c, sh, inp.caller, t, -(value as int), inp.retErr, after);
    case FreezeCall(a, k, freeze) => FreezeConserves(sh, a, k, freeze);
    case WipeCall(a, k) => RemoveSets(sh.users, a, k);
    case SettingCall(t, which, on) =>
    case RolesCall(a, t, roles, addresses, restart) =>
  }

  lemma ExecuteConserves(c: Config, sh: Shard, call: Call, after: Shard, out: Output, key: Bytes)
    requires Execute(c, sh, call) == Ok((after, out))
    requires NonNegative(sh.users)
    ensures Conserves(sh, after, out, key, CallDelta(sh, call, key))
    ensures NonNegative(after.users) && NetNonNegative(out.sent)
  {
    if IsTransfer(call) {
      TransferConserves(c, sh, call, after, out, key);
    } else if IsNftCall(call) {
      NftCallConserves(c, sh, call, after, out, key);
    } else {
      OtherCallConserves(c, sh, call, after, out, key);
    }
  }

  // ---- the whole system ----

  ghost function ShardsTotal(shards: seq<Shard>, key: Bytes): int {
    if shards == [] then 0 else ShardsTotal(shards[..|shards| - 1], key) + Total(shards[|shards| - 1].users, key)
  }

  /** The amount of a key in all accounts of all shards and in all messages on their way. */
  ghost function Supply(w: World, key: Bytes): int {
    ShardsTotal(w.shards, key) + NetAmount(w.net, key)
  }

  lemma {:induction false} ShardsTotalUpdate(shards: seq<Shard>, s: nat, sh: Shard, key: Bytes)
    requires s < |shards|
    ensures ShardsTotal(shards[s := sh], key) == ShardsTotal(shards, key) - Total(shards[s].users, key) + Total(sh.users, key)
  {
    var last := |shards| - 1;
    if s == last {
      assert shards[s := sh][..last] == shards[..last];
    } else {
      ShardsTotalUpdate(shards[..last], s, sh, key);
      assert shards[s := sh][..last] == shards[..last][s := sh];
    }
  }

  ghost predicate WorldNonNegative(w: World) {
    && (forall s :: 0 <= s < |w.shards| ==> NonNegative(w.shards[s].users))
    && NetNonNegative(w.net)
    && FungibleNet(w.net)
  }

  /** Fungible transfers carry nonce 0. */
  ghost predicate FungibleNet(net: seq<Envelope>) {
    forall i :: 0 <= i < |net| && net[i].carrier == ByTransfer ==> FungibleItems(net[i].items)
  }

  ghost predicate FungibleItems(items: seq<Item>) {
    forall i :: 0 <= i < |items| ==> items[i].nonce == 0
  }

  lemma SentIsFungible(c: Config, sh: Shard, call: Call, after: Shard, out: Output)
    requires Execute(c, sh, call) == Ok((after, out))
    ensures FungibleNet(out.sent)
  {
    hide SendAll, ShipAll, NftSendOne, NftShip, AddToBalance, SaveToken, AddToLiquidity;
  }

  ghost function ActionDelta(w: World, act: Action, key: Bytes): int {
    if act.Run? && act.shard < |w.shards| then CallDelta(w.shards[act.shard], act.call, key) else 0
  }

  lemma DeliverConserves(c: Config, sh: Shard, env: Envelope, gas: uint64, after: Shard, out: Output, key: Bytes)
    requires Deliver(c, sh, env, gas) == Ok((after, out))
    requires NonNegative(sh.users) && ItemsNonNegative(env.items)
    requires env.carrier == ByTransfer ==> FungibleItems(env.items)
    ensures Total(after.users, key) == Total(sh.users, key) + ItemsAmount(env.items, key)
    ensures NonNegative(after.users)
  {
    DeliveryCreditsItems(c, sh, env, env.items);
  }

  lemma RunStepConserves(c: Config, w: World, s: nat, call: Call, after: World, key: Bytes)
    requires WorldNonNegative(w) && Next(c, w, Run(s, call)) == Some(after)
    ensures WorldNonNegative(after)
    ensures Supply(after, key) == Supply(w, key) + CallDelta(w.shards[s], call, key)
  {
    var (sh, out) := Execute(At(c, s), w.shards[s], call).value;
    ExecuteConserves(At(c, s), w.shards[s], call, sh, out, key);
    SentIsFungible(At(c, s), w.shards[s], call, sh, out);
    ShardsTotalUpdate(w.shards, s, sh, key);
    NetAmountConcat(w.net, out.sent, key);
  }

  /** Delivering a message moves its amounts from the net into the shard. */
  lemma DeliveredConserves(c: Config, w: World, i: nat, s: nat, sh: Shard, key: Bytes)
    requires WorldNonNegative(w) && i < |w.net| && s < |w.shards|
    requires NonNegative(sh.users)
    requires Total(sh.users, key) == Total(w.shards[s].users, key) + ItemsAmount(w.net[i].items, key)
    ensures WorldNonNegative(World(w.shards[s := sh], Without(w.net, i)))
    ensures Supply(World(w.shards[s := sh], Without(w.net, i)), key) == Supply(w, key)
  {
    NetAmountWithout(w.net, i, key);
    ShardsTotalUpdate(w.shards, s, sh, key);
  }

  /** A message that comes back keeps its amounts in the net. */
  lemma BouncedConserves(w: World, i: nat, s: nat, sys: Sys, key: Bytes)
    requires WorldNonNegative(w) && i < |w.net| && s < |w.shards|
    ensures WorldNonNegative(World(w.shards[s := w.shards[s].(sys := sys)], Without(w.net, i) + [Bounce(w.net[i])]))
    ensures Supply(World(w.shards[s := w.shards[s].(sys := sys)], Without(w.net, i) + [Bounce(w.net[i])]), key) == Supply(w, key)
  {
    hide NonNegative;
    NetAmountWithout(w.net, i, key);
    ShardsTotalUpdate(w.shards, s, w.shards[s].(sys := sys), key);
    NetAmountConcat(Without(w.net, i), [Bounce(w.net[i])], key);
    NetAmountOne(Bounce(w.net[i]), key);
  }

  lemma ArriveStepConserves(c: Config, w: World, i: nat, gas: uint64, after: World, key: Bytes)
    requires WorldNonNegative(w) && Next(c, w, Arrive(i, gas)) == Some(after)
    ensures WorldNonNegative(after)
    ensures Supply(after, key) == Supply(w, key)
  {
    var env := w.net[i];
    var s := c.shardOf(env.recipient);
    match Deliver(At(c, s), w.shards[s], env, gas)
    case Ok((sh, out)) =>
      DeliverConserves(At(c, s), w.shards[s], env, gas, sh, out, key);
      DeliveredConserves(c, w, i, s, sh, key);
    case Err(_) =>
      BouncedConserves(w, i, s, SaveMetaOfMessage(At(c, s), w.shards[s].sys, env).value, key);
  }

  lemma {:induction false} SameTotals(before: seq<Shard>, after: seq<Shard>, key: Bytes)
    requires |before| == |after| && forall s :: 0 <= s < |before| ==> after[s].users == before[s].users
    ensures ShardsTotal(after, key) == ShardsTotal(before, key)
  {
    if before != [] {
      SameTotals(before[..|before| - 1], after[..|before| - 1], key);
    }
  }

  lemma HandOverConserves(c: Config, w: World, from: Address, to: Address, t: Bytes, after: World, key: Bytes)
    requires WorldNonNegative(w) && Next(c, w, HandOver(from, to, t)) == Some(after)
    ensures WorldNonNegative(after)
    ensures Supply(after, key) == Supply(w, key)
  {
    HandOverKeepsTokens(c, w, from, to, t, after);
    SameTotals(w.shards, after.shards, key);
  }

  /** Every step: nothing is created or lost but what a supply-changing call states; no balance is ever negative. */
  lemma StepConserves(c: Config, w: World, act: Action, after: World, key: Bytes)
    requires WorldNonNegative(w) && Next(c, w, act) == Some(after)
    ensures WorldNonNegative(after)
    ensures Supply(after, key) == Supply(w, key) + ActionDelta(w, act, key)
  {
    match act
    case Run(s, call) => RunStepConserves(c, w, s, call, after, key);
    case Arrive(i, gas) => ArriveStepConserves(c, w, i, gas, after, key);
    case HandOver(from, to, t) => HandOverConserves(c, w, from, to, t, after, key);
  }

  /** What the supply-changing calls of a run add up to. */
  ghost function RunDelta(c: Config, w: World, acts: seq<Action>, key: Bytes): int {
    if acts == [] then 0
    else
      var last := |acts| - 1;
      RunDelta(c, w, acts[..last], key) +
      match Reach(c, w, acts[..last])
      case None => 0
      case Some(v) => ActionDelta(v, acts[last], key)
  }

  /** Conservation over whole runs, from any state without negative balances and for every key. */
  lemma {:induction false} RunConserves(c: Config, w: World, acts: seq<Action>, after: World, key: Bytes)
    requires WorldNonNegative(w) && Reach(c, w, acts) == Some(after)
    ensures WorldNonNegative(after)
    ensures Supply(after, key) == Supply(w, key) + RunDelta(c, w, acts, key)
  {
    if acts != [] {
      var last := |acts| - 1;
      var v := Reach(c, w, acts[..last]).value;
      RunConserves(c, w, acts[..last], v, key);
      StepConserves(c, v, acts[last], after, key);
    }
  }

  /** Creating under a nonce that the holder has nothing of adds exactly the stated quantity. */
  lemma FreshCreateAddsItsQuantity(c: Config, sh: Shard, inp: Input, holder: Address, cr: Creation, after: Shard, out: Output)
    requires Create(c, sh, inp, holder, cr) == Ok((after, out))
    requires NonNegative(sh.users)
    requires Balance(sh.users, holder, TokenKey(cr.token, NextNonce(sh, holder, cr.token))) == 0
    ensures Total(after.users, TokenKey(cr.token, NextNonce(sh, holder, cr.token)))
         == Total(sh.users, TokenKey(cr.token, NextNonce(sh, holder, cr.token))) + ToNat(cr.quantity)
  {
    CreateConserves(c, sh, inp, holder, cr, after, out, TokenKey(cr.token, NextNonce(sh, holder, cr.token)));
  }
}
