/**
 * Created nonces are fresh: in runs of the whole system with grants, creations and hand-overs of the create role, nobody
 * ever holds anything under a nonce that is about to be created, in any shard or message. This frees the liquidity
 * invariant of its assumption about creation.
 */
module Freshness {
  import opened Bytes
  import opened Keys
  import opened Wrappers
  import opened Ledger
  import opened Operations
  import opened Totals
  import opened World
  import opened Conservation
  import opened ZeroHoldings
  import Liquidity
  import Nonces
  import CreatorAccounts

  predicate IsCreate(act: Action) {
    act.Run? && act.call.CreateCall?
  }

  /** What a step is for the counters of one token. */
  function EventOf(act: Action, t: Bytes): seq<Nonces.Event> {
    match act
    case Run(_, CreateCall(_, holder, cr)) => if cr.token == t then [Nonces.Mint(holder)] else []
    case Run(_, RolesCall(a, u, _, _, restart)) => if restart && u == t then [Nonces.Grant(a)] else []
    case HandOver(from, to, u) => if u == t then [Nonces.HandOver(from, to)] else []
    case _ => []
  }

  function EventsOf(acts: seq<Action>, t: Bytes): seq<Nonces.Event> {
    if acts == [] then [] else EventsOf(acts[..|acts| - 1], t) + EventOf(acts[|acts| - 1], t)
  }

  /** The system contract keeps the create role of each token in order, and no range gives out more than it has. */
  ghost predicate InOrder(acts: seq<Action>) {
    forall t :: ValidToken(t) ==> Nonces.Orderly(EventsOf(acts, t)) && Nonces.WithinRanges(EventsOf(acts, t))
  }

  /** Identifiers and wiped keys are proper, and quantity is added by callers whom the frozen bit stops. */
  ghost predicate Proper(c: Config, act: Action) {
    act.Run? ==>
      && ValidTokens(act.call)
      && (act.call.AddQuantityCall? ==> !act.call.inp.retErr && act.call.inp.caller != c.dctSC)
      && (act.call.WipeCall? ==> Liquidity.Wipeable(act.call.key))
  }

  ghost predicate ProperRun(c: Config, acts: seq<Action>) {
    forall i :: 0 <= i < |acts| ==> Proper(c, acts[i])
  }

  // ---- the supply bounds every balance ----

  lemma {:induction false} ShardBound(shards: seq<Shard>, s: nat, key: Bytes)
    requires s < |shards| && forall i :: 0 <= i < |shards| ==> NonNegative(shards[i].users)
    ensures 0 <= Total(shards[s].users, key) <= ShardsTotal(shards, key)
  {
    hide NonNegative, Total;
    var last := |shards| - 1;
    NonNegativeTotal(shards[last].users, key);
    if s < last {
      ShardBound(shards[..last], s, key);
    } else {
      NonNegativeShards(shards[..last], key);
    }
  }

  lemma NonNegativeTotal(users: Users, key: Bytes)
    requires NonNegative(users)
    ensures Total(users, key) >= 0
  {
    TotalBounds(users, [], key);
  }

  lemma {:induction false} NonNegativeShards(shards: seq<Shard>, key: Bytes)
    requires forall i :: 0 <= i < |shards| ==> NonNegative(shards[i].users)
    ensures ShardsTotal(shards, key) >= 0
  {
    hide NonNegative, Total;
    if shards != [] {
      NonNegativeShards(shards[..|shards| - 1], key);
      NonNegativeTotal(shards[|shards| - 1].users, key);
    }
  }

  lemma {:induction false} NonNegativeItems(items: seq<Item>, key: Bytes)
    requires ItemsNonNegative(items)
    ensures ItemsAmount(items, key) >= 0
  {
    if items != [] {
      NonNegativeItems(items[..|items| - 1], key);
    }
  }

  lemma {:induction false} NonNegativeNet(net: seq<Envelope>, key: Bytes)
    requires NetNonNegative(net)
    ensures NetAmount(net, key) >= 0
  {
    if net != [] {
      NonNegativeNet(net[..|net| - 1], key);
      NonNegativeItems(net[|net| - 1].items, key);
    }
  }

  lemma BalanceBound(w: World, s: nat, a: Address, key: Bytes)
    requires WorldNonNegative(w) && s < |w.shards|
    ensures 0 <= Balance(w.shards[s].users, a, key) <= Supply(w, key)
  {
    hide NonNegative, Total;
    ShardBound(w.shards, s, key);
    NonNegativeNet(w.net, key);
    TotalBounds(w.shards[s].users, a, key);
    NonNegativeBalance(w.shards[s].users, a, key);
  }

  // ---- what changes the counters ----

  lemma MultiSendKeepsCounters(c: Config, sh: Shard, inp: Input, dst: Address, moves: seq<Move>, extra: seq<Bytes>,
                               after: Shard, out: Output)
    requires NonNegative(sh.users) && MultiSend(c, sh, inp, dst, moves, extra) == Ok((after, out))
    ensures after.nonces == sh.nonces
  {
    hide SendAll, ShipAll, Finish, CheckPayable, NonNegative;
    var (moved, tokens) := SendAll(c, sh, inp.caller, dst, moves, inp.retErr).value;
    MultiTransferIsAFold(c, sh, inp.caller, dst, moves, inp.retErr, moved, tokens);
  }

  lemma NftSendKeepsCounters(c: Config, sh: Shard, inp: Input, dst: Address, mv: Move, extra: seq<Bytes>, after: Shard, out: Output)
    requires NftSend(c, sh, inp, dst, mv, extra) == Ok((after, out))
    ensures after.nonces == sh.nonces
  {
    hide Finish, NftShip, CheckPayable, CheckLimitedTransfer, AddToLiquidity, SaveToken, ReadTokenOnSender, AddToDestination;
    var own := ReadTokenOnSender(c, sh, inp.caller, mv.token, mv.nonce).value;
    var (shipped, debited) := DebitForNft(c, sh, inp.caller, mv, inp.retErr).value;
    SaveTokenKeepsCounters(c, sh, inp.caller, inp.caller, mv.token, mv.nonce, own.(value := own.value - mv.value), false, inp.retErr);
    CreditKeepsCounters(c, debited, inp.caller, dst, shipped, mv.token, mv.nonce, inp.retErr);
  }

  lemma SaveTokenKeepsCounters(c: Config, sh: Shard, snd: Address, a: Address, t: Bytes, nonce: uint64, tok: Token,
                               mustUpdate: bool, retErr: bool)
    ensures var r := SaveToken(c, sh, snd, a, t, nonce, tok, mustUpdate, retErr); r.Ok? ==> r.value.nonces == sh.nonces
  {
    hide SaveMeta, CheckFrozenPauseProperties;
  }

  lemma CreditKeepsCounters(c: Config, sh: Shard, snd: Address, dst: Address, tok: Token, t: Bytes, nonce: uint64, retErr: bool)
    ensures var r := AddToDestination(c, sh, snd, dst, tok, t, nonce, retErr); r.Ok? ==> r.value.0.nonces == sh.nonces
  {
    hide SaveMeta, CheckFrozenPauseProperties, CheckFrozeAndPause, ReadToken, AddToLiquidity;
  }

  lemma CallsKeepCounters(c: Config, sh: Shard, call: Call, after: Shard, out: Output)
    requires NonNegative(sh.users) && !call.CreateCall? && !call.RolesCall? && Execute(c, sh, call) == Ok((after, out))
    ensures after.nonces == sh.nonces
  {
    hide NftSend, MultiSend, Create, AddToLiquidity, SaveMeta, ReadToken, HasRole, CheckFrozenPauseProperties;
    hide NonNegative, CheckPayable, CheckLimitedTransfer, IsSCCallAfter, SaveRaw, CheckFrozeAndPause;
    match call
    case MultiCall(inp, dst, moves, extra) => MultiSendKeepsCounters(c, sh, inp, dst, moves, extra, after, out);
    case NftCall(inp, dst, mv, extra) => NftSendKeepsCounters(c, sh, inp, dst, mv, extra, after, out);
    case _ =>
  }

  lemma {:induction false} CreditsKeepCounters(c: Config, sh: Shard, env: Envelope, items: seq<Item>)
    requires CreditAll(c, sh, env, items).Ok?
    ensures CreditAll(c, sh, env, items).value.nonces == sh.nonces
  {
    hide AddToLiquidity, SaveMeta, ReadToken, CheckFrozenPauseProperties;
    if items != [] {
      CreditsKeepCounters(c, sh, env, items[..|items| - 1]);
    }
  }

  lemma ArrivalsKeepCounters(c: Config, w: World, i: nat, gas: uint64, after: World)
    requires Next(c, w, Arrive(i, gas)) == Some(after)
    ensures |after.shards| == |w.shards| && forall s :: 0 <= s < |w.shards| ==> after.shards[s].nonces == w.shards[s].nonces
  {
    hide CreditAll, CheckPayable, SaveMetaOfMessage, IsNext;
    var env := w.net[i];
    var s := c.shardOf(env.recipient);
    if Deliver(At(c, s), w.shards[s], env, gas).Ok? {
      CreditsKeepCounters(At(c, s), w.shards[s], env, env.items);
    }
  }

  lemma CreateAdvances(c: Config, sh: Shard, call: Call, after: Shard, out: Output)
    requires call.CreateCall? && Execute(c, sh, call) == Ok((after, out))
    ensures after.nonces == sh.nonces[(call.holder, call.cr.token) := NextNonce(sh, call.holder, call.cr.token)]
  {
    hide AddToLiquidity, SaveMeta, HasRole, CheckFrozenPauseProperties;
  }

  lemma RolesCounters(c: Config, sh: Shard, call: Call, after: Shard, out: Output)
    requires call.RolesCall? && Execute(c, sh, call) == Ok((after, out))
    ensures call.restart ==> call.holder != []
    ensures after.nonces ==
      if call.restart then sh.nonces[(call.holder, call.t) := CreatorAccounts.StartNonce(call.holder)] else sh.nonces
  {
  }

  /** A step that is no event of a token leaves all counters of that token alone. */
  lemma OtherStepsKeepCounters(c: Config, w: World, act: Action, after: World, t: Bytes)
    requires WorldNonNegative(w) && Next(c, w, act) == Some(after) && EventOf(act, t) == []
    ensures |after.shards| == |w.shards|
    ensures forall s, a :: 0 <= s < |w.shards| ==> LatestNonce(after.shards[s], a, t) == LatestNonce(w.shards[s], a, t)
  {
    hide NonNegative, Execute, Deliver, ArriveFailed, IsNext, RunsIn;
    match act
    case Arrive(i, gas) =>
      ArrivalsKeepCounters(c, w, i, gas, after);
    case HandOver(from, to, u) =>
    case Run(s, call) =>
      var (sh, out) := Execute(At(c, s), w.shards[s], call).value;
      if call.CreateCall? {
        CreateAdvances(At(c, s), w.shards[s], call, sh, out);
      } else if call.RolesCall? {
        RolesCounters(At(c, s), w.shards[s], call, sh, out);
      } else {
        CallsKeepCounters(At(c, s), w.shards[s], call, sh, out);
      }
  }

  // ---- counters of the system and counters of the events ----

  /** The counter of each creator is what the events make it, in the shard where the creator lives. */
  ghost predicate Follows(c: Config, w: World, events: seq<Nonces.Event>, t: Bytes) {
    forall a :: a in Nonces.Ranges(events) ==>
      c.shardOf(a) < |w.shards|
      && LatestNonce(w.shards[c.shardOf(a)], a, t) == Nonces.LatestOf(Nonces.CountersAfter(events), a)
  }

  /** Nothing of the token exists but under nonces that were given out. */
  ghost predicate OnlyGivenOut(w: World, events: seq<Nonces.Event>, t: Bytes) {
    forall n: uint64 :: n > 0 && Supply(w, TokenKey(t, n)) != 0 ==> Nonces.InSomeRange(events, n)
  }

  lemma OneEvent(events: seq<Nonces.Event>, e: Nonces.Event)
    ensures (events + [e])[..|events|] == events
  {
  }

  lemma MintFollows(c: Config, w: World, s: nat, call: Call, after: World, events: seq<Nonces.Event>, t: Bytes)
    requires Next(c, w, Run(s, call)) == Some(after) && call.CreateCall? && call.cr.token == t
    requires Follows(c, w, events, t) && call.holder in Nonces.Ranges(events)
    ensures s < |w.shards| && Follows(c, after, events + [Nonces.Mint(call.holder)], t)
    ensures NextNonce(w.shards[s], call.holder, t)
            == Wrap64(Nonces.LatestOf(Nonces.CountersAfter(events), call.holder) + 1)
  {
    hide Execute, Nonces.Ranges, Nonces.CountersAfter;
    var (sh, out) := Execute(At(c, s), w.shards[s], call).value;
    assert s == c.shardOf(call.holder);
    CreateAdvances(At(c, s), w.shards[s], call, sh, out);
    AfterMint(events, call.holder);
  }

  lemma AfterMint(events: seq<Nonces.Event>, a: Address)
    ensures Nonces.Ranges(events + [Nonces.Mint(a)]) == Nonces.Ranges(events)
    ensures Nonces.CountersAfter(events + [Nonces.Mint(a)])
            == Nonces.CountersAfter(events)[a := Wrap64(Nonces.LatestOf(Nonces.CountersAfter(events), a) + 1)]
  {
    OneEvent(events, Nonces.Mint(a));
  }

  lemma GrantFollows(c: Config, w: World, s: nat, call: Call, after: World, events: seq<Nonces.Event>, t: Bytes)
    requires Next(c, w, Run(s, call)) == Some(after) && call.RolesCall? && call.restart && call.t == t
    requires Follows(c, w, events, t)
    ensures Follows(c, after, events + [Nonces.Grant(call.holder)], t)
  {
    hide Execute, Nonces.Ranges, Nonces.CountersAfter;
    var (sh, out) := Execute(At(c, s), w.shards[s], call).value;
    RolesCounters(At(c, s), w.shards[s], call, sh, out);
    AfterGrant(events, call.holder);
  }

  lemma AfterGrant(events: seq<Nonces.Event>, a: Address)
    requires a != []
    ensures Nonces.Ranges(events + [Nonces.Grant(a)]) == Nonces.Ranges(events)[a := a[|a| - 1]]
    ensures Nonces.CountersAfter(events + [Nonces.Grant(a)]) == Nonces.CountersAfter(events)[a := CreatorAccounts.StartNonce(a)]
  {
    OneEvent(events, Nonces.Grant(a));
  }

  lemma HandOverCounters(c: Config, w: World, from: Address, to: Address, t: Bytes, after: World)
    requires Next(c, w, HandOver(from, to, t)) == Some(after)
    ensures |after.shards| == |w.shards| && c.shardOf(from) < |w.shards| && c.shardOf(to) < |w.shards| && from != to
    ensures forall s, a :: 0 <= s < |w.shards| ==>
      LatestNonce(after.shards[s], a, t) ==
        if a == to && s == c.shardOf(to) then LatestNonce(w.shards[c.shardOf(from)], from, t)
        else if a == from && s == c.shardOf(from) then 0
        else LatestNonce(w.shards[s], a, t)
  {
    hide HasRole, RolesOf;
  }

  lemma LatestAfterHandOver(counters: Nonces.Counters, from: Address, to: Address, a: Address)
    requires from != to && a != from
    ensures Nonces.LatestOf(counters[from := 0][to := Nonces.LatestOf(counters, from)], a)
            == Nonces.LatestOf(counters, if a == to then from else a)
  {
  }

  lemma HandOverFollows(c: Config, w: World, from: Address, to: Address, after: World, events: seq<Nonces.Event>, t: Bytes)
    requires Next(c, w, HandOver(from, to, t)) == Some(after)
    requires Follows(c, w, events, t) && from in Nonces.Ranges(events) && to !in Nonces.Ranges(events)
    ensures Follows(c, after, events + [Nonces.HandOver(from, to)], t)
  {
    hide Next, Nonces.Ranges, Nonces.CountersAfter, LatestNonce, Nonces.LatestOf;
    HandOverCounters(c, w, from, to, t, after);
    AfterHandOver(events, from, to);
    forall a | a in Nonces.Ranges(events + [Nonces.HandOver(from, to)])
      ensures c.shardOf(a) < |after.shards|
      ensures LatestNonce(after.shards[c.shardOf(a)], a, t)
              == Nonces.LatestOf(Nonces.CountersAfter(events + [Nonces.HandOver(from, to)]), a)
    {
      LatestAfterHandOver(Nonces.CountersAfter(events), from, to, a);
    }
  }

  lemma AfterHandOver(events: seq<Nonces.Event>, from: Address, to: Address)
    requires from in Nonces.Ranges(events)
    ensures Nonces.Ranges(events + [Nonces.HandOver(from, to)]) == (Nonces.Ranges(events) - {from})[to := Nonces.Ranges(events)[from]]
    ensures Nonces.CountersAfter(events + [Nonces.HandOver(from, to)])
            == Nonces.CountersAfter(events)[from := 0][to := Nonces.LatestOf(Nonces.CountersAfter(events), from)]
  {
    OneEvent(events, Nonces.HandOver(from, to));
  }

  lemma StepFollows(c: Config, w: World, act: Action, after: World, events: seq<Nonces.Event>, t: Bytes)
    requires WorldNonNegative(w) && Next(c, w, act) == Some(after) && Follows(c, w, events, t)
    requires Nonces.Orderly(events + EventOf(act, t))
    ensures Follows(c, after, events + EventOf(act, t), t)
  {
    hide WorldNonNegative, Next, Nonces.Ranges, Nonces.CountersAfter;
    if EventOf(act, t) == [] {
      OtherStepsKeepCounters(c, w, act, after, t);
      assert events + [] == events;
    } else {
      OneEvent(events, EventOf(act, t)[0]);
      hide Follows;
      match act
      case Run(s, call) =>
        if call.CreateCall? {
          MintFollows(c, w, s, call, after, events, t);
        } else {
          GrantFollows(c, w, s, call, after, events, t);
        }
      case HandOver(from, to, u) =>
        HandOverFollows(c, w, from, to, after, events, t);
    }
  }

  lemma InSomeRangeGrows(events: seq<Nonces.Event>, more: seq<Nonces.Event>, n: nat)
    requires Nonces.InSomeRange(events, n) && |more| <= 1
    ensures Nonces.InSomeRange(events + more, n)
  {
    var range: byte :| Nonces.InUse(events, range, n);
    if more == [] {
      assert events + more == events;
    } else {
      assert more == [more[0]];
      OneEvent(events, more[0]);
      assert Nonces.InUse(events + more, range, n);
    }
  }

  /** A step that creates nothing under a key brings nothing into being there. */
  lemma NothingFromNothing(c: Config, w: World, act: Action, after: World, t: Bytes, n: uint64)
    requires WorldNonNegative(w) && NoZeros(w) && Next(c, w, act) == Some(after) && Proper(c, act) && ValidToken(t) && n > 0
    requires Supply(w, TokenKey(t, n)) == 0 && Supply(after, TokenKey(t, n)) != 0
    ensures IsCreate(act) && act.shard < |w.shards| && act.call.cr.token == t
    ensures n == NextNonce(w.shards[act.shard], act.call.holder, t)
  {
    hide Next, NonNegative, Total, ShardsTotal, NetAmount, WorldNonNegative, TokenKey, ValidToken, Liquidity.Wipeable, NoZeros;
    var key := TokenKey(t, n);
    StepConserves(c, w, act, after, key);
    NonNegativeSupply(after, key);
    NftKeyIntro(t, n);
    var call := act.call;
    if call.CreateCall? {
      TokenKeyInjective(t, n, call.cr.token, NextNonce(w.shards[act.shard], call.holder, call.cr.token));
    } else if call.AddQuantityCall? {
      AddsToHolding(c, w, act, after);
      BalanceBound(w, act.shard, call.inp.caller, key);
    } else if call.MintCall? {
      FungibleKeyIsNotNftKey(call.t);
    } else if call.WipeCall? {
      BalanceBound(w, act.shard, call.holder, key);
    }
  }

  lemma AddsToHolding(c: Config, w: World, act: Action, after: World)
    requires WorldNonNegative(w) && NoZeros(w) && Next(c, w, act) == Some(after) && Proper(c, act)
    requires act.Run? && act.call.AddQuantityCall?
    ensures act.shard < |w.shards|
    ensures Balance(w.shards[act.shard].users, act.call.inp.caller, TokenKey(act.call.t, act.call.nonce)) > 0
  {
    hide AddQuantity, NonNegative, ZeroIsFrozen, TokenKey;
    var call := act.call;
    QuantityNeedsHolding(At(c, act.shard), w.shards[act.shard], call.inp, call.t, call.nonce, call.quantity);
  }

  lemma NonNegativeSupply(w: World, key: Bytes)
    requires WorldNonNegative(w)
    ensures Supply(w, key) >= 0
  {
    hide NonNegative;
    NonNegativeShards(w.shards, key);
    NonNegativeNet(w.net, key);
  }

  /** The nonce of the next creation was not given out, and so nothing exists under it. */
  lemma NextIsFresh(c: Config, w: World, act: Action, after: World, events: seq<Nonces.Event>)
    requires IsCreate(act) && Next(c, w, act) == Some(after)
    requires Follows(c, w, events, act.call.cr.token) && OnlyGivenOut(w, events, act.call.cr.token)
    requires Nonces.Orderly(events + [Nonces.Mint(act.call.holder)]) && Nonces.WithinRanges(events + [Nonces.Mint(act.call.holder)])
    ensures act.shard < |w.shards|
    ensures var n := NextNonce(w.shards[act.shard], act.call.holder, act.call.cr.token);
            n > 0 && Supply(w, TokenKey(act.call.cr.token, n)) == 0
            && Nonces.InSomeRange(events + [Nonces.Mint(act.call.holder)], n)
  {
    hide Next, Supply, TokenKey, Nonces.WithinRanges, Nonces.CountersAfter, Nonces.Ranges, Follows;
    var a, t := act.call.holder, act.call.cr.token;
    OneEvent(events, Nonces.Mint(a));
    CreatorIsKnown(events, a);
    MintFollows(c, w, act.shard, act.call, after, events, t);
    NewNonceInRange(events, a);
  }

  lemma CreatorIsKnown(events: seq<Nonces.Event>, a: Address)
    requires Nonces.Orderly(events + [Nonces.Mint(a)])
    ensures a in Nonces.Ranges(events)
  {
    OneEvent(events, Nonces.Mint(a));
  }

  /** The nonce of a creation is new, and is given out by it. */
  lemma NewNonceInRange(events: seq<Nonces.Event>, a: Address)
    requires Nonces.Orderly(events + [Nonces.Mint(a)]) && Nonces.WithinRanges(events + [Nonces.Mint(a)])
    ensures var n := Wrap64(Nonces.LatestOf(Nonces.CountersAfter(events), a) + 1);
            n > 0 && !Nonces.InSomeRange(events, n) && Nonces.InSomeRange(events + [Nonces.Mint(a)], n)
  {
    var more := events + [Nonces.Mint(a)];
    OneEvent(events, Nonces.Mint(a));
    Nonces.NewNonce(more);
    Nonces.WithinRangesBefore(more);
    LastAllocated(events, a);
    hide Nonces.Orderly, Nonces.WithinRanges, Nonces.CountersAfter, Nonces.Allocated, Nonces.Ranges, Nonces.Used;
    var range := Nonces.Ranges(events)[a];
    var n := Wrap64(Nonces.LatestOf(Nonces.CountersAfter(events), a) + 1);
    Nonces.NewNonceIsNew(events, range, n);
    assert Nonces.InUse(more, range, n);
  }

  lemma LastAllocated(events: seq<Nonces.Event>, a: Address)
    ensures Nonces.Allocated(events + [Nonces.Mint(a)])
            == Nonces.Allocated(events) + [Wrap64(Nonces.LatestOf(Nonces.CountersAfter(events), a) + 1)]
  {
    OneEvent(events, Nonces.Mint(a));
  }

  lemma StepKeepsOnlyGivenOut(c: Config, w: World, act: Action, after: World, events: seq<Nonces.Event>, t: Bytes)
    requires WorldNonNegative(w) && NoZeros(w) && Next(c, w, act) == Some(after) && Proper(c, act) && ValidToken(t)
    requires Follows(c, w, events, t) && OnlyGivenOut(w, events, t)
    requires Nonces.Orderly(events + EventOf(act, t)) && Nonces.WithinRanges(events + EventOf(act, t))
    ensures OnlyGivenOut(after, events + EventOf(act, t), t)
  {
    hide WorldNonNegative, NoZeros, Next, Proper, ValidToken, Supply, TokenKey, Follows;
    forall n: uint64 | n > 0 && Supply(after, TokenKey(t, n)) != 0
      ensures Nonces.InSomeRange(events + EventOf(act, t), n)
    {
      if Supply(w, TokenKey(t, n)) != 0 {
        InSomeRangeGrows(events, EventOf(act, t), n);
      } else {
        NothingFromNothing(c, w, act, after, t, n);
        NextIsFresh(c, w, act, after, events);
      }
    }
  }

  // ---- whole runs ----

  ghost predicate Tracked(c: Config, w: World, acts: seq<Action>, t: Bytes) {
    && WorldNonNegative(w) && NoZeros(w)
    && Follows(c, w, EventsOf(acts, t), t) && OnlyGivenOut(w, EventsOf(acts, t), t)
  }

  lemma GenesisIsTracked(c: Config, w: World, t: Bytes)
    requires Genesis(w)
    ensures Tracked(c, w, [], t)
  {
    forall key ensures Supply(w, key) == 0 {
      EmptyShards(w.shards, key);
    }
  }

  lemma {:induction false} EmptyShards(shards: seq<Shard>, key: Bytes)
    requires forall s :: 0 <= s < |shards| ==> shards[s].users == map[]
    ensures ShardsTotal(shards, key) == 0
  {
    if shards != [] {
      EmptyShards(shards[..|shards| - 1], key);
    }
  }

  lemma InOrderBefore(acts: seq<Action>, t: Bytes)
    requires acts != [] && Nonces.Orderly(EventsOf(acts, t)) && Nonces.WithinRanges(EventsOf(acts, t))
    ensures var init := acts[..|acts| - 1]; Nonces.Orderly(EventsOf(init, t)) && Nonces.WithinRanges(EventsOf(init, t))
  {
    var init, last := acts[..|acts| - 1], EventOf(acts[|acts| - 1], t);
    if last == [] {
      assert EventsOf(init, t) + [] == EventsOf(init, t);
    } else {
      assert last == [last[0]];
      OneEvent(EventsOf(init, t), last[0]);
      Nonces.WithinRangesBefore(EventsOf(acts, t));
    }
  }

  lemma InOrderPrefix(acts: seq<Action>)
    requires acts != [] && InOrder(acts)
    ensures InOrder(acts[..|acts| - 1])
  {
    hide ValidToken, Nonces.Orderly, Nonces.WithinRanges, EventsOf;
    var init := acts[..|acts| - 1];
    forall t | ValidToken(t) ensures Nonces.Orderly(EventsOf(init, t)) && Nonces.WithinRanges(EventsOf(init, t)) {
      InOrderBefore(acts, t);
    }
  }

  /** In every state of a run from genesis, what exists of a token is of nonces that its creators gave out. */
  lemma {:induction false} OnlyCreatedExists(c: Config, w: World, acts: seq<Action>, after: World, t: Bytes)
    requires Genesis(w) && Reach(c, w, acts) == Some(after) && ProperRun(c, acts) && InOrder(acts) && ValidToken(t)
    ensures Tracked(c, after, acts, t)
  {
    hide Genesis, Next, Proper, ValidToken, WorldNonNegative, NoZeros, Follows, OnlyGivenOut, Nonces.Orderly, Nonces.WithinRanges;
    if acts == [] {
      GenesisIsTracked(c, w, t);
    } else {
      var init, act := acts[..|acts| - 1], acts[|acts| - 1];
      var v := Reach(c, w, init).value;
      InOrderPrefix(acts);
      OnlyCreatedExists(c, w, init, v, t);
      StepConserves(c, v, act, after, []);
      ProperIsValid(c, act);
      StepKeepsNoZeros(c, v, act, after);
      StepFollows(c, v, act, after, EventsOf(init, t), t);
      StepKeepsOnlyGivenOut(c, v, act, after, EventsOf(init, t), t);
    }
  }

  lemma ProperIsValid(c: Config, act: Action)
    requires Proper(c, act)
    ensures act.Run? ==> ValidTokens(act.call)
  {
  }

  /** Every creation of a run takes a nonce under which nobody holds anything, in any shard. */
  lemma CreationIsFresh(c: Config, w: World, acts: seq<Action>, v: World, act: Action, after: World, a: Address, s: nat)
    requires Genesis(w) && Reach(c, w, acts) == Some(v) && Next(c, v, act) == Some(after) && IsCreate(act)
    requires ProperRun(c, acts) && Proper(c, act) && InOrder(acts + [act]) && s < |v.shards|
    ensures act.shard < |v.shards|
    ensures var n := NextNonce(v.shards[act.shard], act.call.holder, act.call.cr.token);
            n > 0 && Balance(v.shards[s].users, a, TokenKey(act.call.cr.token, n)) == 0
  {
    var t := act.call.cr.token;
    assert ValidToken(t);
    assert (acts + [act])[..|acts|] == acts;
    InOrderPrefix(acts + [act]);
    OnlyCreatedExists(c, w, acts, v, t);
    assert EventsOf(acts + [act], t) == EventsOf(acts, t) + [Nonces.Mint(act.call.holder)];
    hide Next, Follows, OnlyGivenOut, WorldNonNegative, Supply, ValidToken, Nonces.Orderly, Nonces.WithinRanges, Genesis, Reach;
    NextIsFresh(c, v, act, after, EventsOf(acts, t));
    BalanceBound(v, s, a, TokenKey(t, NextNonce(v.shards[act.shard], act.call.holder, t)));
  }

  /** So such a run meets all that the liquidity protocol asks of calls. */
  lemma {:induction false} ProperRunIsAllowed(c: Config, w: World, acts: seq<Action>, after: World)
    requires Genesis(w) && Reach(c, w, acts) == Some(after) && ProperRun(c, acts) && InOrder(acts)
    ensures Liquidity.AllowedRun(c, w, acts)
  {
    hide Genesis, Next, InOrder, Balance, TokenKey, ValidTokens, Liquidity.Wipeable;
    if acts != [] {
      var init, act := acts[..|acts| - 1], acts[|acts| - 1];
      var v := Reach(c, w, init).value;
      InOrderPrefix(acts);
      ProperRunIsAllowed(c, w, init, v);
      assert Proper(c, act) && init + [act] == acts;
      if IsCreate(act) && act.shard < |v.shards| {
        CreationIsFresh(c, w, init, v, act, after, act.call.holder, act.shard);
      }
    }
  }

  /** The liquidity counter equals the balances over every such run, with no assumption on the created nonces. */
  lemma LiquidityOfProperRuns(c: Config, w: World, acts: seq<Action>, after: World, s: nat, key: Bytes)
    requires Liquidity.Active(c) && Genesis(w) && Reach(c, w, acts) == Some(after) && ProperRun(c, acts) && InOrder(acts)
    requires s < |after.shards| && IsNftKey(key) && key in after.shards[s].sys
    ensures after.shards[s].sys[key].Entry?
    ensures after.shards[s].sys[key].token.reserved != [] ==>
              after.shards[s].sys[key].token.value == Total(after.shards[s].users, key)
  {
    hide Genesis, ProperRun, InOrder, Reach, Liquidity.AllowedRun;
    ProperRunIsAllowed(c, w, acts, after);
    Liquidity.LiquidityIsTheSumOfBalances(c, w, acts, after, s, key);
  }
}
