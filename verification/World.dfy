/**
 * All shards together: each runs built-in functions on its own state, and messages travel between them.
 * The order of messages is kept between any two shards, and nothing else about delivery is assumed.
 */
module World {
  import opened Bytes
  import opened Keys
  import opened Wrappers
  import opened Ledger
  import opened Operations

  datatype Call =
    | FungibleCall(inp: Input, dst: Address, t: Bytes, value: nat, extra: seq<Bytes>)
    | NftCall(inp: Input, dst: Address, mv: Move, extra: seq<Bytes>)
    | MultiCall(inp: Input, dst: Address, moves: seq<Move>, extra: seq<Bytes>)
    | CreateCall(inp: Input, holder: Address, cr: Creation)
    | AddQuantityCall(inp: Input, t: Bytes, nonce: uint64, quantity: Bytes)
    | BurnCall(inp: Input, t: Bytes, nonce: uint64, value: nat)
    | UpdateCall(inp: Input, t: Bytes, nonce: uint64, update: Update)
    | MintCall(inp: Input, t: Bytes, quantity: Bytes)
    | BurnFungibleCall(inp: Input, t: Bytes, value: nat)
    | FreezeCall(holder: Address, key: Bytes, freeze: bool)
    | WipeCall(holder: Address, key: Bytes)
    | SettingCall(t: Bytes, which: Setting, on: bool)
    | RolesCall(holder: Address, t: Bytes, roles: seq<Role>, transferRole: seq<Address>, restart: bool)

  const NO_OUTPUT := Output(0, 0, [])

  function Execute(c: Config, sh: Shard, call: Call): Result<(Shard, Output)> {
    match call
    case FungibleCall(inp, dst, t, value, extra) => FungibleSend(c, sh, inp, dst, t, value, extra)
    case NftCall(inp, dst, mv, extra) => NftSend(c, sh, inp, dst, mv, extra)
    case MultiCall(inp, dst, moves, extra) => MultiSend(c, sh, inp, dst, moves, extra)
    case CreateCall(inp, holder, cr) => Create(c, sh, inp, holder, cr)
    case AddQuantityCall(inp, t, nonce, quantity) => AddQuantity(c, sh, inp, t, nonce, quantity)
    case BurnCall(inp, t, nonce, value) => Burn(c, sh, inp, t, nonce, value)
    case UpdateCall(inp, t, nonce, update) => UpdateMeta(c, sh, inp, t, nonce, update)
    case MintCall(inp, t, quantity) => Mint(c, sh, inp, t, quantity)
    case BurnFungibleCall(inp, t, value) => BurnFungible(c, sh, inp, t, value)
    case FreezeCall(a, key, freeze) => Ok((ToggleFreeze(sh, a, key, freeze), NO_OUTPUT))
    case WipeCall(a, key) =>
      var after :- Wipe(c, sh, a, key);
      Ok((after, NO_OUTPUT))
    case SettingCall(t, which, on) => Ok((ToggleSetting(sh, t, which, on), NO_OUTPUT))
    // How the lists are computed is the subject of RoleLists and CreatorAccounts.
    case RolesCall(a, t, roles, addresses, restart) =>
      var after :- SetRoles(sh, a, t, roles, addresses, restart);
      Ok((after, NO_OUTPUT))
  }

  /** The account whose shard runs the call; settings are changed in any shard. */
  predicate RunsIn(c: Config, call: Call, s: nat) {
    match call
    case FungibleCall(inp, _, _, _, _) => c.shardOf(inp.caller) == s
    case NftCall(inp, _, _, _) => c.shardOf(inp.caller) == s
    case MultiCall(inp, _, _, _) => c.shardOf(inp.caller) == s
    case CreateCall(inp, holder, _) => c.shardOf(inp.caller) == s && c.shardOf(holder) == s
    case AddQuantityCall(inp, _, _, _) => c.shardOf(inp.caller) == s
    case BurnCall(inp, _, _, _) => c.shardOf(inp.caller) == s
    case UpdateCall(inp, _, _, _) => c.shardOf(inp.caller) == s
    case MintCall(inp, _, _) => c.shardOf(inp.caller) == s
    case BurnFungibleCall(inp, _, _) => c.shardOf(inp.caller) == s
    case FreezeCall(a, _, _) => c.shardOf(a) == s
    case WipeCall(a, _) => c.shardOf(a) == s
    case SettingCall(_, _, _) => true
    case RolesCall(a, _, _, _, _) => c.shardOf(a) == s
  }

  /** All identifiers in the call are of the form that ValidateToken accepts. */
  predicate ValidTokens(call: Call) {
    match call
    case FungibleCall(_, _, t, _, _) => ValidToken(t)
    case NftCall(_, _, mv, _) => ValidToken(mv.token)
    case MultiCall(_, _, moves, _) => forall i :: 0 <= i < |moves| ==> ValidToken(moves[i].token)
    case CreateCall(_, _, cr) => ValidToken(cr.token)
    case AddQuantityCall(_, t, _, _) => ValidToken(t)
    case BurnCall(_, t, _, _) => ValidToken(t)
    case UpdateCall(_, t, _, _) => ValidToken(t)
    case MintCall(_, t, _) => ValidToken(t)
    case BurnFungibleCall(_, t, _) => ValidToken(t)
    case SettingCall(t, _, _) => ValidToken(t)
    case _ => true
  }

  datatype World = World(shards: seq<Shard>, net: seq<Envelope>)

  function At(c: Config, s: nat): Config {
    c.(self := s)
  }

  predicate SameChannel(c: Config, e: Envelope, f: Envelope) {
    c.shardOf(e.caller) == c.shardOf(f.caller) && c.shardOf(e.recipient) == c.shardOf(f.recipient)
  }

  /** No message of the same channel is older. */
  predicate IsNext(c: Config, net: seq<Envelope>, i: nat)
    requires i < |net|
  {
    forall j :: 0 <= j < i ==> !SameChannel(c, net[j], net[i])
  }

  function Without<T>(s: seq<T>, i: nat): seq<T>
    requires i < |s|
  {
    s[..i] + s[i + 1..]
  }

  /** A message that cannot be processed goes back to its sender, marked as the return of a failed call. */
  function Bounce(env: Envelope): Envelope {
    Envelope(env.carrier, env.recipient, env.caller, env.items, [], env.callType, true)
  }

  datatype Action =
    | Run(shard: nat, call: Call)
    | Arrive(index: nat, gas: uint64)
    | HandOver(from: Address, to: Address, t: Bytes)

  /** One step, if the action is possible. A failing call changes nothing, so it is no step. */
  function Next(c: Config, w: World, act: Action): Option<World> {
    match act
    case Run(s, call) =>
      if s >= |w.shards| || !RunsIn(c, call, s) then None
      else
        (match Execute(At(c, s), w.shards[s], call)
         case Err(_) => None
         case Ok((sh, out)) => Some(World(w.shards[s := sh], w.net + out.sent)))
    case Arrive(i, gas) =>
      if i >= |w.net| || !IsNext(c, w.net, i) || c.shardOf(w.net[i].recipient) >= |w.shards| then None
      else
        var env := w.net[i];
        var s := c.shardOf(env.recipient);
        (match Deliver(At(c, s), w.shards[s], env, gas)
         case Ok((sh, _)) => Some(World(w.shards[s := sh], Without(w.net, i)))
         case Err(_) => ArriveFailed(c, w, i, s))
    case HandOver(from, to, t) => HandOverRole(c, w, from, to, t)
  }

  /** The create role and its counter move, within a shard or to another one; the message in between is not a step of its own. */
  function HandOverRole(c: Config, w: World, from: Address, to: Address, t: Bytes): Option<World> {
    var s, d := c.shardOf(from), c.shardOf(to);
    if s >= |w.shards| || d >= |w.shards| || from == to then None
    else
      var left := w.shards[s := Resign(w.shards[s], from, t)];
      Some(w.(shards := left[d := Appoint(left[d], to, t, LatestNonce(w.shards[s], from, t))]))
  }

  /** The shard keeps its state but for the metadata that the failed message carried. */
  function ArriveFailed(c: Config, w: World, i: nat, s: nat): Option<World>
    requires i < |w.net| && s < |w.shards|
  {
    match SaveMetaOfMessage(At(c, s), w.shards[s].sys, w.net[i])
    case Err(_) => None
    case Ok(sys) => Some(World(w.shards[s := w.shards[s].(sys := sys)], Without(w.net, i) + [Bounce(w.net[i])]))
  }

  /** A whole run, if every action of it is possible. */
  function Reach(c: Config, w: World, acts: seq<Action>): Option<World> {
    if acts == [] then Some(w)
    else
      match Reach(c, w, acts[..|acts| - 1])
      case None => None
      case Some(v) => Next(c, v, acts[|acts| - 1])
  }

  /** Before anything happened: no tokens, no system entries, no messages; roles and counters may be anything. */
  predicate Genesis(w: World) {
    w.net == [] && forall s :: 0 <= s < |w.shards| ==> w.shards[s].users == map[] && w.shards[s].sys == map[]
  }

  /** A hand-over touches roles and counters only. */
  lemma HandOverKeepsTokens(c: Config, w: World, from: Address, to: Address, t: Bytes, after: World)
    requires Next(c, w, HandOver(from, to, t)) == Some(after)
    ensures after.net == w.net && |after.shards| == |w.shards|
    ensures forall s :: 0 <= s < |w.shards| ==> after.shards[s].users == w.shards[s].users && after.shards[s].sys == w.shards[s].sys
  {
  }

  lemma {:induction false} MetadataIsAlwaysSaved(c: Config, sys: Sys, env: Envelope, items: seq<Item>)
    requires !c.flags.sendAlways
    ensures SaveMetaOfItems(c, sys, env, items).Ok?
  {
    if items != [] {
      MetadataIsAlwaysSaved(c, sys, env, items[..|items| - 1]);
    }
  }

  /** No message blocks its channel: one whose turn it is can always arrive, or fail and go back, under any flags. */
  lemma ArrivalIsAlwaysPossible(c: Config, w: World, i: nat, gas: uint64)
    requires i < |w.net| && IsNext(c, w.net, i) && c.shardOf(w.net[i].recipient) < |w.shards|
    ensures Next(c, w, Arrive(i, gas)).Some?
  {
    hide Deliver;
    var s := c.shardOf(w.net[i].recipient);
    if !At(c, s).flags.sendAlways {
      MetadataIsAlwaysSaved(At(c, s), w.shards[s].sys, w.net[i], w.net[i].items);
    }
  }
}
