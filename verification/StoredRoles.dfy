/**
 * The roles and counters of the ledger's steps are those that accounts store: granting, resigning, appointing and
 * creating on a shard do to an account's stored holding what the role functions do to it.
 */
module StoredRoles {
  import opened Bytes
  import opened Wrappers
  import opened Seqs
  import opened RoleLists
  import opened Ledger
  import opened Operations
  import opened World
  import CreatorAccounts

  type Naming = Role -> Bytes

  /** Different roles are stored under different names. */
  ghost predicate Injective(name: Naming) {
    forall r, q :: name(r) == name(q) ==> r == q
  }

  function Named(roles: seq<Role>, name: Naming): (s: seq<Bytes>)
    ensures |s| == |roles| && forall i :: 0 <= i < |roles| ==> s[i] == name(roles[i])
  {
    seq(|roles|, i requires 0 <= i < |roles| => name(roles[i]))
  }

  /** What an account of the shard stores about a token. */
  function Stored(sh: Shard, a: Address, t: Bytes, name: Naming): CreatorAccounts.Holding {
    CreatorAccounts.Holding(Named(RolesOf(sh, a, t), name), FromNat(LatestNonce(sh, a, t)))
  }

  lemma NamedIndex(roles: seq<Role>, role: Role, name: Naming)
    requires Injective(name)
    ensures FirstIndex(Named(roles, name), name(role)) == FirstIndex(roles, role)
    ensures role in roles <==> name(role) in Named(roles, name)
  {
    var i := FirstIndex(roles, role);
    forall j | 0 <= j < i ensures Named(roles, name)[j] != name(role) {
      assert name(roles[j]) == name(role) ==> roles[j] == role;
    }
    FirstIndexIs(Named(roles, name), name(role), i);
    if role in roles {
      assert Named(roles, name)[i] == name(role);
    }
  }

  lemma NamedRemove(roles: seq<Role>, role: Role, name: Naming)
    requires Injective(name)
    ensures Named(RemoveFirst(roles, role), name) == RemoveFirst(Named(roles, name), name(role))
  {
    NamedIndex(roles, role, name);
  }

  lemma CounterIsStored(sh: Shard, a: Address, t: Bytes, name: Naming)
    ensures Stored(sh, a, t, name).Latest() == LatestNonce(sh, a, t)
  {
    Uint64RoundTrip(LatestNonce(sh, a, t));
  }

  lemma ResignAgrees(names: CreatorAccounts.Names, sh: Shard, a: Address, t: Bytes, name: Naming)
    requires Injective(name) && names.create == name(Role.NFTCreate)
    ensures Stored(Resign(sh, a, t), a, t, name) == CreatorAccounts.Resigned(names, Stored(sh, a, t, name))
  {
    NamedRemove(RolesOf(sh, a, t), Role.NFTCreate, name);
  }

  lemma AppointAgrees(names: CreatorAccounts.Names, sh: Shard, a: Address, t: Bytes, counter: uint64, name: Naming)
    requires Injective(name) && names.create == name(Role.NFTCreate)
    ensures Stored(Appoint(sh, a, t, counter), a, t, name) == CreatorAccounts.Appointed(names, Stored(sh, a, t, name), counter)
  {
    var roles := RolesOf(sh, a, t);
    NamedIndex(roles, Role.NFTCreate, name);
    assert Named(roles + [Role.NFTCreate], name) == Named(roles, name) + [names.create];
  }

  /** The step of the system does to both owners what the hand-over, by its message or directly, does to their accounts. */
  lemma HandOverAgrees(names: CreatorAccounts.Names, c: Config, w: World, from: Address, to: Address, t: Bytes, after: World,
                       name: Naming)
    requires Injective(name) && names.create == name(Role.NFTCreate) && names.Usable()
    requires Next(c, w, HandOver(from, to, t)) == Some(after)
    ensures var s, d := c.shardOf(from), c.shardOf(to);
      s < |w.shards| && d < |w.shards| && |after.shards| == |w.shards| &&
      var owner, next := Stored(w.shards[s], from, t, name), Stored(w.shards[d], to, t, name);
      && Stored(after.shards[s], from, t, name) == CreatorAccounts.Resigned(names, owner)
      && Stored(after.shards[d], to, t, name) == CreatorAccounts.Appointed(names, next, owner.Latest())
      && CreatorAccounts.AppointedByText(names, CreatorAccounts.HandOverText(names, t, owner.Latest()), next)
         == Ok(Stored(after.shards[d], to, t, name))
  {
    hide CreatorAccounts.AppointedByText, CreatorAccounts.HandOverText, CreatorAccounts.Resigned, CreatorAccounts.Appointed;
    var s, d := c.shardOf(from), c.shardOf(to);
    var left := w.shards[s := Resign(w.shards[s], from, t)];
    var counter := LatestNonce(w.shards[s], from, t);
    CounterIsStored(w.shards[s], from, t, name);
    ResignAgrees(names, w.shards[s], from, t, name);
    AppointAgrees(names, left[d], to, t, counter, name);
    OthersAreKept(w.shards[s], from, to, t, counter, name);
    OthersAreKept(left[d], to, from, t, counter, name);
    CreatorAccounts.MessageEqualsDirectPath(names, t, Stored(w.shards[s], from, t, name), Stored(w.shards[d], to, t, name));
  }

  lemma OthersAreKept(sh: Shard, a: Address, b: Address, t: Bytes, counter: uint64, name: Naming)
    requires a != b
    ensures Stored(Resign(sh, a, t), b, t, name) == Stored(sh, b, t, name)
    ensures Stored(Appoint(sh, a, t, counter), b, t, name) == Stored(sh, b, t, name)
  {
  }

  /** A grant or withdrawal restarts the stored counter exactly when the ledger's step does. */
  lemma RestartAgrees(names: CreatorAccounts.Names, sh: Shard, a: Address, t: Bytes, grant: bool, changed: seq<Bytes>,
                      roles: seq<Role>, transferRole: seq<Address>, name: Naming)
    requires a != []
    requires Named(roles, name) == CreatorAccounts.WithRoles(names, Stored(sh, a, t, name), a, grant, changed).roles
    ensures SetRoles(sh, a, t, roles, transferRole, names.createMultiShard in changed).Ok?
    ensures Stored(SetRoles(sh, a, t, roles, transferRole, names.createMultiShard in changed).value, a, t, name)
            == CreatorAccounts.WithRoles(names, Stored(sh, a, t, name), a, grant, changed)
  {
    hide DeleteAll, FromNat;
  }

  /** A creation advances the stored counter by one, in 64 bits. */
  lemma CreateAgrees(c: Config, sh: Shard, inp: Input, holder: Address, cr: Creation, after: Shard, out: Output, name: Naming)
    requires Create(c, sh, inp, holder, cr) == Ok((after, out))
    ensures Stored(after, holder, cr.token, name).Latest() == Wrap64(Stored(sh, holder, cr.token, name).Latest() + 1)
    ensures Stored(after, holder, cr.token, name).roles == Stored(sh, holder, cr.token, name).roles
  {
    hide AddToLiquidity, SaveMeta, HasRole, CheckFrozenPauseProperties, ToUint64, FromNat;
    CounterIsStored(sh, holder, cr.token, name);
    CounterIsStored(after, holder, cr.token, name);
  }
}
