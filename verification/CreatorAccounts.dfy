/**
 * What an account stores about a token it may create: its roles, and the counter of the nonces it gave out, kept as
 * bytes. Roles are granted and withdrawn by the system contract, and the right to create is handed over with its counter.
 */
module CreatorAccounts {
  import opened Bytes
  import opened Wrappers
  import opened Seqs
  import opened RoleLists
  import opened CallData
  import Hex

  type Address = Bytes

  /** The names that the program takes from its configuration. */
  datatype Names = Names(create: Bytes, createMultiShard: Bytes, handOver: Bytes) {
    predicate Usable() {
      create != createMultiShard && handOver != [] && Free(handOver, Hex.AT)
    }
  }

  /** The stored roles and counter of one token; an empty counter counts as zero. */
  datatype Holding = Holding(roles: seq<Bytes>, counter: Bytes) {
    function Latest(): uint64 {
      ToUint64(counter)
    }
  }

  const PER_RANGE: nat := 0xFF_FFFF_FFFF_FFFF  // 2^64 - 1 divided by 256

  /** The first counter of a multi-shard creator, by the last byte of its address. */
  function StartNonce(a: Address): uint64
    requires a != []
  {
    PER_RANGE * a[|a| - 1]
  }

  /** A change of roles; naming the multi-shard role starts the counter anew, also when the role is withdrawn. */
  function WithRoles(names: Names, h: Holding, a: Address, grant: bool, roles: seq<Bytes>): Holding
    requires a != []
  {
    Holding(if grant then h.roles + roles else DeleteAll(h.roles, roles),
            if names.createMultiShard in roles then FromNat(StartNonce(a)) else h.counter)
  }

  /** The old owner loses one occurrence of the create role and its counter. */
  function Resigned(names: Names, h: Holding): Holding {
    Holding(RemoveFirst(h.roles, names.create), FromNat(0))
  }

  /** The new owner takes over the counter, and the create role unless it has it. */
  function Appointed(names: Names, h: Holding, nonce: uint64): Holding {
    Holding(if names.create in h.roles then h.roles else h.roles + [names.create], FromNat(nonce))
  }

  function HandOverText(names: Names, t: Bytes, nonce: uint64): Bytes {
    Text(names.handOver, [t, FromNat(nonce)])
  }

  /** What the arriving text does to the new owner's holding of the token it names. */
  function AppointedByText(names: Names, text: Bytes, h: Holding): Result<Holding> {
    var (f, args) :- Parse(text);
    if f != names.handOver || |args| != 2 then Err(ErrInvalidArguments)
    else Ok(Appointed(names, h, ToUint64(args[1])))
  }

  class Account {
    const address: Address
    var roles: map<Bytes, seq<Bytes>>
    var counters: map<Bytes, Bytes>

    constructor (address: Address)
      ensures this.address == address && forall t :: HoldingOf(t) == Holding([], [])
    {
      this.address, roles, counters := address, map[], map[];
    }

    function RolesOf(t: Bytes): seq<Bytes>
      reads this
    {
      if t in roles then roles[t] else []
    }

    function HoldingOf(t: Bytes): Holding
      reads this
    {
      Holding(RolesOf(t), if t in counters then counters[t] else [])
    }

    method SaveLatestNonce(t: Bytes, nonce: uint64)
      modifies this`counters
      ensures HoldingOf(t) == old(HoldingOf(t)).(counter := FromNat(nonce))
      ensures forall u :: u != t ==> HoldingOf(u) == old(HoldingOf(u))
    {
      counters := counters[t := FromNat(nonce)];
    }

    method SaveRoles(t: Bytes, list: RoleList)
      requires list.Valid()
      modifies this`roles
      ensures HoldingOf(t) == old(HoldingOf(t)).(roles := list.Contents())
      ensures forall u :: u != t ==> HoldingOf(u) == old(HoldingOf(u))
    {
      var stored := list.data[..list.len];
      roles := roles[t := stored];
    }

    /** The loop that looks for the multi-shard role among the arguments. */
    method RestartCounter(names: Names, t: Bytes, changed: seq<Bytes>)
      requires address != []
      modifies this`counters
      ensures HoldingOf(t) == old(HoldingOf(t)).(counter :=
        if names.createMultiShard in changed then FromNat(StartNonce(address)) else old(HoldingOf(t)).counter)
      ensures forall u :: u != t ==> HoldingOf(u) == old(HoldingOf(u))
    {
      var i := 0;
      while i < |changed|
        invariant 0 <= i <= |changed| && counters == old(counters)
        invariant names.createMultiShard !in changed[..i]
      {
        if changed[i] == names.createMultiShard {
          SaveLatestNonce(t, StartNonce(address));
          break;
        }
        i := i + 1;
      }
    }

    /** The set and unset functions for roles, called by the system contract. */
    method ChangeRoles(names: Names, grant: bool, callerIsSystem: bool, args: seq<Bytes>) returns (r: Outcome)
      requires address != []
      modifies this
      ensures r == if |args| < 2 then Fail(ErrInvalidArguments)
                   else if !callerIsSystem then Fail(ErrAddressIsNotDCTSystemSC) else Pass
      ensures r.Pass? ==> HoldingOf(args[0]) == WithRoles(names, old(HoldingOf(args[0])), address, grant, args[1..])
      ensures r.Pass? && grant ==> RolesOf(args[0]) == old(RolesOf(args[0])) + args[1..]
      ensures r.Pass? && !grant ==> multiset(RolesOf(args[0])) == multiset(old(RolesOf(args[0]))) - multiset(args[1..])
      ensures r.Pass? && names.createMultiShard in args[1..] ==> HoldingOf(args[0]).Latest() == PER_RANGE * address[|address| - 1]
      ensures r.Pass? && names.createMultiShard !in args[1..] ==> HoldingOf(args[0]).Latest() == old(HoldingOf(args[0])).Latest()
      ensures r.Pass? ==> forall t :: t != args[0] ==> HoldingOf(t) == old(HoldingOf(t))
      ensures r.Fail? ==> forall t :: HoldingOf(t) == old(HoldingOf(t))
    {
      if |args| < 2 {
        return Fail(ErrInvalidArguments);
      }
      if !callerIsSystem {
        return Fail(ErrAddressIsNotDCTSystemSC);
      }
      var t, changed := args[0], args[1..];
      ghost var before := HoldingOf(t);
      var list := new RoleList(RolesOf(t));
      if grant {
        list.AppendAll(changed);
      } else {
        list.DeleteRoles(changed);
      }
      RestartCounter(names, t, changed);
      SaveRoles(t, list);
      DeleteIsTruncatedDifference(before.roles, changed);
      Uint64RoundTrip(StartNonce(address));
      return Pass;
    }

    method DeleteCreateRole(names: Names, t: Bytes)
      modifies this`roles
      ensures HoldingOf(t) == old(HoldingOf(t)).(roles := RemoveFirst(old(RolesOf(t)), names.create))
      ensures forall u :: u != t ==> HoldingOf(u) == old(HoldingOf(u))
    {
      var list := new RoleList(RolesOf(t));
      DeleteNone(RolesOf(t));
      DeleteOneMore(RolesOf(t), [names.create], 0);
      list.DeleteRoles([names.create]);
      SaveRoles(t, list);
    }

    method AddCreateRole(names: Names, t: Bytes)
      modifies this`roles
      ensures HoldingOf(t) == old(HoldingOf(t)).(roles :=
        if names.create in old(RolesOf(t)) then old(RolesOf(t)) else old(RolesOf(t)) + [names.create])
      ensures forall u :: u != t ==> HoldingOf(u) == old(HoldingOf(u))
    {
      var list := new RoleList(RolesOf(t));
      var _, found := list.IndexOf(names.create);
      if found {
        return;
      }
      list.Append(names.create);
      SaveRoles(t, list);
    }

    /** The hand-over at the new owner. */
    method ChangeAtNextOwner(names: Names, args: seq<Bytes>) returns (r: Outcome)
      modifies this
      ensures r == if |args| != 2 then Fail(ErrInvalidArguments) else Pass
      ensures r.Pass? ==> HoldingOf(args[0]) == Appointed(names, old(HoldingOf(args[0])), ToUint64(args[1]))
      ensures r.Pass? ==> forall t :: t != args[0] ==> HoldingOf(t) == old(HoldingOf(t))
      ensures r.Fail? ==> forall t :: HoldingOf(t) == old(HoldingOf(t))
    {
      if |args| != 2 {
        return Fail(ErrInvalidArguments);
      }
      SaveLatestNonce(args[0], ToUint64(args[1]));
      AddCreateRole(names, args[0]);
      return Pass;
    }

    /**
     * The hand-over at the present owner. `next` is the new owner's account when it is in this shard; a message with
     * the counter is sent in either case.
     */
    method ChangeAtCurrentOwner(names: Names, addressLength: nat, args: seq<Bytes>, next: Account?) returns (r: Result<Bytes>)
      requires next != null ==> next != this
      modifies this, next
      ensures r.Ok? <==> |args| == 2 && |args[1]| == addressLength
      ensures r.Ok? ==> HoldingOf(args[0]) == Resigned(names, old(HoldingOf(args[0])))
      ensures r.Ok? ==> forall t :: t != args[0] ==> HoldingOf(t) == old(HoldingOf(t))
      ensures r.Ok? && next != null ==>
                && next.HoldingOf(args[0]) == Appointed(names, old(next.HoldingOf(args[0])), old(HoldingOf(args[0])).Latest())
                && forall t :: t != args[0] ==> next.HoldingOf(t) == old(next.HoldingOf(t))
      ensures r.Ok? ==> r.value == HandOverText(names, args[0], old(HoldingOf(args[0])).Latest())
      ensures r.Err? ==> r.error == ErrInvalidArguments && forall t :: HoldingOf(t) == old(HoldingOf(t))
      ensures r.Err? && next != null ==> forall t :: next.HoldingOf(t) == old(next.HoldingOf(t))
    {
      if |args| != 2 || |args[1]| != addressLength {
        return Err(ErrInvalidArguments);
      }
      var t := args[0];
      var nonce := HoldingOf(t).Latest();
      SaveLatestNonce(t, 0);
      DeleteCreateRole(names, t);
      if next != null {
        next.SaveLatestNonce(t, nonce);
        next.AddCreateRole(names, t);
      }
      var text := Emit(names.handOver, [t, FromNat(nonce)]);
      return Ok(text);
    }
  }

  // ---- the hand-over as a whole ----

  function Count(s: seq<Bytes>, x: Bytes): nat {
    multiset(s)[x]
  }

  lemma CounterRoundTrip(names: Names, h: Holding, nonce: uint64)
    ensures Appointed(names, h, nonce).Latest() == nonce && Resigned(names, h).Latest() == 0
  {
    Uint64RoundTrip(nonce);
    Uint64RoundTrip(0);
  }

  lemma RemoveOne(s: seq<Bytes>, x: Bytes)
    ensures multiset(RemoveFirst(s, x)) == multiset(s) - multiset{x}
  {
    DeleteNone(s);
    DeleteOneMore(s, [x], 0);
    DeleteIsTruncatedDifference(s, [x]);
  }

  /** The message says what the direct path does: both leave the new owner with the same roles and counter. */
  lemma MessageEqualsDirectPath(names: Names, t: Bytes, owner: Holding, next: Holding)
    requires names.Usable()
    ensures AppointedByText(names, HandOverText(names, t, owner.Latest()), next) == Ok(Appointed(names, next, owner.Latest()))
    ensures Parse(HandOverText(names, t, owner.Latest())) == Ok((names.handOver, [t, FromNat(owner.Latest())]))
  {
    hide Parse, Text;
    var args := [t, FromNat(owner.Latest())];
    CallRoundTrip(names.handOver, args);
    Uint64RoundTrip(owner.Latest());
  }

  /**
   * After a hand-over the new owner continues the old one's counter and holds the create role; the old owner starts
   * from zero and holds the role once less. Applying the message again changes nothing.
   */
  lemma HandOverMovesTheCounter(names: Names, t: Bytes, owner: Holding, next: Holding)
    requires names.Usable()
    ensures var left, taken := Resigned(names, owner), Appointed(names, next, owner.Latest());
            && taken.Latest() == owner.Latest() && names.create in taken.roles
            && left.Latest() == 0 && multiset(left.roles) == multiset(owner.roles) - multiset{names.create}
            && Count(taken.roles, names.create) == (if names.create in next.roles then Count(next.roles, names.create) else 1)
            && AppointedByText(names, HandOverText(names, t, owner.Latest()), taken) == Ok(taken)
  {
    hide AppointedByText, HandOverText, RemoveFirst;
    CounterRoundTrip(names, next, owner.Latest());
    CounterRoundTrip(names, owner, 0);
    RemoveOne(owner.roles, names.create);
    MessageEqualsDirectPath(names, t, owner, Appointed(names, next, owner.Latest()));
  }

  /** The old owner really loses the right to create exactly when the role was not listed twice. */
  lemma ResignedLosesTheRole(names: Names, h: Holding)
    ensures names.create in Resigned(names, h).roles <==> Count(h.roles, names.create) >= 2
  {
    hide RemoveFirst;
    RemoveOne(h.roles, names.create);
    assert names.create in Resigned(names, h).roles <==> names.create in multiset(Resigned(names, h).roles);
  }

  /** Applying the message later is harmless exactly while the counter is still the one in the message. */
  lemma LateMessageIsHarmlessExactly(names: Names, t: Bytes, nonce: uint64, h: Holding)
    requires names.Usable()
    ensures AppointedByText(names, HandOverText(names, t, nonce), h) == Ok(h)
            <==> h.counter == FromNat(nonce) && names.create in h.roles
  {
    hide Parse, Text;
    CallRoundTrip(names.handOver, [t, FromNat(nonce)]);
    Uint64RoundTrip(nonce);
    assert |h.roles + [names.create]| != |h.roles|;
  }
}
