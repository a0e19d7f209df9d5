/** The lists of addresses with transfer role, one list a token, on the system account. */
module TransferRoles {
  import opened Bytes
  import opened Wrappers
  import opened RoleLists
  import opened Ledger

  type Lists = map<Bytes, seq<Address>>

  const TWO32: nat := 0x1_0000_0000
  type uint32 = x: int | 0 <= x < 0x1_0000_0000

  function ListOf(lists: Lists, t: Bytes): seq<Address> {
    if t in lists then lists[t] else []
  }

  datatype Change = Add(token: Bytes, addresses: seq<Address>) | Delete(token: Bytes, addresses: seq<Address>)

  /** The length of the new list is compared after it is cut to 32 bits. */
  function Apply(max: uint32, lists: Lists, change: Change): Result<Lists> {
    match change
    case Add(t, addresses) =>
      var longer := AddNew(ListOf(lists, t), addresses);
      if |longer| % TWO32 > max then Err(ErrTooManyTransferAddresses) else Ok(lists[t := longer])
    case Delete(t, addresses) =>
      Ok(lists[t := DeleteAll(ListOf(lists, t), addresses)])
  }

  class SystemAccount {
    const maxNumAddresses: uint32
    const dctSC: Address
    const systemAddress: Address
    var lists: Lists

    constructor (maxNumAddresses: uint32, dctSC: Address, systemAddress: Address)
      ensures lists == map[] && this.maxNumAddresses == maxNumAddresses
      ensures this.dctSC == dctSC && this.systemAddress == systemAddress
    {
      this.maxNumAddresses, this.dctSC, this.systemAddress := maxNumAddresses, dctSC, systemAddress;
      lists := map[];
    }

    /** One call of the add function (`adding`) or of the delete function. */
    method Process(adding: bool, caller: Address, recipient: Address, args: seq<Bytes>) returns (r: Outcome)
      modifies this`lists
      ensures r == if |args| < 2 then Fail(ErrInvalidArguments)
                   else if caller != dctSC then Fail(ErrAddressIsNotDCTSystemSC)
                   else if recipient != systemAddress then Fail(ErrOnlySystemAccountAccepted)
                   else match Apply(maxNumAddresses, old(lists), ChangeOf(adding, args))
                        case Ok(_) => Pass
                        case Err(error) => Fail(error)
      ensures r.Pass? ==> Ok(lists) == Apply(maxNumAddresses, old(lists), ChangeOf(adding, args))
      ensures r.Fail? ==> lists == old(lists)
    {
      if |args| < 2 {
        return Fail(ErrInvalidArguments);
      }
      if caller != dctSC {
        return Fail(ErrAddressIsNotDCTSystemSC);
      }
      if recipient != systemAddress {
        return Fail(ErrOnlySystemAccountAccepted);
      }
      var t := args[0];
      var addresses := new RoleList(ListOf(lists, t));
      if adding {
        addresses.AddNewAddresses(args[1..]);
        if addresses.len % TWO32 > maxNumAddresses {
          return Fail(ErrTooManyTransferAddresses);
        }
      } else {
        addresses.DeleteRoles(args[1..]);
      }
      var stored := addresses.data[..addresses.len];
      lists := lists[t := stored];
      return Pass;
    }

    /** The loop of a transfer's check over the stored list. */
    method IsSenderOrDestinationWithTransferRole(snd: Address, dst: Address, t: Bytes) returns (r: bool)
      ensures r <==> snd in ListOf(lists, t) || dst in ListOf(lists, t)
    {
      var addresses := ListOf(lists, t);
      var i := 0;
      while i < |addresses|
        invariant 0 <= i <= |addresses|
        invariant snd !in addresses[..i] && dst !in addresses[..i]
      {
        if addresses[i] == snd || addresses[i] == dst {
          return true;
        }
        i := i + 1;
      }
      return false;
    }
  }

  function ChangeOf(adding: bool, args: seq<Bytes>): Change {
    var t := if args == [] then [] else args[0];
    var rest := if args == [] then [] else args[1..];
    if adding then Add(t, rest) else Delete(t, rest)
  }

  // ---- runs ----

  /** A refused change leaves the lists as they are. */
  function After(max: uint32, changes: seq<Change>): Lists {
    if changes == [] then map[]
    else
      var before := After(max, changes[..|changes| - 1]);
      match Apply(max, before, changes[|changes| - 1])
      case Ok(lists) => lists
      case Err(_) => before
  }

  function Elements(s: seq<Address>): set<Address> {
    set x | x in s
  }

  /** The holders of the role as a set, without any list. */
  ghost function Holders(max: uint32, changes: seq<Change>, t: Bytes): set<Address> {
    if changes == [] then {}
    else
      var before, last := Holders(max, changes[..|changes| - 1], t), changes[|changes| - 1];
      if last.token != t then before
      else if last.Delete? then before - Elements(last.addresses)
      else if |before + Elements(last.addresses)| > max then before
      else before + Elements(last.addresses)
  }

  predicate ListIs(s: seq<Address>, holders: set<Address>) {
    NoDuplicates(s) && Elements(s) == holders
  }

  lemma {:induction false} LengthOfList(s: seq<Address>)
    requires NoDuplicates(s)
    ensures |Elements(s)| == |s|
  {
    if s != [] {
      var init, last := s[..|s| - 1], s[|s| - 1];
      LengthOfList(init);
      assert Elements(s) == Elements(init) + {last};
      assert last !in init;
    }
  }

  lemma AddIsUnion(s: seq<Address>, more: seq<Address>)
    requires NoDuplicates(s)
    ensures ListIs(AddNew(s, more), Elements(s) + Elements(more))
    ensures |AddNew(s, more)| == |Elements(s) + Elements(more)| <= |s| + |more|
  {
    AddNewIsUnion(s, more);
    assert Elements(AddNew(s, more)) == Elements(s) + Elements(more);
    LengthOfList(AddNew(s, more));
  }

  lemma DeleteIsDifference(s: seq<Address>, gone: seq<Address>)
    requires NoDuplicates(s)
    ensures ListIs(DeleteAll(s, gone), Elements(s) - Elements(gone)) && |DeleteAll(s, gone)| <= |s|
  {
    DeleteFromSet(s, gone);
    assert Elements(DeleteAll(s, gone)) == Elements(s) - Elements(gone);
  }

  /** No call names so many addresses that the 32-bit length could overflow. */
  predicate FitsWord(max: uint32, change: Change) {
    max + |change.addresses| < TWO32
  }

  /**
   * From empty lists, after any run of adds and deletes, every list is free of duplicates, within the maximum, and
   * holds exactly the addresses of the abstract set.
   */
  lemma {:induction false} ListsAreSets(max: uint32, changes: seq<Change>, t: Bytes)
    requires forall change <- changes :: FitsWord(max, change)
    ensures ListIs(ListOf(After(max, changes), t), Holders(max, changes, t))
    ensures |ListOf(After(max, changes), t)| <= max
  {
    hide AddNew, DeleteAll, NoDuplicates, Elements;
    if changes == [] {
      EmptyList();
    } else {
      var init, last := changes[..|changes| - 1], changes[|changes| - 1];
      ListsAreSets(max, init, t);
      var before := ListOf(After(max, init), t);
      assert FitsWord(max, last);
      if last.token == t {
        AddIsUnion(before, last.addresses);
        DeleteIsDifference(before, last.addresses);
        FitsExactly(|AddNew(before, last.addresses)|);
      }
    }
  }

  lemma EmptyList()
    ensures ListIs([], {})
  {
  }

  lemma FitsExactly(n: nat)
    ensures n < TWO32 ==> n % TWO32 == n
  {
  }

  /** What a transfer's check asks of the lists is what it asks of the set, in every state of every run. */
  lemma CheckAgreesWithHolders(max: uint32, changes: seq<Change>, sh: Shard, snd: Address, dst: Address, t: Bytes)
    requires forall change <- changes :: FitsWord(max, change)
    requires sh.transferRole == After(max, changes)
    ensures HasTransferRoleAddress(sh, snd, dst, t) <==> snd in Holders(max, changes, t) || dst in Holders(max, changes, t)
  {
    ListsAreSets(max, changes, t);
  }

  /** An accepted list is within the maximum exactly when its length needs no more than 32 bits. */
  lemma AcceptedIsWithinMaximum(max: uint32, lists: Lists, t: Bytes, addresses: seq<Address>)
    requires NoDuplicates(ListOf(lists, t)) && Apply(max, lists, Add(t, addresses)).Ok?
    ensures |ListOf(Apply(max, lists, Add(t, addresses)).value, t)| <= max
            <==> |Elements(ListOf(lists, t)) + Elements(addresses)| < TWO32
  {
    AddIsUnion(ListOf(lists, t), addresses);
    FitsExactly(|AddNew(ListOf(lists, t), addresses)|);
  }

  /** Without that bound the maximum can be passed: 2^32 addresses count as none. */
  lemma TooManyAddressesAreAccepted(max: uint32, lists: Lists, t: Bytes, addresses: seq<Address>)
    requires t !in lists && NoDuplicates(addresses) && |addresses| == TWO32
    ensures Apply(max, lists, Add(t, addresses)).Ok?
    ensures |ListOf(Apply(max, lists, Add(t, addresses)).value, t)| > max
  {
    AddIsUnion([], addresses);
    LengthOfList(addresses);
    assert Elements([]) + Elements(addresses) == Elements(addresses);
  }
}
