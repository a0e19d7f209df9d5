/**
 * The nonces of one token when several accounts create it: each multi-shard creator counts in a range of its own,
 * given by the last byte of its address, and a hand-over moves the range to another account.
 */
module Nonces {
  import opened Bytes
  import opened CreatorAccounts

  /** `Mint` is one successful create call. */
  datatype Event = Grant(a: Address) | Mint(a: Address) | HandOver(from: Address, to: Address)

  type Counters = map<Address, uint64>

  function LatestOf(counters: Counters, a: Address): uint64 {
    if a in counters then counters[a] else 0
  }

  /** The counters after a run; every counter is a 64-bit word. */
  function CountersAfter(events: seq<Event>): Counters {
    if events == [] then map[]
    else
      var before := CountersAfter(events[..|events| - 1]);
      match events[|events| - 1]
      case Grant(a) => before[a := if a == [] then 0 else StartNonce(a)]
      case Mint(a) => before[a := Wrap64(LatestOf(before, a) + 1)]
      case HandOver(from, to) => before[from := 0][to := LatestOf(before, from)]
  }

  /** The nonces given out, in order. */
  function Allocated(events: seq<Event>): seq<uint64> {
    if events == [] then []
    else
      var last := |events| - 1;
      var before := Allocated(events[..last]);
      if events[last].Mint? then before + [Wrap64(LatestOf(CountersAfter(events[..last]), events[last].a) + 1)] else before
  }

  /** Which range every present creator counts in. */
  function Ranges(events: seq<Event>): map<Address, byte> {
    if events == [] then map[]
    else
      var before := Ranges(events[..|events| - 1]);
      match events[|events| - 1]
      case Grant(a) => if a == [] then before else before[a := a[|a| - 1]]
      case Mint(a) => before
      case HandOver(from, to) => if from in before then (before - {from})[to := before[from]] else before
  }

  /** The ranges that were ever granted. */
  function Granted(events: seq<Event>): set<byte> {
    if events == [] then {}
    else
      var last := events[|events| - 1];
      Granted(events[..|events| - 1]) + if last.Grant? && last.a != [] then {last.a[|last.a| - 1]} else {}
  }

  /** How many nonces of a range were given out. */
  function Used(events: seq<Event>, range: byte): nat {
    if events == [] then 0
    else
      var init, last := events[..|events| - 1], events[|events| - 1];
      var one := if last.Mint? && last.a in Ranges(init) && Ranges(init)[last.a] == range then 1 else 0;
      Used(init, range) + one
  }

  /**
   * What the system contract sees to: a creator is granted the role once, no two grants go to addresses with the same
   * last byte, only creators create, and a hand-over goes from a creator to an account that is none.
   */
  predicate Orderly(events: seq<Event>) {
    events == [] ||
    (var init, last := events[..|events| - 1], events[|events| - 1];
     && Orderly(init)
     && match last
        case Grant(a) => a != [] && a !in Ranges(init) && a[|a| - 1] !in Granted(init)
        case Mint(a) => a in Ranges(init)
        case HandOver(from, to) => from in Ranges(init) && to !in Ranges(init))
  }

  function RangeStart(range: byte): nat {
    PER_RANGE * range
  }

  /** The nonces that a range has given out lie right above its start. */
  predicate InUse(events: seq<Event>, range: byte, nonce: nat) {
    RangeStart(range) < nonce <= RangeStart(range) + Used(events, range)
  }

  predicate WithinRanges(events: seq<Event>) {
    forall range: byte :: Used(events, range) <= PER_RANGE
  }

  ghost predicate CountersFollow(events: seq<Event>) {
    forall a :: a in Ranges(events) ==>
      LatestOf(CountersAfter(events), a) == RangeStart(Ranges(events)[a]) + Used(events, Ranges(events)[a])
  }

  ghost predicate RangesAreOwned(events: seq<Event>) {
    && (forall a :: a in Ranges(events) ==> Ranges(events)[a] in Granted(events))
    && (forall a, b :: a in Ranges(events) && b in Ranges(events) && a != b ==> Ranges(events)[a] != Ranges(events)[b])
    && (forall range: byte :: range !in Granted(events) ==> Used(events, range) == 0)
  }

  ghost predicate CountersAgree(events: seq<Event>) {
    CountersFollow(events) && RangesAreOwned(events)
  }

  lemma WithinRangesBefore(events: seq<Event>)
    requires events != [] && WithinRanges(events)
    ensures WithinRanges(events[..|events| - 1])
  {
    var init := events[..|events| - 1];
    forall range: byte ensures Used(init, range) <= PER_RANGE {
      assert Used(events, range) <= PER_RANGE;
    }
  }

  lemma NoWrapInRange(range: byte, used: nat)
    requires used < PER_RANGE
    ensures Wrap64(RangeStart(range) + used + 1) == RangeStart(range) + used + 1
  {
  }

  lemma MintStep(events: seq<Event>, a: Address)
    requires events != [] && Orderly(events) && events[|events| - 1] == Mint(a)
    ensures var init := events[..|events| - 1];
            && Ranges(events) == Ranges(init) && Granted(events) == Granted(init) && a in Ranges(init)
            && Used(events, Ranges(init)[a]) == Used(init, Ranges(init)[a]) + 1
            && (forall other: byte :: other != Ranges(init)[a] ==> Used(events, other) == Used(init, other))
            && CountersAfter(events) == CountersAfter(init)[a := Wrap64(LatestOf(CountersAfter(init), a) + 1)]
  {
  }

  lemma MintKeepsAgreement(events: seq<Event>, a: Address)
    requires events != [] && Orderly(events) && WithinRanges(events) && events[|events| - 1] == Mint(a)
    requires CountersAgree(events[..|events| - 1])
    ensures CountersAgree(events)
  {
    MintStep(events, a);
    hide Ranges, Granted, Used, CountersAfter, Orderly, Wrap64, RangeStart;
    var init := events[..|events| - 1];
    var range := Ranges(init)[a];
    assert Used(events, range) <= PER_RANGE;
    NoWrapInRange(range, Used(init, range));
    assert range in Granted(init);
    forall b | b in Ranges(events)
      ensures LatestOf(CountersAfter(events), b) == RangeStart(Ranges(events)[b]) + Used(events, Ranges(events)[b])
    {
      assert b != a ==> Ranges(events)[b] != range;
    }
  }

  lemma GrantKeepsAgreement(events: seq<Event>, a: Address)
    requires events != [] && Orderly(events) && events[|events| - 1] == Grant(a)
    requires CountersAgree(events[..|events| - 1])
    ensures CountersAgree(events)
  {
    var init := events[..|events| - 1];
    assert forall range: byte :: Used(events, range) == Used(init, range);
    assert Used(init, a[|a| - 1]) == 0;
  }

  lemma HandOverKeepsAgreement(events: seq<Event>, from: Address, to: Address)
    requires events != [] && Orderly(events) && events[|events| - 1] == HandOver(from, to)
    requires CountersAgree(events[..|events| - 1])
    ensures CountersAgree(events)
  {
    hide RangeStart;
    var init := events[..|events| - 1];
    assert forall range: byte :: Used(events, range) == Used(init, range);
  }

  /** Every creator's counter is the start of its range plus what the range has given out; none ever wraps. */
  lemma {:induction false} CountersStayInRange(events: seq<Event>)
    requires Orderly(events) && WithinRanges(events)
    ensures CountersAgree(events)
  {
    if events != [] {
      var init := events[..|events| - 1];
      WithinRangesBefore(events);
      hide CountersAgree, Used;
      CountersStayInRange(init);
      match events[|events| - 1]
      case Grant(a) => GrantKeepsAgreement(events, a);
      case Mint(a) => MintKeepsAgreement(events, a);
      case HandOver(from, to) => HandOverKeepsAgreement(events, from, to);
    }
  }

  predicate InSomeRange(events: seq<Event>, nonce: nat) {
    exists range: byte :: InUse(events, range, nonce)
  }

  lemma {:induction false} AllocatedInUse(events: seq<Event>)
    requires Orderly(events) && WithinRanges(events)
    ensures forall i :: 0 <= i < |Allocated(events)| ==> InSomeRange(events, Allocated(events)[i])
  {
    if events != [] {
      var init, last := events[..|events| - 1], events[|events| - 1];
      WithinRangesBefore(events);
      AllocatedInUse(init);
      forall i | 0 <= i < |Allocated(init)| ensures InSomeRange(events, Allocated(init)[i]) {
        assert InSomeRange(init, Allocated(init)[i]);
        var range: byte :| InUse(init, range, Allocated(init)[i]);
        assert InUse(events, range, Allocated(init)[i]);
      }
      if last.Mint? {
        NewNonce(events);
        assert InUse(events, Ranges(init)[last.a], Allocated(events)[|Allocated(init)|]);
      }
    }
  }

  /** A create call gives out the next nonce of the creator's range. */
  lemma NewNonce(events: seq<Event>)
    requires events != [] && events[|events| - 1].Mint? && Orderly(events) && WithinRanges(events)
    ensures var init, a := events[..|events| - 1], events[|events| - 1].a;
            a in Ranges(init) && |Allocated(events)| == |Allocated(init)| + 1
            && Allocated(events)[|Allocated(init)|] == RangeStart(Ranges(init)[a]) + Used(init, Ranges(init)[a]) + 1
            && Used(events, Ranges(init)[a]) == Used(init, Ranges(init)[a]) + 1
            && Used(init, Ranges(init)[a]) < PER_RANGE
  {
    var init, last := events[..|events| - 1], events[|events| - 1];
    var range := Ranges(init)[last.a];
    WithinRangesBefore(events);
    CountersStayInRange(init);
    assert Used(events, range) == Used(init, range) + 1 <= PER_RANGE;
    NoWrapInRange(range, Used(init, range));
  }

  lemma RangesAreDisjoint(range: byte, used: nat, other: byte, usedThere: nat)
    requires used < PER_RANGE && usedThere <= PER_RANGE
    requires other == range ==> usedThere == used
    ensures !(RangeStart(other) < RangeStart(range) + used + 1 <= RangeStart(other) + usedThere)
  {
    if other < range {
      assert RangeStart(other) + PER_RANGE <= RangeStart(range);
    } else if range < other {
      assert RangeStart(range) + PER_RANGE <= RangeStart(other);
    }
  }

  lemma NewNonceIsNew(events: seq<Event>, range: byte, nonce: nat)
    requires WithinRanges(events) && Used(events, range) < PER_RANGE && nonce == RangeStart(range) + Used(events, range) + 1
    ensures !InSomeRange(events, nonce)
  {
    forall other: byte ensures !InUse(events, other, nonce) {
      assert Used(events, other) <= PER_RANGE;
      RangesAreDisjoint(range, Used(events, range), other, Used(events, other));
    }
  }

  /** No nonce of the token is ever given out twice, across all creators, shards and hand-overs. */
  lemma {:induction false} NoncesAreUnique(events: seq<Event>, i: nat, j: nat)
    requires Orderly(events) && WithinRanges(events) && i < j < |Allocated(events)|
    ensures Allocated(events)[i] != Allocated(events)[j]
  {
    hide InSomeRange, WithinRanges;
    var init, last := events[..|events| - 1], events[|events| - 1];
    WithinRangesBefore(events);
    if j < |Allocated(init)| {
      NoncesAreUnique(init, i, j);
    } else {
      NewNonce(events);
      AllocatedInUse(init);
      NewNonceIsNew(init, Ranges(init)[last.a], Allocated(events)[j]);
    }
  }

  /** And none is zero, which stands for a fungible token. */
  lemma NoncesAreNotZero(events: seq<Event>, i: nat)
    requires Orderly(events) && WithinRanges(events) && i < |Allocated(events)|
    ensures Allocated(events)[i] > 0
  {
    AllocatedInUse(events);
    assert InSomeRange(events, Allocated(events)[i]);
    var range: byte :| InUse(events, range, Allocated(events)[i]);
  }

  /** If a hand-over's message is applied again after a token was created, the next nonce repeats that token's. */
  lemma LateMessageRepeatsANonce(names: Names, t: Bytes, h: Holding, nonce: uint64)
    requires names.Usable() && nonce < MAX_UINT64
    ensures var created := h.(counter := FromNat(nonce + 1));
            var after := AppointedByText(names, HandOverText(names, t, nonce), created);
            after.Ok? && Wrap64(after.value.Latest() + 1) == created.Latest()
  {
    hide AppointedByText, HandOverText, FromNat, ToUint64;
    var created := h.(counter := FromNat(nonce + 1));
    Uint64RoundTrip(nonce);
    NoWrap(nonce + 1);
    Uint64RoundTrip(nonce + 1);
    MessageEqualsDirectPath(names, t, Appointed(names, h, nonce), created);
  }
}
