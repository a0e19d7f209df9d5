/** Deleting metadata of token intervals from the system account: `token, count, (start, end)*` over and over. */
module DeleteMetadata {
  import opened Bytes
  import opened Keys
  import opened Wrappers
  import opened Ledger

  datatype Interval = Interval(start: uint64, end: uint64)

  datatype Group = Group(token: Bytes, intervals: seq<Interval>)

  /** How a call ends, or that it never does. */
  datatype Reading<+T> = Read(value: T) | Bad(error: Error) | Endless

  const MAX_ARGS: nat := 0x8000_0000_0000_0000  // no slice is longer

  // ---- the counter of the innermost loop ----

  /** The 64-bit counter after a number of rounds. */
  function CounterAfter(start: uint64, rounds: nat): uint64 {
    if rounds == 0 then start else Wrap64(CounterAfter(start, rounds - 1) + 1)
  }

  /** The loop condition holds again after every number of rounds. */
  ghost predicate CountsForever(interval: Interval) {
    forall rounds: nat :: CounterAfter(interval.start, rounds) <= interval.end
  }

  lemma {:induction false} CounterWithoutWrap(start: uint64, rounds: nat)
    requires start + rounds < TWO64
    ensures CounterAfter(start, rounds) == start + rounds
  {
    if rounds > 0 {
      CounterWithoutWrap(start, rounds - 1);
    }
  }

  /** The loop over an interval never ends exactly for intervals that reach the last nonce. */
  lemma CountsForeverExactly(interval: Interval)
    requires interval.start <= interval.end
    ensures CountsForever(interval) <==> interval.end == MAX_UINT64
  {
    if interval.end < MAX_UINT64 {
      CounterWithoutWrap(interval.start, interval.end - interval.start + 1);
    }
  }

  /** Every other loop makes one round for each nonce of its interval and then stops. */
  lemma {:induction false} StopsAfterItsNonces(interval: Interval, rounds: nat)
    requires interval.start <= interval.end < MAX_UINT64 && rounds <= interval.end - interval.start + 1
    ensures CounterAfter(interval.start, rounds) == interval.start + rounds
    ensures CounterAfter(interval.start, rounds) <= interval.end <==> rounds < interval.end - interval.start + 1
  {
    CounterWithoutWrap(interval.start, rounds);
  }

  // ---- what an argument list means ----

  function Prepend<T>(done: seq<T>, rest: Reading<seq<T>>): Reading<seq<T>> {
    if rest.Read? then Read(done + rest.value) else rest
  }

  function ReadIntervals(args: seq<Bytes>, at: nat, count: nat): Reading<seq<Interval>>
    decreases count
  {
    if count == 0 then Read([])
    else if at + 2 > |args| then Bad(ErrInvalidNumOfArgs)
    else
      var interval := Interval(ToUint64(args[at]), ToUint64(args[at + 1]));
      if interval.end < interval.start then Bad(ErrInvalidArguments)
      else if interval.start == 0 then Bad(ErrInvalidNonce)
      else if interval.end == MAX_UINT64 then Endless
      else Prepend([interval], ReadIntervals(args, at + 2, count - 1))
  }

  /** The position behind a group, cut to a word like the product in it. */
  function Behind(at: nat, count: uint64): uint64 {
    Wrap64(at + 2 + Wrap64(count * 2))
  }

  /** The rounds of the middle loop: none if the position behind the group has wrapped to one before its intervals. */
  function Rounds(at: nat, behind: nat): nat {
    if behind <= at + 2 then 0 else (behind - (at + 2)) / 2
  }

  /** One round of the outer loop, at a position where it has a group to read. */
  function ReadGroup(args: seq<Bytes>, at: nat): Reading<Group>
    requires at + 1 < |args|
  {
    if !ValidToken(args[at]) then Bad(ErrInvalidTokenID)
    else if at + 2 >= |args| then Bad(ErrInvalidNumOfArgs)
    else
      match ReadIntervals(args, at + 2, Rounds(at, Behind(at, ToUint64(args[at + 1]))))
      case Read(intervals) => Read(Group(args[at], intervals))
      case Bad(error) => Bad(error)
      case Endless => Endless
  }

  /** Where the outer loop is: at a position, stopped by an error, or inside a loop that never ends. */
  datatype Place = At(pos: nat) | Rejected(error: Error) | Hanging

  predicate GoesOn(args: seq<Bytes>, place: Place) {
    place.At? && place.pos + 1 < |args|
  }

  function MoveOn(args: seq<Bytes>, place: Place): Place {
    if !GoesOn(args, place) then place
    else
      match ReadGroup(args, place.pos)
      case Read(_) => At(Behind(place.pos, ToUint64(args[place.pos + 1])))
      case Bad(error) => Rejected(error)
      case Endless => Hanging
  }

  /** Where the outer loop is after a number of rounds. */
  function PlaceAfter(args: seq<Bytes>, rounds: nat): Place {
    if rounds == 0 then At(0) else MoveOn(args, PlaceAfter(args, rounds - 1))
  }

  /** The groups that it has worked off until then. */
  function GroupsAfter(args: seq<Bytes>, rounds: nat): seq<Group> {
    if rounds == 0 then []
    else
      var before, place := GroupsAfter(args, rounds - 1), PlaceAfter(args, rounds - 1);
      if GoesOn(args, place) && ReadGroup(args, place.pos).Read? then before + [ReadGroup(args, place.pos).value] else before
  }

  /** A call ends if after some number of rounds it has stopped, with an error or behind its last argument. */
  ghost predicate CallEnds(args: seq<Bytes>) {
    |args| < 4 || exists rounds :: Stopped(args, rounds)
  }

  predicate Stopped(args: seq<Bytes>, rounds: nat) {
    !PlaceAfter(args, rounds).Hanging? && !GoesOn(args, PlaceAfter(args, rounds))
  }

  /** A call that has not stopped after as many rounds as it has arguments never will. */
  function ReadCall(args: seq<Bytes>): Reading<seq<Group>> {
    if |args| < 4 then Bad(ErrInvalidNumOfArgs)
    else
      match PlaceAfter(args, |args|)
      case At(pos) => if pos + 1 < |args| then Endless else Read(GroupsAfter(args, |args|))
      case Rejected(error) => Bad(error)
      case Hanging => Endless
  }

  // ---- when a call ends ----

  lemma {:induction false} StoppedStays(args: seq<Bytes>, rounds: nat, later: nat)
    requires rounds <= later && !GoesOn(args, PlaceAfter(args, rounds))
    ensures PlaceAfter(args, later) == PlaceAfter(args, rounds) && GroupsAfter(args, later) == GroupsAfter(args, rounds)
  {
    hide ReadGroup;
    if rounds < later {
      StoppedStays(args, rounds, later - 1);
    }
  }

  /** The walk is determined by where it is. */
  lemma {:induction false} SameWalk(args: seq<Bytes>, i: nat, j: nat, more: nat)
    requires PlaceAfter(args, i) == PlaceAfter(args, j)
    ensures PlaceAfter(args, i + more) == PlaceAfter(args, j + more)
  {
    hide MoveOn;
    if more > 0 {
      SameWalk(args, i, j, more - 1);
    }
  }

  lemma {:induction false} RoundAndRound(args: seq<Bytes>, i: nat, j: nat, times: nat)
    requires i <= j && PlaceAfter(args, i) == PlaceAfter(args, j)
    ensures PlaceAfter(args, i + (j - i) * times) == PlaceAfter(args, i)
  {
    hide PlaceAfter;
    if times > 0 {
      RoundAndRound(args, i, j, times - 1);
      var before := (j - i) * (times - 1);
      SameWalk(args, i, j, before);
      assert j + before == i + (j - i) * times;
    }
  }

  /** A walk that comes back to a place where it goes on never stops. */
  lemma RepeatNeverStops(args: seq<Bytes>, i: nat, j: nat, rounds: nat)
    requires i < j && PlaceAfter(args, i) == PlaceAfter(args, j) && GoesOn(args, PlaceAfter(args, i))
    ensures GoesOn(args, PlaceAfter(args, rounds))
  {
    hide PlaceAfter;
    RoundAndRound(args, i, j, rounds);
    var later := i + (j - i) * rounds;
    Grows(j - i, rounds);
    if !GoesOn(args, PlaceAfter(args, rounds)) {
      StoppedStays(args, rounds, later);
    }
  }

  lemma Grows(step: nat, times: nat)
    requires step > 0
    ensures step * times >= times
  {
  }

  function Elements(s: seq<nat>): set<nat> {
    set x | x in s
  }

  /** Among more numbers than there are values, two are equal. */
  lemma Pigeonhole(s: seq<nat>, bound: nat)
    requires |s| > bound && forall i :: 0 <= i < |s| ==> s[i] < bound
    ensures exists i, j :: 0 <= i < j < |s| && s[i] == s[j]
  {
    SetOfNumbers(Elements(s), bound);
    if forall i, j :: 0 <= i < j < |s| ==> s[i] != s[j] {
      DistinctElements(s);
    }
  }

  lemma {:induction false} SetOfNumbers(numbers: set<nat>, bound: nat)
    requires forall x <- numbers :: x < bound
    ensures |numbers| <= bound
  {
    if bound > 0 {
      var fewer := numbers - {bound - 1};
      SetOfNumbers(fewer, bound - 1);
      assert numbers <= fewer + {bound - 1};
      assert |numbers| <= |fewer| + 1;
    } else {
      assert numbers == {};
    }
  }

  lemma {:induction false} DistinctElements(s: seq<nat>)
    requires forall i, j :: 0 <= i < j < |s| ==> s[i] != s[j]
    ensures |Elements(s)| == |s|
  {
    if s != [] {
      var init, last := s[..|s| - 1], s[|s| - 1];
      DistinctElements(init);
      assert s == init + [last] && last !in init;
      assert Elements(s) == Elements(init) + {last};
    }
  }

  /** After as many rounds as there are arguments, some position has been visited twice. */
  lemma PositionRepeats(args: seq<Bytes>)
    requires GoesOn(args, PlaceAfter(args, |args|))
    ensures exists i, j :: 0 <= i < j <= |args| && PlaceAfter(args, i) == PlaceAfter(args, j) && GoesOn(args, PlaceAfter(args, i))
  {
    hide PlaceAfter;
    forall i | 0 <= i <= |args| ensures GoesOn(args, PlaceAfter(args, i)) {
      if !GoesOn(args, PlaceAfter(args, i)) {
        StoppedStays(args, i, |args|);
      }
    }
    var positions := seq(|args| + 1, i requires 0 <= i < |args| + 1 => PlaceAfter(args, i).pos);
    assert forall i :: 0 <= i < |positions| ==> positions[i] < |args|;
    Pigeonhole(positions, |args|);
    var i, j :| 0 <= i < j < |positions| && positions[i] == positions[j];
    assert PlaceAfter(args, i) == PlaceAfter(args, j);
  }

  /** A call never ends exactly when it meets an endless interval or comes back to a position where it goes on. */
  lemma NeverEndsExactly(args: seq<Bytes>)
    requires |args| >= 4
    ensures !CallEnds(args) <==>
              || (exists rounds :: PlaceAfter(args, rounds).Hanging?)
              || (exists i, j :: 0 <= i < j && PlaceAfter(args, i) == PlaceAfter(args, j) && GoesOn(args, PlaceAfter(args, i)))
    ensures ReadCall(args).Endless? <==> !CallEnds(args)
  {
    hide PlaceAfter, GoesOn;
    if GoesOn(args, PlaceAfter(args, |args|)) {
      PositionRepeats(args);
    } else if !PlaceAfter(args, |args|).Hanging? {
      assert Stopped(args, |args|);
    }
    forall rounds, more | PlaceAfter(args, rounds).Hanging? && Stopped(args, more) ensures false {
      HangingOrStopped(args, rounds, more);
    }
    forall i, j, rounds | 0 <= i < j && PlaceAfter(args, i) == PlaceAfter(args, j) && GoesOn(args, PlaceAfter(args, i)) && Stopped(args, rounds)
      ensures false
    {
      RepeatNeverStops(args, i, j, rounds);
    }
    EndlessAsRead(args);
  }

  lemma EndlessAsRead(args: seq<Bytes>)
    requires |args| >= 4
    ensures ReadCall(args).Endless? <==> PlaceAfter(args, |args|).Hanging? || GoesOn(args, PlaceAfter(args, |args|))
  {
    hide PlaceAfter, GroupsAfter;
  }

  lemma HangingOrStopped(args: seq<Bytes>, rounds: nat, more: nat)
    requires PlaceAfter(args, rounds).Hanging?
    ensures !Stopped(args, more)
  {
    hide PlaceAfter;
    if rounds <= more {
      StoppedStays(args, rounds, more);
    } else if Stopped(args, more) {
      StoppedStays(args, more, rounds);
    }
  }

  // ---- the keys that it names ----

  ghost predicate InInterval(token: Bytes, interval: Interval, key: Bytes) {
    exists nonce: nat :: interval.start <= nonce <= interval.end && key == TokenKey(token, nonce)
  }

  ghost predicate InIntervals(token: Bytes, intervals: seq<Interval>, key: Bytes) {
    exists i :: 0 <= i < |intervals| && InInterval(token, intervals[i], key)
  }

  ghost predicate InGroups(groups: seq<Group>, key: Bytes) {
    exists i :: 0 <= i < |groups| && InIntervals(groups[i].token, groups[i].intervals, key)
  }

  /** A storage without some of its keys. */
  ghost function Minus(sys: Sys, gone: iset<Bytes>): Sys {
    map key | key in sys && key !in gone :: sys[key]
  }

  ghost function KeysOf(token: Bytes, intervals: seq<Interval>): iset<Bytes> {
    iset key | InIntervals(token, intervals, key)
  }

  ghost function AllKeys(groups: seq<Group>): iset<Bytes> {
    iset key | InGroups(groups, key)
  }

  lemma MinusTwice(sys: Sys, a: iset<Bytes>, b: iset<Bytes>)
    ensures Minus(Minus(sys, a), b) == Minus(sys, a + b)
  {
  }

  lemma MinusNothing(sys: Sys, gone: iset<Bytes>)
    requires forall key :: key !in gone
    ensures Minus(sys, gone) == sys
  {
  }

  lemma OneIntervalMore(token: Bytes, intervals: seq<Interval>, interval: Interval)
    ensures KeysOf(token, intervals + [interval]) == KeysOf(token, intervals) + KeysOf(token, [interval])
  {
    var more := intervals + [interval];
    forall key ensures InIntervals(token, more, key) <==> InIntervals(token, intervals, key) || InIntervals(token, [interval], key) {
      if InIntervals(token, intervals, key) {
        var i :| 0 <= i < |intervals| && InInterval(token, intervals[i], key);
        assert more[i] == intervals[i];
      }
      if InIntervals(token, [interval], key) {
        assert InInterval(token, more[|intervals|], key);
      }
      if InIntervals(token, more, key) {
        var i :| 0 <= i < |more| && InInterval(token, more[i], key);
        if i == |intervals| {
          assert InInterval(token, [interval][0], key);
        }
      }
    }
  }

  lemma OneGroupMore(groups: seq<Group>, group: Group)
    ensures AllKeys(groups + [group]) == AllKeys(groups) + KeysOf(group.token, group.intervals)
  {
    hide InIntervals;
    var more := groups + [group];
    forall key ensures InGroups(more, key) <==> InGroups(groups, key) || InIntervals(group.token, group.intervals, key) {
      if InGroups(groups, key) {
        var i :| 0 <= i < |groups| && InIntervals(groups[i].token, groups[i].intervals, key);
        assert more[i] == groups[i];
      }
      if InIntervals(group.token, group.intervals, key) {
        assert more[|groups|] == group;
      }
    }
  }

  lemma PrependTwice<T>(done: seq<T>, x: T, rest: Reading<seq<T>>)
    ensures Prepend(done, Prepend([x], rest)) == Prepend(done + [x], rest)
  {
    if rest.Read? {
      assert done + ([x] + rest.value) == done + [x] + rest.value;
    }
  }

  lemma PrependNothing<T>(done: seq<T>, rest: Reading<seq<T>>)
    ensures Prepend([], rest) == rest && Prepend(done, Read([])) == Read(done)
  {
    if rest.Read? {
      assert [] + rest.value == rest.value;
    }
    assert done + [] == done;
  }

  // ---- the loops over the storage ----

  class SystemStorage {
    var sys: Sys

    constructor (sys: Sys)
      ensures this.sys == sys
    {
      this.sys := sys;
    }

    /** The innermost loop counts through the nonces of one interval in 64 bits. */
    method DeleteInterval(token: Bytes, interval: Interval) returns (r: Reading<()>)
      modifies this
      ensures r == if interval.end < interval.start then Bad(ErrInvalidArguments)
                   else if interval.start == 0 then Bad(ErrInvalidNonce)
                   else if interval.end == MAX_UINT64 then Endless else Read(())
      ensures r.Endless? <==> 1 <= interval.start <= interval.end && CountsForever(interval)
      ensures r.Read? ==> sys == Minus(old(sys), KeysOf(token, [interval]))
      ensures r.Bad? ==> sys == old(sys)
    {
      hide TokenKey, CountsForever, InIntervals;
      if interval.end < interval.start {
        return Bad(ErrInvalidArguments);
      }
      CountsForeverExactly(interval);
      if interval.start == 0 {
        return Bad(ErrInvalidNonce);
      }
      if interval.end == MAX_UINT64 {
        // the program goes into its loop here: by CountsForeverExactly it stays there
        return Endless;
      }
      var nonce := interval.start;
      ghost var rounds := 0;
      MinusNothing(sys, KeysBefore(token, interval, nonce));
      while nonce <= interval.end
        invariant rounds <= interval.end - interval.start + 1
        invariant nonce == CounterAfter(interval.start, rounds) == interval.start + rounds
        invariant sys == Minus(old(sys), KeysBefore(token, interval, nonce))
        decreases interval.end - interval.start + 1 - rounds
      {
        OneNonceMore(token, interval, nonce);
        sys := sys - {TokenKey(token, nonce)};
        nonce := Wrap64(nonce + 1);
        rounds := rounds + 1;
        CounterWithoutWrap(interval.start, rounds);
      }
      WholeInterval(token, interval);
      return Read(());
    }

    /** The middle loop; `end` is the position behind the group, which may have wrapped to one before `index`. */
    method DeleteIntervals(token: Bytes, args: seq<Bytes>, index: nat, end: uint64) returns (r: Reading<seq<Interval>>)
      requires |args| >= 2 && index >= 2 && (end > index ==> (end - index) % 2 == 0)
      modifies this
      ensures r == ReadIntervals(args, index, Rounds(index - 2, end))
      ensures r.Read? ==> sys == Minus(old(sys), KeysOf(token, r.value))
    {
      hide TokenKey, InIntervals, Minus, ToUint64, Wrap64, InInterval;
      ghost var count := Rounds(index - 2, end);
      var done: seq<Interval> := [];
      NoIntervals(sys, token);
      PrependNothing(done, ReadIntervals(args, index, count));
      var j := index;
      while j < end
        invariant index <= j && j == index + 2 * |done| && |done| <= count
        invariant j < end ==> |done| < count
        invariant ReadIntervals(args, index, count) == Prepend(done, ReadIntervals(args, j, count - |done|))
        invariant sys == Minus(old(sys), KeysOf(token, done))
        decreases count - |done|
      {
        if j > |args| - 2 {
          return Bad(ErrInvalidNumOfArgs);
        }
        var interval := Interval(ToUint64(args[j]), ToUint64(args[j + 1]));
        var deleted := DeleteInterval(token, interval);
        match deleted {
          case Bad(error) => return Bad(error);
          case Endless => return Endless;
          case Read(_) =>
        }
        PrependTwice(done, interval, ReadIntervals(args, j + 2, count - |done| - 1));
        OneIntervalMore(token, done, interval);
        MinusTwice(old(sys), KeysOf(token, done), KeysOf(token, [interval]));
        done := done + [interval];
        j := j + 2;
      }
      PrependNothing(done, ReadIntervals(args, j, 0));
      return Read(done);
    }

    /**
     * The outer loop over the groups of a call. The count of rounds is not in the program: it only tells where the model
     * stops following a loop that never ends.
     */
    method Delete(args: seq<Bytes>) returns (r: Reading<seq<Group>>)
      requires |args| < MAX_ARGS
      modifies this
      ensures r == ReadCall(args)
      ensures r.Endless? <==> !CallEnds(args)
      ensures r.Read? ==> sys == Minus(old(sys), AllKeys(r.value))
    {
      hide InIntervals, InGroups, Minus, ToUint64, ValidToken, ReadIntervals, CallEnds, Wrap64, PlaceAfter, GroupsAfter;
      StartsAtTheFront(args);
      if |args| < 4 {
        ShortCallEnds(args);
        return Bad(ErrInvalidNumOfArgs);
      }
      NeverEndsExactly(args);
      var done: seq<Group> := [];
      NoGroups(sys);
      var i: nat := 0;
      var rounds: nat := 0;
      while i + 1 < |args|
        invariant rounds <= |args|
        invariant PlaceAfter(args, rounds) == At(i) && GroupsAfter(args, rounds) == done
        invariant sys == Minus(old(sys), AllKeys(done))
        decreases |args| - rounds
      {
        if rounds == |args| {
          return Endless;
        }
        OneMoreRound(args, rounds);
        var token, numIntervals := args[i], ToUint64(args[i + 1]);
        if !ValidToken(token) {
          EndsWith(args, rounds + 1);
          return Bad(ErrInvalidTokenID);
        }
        if i + 2 >= |args| {
          EndsWith(args, rounds + 1);
          return Bad(ErrInvalidNumOfArgs);
        }
        var end := Behind(i, numIntervals);
        BehindIsEven(i, numIntervals);
        var deleted := DeleteIntervals(token, args, i + 2, end);
        if deleted.Bad? {
          EndsWith(args, rounds + 1);
          return Bad(deleted.error);
        }
        if deleted.Endless? {
          EndsWith(args, rounds + 1);
          return Endless;
        }
        var group := Group(token, deleted.value);
        OneGroupMore(done, group);
        MinusTwice(old(sys), AllKeys(done), KeysOf(token, deleted.value));
        done := done + [group];
        i := end;
        rounds := rounds + 1;
      }
      EndsWith(args, rounds);
      return Read(done);
    }
  }

  lemma StartsAtTheFront(args: seq<Bytes>)
    ensures PlaceAfter(args, 0) == At(0) && GroupsAfter(args, 0) == []
  {
  }

  lemma OneMoreRound(args: seq<Bytes>, rounds: nat)
    ensures PlaceAfter(args, rounds + 1) == MoveOn(args, PlaceAfter(args, rounds))
    ensures var place := PlaceAfter(args, rounds);
            GoesOn(args, place) ==>
              GroupsAfter(args, rounds + 1) ==
                GroupsAfter(args, rounds) + if ReadGroup(args, place.pos).Read? then [ReadGroup(args, place.pos).value] else []
  {
    hide ReadGroup, MoveOn;
  }

  lemma ShortCallEnds(args: seq<Bytes>)
    requires |args| < 4
    ensures CallEnds(args)
  {
  }

  lemma EndsWith(args: seq<Bytes>, rounds: nat)
    requires rounds <= |args| && !GoesOn(args, PlaceAfter(args, rounds))
    ensures PlaceAfter(args, |args|) == PlaceAfter(args, rounds) && GroupsAfter(args, |args|) == GroupsAfter(args, rounds)
  {
    StoppedStays(args, rounds, |args|);
  }

  lemma BehindIsEven(at: nat, count: uint64)
    ensures Behind(at, count) > at + 2 ==> (Behind(at, count) - (at + 2)) % 2 == 0
  {
  }

  ghost predicate IsBefore(token: Bytes, interval: Interval, nonce: nat, key: Bytes) {
    exists n: nat :: interval.start <= n < nonce && key == TokenKey(token, n)
  }

  /** The keys that the innermost loop has deleted when its counter is at a nonce. */
  ghost function KeysBefore(token: Bytes, interval: Interval, nonce: nat): iset<Bytes> {
    iset key | IsBefore(token, interval, nonce, key)
  }

  lemma OneNonceMore(token: Bytes, interval: Interval, nonce: nat)
    requires interval.start <= nonce
    ensures KeysBefore(token, interval, nonce + 1) == KeysBefore(token, interval, nonce) + iset{TokenKey(token, nonce)}
  {
  }

  lemma WholeInterval(token: Bytes, interval: Interval)
    ensures KeysBefore(token, interval, interval.end + 1) == KeysOf(token, [interval])
  {
    forall key ensures InIntervals(token, [interval], key) <==> InInterval(token, interval, key) {
      if InInterval(token, interval, key) {
        assert [interval][0] == interval;
      }
    }
  }

  lemma NoIntervals(sys: Sys, token: Bytes)
    ensures Minus(sys, KeysOf(token, [])) == sys
  {
  }

  lemma NoGroups(sys: Sys)
    ensures Minus(sys, AllKeys([])) == sys
  {
  }

  // ---- encoded lists are read back ----

  function IntervalArgs(intervals: seq<Interval>): (args: seq<Bytes>)
    ensures |args| == 2 * |intervals|
  {
    if intervals == [] then []
    else [FromNat(intervals[0].start), FromNat(intervals[0].end)] + IntervalArgs(intervals[1..])
  }

  function CallArgs(groups: seq<Group>): seq<Bytes> {
    if groups == [] then []
    else [groups[0].token, FromNat(|groups[0].intervals|)] + IntervalArgs(groups[0].intervals) + CallArgs(groups[1..])
  }

  predicate WellFormed(interval: Interval) {
    1 <= interval.start <= interval.end < MAX_UINT64
  }

  predicate WellFormedGroup(group: Group) {
    ValidToken(group.token) && group.intervals != [] && forall interval <- group.intervals :: WellFormed(interval)
  }

  lemma ReadsInterval(args: seq<Bytes>, at: nat, count: nat, interval: Interval, rest: seq<Interval>)
    requires WellFormed(interval) && count > 0 && at + 2 <= |args|
    requires args[at] == FromNat(interval.start) && args[at + 1] == FromNat(interval.end)
    requires ReadIntervals(args, at + 2, count - 1) == Read(rest)
    ensures ReadIntervals(args, at, count) == Read([interval] + rest)
  {
    hide ToUint64, FromNat;
    Uint64RoundTrip(interval.start);
    Uint64RoundTrip(interval.end);
  }

  lemma {:induction false} ReadsIntervals(args: seq<Bytes>, at: nat, intervals: seq<Interval>)
    requires forall interval <- intervals :: WellFormed(interval)
    requires at + 2 * |intervals| <= |args| && args[at..at + 2 * |intervals|] == IntervalArgs(intervals)
    ensures ReadIntervals(args, at, |intervals|) == Read(intervals)
    decreases |intervals|
  {
    if intervals != [] {
      var head, rest := intervals[0], intervals[1..];
      var part := IntervalArgs(intervals);
      assert args[at] == part[0] && args[at + 1] == part[1];
      assert args[at + 2..at + 2 + 2 * |rest|] == part[2..] == IntervalArgs(rest);
      hide ReadIntervals, IntervalArgs, FromNat;
      ReadsIntervals(args, at + 2, rest);
      assert WellFormed(head) && intervals == [head] + rest;
      ReadsInterval(args, at, |intervals|, head, rest);
    }
  }

  lemma ReadsGroup(args: seq<Bytes>, at: nat, group: Group)
    requires WellFormedGroup(group) && |args| < MAX_ARGS && at + 2 + 2 * |group.intervals| <= |args|
    requires args[at] == group.token && args[at + 1] == FromNat(|group.intervals|)
    requires ReadIntervals(args, at + 2, |group.intervals|) == Read(group.intervals)
    ensures ReadGroup(args, at) == Read(group)
    ensures MoveOn(args, At(at)) == At(at + 2 + 2 * |group.intervals|)
  {
    hide ToUint64, FromNat, ValidToken, ReadIntervals, Wrap64, WellFormed;
    var n := |group.intervals|;
    Uint64RoundTrip(n);
    NoWrap(n * 2);
    NoWrap(at + 2 + n * 2);
    assert Rounds(at, at + 2 + n * 2) == n;
  }

  lemma FirstGroupArgs(groups: seq<Group>)
    requires groups != []
    ensures var part, n := CallArgs(groups), |groups[0].intervals|;
            && |part| >= 2 + 2 * n && part[0] == groups[0].token && part[1] == FromNat(n)
            && part[2..2 + 2 * n] == IntervalArgs(groups[0].intervals) && part[2 + 2 * n..] == CallArgs(groups[1..])
  {
    hide IntervalArgs, FromNat;
    var head, rest := groups[0], CallArgs(groups[1..]);
    var first, middle := [head.token, FromNat(|head.intervals|)], IntervalArgs(head.intervals);
    var part := CallArgs(groups);
    assert part == first + middle + rest;
    assert part[..2] == first;
    assert part[0] == first[0] && part[1] == first[1];
  }

  lemma FirstGroupAt(args: seq<Bytes>, at: nat, groups: seq<Group>)
    requires groups != [] && at <= |args| && args[at..] == CallArgs(groups)
    ensures var n := |groups[0].intervals|;
            && at + 2 + 2 * n <= |args| && args[at] == groups[0].token && args[at + 1] == FromNat(n)
            && args[at + 2..at + 2 + 2 * n] == IntervalArgs(groups[0].intervals)
            && args[at + 2 + 2 * n..] == CallArgs(groups[1..])
  {
    FirstGroupArgs(groups);
    hide CallArgs, IntervalArgs, FromNat;
    var part, n := args[at..], |groups[0].intervals|;
    assert args[at] == part[0] && args[at + 1] == part[1];
    assert args[at + 2..at + 2 + 2 * n] == part[2..2 + 2 * n];
    assert args[at + 2 + 2 * n..] == part[2 + 2 * n..];
  }

  lemma ReadsFirstGroup(args: seq<Bytes>, at: nat, groups: seq<Group>)
    requires groups != [] && WellFormedGroup(groups[0])
    requires |args| < MAX_ARGS && at <= |args| && args[at..] == CallArgs(groups)
    ensures at + 2 + 2 * |groups[0].intervals| <= |args| && ReadGroup(args, at) == Read(groups[0])
    ensures MoveOn(args, At(at)) == At(at + 2 + 2 * |groups[0].intervals|)
  {
    hide ReadGroup, MoveOn, ReadIntervals, CallArgs, IntervalArgs, FromNat, WellFormedGroup;
    FirstGroupAt(args, at, groups);
    ReadsIntervalsOf(args, at + 2, groups[0]);
    ReadsGroup(args, at, groups[0]);
  }

  /** From a position where a list of groups begins, the walk works off these groups and ends behind the last argument. */
  lemma {:induction false} WalksThrough(args: seq<Bytes>, at: nat, groups: seq<Group>, rounds: nat, done: seq<Group>)
    requires forall group <- groups :: WellFormedGroup(group)
    requires |args| < MAX_ARGS && at <= |args| && args[at..] == CallArgs(groups)
    requires PlaceAfter(args, rounds) == At(at) && GroupsAfter(args, rounds) == done
    ensures PlaceAfter(args, rounds + |groups|) == At(|args|) && GroupsAfter(args, rounds + |groups|) == done + groups
    decreases |groups|
  {
    hide ReadGroup, MoveOn, CallArgs, IntervalArgs, FromNat, WellFormedGroup;
    if groups == [] {
      NothingLeft(args, at);
      assert done + groups == done;
    } else {
      var head, rest := groups[0], groups[1..];
      FirstGroupAt(args, at, groups);
      ReadsFirstGroup(args, at, groups);
      var next := at + 2 + 2 * |head.intervals|;
      OneRound(args, at, rounds, head);
      WalksThrough(args, next, rest, rounds + 1, done + [head]);
      assert done + [head] + rest == done + groups;
    }
  }

  lemma OneRound(args: seq<Bytes>, at: nat, rounds: nat, group: Group)
    requires PlaceAfter(args, rounds) == At(at) && at + 1 < |args| && ReadGroup(args, at) == Read(group)
    ensures PlaceAfter(args, rounds + 1) == MoveOn(args, At(at))
    ensures GroupsAfter(args, rounds + 1) == GroupsAfter(args, rounds) + [group]
  {
    hide ReadGroup, MoveOn;
  }

  lemma NothingLeft(args: seq<Bytes>, at: nat)
    requires at <= |args| && args[at..] == CallArgs([])
    ensures at == |args|
  {
    assert |args[at..]| == |args| - at;
  }

  lemma ReadsIntervalsOf(args: seq<Bytes>, at: nat, group: Group)
    requires WellFormedGroup(group)
    requires at + 2 * |group.intervals| <= |args| && args[at..at + 2 * |group.intervals|] == IntervalArgs(group.intervals)
    ensures ReadIntervals(args, at, |group.intervals|) == Read(group.intervals)
  {
    hide ReadIntervals, IntervalArgs, ValidToken, WellFormed;
    ReadsIntervals(args, at, group.intervals);
  }

  lemma {:induction false} FewerGroupsThanArguments(groups: seq<Group>)
    ensures |groups| <= |CallArgs(groups)|
    ensures groups != [] && WellFormedGroup(groups[0]) ==> |CallArgs(groups)| >= 4
  {
    if groups != [] {
      FewerGroupsThanArguments(groups[1..]);
      FirstGroupArgs(groups);
    }
  }

  /** A call that encodes a list of valid tokens with proper intervals is read as that list, and it ends. */
  lemma CallRoundTrip(groups: seq<Group>)
    requires groups != [] && |CallArgs(groups)| < MAX_ARGS
    requires forall group <- groups :: WellFormedGroup(group)
    ensures ReadCall(CallArgs(groups)) == Read(groups) && CallEnds(CallArgs(groups))
  {
    hide PlaceAfter, GroupsAfter, ReadCall, CallEnds;
    var args := CallArgs(groups);
    assert WellFormedGroup(groups[0]);
    FewerGroupsThanArguments(groups);
    StartsAtTheFront(args);
    assert args[0..] == args && [] + groups == groups;
    hide CallArgs, WellFormedGroup;
    WalksThrough(args, 0, groups, 0, []);
    ReadsWhatItStopsWith(args, |groups|, groups);
  }

  lemma ReadsWhatItStopsWith(args: seq<Bytes>, rounds: nat, groups: seq<Group>)
    requires |args| >= 4 && rounds <= |args| && PlaceAfter(args, rounds) == At(|args|) && GroupsAfter(args, rounds) == groups
    ensures ReadCall(args) == Read(groups) && CallEnds(args)
  {
    hide PlaceAfter, GroupsAfter;
    StoppedStays(args, rounds, |args|);
    assert Stopped(args, rounds);
  }

  /** The metadata of a token is deleted exactly when one of the token's intervals holds its nonce, whatever other tokens the list names. */
  lemma DeletionIsExact(groups: seq<Group>, sys: Sys, token: Bytes, nonce: uint64)
    requires forall group <- groups :: ValidToken(group.token)
    requires ValidToken(token) && TokenKey(token, nonce) in sys
    ensures TokenKey(token, nonce) !in Minus(sys, AllKeys(groups))
            <==> exists group <- groups, interval <- group.intervals :: group.token == token && interval.start <= nonce <= interval.end
  {
    var key := TokenKey(token, nonce);
    if InGroups(groups, key) {
      var i :| 0 <= i < |groups| && InIntervals(groups[i].token, groups[i].intervals, key);
      var group := groups[i];
      var j :| 0 <= j < |group.intervals| && InInterval(group.token, group.intervals[j], key);
      var n: nat :| group.intervals[j].start <= n <= group.intervals[j].end && key == TokenKey(group.token, n);
      assert group in groups && group.intervals[j] in group.intervals;
      TokenKeyInjective(token, nonce, group.token, n);
    }
    forall group <- groups, interval <- group.intervals
      ensures group.token == token && interval.start <= nonce <= interval.end ==> InGroups(groups, key)
    {
      var i :| 0 <= i < |groups| && groups[i] == group;
      var j :| 0 <= j < |group.intervals| && group.intervals[j] == interval;
      if group.token == token && interval.start <= nonce <= interval.end {
        assert InInterval(group.token, group.intervals[j], key);
        assert InIntervals(groups[i].token, groups[i].intervals, key);
      }
    }
  }

  /** No other entry changes: what stays has its old value, and keys of fungible tokens always stay. */
  lemma DeletionSparesTheRest(groups: seq<Group>, sys: Sys, key: Bytes)
    requires forall group <- groups :: WellFormedGroup(group)
    ensures key in Minus(sys, AllKeys(groups)) ==> key in sys && Minus(sys, AllKeys(groups))[key] == sys[key]
    ensures key in sys && !IsNftKey(key) ==> key in Minus(sys, AllKeys(groups))
  {
    if InGroups(groups, key) {
      var i :| 0 <= i < |groups| && InIntervals(groups[i].token, groups[i].intervals, key);
      var group := groups[i];
      var j :| 0 <= j < |group.intervals| && InInterval(group.token, group.intervals[j], key);
      assert group in groups && group.intervals[j] in group.intervals;
      assert WellFormedGroup(group) && WellFormed(group.intervals[j]);
      var n: nat :| group.intervals[j].start <= n <= group.intervals[j].end && key == TokenKey(group.token, n);
      NftKeyIntro(group.token, n);
    }
  }

  /** This call is back at its first argument after every round, and so it never ends. */
  lemma BackToTheStart(token: Bytes, x: Bytes, y: Bytes, rounds: nat)
    requires ValidToken(token)
    ensures var args := [token, FromNat(0x7FFF_FFFF_FFFF_FFFF), x, y];
            PlaceAfter(args, rounds) == At(0) && ReadCall(args) == Endless && !CallEnds(args)
  {
    var args := [token, FromNat(0x7FFF_FFFF_FFFF_FFFF), x, y];
    hide FromNat, ToUint64, ValidToken, PlaceAfter, ReadCall, CallEnds;
    Uint64RoundTrip(0x7FFF_FFFF_FFFF_FFFF);
    assert args[0] == token && args[1] == FromNat(0x7FFF_FFFF_FFFF_FFFF);
    StaysAtTheStart(args, rounds);
    StaysAtTheStart(args, 4);
    EndlessAtTheStart(args);
  }

  lemma EndlessAtTheStart(args: seq<Bytes>)
    requires |args| == 4 && PlaceAfter(args, 4) == At(0)
    ensures ReadCall(args) == Endless && !CallEnds(args)
  {
    hide PlaceAfter, CallEnds;
    NeverEndsExactly(args);
    EndlessAsRead(args);
  }

  lemma MovesToTheStart(args: seq<Bytes>)
    requires |args| == 4 && ValidToken(args[0]) && ToUint64(args[1]) == 0x7FFF_FFFF_FFFF_FFFF
    ensures MoveOn(args, At(0)) == At(0)
  {
    hide ToUint64, ValidToken;
    assert Behind(0, 0x7FFF_FFFF_FFFF_FFFF) == 0;
    assert ReadIntervals(args, 2, 0) == Read([]);
  }

  lemma {:induction false} StaysAtTheStart(args: seq<Bytes>, rounds: nat)
    requires |args| == 4 && ValidToken(args[0]) && ToUint64(args[1]) == 0x7FFF_FFFF_FFFF_FFFF
    ensures PlaceAfter(args, rounds) == At(0)
  {
    hide MoveOn, ValidToken, ToUint64;
    if rounds > 0 {
      StaysAtTheStart(args, rounds - 1);
      MovesToTheStart(args);
    }
  }

  /** A jump back alone does not make a call endless: this one jumps back to its third argument and fails there. */
  lemma JumpThatEnds(t: Bytes, s: Bytes, e: Bytes, u: Bytes, x: Bytes)
    requires ValidToken(t) && ValidToken(s) && ValidToken(u)
    requires 1 <= ToUint64(s) <= ToUint64(e) && 2 <= ToUint64(e) < 0x7000_0000_0000_0000
    requires 1 <= ToUint64(u) <= 0x7FFF_FFFF_FFFF_FFFE
    ensures var args := [t, FromNat(1), s, e, u, FromNat(0x7FFF_FFFF_FFFF_FFFE), x];
            && PlaceAfter(args, 2) == At(2) && ReadCall(args) == Bad(ErrInvalidNumOfArgs) && CallEnds(args)
  {
    hide FromNat, ToNat, ToUint64, ValidToken, CallEnds;
    var args := [t, FromNat(1), s, e, u, FromNat(0x7FFF_FFFF_FFFF_FFFE), x];
    Uint64RoundTrip(1);
    Uint64RoundTrip(0x7FFF_FFFF_FFFF_FFFE);
    assert args[0] == t && args[1] == FromNat(1) && args[2] == s && args[3] == e && args[4] == u;
    assert args[5] == FromNat(0x7FFF_FFFF_FFFF_FFFE);
    assert Behind(0, 1) == 4 && Behind(4, 0x7FFF_FFFF_FFFF_FFFE) == 2;
    assert Rounds(0, 4) == 1 && Rounds(4, 2) == 0;
    assert ReadIntervals(args, 4, 0) == Read([]);
    PrependNothing([Interval(ToUint64(s), ToUint64(e))], ReadIntervals(args, 4, 0));
    assert ReadIntervals(args, 2, 1) == Read([Interval(ToUint64(s), ToUint64(e))]);
    assert MoveOn(args, At(0)) == At(4);
    assert ReadIntervals(args, 6, 0) == Read([]);
    assert MoveOn(args, At(4)) == At(2);
    FailsInTheMiddle(args);
    assert PlaceAfter(args, 1) == At(4);
    assert PlaceAfter(args, 2) == At(2);
    assert PlaceAfter(args, 3) == Rejected(ErrInvalidNumOfArgs);
    StoppedStays(args, 3, 7);
    NeverEndsExactly(args);
  }

  lemma FailsInTheMiddle(args: seq<Bytes>)
    requires |args| == 7 && ValidToken(args[2]) && 2 <= ToUint64(args[3]) < 0x7000_0000_0000_0000
    requires 1 <= ToUint64(args[4]) <= ToUint64(args[5]) < MAX_UINT64
    ensures MoveOn(args, At(2)) == Rejected(ErrInvalidNumOfArgs)
  {
    hide ToUint64, ValidToken;
    var count := ToUint64(args[3]);
    NoWrap(count * 2);
    NoWrap(4 + count * 2);
    assert Rounds(2, 4 + count * 2) == count;
    assert ReadIntervals(args, 6, count - 1) == Bad(ErrInvalidNumOfArgs);
  }
}
