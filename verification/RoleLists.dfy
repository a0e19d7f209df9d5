/** The role lists of an account, changed in place in a buffer that is longer than the list it holds. */
module RoleLists {
  import opened Bytes
  import opened Seqs

  // ---- lists as values ----

  function RemoveFirst<T(==)>(s: seq<T>, x: T): seq<T> {
    var i := FirstIndex(s, x);
    if i == |s| then s else s[..i] + s[i + 1..]
  }

  /** One removal after the other, in the order of the arguments. */
  function DeleteAll<T(==)>(s: seq<T>, gone: seq<T>): seq<T> {
    if gone == [] then s else RemoveFirst(DeleteAll(s, gone[..|gone| - 1]), gone[|gone| - 1])
  }

  lemma DeleteNone<T>(s: seq<T>)
    ensures DeleteAll(s, []) == s
  {
  }

  lemma DeleteOneMore<T>(s: seq<T>, gone: seq<T>, i: nat)
    requires i < |gone|
    ensures DeleteAll(s, gone[..i + 1]) == RemoveFirst(DeleteAll(s, gone[..i]), gone[i])
  {
    assert gone[..i + 1][..i] == gone[..i];
  }

  /** One pass that skips as many occurrences of each element, from the front, as the budget holds. */
  function Skip<T(==)>(s: seq<T>, budget: multiset<T>): seq<T> {
    if s == [] then []
    else if s[0] in budget then Skip(s[1..], budget - multiset{s[0]})
    else [s[0]] + Skip(s[1..], budget)
  }

  lemma RemoveFirstCons<T>(head: T, tail: seq<T>, x: T)
    ensures RemoveFirst([head] + tail, x) == if head == x then tail else [head] + RemoveFirst(tail, x)
  {
    hide FirstIndex;
    var s, i := [head] + tail, FirstIndex(tail, x);
    if head == x {
      FirstIndexIs(s, x, 0);
      assert s[..0] + s[1..] == tail;
    } else {
      assert s[..1 + i] == [head] + tail[..i];
      FirstIndexIs(s, x, 1 + i);
      if i < |tail| {
        assert s[i + 2..] == tail[i + 1..];
      }
    }
  }

  lemma {:induction false} SkipOneMore<T>(s: seq<T>, budget: multiset<T>, x: T)
    ensures Skip(s, budget + multiset{x}) == RemoveFirst(Skip(s, budget), x)
  {
    if s != [] {
      var y := s[0];
      if y in budget {
        SkipOneMore(s[1..], budget - multiset{y}, x);
        assert budget + multiset{x} - multiset{y} == budget - multiset{y} + multiset{x};
      } else {
        RemoveFirstCons(y, Skip(s[1..], budget), x);
        if y == x {
          assert budget + multiset{x} - multiset{y} == budget;
        } else {
          SkipOneMore(s[1..], budget, x);
        }
      }
    }
  }

  lemma {:induction false} SkipNothing<T>(s: seq<T>)
    ensures Skip(s, multiset{}) == s
  {
    if s != [] {
      SkipNothing(s[1..]);
      assert s == [s[0]] + s[1..];
    }
  }

  /** Removing the arguments one by one is one pass over the list, in which every argument cancels one occurrence. */
  lemma {:induction false} DeleteIsOnePass<T>(s: seq<T>, gone: seq<T>)
    ensures DeleteAll(s, gone) == Skip(s, multiset(gone))
  {
    if gone == [] {
      SkipNothing(s);
    } else {
      var init, last := gone[..|gone| - 1], gone[|gone| - 1];
      DeleteIsOnePass(s, init);
      assert gone == init + [last];
      assert multiset(gone) == multiset(init) + multiset{last};
      SkipOneMore(s, multiset(init), last);
    }
  }

  lemma {:induction false} SkipContents<T>(s: seq<T>, budget: multiset<T>)
    ensures multiset(Skip(s, budget)) == multiset(s) - budget
  {
    if s != [] {
      var y := s[0];
      assert s == [y] + s[1..];
      assert multiset(s) == multiset{y} + multiset(s[1..]);
      if y in budget {
        SkipContents(s[1..], budget - multiset{y});
        assert multiset(s[1..]) - (budget - multiset{y}) == multiset(s) - budget;
      } else {
        SkipContents(s[1..], budget);
        assert multiset{y} + (multiset(s[1..]) - budget) == multiset(s) - budget;
      }
    }
  }

  /** What is left is the difference that stops at zero. */
  lemma DeleteIsTruncatedDifference<T>(s: seq<T>, gone: seq<T>)
    ensures multiset(DeleteAll(s, gone)) == multiset(s) - multiset(gone)
  {
    DeleteIsOnePass(s, gone);
    SkipContents(s, multiset(gone));
  }

  predicate NoDuplicates<T(==)>(s: seq<T>) {
    forall i, j :: 0 <= i < j < |s| ==> s[i] != s[j]
  }

  lemma RemoveFirstOnce<T>(s: seq<T>, x: T)
    requires NoDuplicates(s)
    ensures NoDuplicates(RemoveFirst(s, x)) && |RemoveFirst(s, x)| <= |s|
    ensures forall y :: y in RemoveFirst(s, x) <==> y in s && y != x
  {
    var i := FirstIndex(s, x);
    if i < |s| {
      var r := RemoveFirst(s, x);
      assert forall k :: 0 <= k < |r| ==> r[k] == if k < i then s[k] else s[k + 1];
      assert forall y :: y in s && y != x ==> y in r by {
        forall y | y in s && y != x ensures y in r {
          var k :| 0 <= k < |s| && s[k] == y;
          assert r[if k < i then k else k - 1] == y;
        }
      }
    }
  }

  /** On a list without duplicates, deletion is the difference of sets. */
  lemma {:induction false} DeleteFromSet<T>(s: seq<T>, gone: seq<T>)
    requires NoDuplicates(s)
    ensures NoDuplicates(DeleteAll(s, gone)) && |DeleteAll(s, gone)| <= |s|
    ensures forall y :: y in DeleteAll(s, gone) <==> y in s && y !in gone
  {
    hide RemoveFirst, NoDuplicates;
    if gone != [] {
      var init, last := gone[..|gone| - 1], gone[|gone| - 1];
      DeleteFromSet(s, init);
      RemoveFirstOnce(DeleteAll(s, init), last);
      assert gone == init + [last];
    }
  }

  /** Appends the elements that are not in the list yet. */
  function AddNew<T(==)>(s: seq<T>, more: seq<T>): seq<T> {
    if more == [] then s
    else
      var before := AddNew(s, more[..|more| - 1]);
      var x := more[|more| - 1];
      if x in before then before else before + [x]
  }

  /** The old list stays in front, and no duplicate is added. */
  lemma {:induction false} AddNewIsUnion<T>(s: seq<T>, more: seq<T>)
    ensures s <= AddNew(s, more) && |AddNew(s, more)| <= |s| + |more|
    ensures NoDuplicates(s) ==> NoDuplicates(AddNew(s, more))
    ensures forall y :: y in AddNew(s, more) <==> y in s || y in more
  {
    if more != [] {
      var init, last := more[..|more| - 1], more[|more| - 1];
      AddNewIsUnion(s, init);
      assert more == init + [last];
    }
  }

  // ---- the list in its buffer ----

  class RoleList {
    var data: array<Bytes>
    var len: nat

    ghost predicate Valid()
      reads this
    {
      len <= data.Length
    }

    ghost function Contents(): (s: seq<Bytes>)
      reads this, data
      requires Valid()
    {
      data[..len]
    }

    /** The list that the stored value holds. */
    constructor (roles: seq<Bytes>)
      ensures Valid() && fresh(data) && Contents() == roles
    {
      data := new Bytes[|roles|](i requires 0 <= i < |roles| => roles[i]);
      len := |roles|;
    }

    /** The place of a role (`doesRoleExist`). */
    method IndexOf(role: Bytes) returns (index: nat, found: bool)
      requires Valid()
      ensures found <==> role in Contents()
      ensures index == FirstIndex(Contents(), role)
    {
      index := 0;
      while index < len
        invariant index <= len
        invariant forall k :: 0 <= k < index ==> data[k] != role
      {
        if data[index] == role {
          FirstIndexIs(Contents(), role, index);
          assert Contents()[index] == role;
          return index, true;
        }
        index := index + 1;
      }
      FirstIndexIs(Contents(), role, len);
      return len, false;
    }

    /** Shifts the rest of the list over the element and drops the last place. */
    method RemoveAt(index: nat)
      requires Valid() && index < len
      modifies this`len, data
      ensures Valid() && data == old(data)
      ensures Contents() == old(Contents()[..index] + Contents()[index + 1..])
    {
      forall k | index <= k < len - 1 {
        data[k] := data[k + 1];
      }
      data[len - 1] := [];
      len := len - 1;
    }

    method DeleteRoles(gone: seq<Bytes>)
      requires Valid()
      modifies this`len, data
      ensures Valid() && data == old(data)
      ensures Contents() == DeleteAll(old(Contents()), gone)
    {
      hide DeleteAll, FirstIndex;
      DeleteNone(Contents());
      for i := 0 to |gone|
        invariant Valid() && data == old(data)
        invariant Contents() == DeleteAll(old(Contents()), gone[..i])
      {
        DeleteOneMore(old(Contents()), gone, i);
        var index, found := IndexOf(gone[i]);
        if found {
          RemoveAt(index);
        }
      }
      assert gone[..|gone|] == gone;
    }

    /** Appends a role, in a larger buffer if the present one is full. */
    method Append(role: Bytes)
      requires Valid()
      modifies this, data
      ensures Valid() && (data == old(data) || fresh(data))
      ensures Contents() == old(Contents()) + [role]
    {
      if len == data.Length {
        var larger := new Bytes[2 * len + 1](i requires 0 <= i < 2 * len + 1 reads this, data =>
          if i < len && i < data.Length then data[i] else []);
        data := larger;
      }
      data[len] := role;
      len := len + 1;
    }

    method AppendAll(more: seq<Bytes>)
      requires Valid()
      modifies this, data
      ensures Valid() && (data == old(data) || fresh(data))
      ensures Contents() == old(Contents()) + more
    {
      for i := 0 to |more|
        invariant Valid() && (data == old(data) || fresh(data))
        invariant Contents() == old(Contents()) + more[..i]
      {
        Append(more[i]);
      }
    }

    /** The nested loops over the new addresses and the present ones (`addNewAddresses`). */
    method AddNewAddresses(more: seq<Bytes>)
      requires Valid()
      modifies this, data
      ensures Valid() && (data == old(data) || fresh(data))
      ensures Contents() == AddNew(old(Contents()), more)
    {
      for i := 0 to |more|
        invariant Valid() && (data == old(data) || fresh(data))
        invariant Contents() == AddNew(old(Contents()), more[..i])
      {
        assert more[..i + 1][..i] == more[..i];
        var isNew := true;
        var k := 0;
        while k < len && isNew
          invariant 0 <= k <= len
          invariant isNew <==> more[i] !in Contents()[..k]
        {
          assert Contents()[..k + 1] == Contents()[..k] + [data[k]];
          isNew := data[k] != more[i];
          k := k + 1;
        }
        assert Contents()[..len] == Contents();
        if isNew {
          Append(more[i]);
        }
      }
      assert more[..|more|] == more;
    }
  }
}
