/** Splitting a sequence at a separator (`bytes.Split`, `strings.Split`) and its inverse. */
module Seqs {
  /** The position of the first `sep` in `s`, or the length of `s`. */
  function FirstIndex<T(==)>(s: seq<T>, sep: T): (i: nat)
    ensures i <= |s|
    ensures forall j :: 0 <= j < i ==> s[j] != sep
    ensures i < |s| ==> s[i] == sep
  {
    if s == [] || s[0] == sep then 0 else 1 + FirstIndex(s[1..], sep)
  }

  /** The part of `s` before the first `sep`. */
  function Before<T(==)>(s: seq<T>, sep: T): seq<T> {
    s[..FirstIndex(s, sep)]
  }

  /** The parts of `s` between occurrences of `sep`; there is always at least one. */
  function Split<T(==)>(s: seq<T>, sep: T): (parts: seq<seq<T>>)
    ensures |parts| >= 1
    decreases |s|
  {
    var i := FirstIndex(s, sep);
    if i == |s| then [s] else [s[..i]] + Split(s[i + 1..], sep)
  }

  function Join<T>(parts: seq<seq<T>>, sep: T): seq<T> {
    if parts == [] then []
    else if |parts| == 1 then parts[0]
    else parts[0] + [sep] + Join(parts[1..], sep)
  }

  predicate Free<T(==)>(s: seq<T>, sep: T) {
    forall j :: 0 <= j < |s| ==> s[j] != sep
  }

  lemma FirstIndexIs<T>(s: seq<T>, sep: T, i: nat)
    requires i <= |s| && Free(s[..i], sep)
    requires i < |s| ==> s[i] == sep
    ensures FirstIndex(s, sep) == i
  {
  }

  lemma SplitFree<T>(s: seq<T>, sep: T)
    requires Free(s, sep)
    ensures Split(s, sep) == [s] && Before(s, sep) == s
  {
    assert s[..|s|] == s;
    FirstIndexIs(s, sep, |s|);
  }

  /** Splitting a part followed by a separator puts that part first. */
  lemma SplitCons<T>(part: seq<T>, sep: T, rest: seq<T>)
    requires Free(part, sep)
    ensures Before(part + [sep] + rest, sep) == part
    ensures Split(part + [sep] + rest, sep) == [part] + Split(rest, sep)
  {
    var s := part + [sep] + rest;
    assert s[..|part|] == part && s[|part| + 1..] == rest;
    FirstIndexIs(s, sep, |part|);
  }

  lemma BeforePrefix<T>(part: seq<T>, sep: T, rest: seq<T>)
    requires Free(part, sep)
    ensures Before(part + rest, sep) == part + Before(rest, sep)
  {
    var i := FirstIndex(rest, sep);
    assert (part + rest)[..|part| + i] == part + rest[..i];
    FirstIndexIs(part + rest, sep, |part| + i);
  }

  lemma JoinCons<T>(head: seq<T>, parts: seq<seq<T>>, sep: T)
    requires parts != []
    ensures Join([head] + parts, sep) == head + [sep] + Join(parts, sep)
  {
    assert ([head] + parts)[1..] == parts;
  }

  /** Splitting undoes joining, for parts without the separator. */
  lemma {:induction false} SplitJoin<T>(parts: seq<seq<T>>, sep: T)
    requires parts != []
    requires forall i :: 0 <= i < |parts| ==> Free(parts[i], sep)
    ensures Split(Join(parts, sep), sep) == parts
  {
    var head, tail := parts[0], parts[1..];
    assert parts == [head] + tail;
    if tail == [] {
      SplitFree(head, sep);
    } else {
      SplitJoin(tail, sep);
      JoinCons(head, tail, sep);
      SplitCons(head, sep, Join(tail, sep));
    }
  }

  lemma CutAt<T>(s: seq<T>, i: nat)
    requires i < |s|
    ensures s == s[..i] + [s[i]] + s[i + 1..]
  {
  }

  /** Joining undoes splitting, for every sequence. */
  lemma {:induction false} JoinSplit<T>(s: seq<T>, sep: T)
    ensures Join(Split(s, sep), sep) == s
    decreases |s|
  {
    var i := FirstIndex(s, sep);
    if i < |s| {
      JoinSplit(s[i + 1..], sep);
      JoinCons(s[..i], Split(s[i + 1..], sep), sep);
      CutAt(s, i);
    }
  }

  lemma {:induction false} SplitPartsFree<T>(s: seq<T>, sep: T)
    ensures forall i :: 0 <= i < |Split(s, sep)| ==> Free(Split(s, sep)[i], sep)
    decreases |s|
  {
    var i := FirstIndex(s, sep);
    if i < |s| {
      SplitPartsFree(s[i + 1..], sep);
    }
  }
}
