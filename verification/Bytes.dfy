/** Byte strings, the number forms that the library keeps in them, and its result types. */
module Bytes {
  type byte = x: int | 0 <= x < 256
  type Bytes = seq<byte>

  const TWO64: nat := 0x1_0000_0000_0000_0000
  const MAX_UINT64: nat := TWO64 - 1
  type uint64 = x: int | 0 <= x < 0x1_0000_0000_0000_0000

  /** Wraps an unbounded result to the 64 bits the program keeps. */
  function Wrap64(x: int): uint64 {
    x % TWO64
  }

  lemma NoWrap(x: nat)
    requires x < TWO64
    ensures Wrap64(x) == x
  {
  }

  /** The unsigned big-endian value of a byte string (`SetBytes`). */
  function ToNat(s: Bytes): nat {
    if s == [] then 0 else 256 * ToNat(s[..|s| - 1]) + s[|s| - 1]
  }

  /** The shortest big-endian form of a number (`Bytes`); zero is the empty string. */
  function FromNat(n: nat): (s: Bytes)
    ensures ToNat(s) == n
    ensures s != [] ==> s[0] != 0
    ensures s == [] <==> n == 0
  {
    if n == 0 then [] else FromNat(n / 256) + [n % 256]
  }

  /** The low 64 bits of a big-endian value (`SetBytes(..).Uint64()`). */
  function ToUint64(s: Bytes): uint64 {
    Wrap64(ToNat(s))
  }

  /** The shortest form of a value is the only one without a leading zero. */
  lemma {:induction false} FromNatOfToNat(s: Bytes)
    requires s != [] ==> s[0] != 0
    ensures FromNat(ToNat(s)) == s
  {
    if s != [] {
      var init := s[..|s| - 1];
      if init == [] {
        assert ToNat(s) == s[0] by { assert ToNat(init) == 0; }
        assert FromNat(0) == [];
        assert s == [s[0]];
      } else {
        FromNatOfToNat(init);
        assert ToNat(s) / 256 == ToNat(init) && ToNat(s) % 256 == s[|s| - 1];
        assert s == init + [s[|s| - 1]];
        ToNatPositive(init);
      }
    }
  }

  lemma {:induction false} ToNatPositive(s: Bytes)
    requires s != [] && s[0] != 0
    ensures ToNat(s) > 0
  {
    if |s| > 1 {
      ToNatPositive(s[..|s| - 1]);
    }
  }

  /** A strict prefix of a string without leading zero has a strictly smaller value. */
  lemma {:induction false} StrictPrefixIsSmaller(s: Bytes, i: nat)
    requires i < |s| && s[0] != 0
    ensures ToNat(s[..i]) < ToNat(s)
    decreases |s|
  {
    var init := s[..|s| - 1];
    ToNatPositive(s);
    if i < |init| {
      StrictPrefixIsSmaller(init, i);
      assert init[..i] == s[..i];
    } else {
      assert s[..i] == init;
      if init != [] {
        ToNatPositive(init);
      }
    }
  }

  lemma {:induction false} FromNatInjective(m: nat, n: nat)
    requires FromNat(m) == FromNat(n)
    ensures m == n
  {
    assert ToNat(FromNat(m)) == m && ToNat(FromNat(n)) == n;
  }

  lemma Uint64RoundTrip(n: uint64)
    ensures ToUint64(FromNat(n)) == n
  {
    assert ToNat(FromNat(n)) == n;
  }
}
