/**
 * Token identifiers and storage keys (`common.go`, `dctNFTCreate.go`, `logsAndEvents.go`).
 * Every token key of the program starts with the same constant prefix, which is dropped here.
 */
module Keys {
  import opened Bytes
  import Seqs

  const DASH: byte := 0x2d
  const RANDOM_CHARS_LENGTH := 6
  const TICKER_MIN_LENGTH := 3
  const TICKER_MAX_LENGTH := 10

  predicate IsTickerChar(ch: byte) {
    'A' as int <= ch <= 'Z' as int || '0' as int <= ch <= '9' as int
  }

  predicate IsRandomChar(ch: byte) {
    'a' as int <= ch <= 'f' as int || '0' as int <= ch <= '9' as int
  }

  /** Accepts a ticker of 3 to 10 upper-case letters and digits, a dash and six lower-case hex digits. */
  predicate ValidToken(tokenID: Bytes) {
    var tickerLen := |tokenID| - RANDOM_CHARS_LENGTH;
    && TICKER_MIN_LENGTH + RANDOM_CHARS_LENGTH + 1 <= |tokenID| <= TICKER_MAX_LENGTH + RANDOM_CHARS_LENGTH + 1
    && (forall i :: 0 <= i < tickerLen - 1 ==> IsTickerChar(tokenID[i]))
    && tokenID[tickerLen - 1] == DASH
    && (forall i :: tickerLen <= i < |tokenID| ==> IsRandomChar(tokenID[i]))
  }

  /** A ticker of upper-case letters and digits, and six random characters. */
  ghost predicate IsTicker(ticker: Bytes, random: Bytes) {
    && 3 <= |ticker| <= 10 && |random| == 6
    && (forall i :: 0 <= i < |ticker| ==> 'A' as int <= ticker[i] <= 'Z' as int || '0' as int <= ticker[i] <= '9' as int)
    && (forall i :: 0 <= i < |random| ==> 'a' as int <= random[i] <= 'f' as int || '0' as int <= random[i] <= '9' as int)
  }

  lemma TickerIsValid(ticker: Bytes, random: Bytes)
    requires IsTicker(ticker, random)
    ensures ValidToken(ticker + [DASH] + random)
  {
  }

  /** Exactly the identifiers made of a ticker, a dash and six random characters are accepted. */
  lemma ValidTokenExactly(tokenID: Bytes)
    ensures ValidToken(tokenID) <==>
      exists ticker: Bytes, random: Bytes :: tokenID == ticker + [DASH] + random && IsTicker(ticker, random)
  {
    if ValidToken(tokenID) {
      var d := |tokenID| - 7;
      assert tokenID == tokenID[..d] + [DASH] + tokenID[d + 1..] && IsTicker(tokenID[..d], tokenID[d + 1..]);
    } else {
      hide ValidToken, IsTicker;
      forall ticker: Bytes, random: Bytes | IsTicker(ticker, random) ensures ValidToken(ticker + [DASH] + random) {
        TickerIsValid(ticker, random);
      }
    }
  }

  /** The storage key of a token: its identifier followed by the shortest form of its nonce. */
  function TokenKey(tokenID: Bytes, nonce: nat): Bytes {
    tokenID + FromNat(nonce)
  }

  /** The keys under which tokens with a positive nonce live. */
  ghost predicate IsNftKey(key: Bytes) {
    exists t: Bytes, n: uint64 :: ValidToken(t) && n > 0 && key == TokenKey(t, n)
  }

  lemma NftKeyIntro(t: Bytes, n: uint64)
    requires ValidToken(t) && n > 0
    ensures IsNftKey(TokenKey(t, n))
  {
  }

  /** The position of the dash in an identifier. */
  function DashIndex(t: Bytes): int {
    |t| - RANDOM_CHARS_LENGTH - 1
  }

  /** The first dash of a key is the dash of its identifier. */
  lemma FirstDash(t: Bytes, n: nat)
    requires ValidToken(t)
    ensures Seqs.FirstIndex(TokenKey(t, n), DASH) == DashIndex(t)
  {
    Seqs.FirstIndexIs(TokenKey(t, n), DASH, DashIndex(t));
  }

  /** Different tokens never share a key: concatenation loses nothing on valid identifiers. */
  lemma TokenKeyInjective(t: Bytes, m: nat, u: Bytes, n: nat)
    requires ValidToken(t) && ValidToken(u)
    requires TokenKey(t, m) == TokenKey(u, n)
    ensures t == u && m == n
  {
    FirstDash(t, m);
    FirstDash(u, n);
    assert |t| == |u|;
    assert t == TokenKey(t, m)[..|t|] == u;
    assert FromNat(m) == TokenKey(t, m)[|t|..] == FromNat(n);
    FromNatInjective(m, n);
  }

  /** The key of a fungible token is never the key of a token with a nonce. */
  lemma FungibleKeyIsNotNftKey(t: Bytes)
    requires ValidToken(t)
    ensures TokenKey(t, 0) == t && !IsNftKey(t)
  {
    assert TokenKey(t, 0) == t + [] == t;
    if IsNftKey(t) {
      var u: Bytes, n: uint64 :| ValidToken(u) && n > 0 && t == TokenKey(u, n);
      TokenKeyInjective(t, 0, u, n);
    }
  }

  /** Splits the argument of a wipe call back into identifier and nonce (`extractTokenIdentifierAndNonceDCTWipe`). */
  function ExtractForWipe(arg: Bytes): (Bytes, uint64) {
    var parts := Seqs.Split(arg, DASH);
    if |parts| < 2 then (arg, 0)
    else if |parts[1]| <= RANDOM_CHARS_LENGTH then (arg, 0)
    else (parts[0] + [DASH] + parts[1][..RANDOM_CHARS_LENGTH], ToUint64(parts[1][RANDOM_CHARS_LENGTH..]))
  }

  /** What precedes the first dash of a key, and what follows it up to the next dash. */
  lemma FirstTwoParts(t: Bytes, n: nat)
    requires ValidToken(t)
    ensures |Seqs.Split(TokenKey(t, n), DASH)| >= 2
    ensures Seqs.Split(TokenKey(t, n), DASH)[0] == t[..DashIndex(t)]
    ensures Seqs.Split(TokenKey(t, n), DASH)[1] == t[DashIndex(t) + 1..] + Seqs.Before(FromNat(n), DASH)
  {
    var d := DashIndex(t);
    var ticker, random, digits := t[..d], t[d + 1..], FromNat(n);
    assert TokenKey(t, n) == ticker + [DASH] + (random + digits);
    Seqs.SplitCons(ticker, DASH, random + digits);
    Seqs.BeforePrefix(random, DASH, digits);
  }

  lemma ExtractFromParts(t: Bytes, arg: Bytes, b: Bytes)
    requires ValidToken(t)
    requires |Seqs.Split(arg, DASH)| >= 2
    requires Seqs.Split(arg, DASH)[0] == t[..DashIndex(t)]
    requires Seqs.Split(arg, DASH)[1] == t[DashIndex(t) + 1..] + b
    ensures ExtractForWipe(arg) == if b == [] then (arg, 0) else (t, ToUint64(b))
  {
    var random := t[DashIndex(t) + 1..];
    assert (random + b)[..RANDOM_CHARS_LENGTH] == random && (random + b)[RANDOM_CHARS_LENGTH..] == b;
    assert t == t[..DashIndex(t)] + [DASH] + random;
  }

  lemma ExtractFromKey(t: Bytes, n: uint64)
    requires ValidToken(t)
    ensures
      var b := Seqs.Before(FromNat(n), DASH);
      ExtractForWipe(TokenKey(t, n)) == if b == [] then (TokenKey(t, n), 0) else (t, ToUint64(b))
  {
    FirstTwoParts(t, n);
    ExtractFromParts(t, TokenKey(t, n), Seqs.Before(FromNat(n), DASH));
  }

  lemma DashFreeDigits(n: uint64)
    requires DASH !in FromNat(n)
    ensures Seqs.Before(FromNat(n), DASH) == FromNat(n)
  {
    Seqs.SplitFree(FromNat(n), DASH);
  }

  lemma DashedDigits(n: uint64)
    requires DASH in FromNat(n)
    ensures ToUint64(Seqs.Before(FromNat(n), DASH)) != n
  {
    var digits := FromNat(n);
    var i := Seqs.FirstIndex(digits, DASH);
    StrictPrefixIsSmaller(digits, i);
    SmallIsUnwrapped(ToNat(digits[..i]), n);
  }

  lemma SmallIsUnwrapped(m: nat, n: uint64)
    requires m < n
    ensures Wrap64(m) != n
  {
  }

  /**
   * The wipe splitter inverts key building exactly when no byte of the nonce is a dash;
   * on every other nonce it answers with a different token.
   */
  lemma WipeSplitIsExact(t: Bytes, n: uint64)
    requires ValidToken(t)
    ensures ExtractForWipe(TokenKey(t, n)) == (t, n) <==> DASH !in FromNat(n)
  {
    ExtractFromKey(t, n);
    if DASH !in FromNat(n) {
      DashFreeDigits(n);
      Uint64RoundTrip(n);
      assert n == 0 ==> TokenKey(t, n) == t + [] == t;
    } else {
      DashedDigits(n);
    }
  }
}
