/** Hexadecimal text (section 8 of RFC 4648): written in lower case, read in either case. */
module Hex {
  import opened Bytes
  import opened Wrappers
  import opened Seqs

  const AT: byte := 0x40

  function Digit(n: nat): byte
    requires n < 16
  {
    if n < 10 then 48 + n else 87 + n
  }

  function DigitValue(b: byte): Option<nat> {
    if 48 <= b <= 57 then Some(b - 48)
    else if 97 <= b <= 102 then Some(b - 87)
    else if 65 <= b <= 70 then Some(b - 55)
    else None
  }

  function Encode(s: Bytes): Bytes {
    if s == [] then [] else [Digit(s[0] / 16), Digit(s[0] % 16)] + Encode(s[1..])
  }

  function Decode(text: Bytes): Result<Bytes> {
    if text == [] then Ok([])
    else if |text| == 1 || DigitValue(text[0]).None? || DigitValue(text[1]).None? then Err(ErrTokenizeFailed)
    else
      var rest :- Decode(text[2..]);
      Ok([DigitByte(text[0], text[1])] + rest)
  }

  function DigitByte(high: byte, low: byte): byte
    requires DigitValue(high).Some? && DigitValue(low).Some?
  {
    16 * DigitValue(high).value + DigitValue(low).value
  }

  /** The letters of hexadecimal digits in lower case; everything else as it is. */
  function LowerByte(b: byte): byte {
    if 65 <= b <= 70 then b + 32 else b
  }

  function Lower(s: Bytes): (r: Bytes)
    ensures |r| == |s| && forall i :: 0 <= i < |s| ==> r[i] == LowerByte(s[i])
  {
    seq(|s|, i requires 0 <= i < |s| => LowerByte(s[i]))
  }

  /** The sixteen digits of the standard. */
  lemma DigitsAreStandard(n: nat)
    requires n < 16
    ensures Digit(n) == "0123456789abcdef"[n] as int
    ensures DigitValue("0123456789abcdef"[n] as int) == Some(n) && DigitValue("0123456789ABCDEF"[n] as int) == Some(n)
  {
  }

  lemma LowerAppend(s: Bytes, t: Bytes)
    ensures Lower(s + t) == Lower(s) + Lower(t)
  {
  }

  lemma {:induction false} DecodeEncode(s: Bytes)
    ensures Decode(Encode(s)) == Ok(s) && Free(Encode(s), AT) && (Encode(s) == [] <==> s == [])
  {
    if s != [] {
      DecodeEncode(s[1..]);
      assert Encode(s)[2..] == Encode(s[1..]);
      assert s == [s[0]] + s[1..];
    }
  }

  lemma DigitOfValue(high: byte, low: byte)
    requires DigitValue(high).Some? && DigitValue(low).Some?
    ensures Digit(DigitByte(high, low) / 16) == LowerByte(high) && Digit(DigitByte(high, low) % 16) == LowerByte(low)
  {
  }

  lemma {:induction false} EncodeDecode(text: Bytes)
    requires Decode(text).Ok?
    ensures Encode(Decode(text).value) == Lower(text)
  {
    hide DigitByte, Digit, LowerByte;
    if text != [] {
      EncodeDecode(text[2..]);
      var s := Decode(text).value;
      assert s[1..] == Decode(text[2..]).value;
      assert text == text[..2] + text[2..];
      LowerAppend(text[..2], text[2..]);
      DigitOfValue(text[0], text[1]);
      assert Lower(text[..2]) == [LowerByte(text[0]), LowerByte(text[1])];
    }
  }

  /** Exactly the strings of an even number of hexadecimal digits can be read. */
  lemma {:induction false} DecodesExactly(text: Bytes)
    ensures Decode(text).Ok? <==> |text| % 2 == 0 && forall i :: 0 <= i < |text| ==> DigitValue(text[i]).Some?
  {
    if |text| > 1 {
      DecodesExactly(text[2..]);
      assert forall i :: 2 <= i < |text| ==> text[i] == text[2..][i - 2];
    }
  }
}

/** The text `function@hex@hex...` that carries a call between shards. */
module CallData {
  import opened Bytes
  import opened Wrappers
  import opened Seqs
  import opened Hex

  function EncodeAll(args: seq<Bytes>): (r: seq<Bytes>)
    ensures |r| == |args|
  {
    seq(|args|, i requires 0 <= i < |args| => Encode(args[i]))
  }

  lemma EncodeAllSnoc(args: seq<Bytes>, last: Bytes)
    ensures EncodeAll(args + [last]) == EncodeAll(args) + [Encode(last)]
  {
  }

  /** The text of a call: its name and its arguments in hexadecimal, separated by `@`. */
  function Text(f: Bytes, args: seq<Bytes>): Bytes {
    Join([f] + EncodeAll(args), AT)
  }

  /** Decodes all tokens, or fails if one of them cannot be decoded. */
  function DecodeAll(tokens: seq<Bytes>): (r: Result<seq<Bytes>>)
    ensures r.Err? ==> r.error == ErrTokenizeFailed
  {
    if tokens == [] then Ok([])
    else
      var args := DecodeAll(tokens[..|tokens| - 1]);
      if args.Err? then args else
      var arg := Decode(tokens[|tokens| - 1]);
      if arg.Err? then Err(ErrTokenizeFailed) else Ok(args.value + [arg.value])
  }

  function Parse(text: Bytes): Result<(Bytes, seq<Bytes>)> {
    var tokens := Split(text, AT);
    if tokens[0] == [] then Err(ErrTokenizeFailed)
    else
      var args :- DecodeAll(tokens[1..]);
      Ok((tokens[0], args))
  }

  lemma {:induction false} JoinSnoc(parts: seq<Bytes>, part: Bytes)
    requires parts != []
    ensures Join(parts + [part], AT) == Join(parts, AT) + [AT] + part
  {
    if |parts| > 1 {
      JoinSnoc(parts[1..], part);
      assert (parts + [part])[1..] == parts[1..] + [part];
    } else {
      assert parts + [part] == [parts[0], part] && [parts[0], part][1..] == [part];
    }
  }

  /** The loop that writes a call (`addNFTTransferToVMOutput`, `addOutputTransferToVMOutput`). */
  method Emit(f: Bytes, args: seq<Bytes>) returns (text: Bytes)
    ensures text == Text(f, args)
  {
    text := f;
    assert [f] + EncodeAll(args[..0]) == [f];
    for i := 0 to |args|
      invariant text == Text(f, args[..i])
    {
      text := text + [AT] + Encode(args[i]);
      assert [f] + EncodeAll(args[..i + 1]) == ([f] + EncodeAll(args[..i])) + [Encode(args[i])];
      JoinSnoc([f] + EncodeAll(args[..i]), Encode(args[i]));
    }
    assert args[..|args|] == args;
  }

  lemma {:induction false} DecodeAllStops(tokens: seq<Bytes>, i: nat)
    requires i <= |tokens| && DecodeAll(tokens[..i]).Err?
    ensures DecodeAll(tokens).Err?
  {
    if i == |tokens| {
      assert tokens[..i] == tokens;
    } else {
      assert tokens[..|tokens| - 1][..i] == tokens[..i];
      DecodeAllStops(tokens[..|tokens| - 1], i);
    }
  }

  /** The loop over the tokens after the first (`parseArguments`). */
  method ParseTokens(tokens: seq<Bytes>) returns (r: Result<seq<Bytes>>)
    requires tokens != []
    ensures r == DecodeAll(tokens[1..])
  {
    var args := [];
    var i := 1;
    while i < |tokens|
      invariant 1 <= i <= |tokens|
      invariant DecodeAll(tokens[1..i]) == Ok(args)
    {
      var arg := Decode(tokens[i]);
      assert tokens[1..i + 1][..i - 1] == tokens[1..i];
      if arg.Err? {
        assert tokens[1..][..i] == tokens[1..i + 1];
        DecodeAllStops(tokens[1..], i);
        return Err(ErrTokenizeFailed);
      }
      args := args + [arg.value];
      i := i + 1;
    }
    assert tokens[1..i] == tokens[1..];
    return Ok(args);
  }

  method ParseData(text: Bytes) returns (r: Result<(Bytes, seq<Bytes>)>)
    ensures r == Parse(text)
  {
    var tokens := Split(text, AT);
    if tokens[0] == [] {
      return Err(ErrTokenizeFailed);
    }
    var args := ParseTokens(tokens);
    if args.Err? {
      return Err(args.error);
    }
    return Ok((tokens[0], args.value));
  }

  /** The arguments of a deployment or an upgrade: the first part is taken as it stands, even when it is empty. */
  method ParseArguments(text: Bytes) returns (r: Result<seq<Bytes>>)
    ensures Parse(text).Ok? ==> r == Ok([Parse(text).value.0] + Parse(text).value.1)
    ensures r.Ok? ==> r.value != [] && Text(r.value[0], r.value[1..]) == LowerArguments(text)
    ensures r.Ok? && r.value[0] != [] ==> Parse(text) == Ok((r.value[0], r.value[1..]))
  {
    var tokens := Split(text, AT);
    var args := ParseTokens(tokens);
    if args.Err? {
      return Err(args.error);
    }
    r := Ok([tokens[0]] + args.value);
    assert r.value[1..] == args.value;
    ReprintTokens(text, args.value);
  }

  lemma {:induction false} DecodeAllEncodeAll(args: seq<Bytes>)
    ensures DecodeAll(EncodeAll(args)) == Ok(args)
  {
    if args != [] {
      var last := |args| - 1;
      DecodeAllEncodeAll(args[..last]);
      DecodeEncode(args[last]);
      assert EncodeAll(args)[..last] == EncodeAll(args[..last]);
      assert args == args[..last] + [args[last]];
    }
  }

  /** The parts of a text are its function name and its encoded arguments, if the name holds no separator. */
  lemma TextSplits(f: Bytes, args: seq<Bytes>)
    requires Free(f, AT)
    ensures Split(Text(f, args), AT) == [f] + EncodeAll(args)
  {
    var parts := [f] + EncodeAll(args);
    forall i | 0 <= i < |parts| ensures Free(parts[i], AT) {
      if i > 0 {
        DecodeEncode(args[i - 1]);
      }
    }
    SplitJoin(parts, AT);
  }

  /** Parsing undoes printing, for every argument list, exactly when the name is not empty and holds no separator. */
  lemma CallRoundTrip(f: Bytes, args: seq<Bytes>)
    ensures Parse(Text(f, args)) == Ok((f, args)) <==> f != [] && Free(f, AT)
  {
    if Free(f, AT) {
      TextSplits(f, args);
      DecodeAllEncodeAll(args);
      assert ([f] + EncodeAll(args))[1..] == EncodeAll(args);
    } else {
      SplitPartsFree(Text(f, args), AT);
    }
  }

  /** Exactly the texts with a name and decodable arguments are accepted. */
  lemma AcceptsExactly(text: Bytes)
    ensures Parse(text).Ok? <==>
              && Split(text, AT)[0] != []
              && forall i :: 1 <= i < |Split(text, AT)| ==> Decode(Split(text, AT)[i]).Ok?
    ensures Parse(text).Err? ==> Parse(text).error == ErrTokenizeFailed
  {
    var tokens := Split(text, AT);
    DecodeAllExactly(tokens[1..]);
    assert forall i :: 1 <= i < |tokens| ==> tokens[i] == tokens[1..][i - 1];
  }

  lemma {:induction false} DecodeAllExactly(tokens: seq<Bytes>)
    ensures DecodeAll(tokens).Ok? <==> forall i :: 0 <= i < |tokens| ==> Decode(tokens[i]).Ok?
    ensures DecodeAll(tokens).Ok? ==> |DecodeAll(tokens).value| == |tokens|
    ensures DecodeAll(tokens).Ok? ==>
              forall i :: 0 <= i < |tokens| ==> Decode(tokens[i]) == Ok(DecodeAll(tokens).value[i])
  {
    if tokens != [] {
      DecodeAllExactly(tokens[..|tokens| - 1]);
    }
  }

  /** Lower case everywhere after the first part. */
  function LowerArguments(text: Bytes): Bytes {
    var i := FirstIndex(text, AT);
    text[..i] + Lower(text[i..])
  }

  function LowerAll(tokens: seq<Bytes>): seq<Bytes> {
    if tokens == [] then [] else [Lower(tokens[0])] + LowerAll(tokens[1..])
  }

  lemma {:induction false} LowerAllIs(tokens: seq<Bytes>, lowered: seq<Bytes>)
    requires |lowered| == |tokens| && forall i :: 0 <= i < |tokens| ==> lowered[i] == Lower(tokens[i])
    ensures LowerAll(tokens) == lowered
  {
    hide Lower;
    if tokens != [] {
      LowerAllIs(tokens[1..], lowered[1..]);
    }
  }

  /** What follows the first part of a text. */
  function Tail(tokens: seq<Bytes>): Bytes {
    if tokens == [] then [] else [AT] + Join(tokens, AT)
  }

  lemma JoinHead(f: Bytes, tokens: seq<Bytes>)
    ensures Join([f] + tokens, AT) == f + Tail(tokens)
  {
    assert ([f] + tokens)[1..] == tokens;
  }

  lemma LowerTailCons(head: Bytes, rest: seq<Bytes>, lowered: seq<Bytes>)
    requires Tail(lowered) == Lower(Tail(rest))
    ensures Tail([Lower(head)] + lowered) == Lower(Tail([head] + rest))
  {
    hide Join, Lower;
    JoinHead(head, rest);
    JoinHead(Lower(head), lowered);
    LowerAppend(head, Tail(rest));
    LowerAppend([AT], head + Tail(rest));
    assert Lower([AT]) == [AT];
  }

  lemma {:induction false} LowerTail(tokens: seq<Bytes>)
    ensures Tail(LowerAll(tokens)) == Lower(Tail(tokens))
  {
    hide Join, Lower, Tail;
    if tokens == [] {
      LowerTailNone();
    } else {
      LowerTail(tokens[1..]);
      LowerTailCons(tokens[0], tokens[1..], LowerAll(tokens[1..]));
      assert [tokens[0]] + tokens[1..] == tokens;
    }
  }

  lemma LowerTailNone()
    ensures Tail(LowerAll([])) == Lower(Tail([]))
  {
  }

  lemma EncodedAreLower(tokens: seq<Bytes>, args: seq<Bytes>)
    requires DecodeAll(tokens) == Ok(args)
    ensures EncodeAll(args) == LowerAll(tokens)
  {
    DecodeAllExactly(tokens);
    forall i | 0 <= i < |tokens| ensures Encode(args[i]) == Lower(tokens[i]) {
      EncodeDecode(tokens[i]);
    }
    LowerAllIs(tokens, EncodeAll(args));
  }

  lemma ReprintTokens(text: Bytes, args: seq<Bytes>)
    requires DecodeAll(Split(text, AT)[1..]) == Ok(args)
    ensures Text(Split(text, AT)[0], args) == LowerArguments(text)
  {
    hide EncodeAll, Lower, Encode;
    var tokens := Split(text, AT);
    var f := tokens[0];
    EncodedAreLower(tokens[1..], args);
    JoinHead(f, EncodeAll(args));
    LowerTail(tokens[1..]);
    JoinSplit(text, AT);
    JoinHead(f, tokens[1..]);
    assert [f] + tokens[1..] == tokens;
    assert f == text[..FirstIndex(text, AT)];
    assert Tail(tokens[1..]) == text[FirstIndex(text, AT)..];
  }

  /** Printing an accepted text again gives the text back, up to the case of its hexadecimal digits. */
  lemma ReprintIsText(text: Bytes)
    requires Parse(text).Ok?
    ensures Text(Parse(text).value.0, Parse(text).value.1) == LowerArguments(text)
  {
    ReprintTokens(text, Parse(text).value.1);
  }
}
