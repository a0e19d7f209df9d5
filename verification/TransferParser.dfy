/** The parser that tells contracts and explorers what a transfer moves, from the sender's arguments or the shipped ones. */
module TransferParser {
  import opened Bytes
  import opened Wrappers
  import opened Ledger
  import opened Operations
  import opened TransferArgs
  import opened CallData
  import Hex
  import Seqs

  datatype Transfer = Transfer(token: Bytes, nonce: uint64, value: int, kind: Kind)

  datatype Parsed = Parsed(receiver: Address, transfers: seq<Transfer>, callFunction: Bytes, callArgs: seq<Bytes>)

  /** The call in the arguments from position `from` on; no argument is no call. */
  function ParsedCall(receiver: Address, transfers: seq<Transfer>, args: seq<Bytes>, from: nat): Parsed {
    Parsed(receiver, transfers,
           if |args| > from then args[from] else [],
           if |args| > from + 1 then args[from + 1..] else [])
  }

  function ParseFungible(rcv: Address, args: seq<Bytes>): Result<Parsed> {
    if |args| < 2 then Err(ErrNotEnoughArguments)
    else Ok(ParsedCall(rcv, [Transfer(args[0], 0, ToNat(args[1]), Fungible)], args, 2))
  }

  function ParseNft(snd: Address, rcv: Address, args: seq<Bytes>): Result<Parsed> {
    if |args| < 4 then Err(ErrNotEnoughArguments)
    else
      var receiver := if snd == rcv then args[3] else rcv;
      Ok(ParsedCall(receiver, [Transfer(args[0], ToUint64(args[1]), ToNat(args[2]), NonFungible)], args, 4))
  }

  /** The sender's form starts with an address, which is told from a count by not fitting a 64-bit word. */
  predicate StartsWithAddress(rcv: Address, args: seq<Bytes>)
    requires args != []
  {
    |args[0]| == |rcv| && ToNat(args[0]) >= TWO64
  }

  function TransferAt(unmarshal: Unmarshal, args: seq<Bytes>, at: nat, atSender: bool): Result<Transfer>
    requires at + 3 <= |args|
  {
    var nonce := ToUint64(args[at + 1]);
    if nonce > 0 && !atSender && |args[at + 2]| > MAX_OPT_VALUE_LENGTH then
      var tok :- unmarshal(args[at + 2]);
      Ok(Transfer(args[at], nonce, tok.value, NonFungible))
    else Ok(Transfer(args[at], nonce, ToNat(args[at + 2]), if nonce > 0 then NonFungible else Fungible))
  }

  function TransfersFrom(unmarshal: Unmarshal, args: seq<Bytes>, start: nat, n: nat, atSender: bool)
    : (r: Result<seq<Transfer>>)
    requires start + 3 * n <= |args|
    ensures r.Ok? ==> |r.value| == n
  {
    if n == 0 then Ok([])
    else
      var before := TransfersFrom(unmarshal, args, start, n - 1, atSender);
      if before.Err? then before else
      var transfer :- TransferAt(unmarshal, args, start + 3 * (n - 1), atSender);
      Ok(before.value + [transfer])
  }

  function ParseMulti(unmarshal: Unmarshal, rcv: Address, args: seq<Bytes>): Result<Parsed> {
    if |args| < 4 then Err(ErrNotEnoughArguments) else
    var atSender := StartsWithAddress(rcv, args);
    var start := if atSender then 2 else 1;
    var n := ToUint64(args[start - 1]);
    var min := Wrap64(3 * n + start);
    if |args| < min then Err(ErrNotEnoughArguments)
    else if 3 * n + start >= TWO64 then Err(PanicSliceTooLong)
    else
      var transfers :- TransfersFrom(unmarshal, args, start, n, atSender);
      Ok(ParsedCall(if atSender then args[0] else rcv, transfers, args, min))
  }

  lemma {:induction false} TransfersStop(unmarshal: Unmarshal, args: seq<Bytes>, start: nat, n: nat, atSender: bool, i: nat)
    requires start + 3 * n <= |args| && i <= n && TransfersFrom(unmarshal, args, start, i, atSender).Err?
    ensures TransfersFrom(unmarshal, args, start, n, atSender) == TransfersFrom(unmarshal, args, start, i, atSender)
  {
    if i < n {
      TransfersStop(unmarshal, args, start, n - 1, atSender, i);
    }
  }

  method ParseMultiDCTNFTTransfer(unmarshal: Unmarshal, rcv: Address, args: seq<Bytes>) returns (r: Result<Parsed>)
    ensures r == ParseMulti(unmarshal, rcv, args)
  {
    hide Wrap64, ToNat, TransferAt;
    if |args| < 4 {
      return Err(ErrNotEnoughArguments);
    }
    var receiver := rcv;
    var numOfTransfer := ToNat(args[0]);
    var startIndex := 1;
    var isTxAtSender := false;
    if |args[0]| == |rcv| && numOfTransfer >= TWO64 {
      receiver := args[0];
      numOfTransfer := ToNat(args[1]);
      startIndex := 2;
      isTxAtSender := true;
    }
    var n := Wrap64(numOfTransfer);
    var minLenArgs := Wrap64(3 * n + startIndex);
    if |args| < minLenArgs {
      return Err(ErrNotEnoughArguments);
    }
    if 3 * n + startIndex >= TWO64 {
      return Err(PanicSliceTooLong);
    }
    NoWrap(3 * n + startIndex);
    var transfers := [];
    var i := 0;
    while i < n
      invariant 0 <= i <= n
      invariant TransfersFrom(unmarshal, args, startIndex, i, isTxAtSender) == Ok(transfers)
    {
      var transfer := TransferAt(unmarshal, args, startIndex + i * 3, isTxAtSender);
      if transfer.Err? {
        TransfersStop(unmarshal, args, startIndex, n, isTxAtSender, i + 1);
        return Err(transfer.error);
      }
      transfers := transfers + [transfer.value];
      i := i + 1;
    }
    return Ok(ParsedCall(receiver, transfers, args, minLenArgs));
  }

  // ---- what the parser says about calls and about messages ----

  function OfMove(mv: Move): Transfer {
    Transfer(mv.token, mv.nonce, mv.value, if mv.nonce > 0 then NonFungible else Fungible)
  }

  function OfMoves(moves: seq<Move>): (r: seq<Transfer>)
    ensures |r| == |moves|
  {
    if moves == [] then [] else OfMoves(moves[..|moves| - 1]) + [OfMove(moves[|moves| - 1])]
  }

  /** What a parse says of a transfer: receiver, tokens, nonces and amounts, and the call that follows, field by field. */
  predicate Says(p: Parsed, receiver: Address, moves: seq<Move>, extra: seq<Bytes>) {
    && p.receiver == receiver
    && |p.transfers| == |moves|
    && (forall i :: 0 <= i < |moves| ==>
          && p.transfers[i].token == moves[i].token && p.transfers[i].nonce == moves[i].nonce
          && p.transfers[i].value == moves[i].value
          && p.transfers[i].kind == if moves[i].nonce > 0 then NonFungible else Fungible)
    && p.callFunction == (if extra == [] then [] else extra[0])
    && p.callArgs == (if |extra| <= 1 then [] else extra[1..])
  }

  lemma {:induction false} OfMovesAt(moves: seq<Move>, i: nat)
    requires i < |moves|
    ensures OfMoves(moves)[i] == OfMove(moves[i])
  {
    if i < |moves| - 1 {
      OfMovesAt(moves[..|moves| - 1], i);
    }
  }

  lemma ParsedCallSays(receiver: Address, moves: seq<Move>, extra: seq<Bytes>)
    ensures Says(ParsedCall(receiver, OfMoves(moves), extra, 0), receiver, moves, extra)
  {
    hide OfMoves;
    forall i | 0 <= i < |moves| ensures OfMoves(moves)[i] == OfMove(moves[i]) {
      OfMovesAt(moves, i);
    }
  }

  lemma OneMove(mv: Move)
    ensures OfMoves([mv]) == [OfMove(mv)]
  {
    assert [mv][..0] == [] && OfMoves([]) == [];
    assert [] + [OfMove(mv)] == [OfMove(mv)];
  }

  /** What an item moves, however it is shipped. */
  function MoveOf(item: Item): Option<Move> {
    if item.Value() < 0 then None else Some(Move(item.token, item.nonce, item.Value()))
  }

  predicate Carries(items: seq<Item>, moves: seq<Move>) {
    |items| == |moves| && forall i :: 0 <= i < |items| ==> MoveOf(items[i]) == Some(moves[i])
  }

  lemma {:induction false} ParsesMoves(unmarshal: Unmarshal, args: seq<Bytes>, n: nat)
    requires 2 + 3 * n <= |args|
    ensures TransfersFrom(unmarshal, args, 2, n, true) == Ok(OfMoves(MovesFrom(args, 2, n)))
  {
    if n > 0 {
      ParsesMoves(unmarshal, args, n - 1);
      assert MovesFrom(args, 2, n)[..n - 1] == MovesFrom(args, 2, n - 1);
    }
  }

  /** Parsing a sender's arguments gives exactly what the sender's half will move. */
  lemma ParserReadsCall(unmarshal: Unmarshal, snd: Address, args: seq<Bytes>, dst: Address, moves: seq<Move>, extra: seq<Bytes>)
    requires MultiCallOf(args) == Ok((dst, moves, extra)) && |dst| == |snd| && ToNat(dst) >= TWO64
    ensures ParseMulti(unmarshal, snd, args) == Ok(ParsedCall(dst, OfMoves(moves), extra, 0))
    ensures Says(ParseMulti(unmarshal, snd, args).value, dst, moves, extra)
  {
    ParsedCallSays(dst, moves, extra);
    hide Says;
    hide TransfersFrom, MovesFrom, ToNat, Wrap64, OfMoves;
    var n := ToUint64(args[1]);
    NoWrap(3 * n + 2);
    ParsesMoves(unmarshal, args, n);
    assert args[3 * n + 2..] == extra;
  }

  lemma {:induction false} ParsesItems(marshal: Marshal, unmarshal: Unmarshal, items: seq<Item>, extra: seq<Bytes>,
                                       moves: seq<Move>, n: nat)
    requires Inverse(marshal, unmarshal) && n <= |items| && Carries(items, moves)
    requires forall i :: 0 <= i < |items| ==> Distinguishable(marshal, items[i])
    ensures var args := MultiArgs(marshal, items, extra);
            |args| == 3 * |items| + 1 + |extra| && TransfersFrom(unmarshal, args, 1, n, false) == Ok(OfMoves(moves[..n]))
  {
    hide Inverse, MultiArgs, Distinguishable, TransferAt, MoveOf;
    LengthOfMultiArgs(marshal, items, extra);
    if n > 0 {
      ParsesItems(marshal, unmarshal, items, extra, moves, n - 1);
      ParsesItem(marshal, unmarshal, items, extra, n - 1);
      assert moves[..n][..n - 1] == moves[..n - 1];
      assert MoveOf(items[n - 1]) == Some(moves[n - 1]);
    }
  }

  lemma ParsesItem(marshal: Marshal, unmarshal: Unmarshal, items: seq<Item>, extra: seq<Bytes>, i: nat)
    requires Inverse(marshal, unmarshal) && i < |items| && Distinguishable(marshal, items[i]) && MoveOf(items[i]).Some?
    ensures var args := MultiArgs(marshal, items, extra);
            |args| == 3 * |items| + 1 + |extra|
            && TransferAt(unmarshal, args, 3 * i + 1, false) == Ok(OfMove(MoveOf(items[i]).value))
  {
    hide MultiArgs, Inverse;
    ShippedItem(marshal, unmarshal, items, extra, i);
  }

  /** Parsing the shipped arguments gives exactly what the items carry. */
  lemma ParserReadsItems(marshal: Marshal, unmarshal: Unmarshal, rcv: Address, items: seq<Item>, extra: seq<Bytes>, moves: seq<Move>)
    requires Inverse(marshal, unmarshal) && Carries(items, moves)
    requires items != [] && 3 * |items| + 1 < TWO64
    requires forall i :: 0 <= i < |items| ==> Distinguishable(marshal, items[i])
    ensures ParseMulti(unmarshal, rcv, MultiArgs(marshal, items, extra)) == Ok(ParsedCall(rcv, OfMoves(moves), extra, 0))
    ensures Says(ParseMulti(unmarshal, rcv, MultiArgs(marshal, items, extra)).value, rcv, moves, extra)
  {
    ParsedCallSays(rcv, moves, extra);
    hide Says;
    hide MultiArgs, Inverse, Distinguishable, TransfersFrom, ParseMulti, ToNat, OfMoves, MoveOf, ParsedCall;
    var args := MultiArgs(marshal, items, extra);
    LengthOfMultiArgs(marshal, items, extra);
    ParsesItems(marshal, unmarshal, items, extra, moves, |items|);
    assert moves[..|items|] == moves;
    assert ToNat(args[0]) == |items|;
    ParseAtDestination(unmarshal, rcv, args, |items|, OfMoves(moves));
    CallOfRest(rcv, OfMoves(moves), args, 3 * |items| + 1);
  }

  /** A list that starts with a count is taken for the shipped form. */
  lemma ParseAtDestination(unmarshal: Unmarshal, rcv: Address, args: seq<Bytes>, n: nat, transfers: seq<Transfer>)
    requires 0 < n && 3 * n + 1 < TWO64 && 3 * n + 1 <= |args| && ToNat(args[0]) == n
    requires TransfersFrom(unmarshal, args, 1, n, false) == Ok(transfers)
    ensures ParseMulti(unmarshal, rcv, args) == Ok(ParsedCall(rcv, transfers, args, 3 * n + 1))
  {
    hide TransfersFrom, ToNat, ParsedCall;
    NoWrap(3 * n + 1);
    NoWrap(n);
  }

  // ---- shipping commutes with parsing ----

  lemma {:induction false} SentTokensCarryTheMoves(c: Config, sh: Shard, snd: Address, dst: Address, moves: seq<Move>,
                                                   retErr: bool, after: Shard, tokens: seq<Token>)
    requires !ToShard(c, dst) && SendAll(c, sh, snd, dst, moves, retErr) == Ok((after, tokens))
    ensures forall i :: 0 <= i < |moves| ==> tokens[i].value == moves[i].value > 0
  {
    hide SaveToken, ReadTokenOnSender, CheckLimitedTransfer, AddToDestination, AddToLiquidity;
    if moves != [] {
      var last := |moves| - 1;
      var (mid, some) := SendAll(c, sh, snd, dst, moves[..last], retErr).value;
      SentTokensCarryTheMoves(c, sh, snd, dst, moves[..last], retErr, mid, some);
    }
  }

  lemma ShipOneCarries(c: Config, sys: Sys, dst: Address, mv: Move, tok: Token, gas: nat, after: Sys, item: Item, left: nat)
    requires ShipOne(c, sys, dst, mv, tok, gas) == Ok((after, item, left)) && tok.value == mv.value
    ensures MoveOf(item) == Some(mv)
    ensures item.nonce == 0 ==> item.body.Amount?
    ensures item.nonce > 0 && item.body.Amount? ==> |FromNat(item.body.value)| <= MAX_OPT_VALUE_LENGTH
  {
    hide WasAlreadySent, CopyCost, FromNat;
  }

  lemma {:induction false} ShippedItemsCarryTheMoves(c: Config, sys: Sys, dst: Address, moves: seq<Move>, tokens: seq<Token>,
                                                     gas: nat, after: Sys, items: seq<Item>, left: nat)
    requires |moves| == |tokens| && forall i :: 0 <= i < |moves| ==> tokens[i].value == moves[i].value
    requires ShipAll(c, sys, dst, moves, tokens, gas) == Ok((after, items, left))
    ensures Carries(items, moves)
    ensures forall i :: 0 <= i < |items| && items[i].nonce == 0 ==> items[i].body.Amount?
    ensures forall i :: 0 <= i < |items| && items[i].nonce > 0 && items[i].body.Amount? ==>
                          |FromNat(items[i].body.value)| <= MAX_OPT_VALUE_LENGTH
  {
    hide ShipOne, FromNat;
    if moves != [] {
      var last := |moves| - 1;
      var (mid, some, rest) := ShipAll(c, sys, dst, moves[..last], tokens[..last], gas).value;
      ShippedItemsCarryTheMoves(c, sys, dst, moves[..last], tokens[..last], gas, mid, some, rest);
      var (end, item, spare) := ShipOne(c, mid, dst, moves[last], tokens[last], rest).value;
      ShipOneCarries(c, mid, dst, moves[last], tokens[last], rest, end, item, spare);
    }
  }

  /** The messages of a multi-transfer carry the moves of the call, in the forms that the length rule tells apart. */
  lemma MultiSendCarries(c: Config, sh: Shard, inp: Input, dst: Address, moves: seq<Move>, extra: seq<Bytes>, after: Shard, out: Output)
    requires !ToShard(c, dst) && MultiSend(c, sh, inp, dst, moves, extra) == Ok((after, out))
    ensures |out.sent| == 1 && out.sent[0].recipient == dst && out.sent[0].extra == extra
    ensures forall i :: 0 <= i < |moves| ==> moves[i].value > 0
    ensures moves != [] && Carries(out.sent[0].items, moves) && dst != inp.caller && |dst| == |inp.caller|
    ensures forall item <- out.sent[0].items :: Distinguishable(c.marshal, item)
              || (item.nonce > 0 && item.body.Payload? && |c.marshal(item.body.data)| <= MAX_OPT_VALUE_LENGTH)
  {
    hide SendAll, ShipAll, CheckPayable, IsSCCallAfter, CopyCost, FromNat, MoveOf;
    var (moved, tokens) := SendAll(c, sh, inp.caller, dst, moves, inp.retErr).value;
    SentTokensCarryTheMoves(c, sh, inp.caller, dst, moves, inp.retErr, moved, tokens);
    var gas := inp.gasProvided - MultiCost(c, |moves|);
    var (sys, items, left) := ShipAll(c, moved.sys, dst, moves, tokens, gas).value;
    ShippedItemsCarryTheMoves(c, moved.sys, dst, moves, tokens, gas, sys, items, left);
  }

  /** Marshalled tokens are longer than any amount. */
  predicate PayloadsAreLong(marshal: Marshal, items: seq<Item>) {
    forall item <- items :: item.body.Payload? ==> |marshal(item.body.data)| > MAX_OPT_VALUE_LENGTH
  }

  /**
   * Parsing the sender's arguments and parsing the shipped ones give the same receiver, tokens, nonces, values, function
   * and arguments exactly when the destination, read as a number, does not fit a 64-bit word; and what the destination
   * half then credits is exactly that.
   */
  lemma ShippingCommutesWithParsing(c: Config, unmarshal: Unmarshal, sh: Shard, inp: Input, args: seq<Bytes>,
                                    dst: Address, moves: seq<Move>, extra: seq<Bytes>, after: Shard, out: Output)
    requires Inverse(c.marshal, unmarshal) && MultiCallOf(args) == Ok((dst, moves, extra)) && !ToShard(c, dst)
    requires MultiSend(c, sh, inp, dst, moves, extra) == Ok((after, out))
    requires forall env <- out.sent :: PayloadsAreLong(c.marshal, env.items)
    ensures |out.sent| == 1
    ensures var shipped := MultiArgs(c.marshal, out.sent[0].items, extra);
            && (ParseMulti(unmarshal, inp.caller, args) == ParseMulti(unmarshal, dst, shipped) <==> ToNat(dst) >= TWO64)
            && ParseMulti(unmarshal, dst, shipped).Ok? && Says(ParseMulti(unmarshal, dst, shipped).value, dst, moves, extra)
            && MultiItemsOf(unmarshal, shipped) == Ok((out.sent[0].items, extra))
            && Carries(out.sent[0].items, moves)
  {
    hide MultiSend, ParseMulti, MultiArgs, Inverse, TransfersFrom, MultiItemsOf, ParsedCall, Says, ToNat, MovesFrom, OfMoves;
    MultiSendCarries(c, sh, inp, dst, moves, extra, after, out);
    var items := out.sent[0].items;
    forall i | 0 <= i < |items| ensures Distinguishable(c.marshal, items[i]) {
      assert items[i] in items && out.sent[0] in out.sent;
    }
    ParserReadsItems(c.marshal, unmarshal, dst, items, extra, moves);
    DestinationReadsItems(c.marshal, unmarshal, items, extra);
    if ToNat(dst) >= TWO64 {
      ParserReadsCall(unmarshal, inp.caller, args, dst, moves, extra);
    } else {
      ParserMissesAddress(unmarshal, inp.caller, args);
      SaysReceiver(ParseMulti(unmarshal, dst, MultiArgs(c.marshal, items, extra)).value, dst, moves, extra);
    }
  }

  lemma SaysReceiver(p: Parsed, receiver: Address, moves: seq<Move>, extra: seq<Bytes>)
    requires Says(p, receiver, moves, extra)
    ensures p.receiver == receiver
  {
  }

  /** An address that fits a word is taken for the count, and the caller for the receiver. */
  lemma ParserMissesAddress(unmarshal: Unmarshal, rcv: Address, args: seq<Bytes>)
    requires args != [] && ToNat(args[0]) < TWO64
    ensures ParseMulti(unmarshal, rcv, args).Ok? ==> ParseMulti(unmarshal, rcv, args).value.receiver == rcv
  {
    hide TransfersFrom;
  }

  lemma CallOfRest(receiver: Address, transfers: seq<Transfer>, args: seq<Bytes>, from: nat)
    requires from <= |args|
    ensures ParsedCall(receiver, transfers, args, from) == ParsedCall(receiver, transfers, args[from..], 0)
  {
  }

  lemma NftSendCarries(c: Config, sh: Shard, inp: Input, dst: Address, mv: Move, extra: seq<Bytes>, after: Shard, out: Output)
    requires !ToShard(c, dst) && NftSend(c, sh, inp, dst, mv, extra) == Ok((after, out))
    ensures |out.sent| == 1 && |out.sent[0].items| == 1 && MoveOf(out.sent[0].items[0]) == Some(mv)
    ensures mv.nonce > 0 && dst != inp.caller
  {
    hide SaveToken, ReadTokenOnSender, CheckLimitedTransfer, WasAlreadySent, CopyCost, AddToLiquidity, IsSCCallAfter;
  }

  /** For a single NFT the parser finds the same in both forms, for every destination but the caller itself. */
  lemma NftShippingCommutesWithParsing(c: Config, unmarshal: Unmarshal, sh: Shard, inp: Input, args: seq<Bytes>,
                                       dst: Address, mv: Move, extra: seq<Bytes>, after: Shard, out: Output)
    requires Inverse(c.marshal, unmarshal) && NftCallOf(args) == Ok((dst, mv, extra)) && !ToShard(c, dst)
    requires NftSend(c, sh, inp, dst, mv, extra) == Ok((after, out))
    requires forall tok: Token :: c.marshal(tok) != [0]
    ensures |out.sent| == 1 && |out.sent[0].items| == 1
    ensures var item := out.sent[0].items[0];
            var shipped := NftArgs(c.marshal, args, item);
            && ParseNft(inp.caller, inp.caller, args) == ParseNft(inp.caller, dst, shipped)
            && ParseNft(inp.caller, dst, shipped).Ok? && Says(ParseNft(inp.caller, dst, shipped).value, dst, [mv], extra)
            && NftItemOf(unmarshal, shipped) == Ok((item, extra))
            && MoveOf(item) == Some(mv)
  {
    hide NftSend, NftItemOf, ToNat, Inverse;
    NftSendCarries(c, sh, inp, dst, mv, extra, after, out);
    var item := out.sent[0].items[0];
    var shipped := NftArgs(c.marshal, args, item);
    DestinationReadsNft(c.marshal, unmarshal, args, item);
    assert shipped[..3] == args[..3] && shipped[4..] == args[4..] == extra;
    CallOfRest(dst, [OfMove(mv)], args, 4);
    CallOfRest(dst, [OfMove(mv)], shipped, 4);
    OneMove(mv);
    ParsedCallSays(dst, [mv], extra);
    hide ParsedCall, Says;
    assert shipped[0] == shipped[..3][0] && shipped[1] == shipped[..3][1] && shipped[2] == shipped[..3][2];
  }

  /** A fungible transfer ships its arguments unchanged: the parser finds in them what is debited, sent and credited. */
  lemma FungibleShippingCommutesWithParsing(c: Config, sh: Shard, inp: Input, args: seq<Bytes>, dst: Address,
                                            t: Bytes, value: nat, extra: seq<Bytes>, after: Shard, out: Output)
    requires FungibleCallOf(args) == Ok((t, value, extra)) && !ToShard(c, dst)
    requires FungibleSend(c, sh, inp, dst, t, value, extra) == Ok((after, out))
    ensures |out.sent| == 1 && FungibleItemsOf(args) == Ok((out.sent[0].items, out.sent[0].extra))
    ensures out.sent[0].recipient == dst && ParseFungible(dst, args).Ok?
    ensures Says(ParseFungible(dst, args).value, dst, [Move(t, 0, value)], extra)
    ensures Carries(out.sent[0].items, [Move(t, 0, value)])
  {
    hide AddToBalance, CheckLimitedTransfer, CheckPayable, IsSCCallAfter, ToNat;
    CallOfRest(dst, [OfMove(Move(t, 0, value))], args, 2);
    OneMove(Move(t, 0, value));
    ParsedCallSays(dst, [Move(t, 0, value)], extra);
    hide ParsedCall, Says;
  }

  /** Through the text that travels, too: name and arguments are read as they were written. */
  lemma MessageTextRoundTrip(c: Config, unmarshal: Unmarshal, name: Bytes, items: seq<Item>, extra: seq<Bytes>)
    requires Inverse(c.marshal, unmarshal) && name != [] && Seqs.Free(name, Hex.AT)
    requires items != [] && 3 * |items| + 1 < TWO64
    requires forall i :: 0 <= i < |items| ==> Distinguishable(c.marshal, items[i])
    ensures Parse(Text(name, MultiArgs(c.marshal, items, extra))).Ok?
    ensures var (f, args) := Parse(Text(name, MultiArgs(c.marshal, items, extra))).value;
            f == name && MultiItemsOf(unmarshal, args) == Ok((items, extra))
  {
    hide Parse, Text, MultiItemsOf, MultiArgs, Inverse, Distinguishable;
    CallRoundTrip(name, MultiArgs(c.marshal, items, extra));
    DestinationReadsItems(c.marshal, unmarshal, items, extra);
  }
}
