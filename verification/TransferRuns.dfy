/**
 * Whole runs: every multi-transfer in flight is told apart correctly by the length rule, so that every message is read
 * as it was meant, without any assumption on the message itself. Under either protocol for metadata.
 */
module TransferRuns {
  import opened Bytes
  import opened Wrappers
  import opened Ledger
  import opened Operations
  import opened World
  import opened TransferArgs
  import opened TransferParser
  import Liquidity
  import Bitmap

  /** The codec reads back what it wrote, and a token with metadata takes more than 32 bytes. */
  ghost predicate CodecWorks(c: Config, unmarshal: Unmarshal) {
    Inverse(c.marshal, unmarshal) && LongWithMetadata(c)
  }

  ghost predicate LongWithMetadata(c: Config) {
    forall tok: Token :: tok.meta.Some? ==> |c.marshal(tok)| > MAX_OPT_VALUE_LENGTH
  }

  // ---- the shape of messages, under any protocol ----

  predicate WellShapedItem(item: Item) {
    && item.Value() > 0
    && (item.nonce == 0 ==> item.body.Amount?)
    && (item.nonce > 0 && item.body.Amount? ==> |FromNat(item.body.value)| <= MAX_OPT_VALUE_LENGTH)
  }

  predicate WellShaped(env: Envelope) {
    env.carrier == ByMultiTransfer ==> forall i :: 0 <= i < |env.items| ==> WellShapedItem(env.items[i])
  }

  predicate WellShapedNet(net: seq<Envelope>) {
    forall i :: 0 <= i < |net| ==> WellShaped(net[i])
  }

  lemma MultiSendIsWellShaped(c: Config, sh: Shard, inp: Input, dst: Address, moves: seq<Move>, extra: seq<Bytes>, after: Shard, out: Output)
    requires MultiSend(c, sh, inp, dst, moves, extra) == Ok((after, out))
    ensures WellShapedNet(out.sent)
  {
    if !ToShard(c, dst) {
      hide MultiSend, FromNat;
      MultiSendCarries(c, sh, inp, dst, moves, extra, after, out);
      var env := out.sent[0];
      forall i | 0 <= i < |env.items| ensures WellShapedItem(env.items[i]) {
        assert env.items[i] in env.items && MoveOf(env.items[i]) == Some(moves[i]) && moves[i].value > 0;
      }
    }
  }

  lemma OnlyMultiTransfersCarryLists(c: Config, sh: Shard, call: Call, after: Shard, out: Output)
    requires Execute(c, sh, call) == Ok((after, out)) && !call.MultiCall?
    ensures WellShapedNet(out.sent)
  {
    hide MultiSend, NftSendOne, NftShip, AddToBalance, SaveToken, AddToLiquidity, ReadToken, HasRole;
    hide CheckLimitedTransfer, CheckPayable, CheckDestination, IsSCCallAfter, WellShapedItem;
  }

  lemma StepKeepsShape(c: Config, w: World, act: Action, after: World)
    requires Next(c, w, act) == Some(after) && WellShapedNet(w.net)
    ensures WellShapedNet(after.net)
  {
    hide Execute, Deliver, SaveMetaOfMessage, IsNext, WellShapedItem;
    match act
    case Run(s, call) =>
      var (sh, out) := Execute(At(c, s), w.shards[s], call).value;
      if call.MultiCall? {
        MultiIsExecuted(At(c, s), w.shards[s], call);
        MultiSendIsWellShaped(At(c, s), w.shards[s], call.inp, call.dst, call.moves, call.extra, sh, out);
      } else {
        OnlyMultiTransfersCarryLists(At(c, s), w.shards[s], call, sh, out);
      }
    case Arrive(i, gas) =>
      assert WellShaped(w.net[i]) && WellShaped(Bounce(w.net[i]));
    case HandOver(from, to, t) =>
      HandOverKeepsTokens(c, w, from, to, t, after);
  }

  lemma MultiIsExecuted(c: Config, sh: Shard, call: Call)
    requires call.MultiCall?
    ensures Execute(c, sh, call) == MultiSend(c, sh, call.inp, call.dst, call.moves, call.extra)
  {
  }

  /** In every run, every item of a multi-transfer in flight carries a positive amount in an admissible form. */
  lemma {:induction false} RunKeepsShape(c: Config, w: World, acts: seq<Action>, after: World)
    requires WellShapedNet(w.net) && Reach(c, w, acts) == Some(after)
    ensures WellShapedNet(after.net)
  {
    hide Next, WellShaped;
    if acts != [] {
      var last := |acts| - 1;
      var v := Reach(c, w, acts[..last]).value;
      RunKeepsShape(c, w, acts[..last], v);
      StepKeepsShape(c, v, acts[last], after);
    }
  }

  // ---- with metadata in every payload, items are told apart ----

  /** A payload of a positive amount has metadata: both protocols see to that. */
  predicate PayloadHasMetadata(item: Item) {
    item.nonce > 0 && item.Value() > 0 && item.body.Payload? ==> item.body.data.meta.Some?
  }

  predicate PayloadsHaveMetadata(env: Envelope) {
    forall i :: 0 <= i < |env.items| ==> PayloadHasMetadata(env.items[i])
  }

  lemma ShapedAreDistinguishable(c: Config, env: Envelope)
    requires LongWithMetadata(c) && env.carrier == ByMultiTransfer && WellShaped(env) && PayloadsHaveMetadata(env)
    ensures forall i :: 0 <= i < |env.items| ==> Distinguishable(c.marshal, env.items[i])
    ensures PayloadsAreLong(c.marshal, env.items)
  {
    hide FromNat;
    forall i | 0 <= i < |env.items|
      ensures Distinguishable(c.marshal, env.items[i])
      ensures env.items[i].body.Payload? ==> |c.marshal(env.items[i].body.data)| > MAX_OPT_VALUE_LENGTH
    {
      assert WellShapedItem(env.items[i]) && PayloadHasMetadata(env.items[i]);
    }
  }

  /** A well-shaped multi-transfer is read by its destination as exactly its items. */
  lemma ReadsBack(c: Config, unmarshal: Unmarshal, env: Envelope)
    requires CodecWorks(c, unmarshal) && env.carrier == ByMultiTransfer && WellShaped(env) && PayloadsHaveMetadata(env)
    requires env.items != [] && 3 * |env.items| + 1 < TWO64
    ensures MultiItemsOf(unmarshal, MultiArgs(c.marshal, env.items, env.extra)) == Ok((env.items, env.extra))
  {
    hide MultiItemsOf, MultiArgs, Inverse, Distinguishable, WellShaped, PayloadsHaveMetadata;
    ShapedAreDistinguishable(c, env);
    DestinationReadsItems(c.marshal, unmarshal, env.items, env.extra);
  }

  lemma LiquidityPayloads(c: Config, env: Envelope)
    requires Liquidity.GoodEnvelope(c, env)
    ensures PayloadsHaveMetadata(env)
  {
    forall i | 0 <= i < |env.items| ensures PayloadHasMetadata(env.items[i]) {
      assert Liquidity.GoodItem(env.items[i]);
    }
  }

  lemma BitmapPayloads(c: Config, env: Envelope)
    requires Bitmap.GoodMessage(true, c, env)
    ensures PayloadsHaveMetadata(env)
  {
    forall i | 0 <= i < |env.items| ensures PayloadHasMetadata(env.items[i]) {
      assert Bitmap.GoodItem(true, env.items[i]);
    }
  }

  lemma GenesisIsWellShaped(w: World)
    requires Genesis(w)
    ensures WellShapedNet(w.net)
  {
  }

  /** Liquidity protocol: every multi-transfer in flight at any time of any run is read as exactly its items. */
  lemma InFlightReadBackWithLiquidity(c: Config, unmarshal: Unmarshal, w: World, acts: seq<Action>, after: World, i: nat)
    requires CodecWorks(c, unmarshal) && Liquidity.Active(c) && Genesis(w)
    requires Liquidity.AllowedRun(c, w, acts) && Reach(c, w, acts) == Some(after)
    requires i < |after.net| && after.net[i].carrier == ByMultiTransfer
    requires after.net[i].items != [] && 3 * |after.net[i].items| + 1 < TWO64
    ensures var env := after.net[i];
            MultiItemsOf(unmarshal, MultiArgs(c.marshal, env.items, env.extra)) == Ok((env.items, env.extra))
  {
    hide MultiItemsOf, MultiArgs, CodecWorks, WellShaped, Liquidity.AllowedRun, Reach;
    Liquidity.GenesisAgrees(c, w);
    Liquidity.RunAgrees(c, w, acts, after);
    GenesisIsWellShaped(w);
    RunKeepsShape(c, w, acts, after);
    assert WellShaped(after.net[i]) && Liquidity.GoodEnvelope(c, after.net[i]);
    LiquidityPayloads(c, after.net[i]);
    ReadsBack(c, unmarshal, after.net[i]);
  }

  /** Bitmap protocol: the same, also where amounts travel without metadata. */
  lemma InFlightReadBackWithBitmap(c: Config, unmarshal: Unmarshal, w: World, acts: seq<Action>, after: World, i: nat)
    requires CodecWorks(c, unmarshal) && Bitmap.Active(c) && Genesis(w) && Bitmap.FewShards(w)
    requires Bitmap.AllowedRun(true, c, acts) && Reach(c, w, acts) == Some(after)
    requires i < |after.net| && after.net[i].carrier == ByMultiTransfer
    requires after.net[i].items != [] && 3 * |after.net[i].items| + 1 < TWO64
    ensures var env := after.net[i];
            MultiItemsOf(unmarshal, MultiArgs(c.marshal, env.items, env.extra)) == Ok((env.items, env.extra))
  {
    hide MultiItemsOf, MultiArgs, CodecWorks, WellShaped, Bitmap.AllowedRun, Reach, Bitmap.PairSafe, Bitmap.Sound;
    Bitmap.RunSafe(true, c, w, acts, after);
    GenesisIsWellShaped(w);
    RunKeepsShape(c, w, acts, after);
    assert WellShaped(after.net[i]) && Bitmap.GoodMessage(true, c, after.net[i]);
    BitmapPayloads(c, after.net[i]);
    ReadsBack(c, unmarshal, after.net[i]);
  }

  // ---- shipping commutes with parsing in every run ----

  /** What `ShippingCommutesWithParsing` says about one call. */
  ghost predicate Commutes(c: Config, unmarshal: Unmarshal, inp: Input, args: seq<Bytes>, dst: Address, moves: seq<Move>,
                           extra: seq<Bytes>, out: Output)
  {
    && |out.sent| == 1
    && var shipped := MultiArgs(c.marshal, out.sent[0].items, extra);
       && (ParseMulti(unmarshal, inp.caller, args) == ParseMulti(unmarshal, dst, shipped) <==> ToNat(dst) >= TWO64)
       && ParseMulti(unmarshal, dst, shipped).Ok? && Says(ParseMulti(unmarshal, dst, shipped).value, dst, moves, extra)
       && MultiItemsOf(unmarshal, shipped) == Ok((out.sent[0].items, extra))
       && Carries(out.sent[0].items, moves)
  }

  lemma WithMetadataItCommutes(c: Config, unmarshal: Unmarshal, sh: Shard, inp: Input, args: seq<Bytes>,
                               dst: Address, moves: seq<Move>, extra: seq<Bytes>, after: Shard, out: Output)
    requires CodecWorks(c, unmarshal) && MultiCallOf(args) == Ok((dst, moves, extra)) && !ToShard(c, dst)
    requires MultiSend(c, sh, inp, dst, moves, extra) == Ok((after, out))
    requires forall env <- out.sent :: PayloadsHaveMetadata(env)
    ensures Commutes(c, unmarshal, inp, args, dst, moves, extra, out)
  {
    MultiSendIsWellShaped(c, sh, inp, dst, moves, extra, after, out);
    IsMultiTransfer(c, sh, inp, dst, moves, extra, after, out);
    hide MultiSend, MultiItemsOf, MultiArgs, MultiCallOf, ParseMulti, Says, Inverse, PayloadsHaveMetadata, WellShaped;
    hide PayloadsAreLong, Distinguishable;
    assert out.sent[0] in out.sent && WellShaped(out.sent[0]);
    ShapedAreDistinguishable(c, out.sent[0]);
    ShippingCommutesWithParsing(c, unmarshal, sh, inp, args, dst, moves, extra, after, out);
  }

  lemma IsMultiTransfer(c: Config, sh: Shard, inp: Input, dst: Address, moves: seq<Move>, extra: seq<Bytes>, after: Shard, out: Output)
    requires !ToShard(c, dst) && MultiSend(c, sh, inp, dst, moves, extra) == Ok((after, out))
    ensures |out.sent| == 1 && out.sent[0].carrier == ByMultiTransfer
  {
    hide SendAll, ShipAll, CheckPayable, IsSCCallAfter, CheckDestination;
  }

  /** Liquidity protocol: in every state of every run, shipping a multi-transfer commutes with parsing it. */
  lemma CommutesWithLiquidity(c: Config, unmarshal: Unmarshal, w: World, acts: seq<Action>, v: World, s: nat,
                              inp: Input, args: seq<Bytes>, dst: Address, moves: seq<Move>, extra: seq<Bytes>,
                              after: Shard, out: Output)
    requires CodecWorks(c, unmarshal) && Liquidity.Active(c) && Genesis(w)
    requires Liquidity.AllowedRun(c, w, acts) && Reach(c, w, acts) == Some(v)
    requires s < |v.shards| && c.shardOf(inp.caller) == s && c.shardOf(dst) != s
    requires MultiCallOf(args) == Ok((dst, moves, extra)) && ValidTokens(MultiCall(inp, dst, moves, extra))
    requires MultiSend(At(c, s), v.shards[s], inp, dst, moves, extra) == Ok((after, out))
    ensures Commutes(c, unmarshal, inp, args, dst, moves, extra, out)
  {
    hide MultiSend, MultiItemsOf, MultiArgs, MultiCallOf, ParseMulti, Says, Inverse, Liquidity.AllowedRun, Liquidity.Agrees;
    Liquidity.GenesisAgrees(c, w);
    Liquidity.RunAgrees(c, w, acts, v);
    Liquidity.MultiSendAgrees(At(c, s), v.shards[s], inp, dst, moves, extra, after, out);
    forall env <- out.sent ensures PayloadsHaveMetadata(env) {
      LiquidityPayloads(At(c, s), env);
    }
    WithMetadataItCommutes(At(c, s), unmarshal, v.shards[s], inp, args, dst, moves, extra, after, out);
  }

  /** Bitmap protocol: the same. */
  lemma CommutesWithBitmap(c: Config, unmarshal: Unmarshal, w: World, acts: seq<Action>, v: World, s: nat,
                           inp: Input, args: seq<Bytes>, dst: Address, moves: seq<Move>, extra: seq<Bytes>,
                           after: Shard, out: Output)
    requires CodecWorks(c, unmarshal) && Bitmap.Active(c) && Genesis(w) && Bitmap.FewShards(w)
    requires Bitmap.AllowedRun(true, c, acts) && Reach(c, w, acts) == Some(v)
    requires s < |v.shards| && c.shardOf(inp.caller) == s && c.shardOf(dst) != s
    requires MultiCallOf(args) == Ok((dst, moves, extra)) && ValidTokens(MultiCall(inp, dst, moves, extra))
    requires MultiSend(At(c, s), v.shards[s], inp, dst, moves, extra) == Ok((after, out))
    ensures Commutes(c, unmarshal, inp, args, dst, moves, extra, out)
  {
    hide MultiSend, MultiItemsOf, MultiArgs, MultiCallOf, ParseMulti, Says, Inverse, Bitmap.AllowedRun;
    hide Bitmap.PairSafe, Bitmap.Sound, Bitmap.Shipped, Bitmap.Quiet;
    Bitmap.RunSafe(true, c, w, acts, v);
    var mid := Bitmap.MultiSendSends(true, At(c, s), v.shards[s], inp, dst, moves, extra, after, out);
    forall env <- out.sent ensures PayloadsHaveMetadata(env) {
      BitmapPayloads(At(c, s), env);
    }
    WithMetadataItCommutes(At(c, s), unmarshal, v.shards[s], inp, args, dst, moves, extra, after, out);
  }
}
