/**
 * Concrete runs that the theorems about runs speak of. An account is granted the right to create, creates an NFT and
 * sends it to another shard, where it arrives: under either protocol for metadata. They show that the hypotheses of the
 * theorems can be met by runs in which something happens.
 */
module SampleRun {
  import opened Bytes
  import opened Keys
  import opened Wrappers
  import opened Ledger
  import opened Operations
  import opened World
  import Liquidity
  import LiveCounters
  import Bitmap
  import Barrier
  import BarrierRuns
  import Freshness
  import Nonces
  import Totals
  import Seqs
  import CreatorAccounts

  const CREATOR: Address := [0]
  const RECEIVER: Address := [1]
  const BYSTANDER: Address := [2]
  const TOKEN: Bytes := [0x41, 0x42, 0x43, 0x2d, 0x30, 0x31, 0x32, 0x33, 0x34, 0x35]

  const FREE := Costs(0, 0, 0, 0, 0, 0, 0, 0, 0, 0, 0, 0)

  /** Two shards, the creator in one and everybody else in the other; everything is free and payable. */
  function TwoShards(marshal: Token -> Bytes, always: bool): Config {
    Config(Flags(true, always, true, true, true, true, true, true, true, true, true, true), FREE, 0, 2,
           (a: Address) => if a == CREATOR then 0 else 1, [9], [], 10000, 100, marshal, (a, b) => true)
  }

  const EMPTY := Shard(map[], map[], map[], map[], map[])

  function Start(): World {
    World([EMPTY, EMPTY], [])
  }

  function FromCreator(): Input {
    Input(CREATOR, 0, DirectCall, false)
  }

  function MakeOne(): Creation {
    Creation(TOKEN, [1], [], 0, [], [], [], 0)
  }

  function Made(): MetaData {
    MetaData(1, [], CREATOR, 0, [], [], [])
  }

  function Steps(): seq<Action> {
    [Run(0, RolesCall(CREATOR, TOKEN, [Role.NFTCreate], [], true)),
     Run(0, CreateCall(FromCreator(), CREATOR, MakeOne())),
     Run(0, MultiCall(FromCreator(), RECEIVER, [Move(TOKEN, 1, 1)], [])),
     Arrive(0, 0)]
  }

  function Key(): Bytes {
    TokenKey(TOKEN, 1)
  }

  /** The entry of the token: with its counter, or with the bits of the shards that know it. */
  function EntryOf(always: bool, bits: Bytes): SysValue {
    if always then Entry(Token(NonFungible, 1, [], Some(Made()), [1])) else Entry(Token(NonFungible, 0, bits, Some(Made()), []))
  }

  function Granted(): Shard {
    Shard(map[], map[], map[(CREATOR, TOKEN) := [Role.NFTCreate]], map[TOKEN := []], map[(CREATOR, TOKEN) := 0])
  }

  /** The first shard with the token, while its creator holds it. */
  function WithToken(always: bool): Shard {
    Granted().(users := map[(CREATOR, Key()) := Token(NonFungible, 1, [], None, [])],
               sys := map[Key() := EntryOf(always, [1, 0])], nonces := map[(CREATOR, TOKEN) := 1])
  }

  lemma TokenIsValid()
    ensures ValidToken(TOKEN) && Key() != TOKEN && ToNat([1]) == 1 && FromNat(1) == [1]
  {
    assert ToNat([1]) == 256 * ToNat([]) + 1;
    assert FromNat(1) == FromNat(0) + [1];
    assert |Key()| == 11;
  }

  lemma Creates(marshal: Token -> Bytes, always: bool)
    ensures Create(TwoShards(marshal, always), Granted(), FromCreator(), CREATOR, MakeOne()) == Ok((WithToken(always), NO_OUTPUT))
  {
    hide ValidToken, ToNat, FromNat, TokenKey;
    TokenIsValid();
    var c, sh := TwoShards(marshal, always), Granted();
    assert NextNonce(sh, CREATOR, TOKEN) == 1;
    var tok := Token(NonFungible, 1, [], Some(Made()), []);
    var entry := if always then Token(NonFungible, 0, [], Some(Made()), [1]) else Token(NonFungible, 0, [1, 0], Some(Made()), []);
    assert Mark(Mark(Zeros(2), 0), 0) == [1, 0];
    assert SaveMeta(c, sh.sys, Some(None), 0, Key(), 1, tok, true) == Ok(map[Key() := Entry(entry)]);
    var saved := sh.(users := WithToken(always).users, sys := map[Key() := Entry(entry)]);
    assert SaveToken(c, sh, CREATOR, CREATOR, TOKEN, 1, tok, true, false) == Ok(saved);
    assert always ==> saved.sys[Key() := WithToken(always).sys[Key()]] == WithToken(always).sys;
    assert AddToLiquidity(c, saved.sys, TOKEN, 1, 1) == Ok(WithToken(always).sys);
    assert sh.nonces[(CREATOR, TOKEN) := 1] == WithToken(always).nonces;
  }

  /** The first shard after the token left: its counter is gone, or the bit of the other shard is set. */
  function WithoutToken(always: bool): Shard {
    WithToken(always).(users := map[], sys := if always then map[] else map[Key() := EntryOf(always, [1, 1])])
  }

  /** Its system account before the token is shipped. */
  function BeforeShipping(always: bool): Sys {
    if always then map[] else WithToken(always).sys
  }

  function Carried(): Token {
    Token(NonFungible, 1, [], Some(Made()), [])
  }

  function Message(): Envelope {
    Envelope(ByMultiTransfer, CREATOR, RECEIVER, [Item(TOKEN, 1, Payload(Carried()))], [], DirectCall, false)
  }

  lemma SendsTheToken(marshal: Token -> Bytes, always: bool)
    ensures SendOne(TwoShards(marshal, always), WithToken(always), CREATOR, RECEIVER, Move(TOKEN, 1, 1), false)
            == Ok((WithToken(always).(users := map[], sys := BeforeShipping(always)), Carried()))
  {
    hide ValidToken, ToNat, FromNat, TokenKey;
    TokenIsValid();
    var c, sh, mv := TwoShards(marshal, always), WithToken(always), Move(TOKEN, 1, 1);
    assert ReadTokenOnSender(c, sh, CREATOR, TOKEN, 1) == Ok(Carried());
    var debited := sh.(users := map[]);
    assert Remove(sh.users, CREATOR, Key()) == map[];
    assert SaveToken(c, sh, CREATOR, CREATOR, TOKEN, 1, Carried().(value := 0), false, false) == Ok(debited);
    assert sh.sys - {Key()} == map[];
    assert AddToLiquidity(c, debited.sys, TOKEN, 1, -1) == Ok(BeforeShipping(always));
  }

  lemma ShipsTheToken(marshal: Token -> Bytes, always: bool)
    ensures ShipOne(TwoShards(marshal, always), BeforeShipping(always), RECEIVER, Move(TOKEN, 1, 1), Carried(), 0)
            == Ok((WithoutToken(always).sys, Item(TOKEN, 1, Payload(Carried())), 0))
  {
    hide TokenKey, FromNat;
    if !always {
      assert Pad([1, 0], 2) == [1, 0] && Mark([1, 0], 1) == [1, 1];
      assert BeforeShipping(always)[Key() := EntryOf(always, [1, 1])] == WithoutToken(always).sys;
    }
  }

  lemma Sends(marshal: Token -> Bytes, always: bool)
    ensures MultiSend(TwoShards(marshal, always), WithToken(always), FromCreator(), RECEIVER, [Move(TOKEN, 1, 1)], [])
            == Ok((WithoutToken(always), Output(0, 0, [Message()])))
  {
    SendsTheToken(marshal, always);
    ShipsTheToken(marshal, always);
    hide SendOne, ShipOne, WithToken, WithoutToken, BeforeShipping;
    var c, sh, mv, item := TwoShards(marshal, always), WithToken(always), Move(TOKEN, 1, 1), Message().items[0];
    var moved := sh.(users := map[], sys := BeforeShipping(always));
    assert [mv][..0] == [] && [Carried()][..0] == [] && [] + [Carried()] == [Carried()] && [] + [item] == [item];
    assert SendAll(c, sh, CREATOR, RECEIVER, [], false) == Ok((sh, []));
    assert SendAll(c, sh, CREATOR, RECEIVER, [mv], false) == Ok((moved, [Carried()]));
    assert ShipAll(c, moved.sys, RECEIVER, [], [], 0) == Ok((moved.sys, [], 0));
    assert ShipAll(c, moved.sys, RECEIVER, [mv], [Carried()], 0) == Ok((WithoutToken(always).sys, [item], 0));
    LeavesTheRest(always);
  }

  lemma LeavesTheRest(always: bool)
    ensures WithoutToken(always) == WithToken(always).(users := map[], sys := WithoutToken(always).sys)
  {
  }

  /** The second shard after the token arrived. */
  function Arrived(always: bool): Shard {
    EMPTY.(users := map[(RECEIVER, Key()) := Token(NonFungible, 1, [], None, [])], sys := map[Key() := EntryOf(always, [1, 1])])
  }

  lemma CreditsTheToken(marshal: Token -> Bytes, always: bool)
    ensures CreditOne(At(TwoShards(marshal, always), 1), EMPTY, Message(), Message().items[0]) == Ok(Arrived(always))
  {
    hide ValidToken, ToNat, FromNat, TokenKey;
    TokenIsValid();
    var c := At(TwoShards(marshal, always), 1);
    var entry := if always then Token(NonFungible, 0, [], Some(Made()), [1]) else Token(NonFungible, 0, [1, 1], Some(Made()), []);
    assert Mark(Mark(Zeros(2), 1), 0) == [1, 1];
    assert SaveMeta(c, map[], Some(None), 0, Key(), 1, Carried(), false) == Ok(map[Key() := Entry(entry)]);
    var saved := EMPTY.(users := Arrived(always).users, sys := map[Key() := Entry(entry)]);
    assert SaveToken(c, EMPTY, CREATOR, RECEIVER, TOKEN, 1, Carried(), false, false) == Ok(saved);
    assert always ==> saved.sys[Key() := Arrived(always).sys[Key()]] == Arrived(always).sys;
    assert AddToLiquidity(c, saved.sys, TOKEN, 1, 1) == Ok(Arrived(always).sys);
  }

  lemma Delivers(marshal: Token -> Bytes, always: bool)
    ensures Deliver(At(TwoShards(marshal, always), 1), EMPTY, Message(), 0) == Ok((Arrived(always), NO_OUTPUT))
  {
    var c := At(TwoShards(marshal, always), 1);
    CreditsTheToken(marshal, always);
    hide CreditOne;
    var items := Message().items;
    assert items[..0] == [];
    assert CreditAll(c, EMPTY, Message(), []) == Ok(EMPTY);
    assert CreditAll(c, EMPTY, Message(), items) == Ok(Arrived(always));
  }

  function AfterGrant(): World {
    World([Granted(), EMPTY], [])
  }

  function AfterCreate(always: bool): World {
    World([WithToken(always), EMPTY], [])
  }

  function AfterSend(always: bool): World {
    World([WithoutToken(always), EMPTY], [Message()])
  }

  function Done(always: bool): World {
    World([WithoutToken(always), Arrived(always)], [])
  }

  lemma RightIsGranted(marshal: Token -> Bytes, always: bool)
    ensures Next(TwoShards(marshal, always), Start(), Steps()[0]) == Some(AfterGrant())
  {
    assert EMPTY.roles[(CREATOR, TOKEN) := [Role.NFTCreate]] == Granted().roles;
    assert EMPTY.transferRole[TOKEN := []] == Granted().transferRole && EMPTY.nonces[(CREATOR, TOKEN) := 0] == Granted().nonces;
    assert Start().shards[0 := Granted()] == AfterGrant().shards && Start().net + [] == [];
  }

  lemma TokenIsCreated(marshal: Token -> Bytes, always: bool)
    ensures Next(TwoShards(marshal, always), AfterGrant(), Steps()[1]) == Some(AfterCreate(always))
  {
    hide Create, TokenKey, ValidToken;
    Creates(marshal, always);
    assert At(TwoShards(marshal, always), 0) == TwoShards(marshal, always);
    assert AfterGrant().shards[0 := WithToken(always)] == AfterCreate(always).shards && AfterGrant().net + [] == [];
  }

  lemma TokenIsSent(marshal: Token -> Bytes, always: bool)
    ensures Next(TwoShards(marshal, always), AfterCreate(always), Steps()[2]) == Some(AfterSend(always))
  {
    hide MultiSend, TokenKey, ValidToken;
    Sends(marshal, always);
    assert At(TwoShards(marshal, always), 0) == TwoShards(marshal, always);
    assert AfterCreate(always).shards[0 := WithoutToken(always)] == AfterSend(always).shards;
    assert AfterCreate(always).net + [Message()] == [Message()];
  }

  lemma TokenArrives(marshal: Token -> Bytes, always: bool)
    ensures Next(TwoShards(marshal, always), AfterSend(always), Steps()[3]) == Some(Done(always))
  {
    hide Deliver, TokenKey, WithoutToken, Arrived;
    Delivers(marshal, always);
    assert AfterSend(always).shards[1 := Arrived(always)] == Done(always).shards && Without(AfterSend(always).net, 0) == [];
  }

  lemma OneStepMore(c: Config, w: World, acts: seq<Action>, act: Action, v: World, after: World)
    requires Reach(c, w, acts) == Some(v) && Next(c, v, act) == Some(after)
    ensures Reach(c, w, acts + [act]) == Some(after)
  {
    hide Next;
    assert (acts + [act])[..|acts|] == acts;
  }

  /** The run starts at genesis and ends with the token in the other shard and nothing on its way. */
  lemma TheRunIsPossible(marshal: Token -> Bytes, always: bool)
    ensures Genesis(Start()) && Reach(TwoShards(marshal, always), Start(), Steps()) == Some(Done(always))
  {
    RightIsGranted(marshal, always);
    TokenIsCreated(marshal, always);
    TokenIsSent(marshal, always);
    TokenArrives(marshal, always);
    hide Next, AfterGrant, AfterCreate, AfterSend, Done;
    var c, acts := TwoShards(marshal, always), Steps();
    OneStepMore(c, Start(), [], acts[0], Start(), AfterGrant());
    OneStepMore(c, Start(), [] + [acts[0]], acts[1], AfterGrant(), AfterCreate(always));
    OneStepMore(c, Start(), [] + [acts[0]] + [acts[1]], acts[2], AfterCreate(always), AfterSend(always));
    OneStepMore(c, Start(), [] + [acts[0]] + [acts[1]] + [acts[2]], acts[3], AfterSend(always), Done(always));
    assert [] + [acts[0]] + [acts[1]] + [acts[2]] + [acts[3]] == acts;
  }

  // ---- the run meets the hypotheses ----

  lemma EventsOfTheRun(t: Bytes)
    ensures Freshness.EventsOf(Steps(), t) == if t == TOKEN then [Nonces.Grant(CREATOR), Nonces.Mint(CREATOR)] else []
  {
    var acts := Steps();
    assert acts[..3] == [acts[0], acts[1], acts[2]] && acts[..3][..2] == [acts[0], acts[1]] && acts[..3][..2][..1] == [acts[0]];
    assert Freshness.EventsOf([acts[0]], t) == if t == TOKEN then [Nonces.Grant(CREATOR)] else [] by { assert [acts[0]][..0] == []; }
    assert Freshness.EventsOf([acts[0], acts[1]], t) == if t == TOKEN then [Nonces.Grant(CREATOR), Nonces.Mint(CREATOR)] else [] by {
      assert [acts[0], acts[1]][..1] == [acts[0]];
    }
  }

  lemma EventsAreOrderly()
    ensures Nonces.Orderly([Nonces.Grant(CREATOR), Nonces.Mint(CREATOR)])
    ensures Nonces.WithinRanges([Nonces.Grant(CREATOR), Nonces.Mint(CREATOR)])
  {
    var one, two := [Nonces.Grant(CREATOR)], [Nonces.Grant(CREATOR), Nonces.Mint(CREATOR)];
    assert one[..0] == [] && two[..1] == one;
    assert Nonces.Ranges(one) == map[CREATOR := 0];
    forall range: byte ensures Nonces.Used(two, range) <= CreatorAccounts.PER_RANGE {
      assert Nonces.Used(one, range) == 0;
    }
  }

  lemma NoEventsAreOrderly()
    ensures Nonces.Orderly([]) && Nonces.WithinRanges([])
  {
  }

  lemma TheRunIsProper(marshal: Token -> Bytes, always: bool)
    ensures Freshness.ProperRun(TwoShards(marshal, always), Steps()) && Freshness.InOrder(Steps())
    ensures Bitmap.AllowedRun(true, TwoShards(marshal, always), Steps())
  {
    hide ValidToken, Nonces.Orderly, Nonces.WithinRanges, Freshness.EventsOf;
    TokenIsValid();
    EventsAreOrderly();
    NoEventsAreOrderly();
    forall t | ValidToken(t)
      ensures Nonces.Orderly(Freshness.EventsOf(Steps(), t)) && Nonces.WithinRanges(Freshness.EventsOf(Steps(), t))
    {
      EventsOfTheRun(t);
    }
  }

  /** Where nothing is called, no metadata is overwritten. */
  lemma {:induction false} QuietShardIsLive(c: Config, w: World, acts: seq<Action>, s: nat, key: Bytes)
    requires forall i :: 0 <= i < |acts| && acts[i].Run? ==> acts[i].shard != s
    ensures LiveCounters.LiveRun(c, w, acts, s, key)
  {
    if acts != [] {
      hide Reach;
      QuietShardIsLive(c, w, acts[..|acts| - 1], s, key);
    }
  }

  /** The theorems on freshness and liquidity speak of this run; its last state has a live counter. */
  lemma LiquidityHypotheses(marshal: Token -> Bytes)
    ensures var c := TwoShards(marshal, true);
      && Liquidity.Active(c) && Genesis(Start()) && Reach(c, Start(), Steps()) == Some(Done(true))
      && Freshness.ProperRun(c, Steps()) && Freshness.InOrder(Steps()) && Liquidity.AllowedRun(c, Start(), Steps())
      && LiveCounters.LiveRun(c, Start(), Steps(), 1, Key()) && Done(true).shards[1].sys[Key()].token.reserved != []
  {
    QuietShardIsLive(TwoShards(marshal, true), Start(), Steps(), 1, Key());
    hide LiveCounters.LiveRun, Reach, Genesis, Freshness.ProperRun, Freshness.InOrder, Liquidity.AllowedRun;
    TheRunIsPossible(marshal, true);
    TheRunIsProper(marshal, true);
    Freshness.ProperRunIsAllowed(TwoShards(marshal, true), Start(), Steps(), Done(true));
  }

  /** The theorems on the bitmap speak of it, too; in its last state each shard knows that the other has the metadata. */
  lemma BitmapHypotheses(marshal: Token -> Bytes)
    ensures var c := TwoShards(marshal, false);
      && Bitmap.Active(c) && Genesis(Start()) && Bitmap.FewShards(Start()) && Reach(c, Start(), Steps()) == Some(Done(false))
      && Bitmap.AllowedRun(true, c, Steps()) && Bitmap.AllowedRun(false, c, Steps())
      && Bitmap.Bit(Done(false).shards[0].sys, Key(), 1) && Bitmap.Bit(Done(false).shards[1].sys, Key(), 0)
  {
    hide Reach, Genesis, Freshness.InOrder, ValidToken;
    TheRunIsPossible(marshal, false);
    TheRunIsProper(marshal, false);
  }

  // ---- a return to another account does not end a freeze or a pause ----

  function FrozenShard(): Shard {
    EMPTY.(users := map[(RECEIVER, Key()) := Token(NonFungible, 1, [1, 0], None, [])], sys := map[TOKEN := Settings(true, false, false)])
  }

  function Return(): Envelope {
    Envelope(ByTransfer, CREATOR, BYSTANDER, [Item(TOKEN, 0, Amount(5))], [], DirectCall, true)
  }

  lemma ReturnIsDelivered(marshal: Token -> Bytes)
    ensures Deliver(At(TwoShards(marshal, true), 1), FrozenShard(), Return(), 0).Ok?
  {
    var c, sh, env := At(TwoShards(marshal, true), 1), FrozenShard(), Return();
    assert env.items[..0] == [];
    assert CreditAll(c, sh, env, []) == Ok(sh);
    assert CreditOne(c, sh, env, env.items[0]).Ok?;
  }

  /** A return arrives in the shard of a frozen holding of a paused token: the theorems on whole runs still apply. */
  lemma BarrierHypotheses(marshal: Token -> Bytes)
    ensures var c, w := TwoShards(marshal, true), World([EMPTY, FrozenShard()], [Return()]);
      && Barrier.IsFrozen(w.shards[1].users, RECEIVER, Key()) && IsPaused(w.shards[1].sys, TOKEN) && RECEIVER != c.dctSC
      && Reach(c, w, [Arrive(0, 0)]).Some?
      && BarrierRuns.FrozenRun(c, w, [Arrive(0, 0)], 1, RECEIVER, Key())
      && BarrierRuns.PausedRun(c, w, [Arrive(0, 0)], 1, RECEIVER, TOKEN, 1)
  {
    hide Deliver, ValidToken, TokenKey;
    TokenIsValid();
    ReturnIsDelivered(marshal);
    var c, w, acts := TwoShards(marshal, true), World([EMPTY, FrozenShard()], [Return()]), [Arrive(0, 0)];
    assert acts[..0] == [];
    assert Reach(c, w, []) == Some(w);
  }

  // ---- a wiped nonce with a dash ----

  function DashedKey(): Bytes {
    TokenKey(TOKEN, 45)
  }

  function Dashed(): Shard {
    var entry := Token(NonFungible, 1, [], Some(Made().(nonce := 45)), [1]);
    EMPTY.(users := map[(RECEIVER, DashedKey()) := Token(NonFungible, 1, [1, 0], None, [])], sys := map[DashedKey() := Entry(entry)])
  }

  lemma DashedSplit()
    ensures ValidToken(TOKEN) && FromNat(45) == [DASH] && ExtractForWipe(DashedKey()) == (DashedKey(), 0)
  {
    TokenIsValid();
    assert FromNat(45) == FromNat(0) + [45];
    ExtractFromKey(TOKEN, 45);
    Seqs.FirstIndexIs(FromNat(45), DASH, 0);
  }

  /** The frozen holding of nonce 45 is wiped, and the counter of the token still says 1. */
  lemma DashedWipeLeavesItsCounter(marshal: Token -> Bytes)
    ensures Liquidity.Agrees(Dashed())
    ensures Wipe(At(TwoShards(marshal, true), 1), Dashed(), RECEIVER, DashedKey()) == Ok(Dashed().(users := map[]))
    ensures !Liquidity.Agrees(Dashed().(users := map[]))
  {
    DashedSplit();
    DashedAgrees();
    hide ExtractForWipe, TokenKey, ValidToken, FromNat, Liquidity.Agrees;
    var c := At(TwoShards(marshal, true), 1);
    assert Remove(Dashed().users, RECEIVER, DashedKey()) == map[];
    Liquidity.WipeAgreesExactly(c, Dashed(), RECEIVER, TOKEN, 45, Dashed().(users := map[]));
  }

  lemma OneHolderAgrees(sh: Shard, a: Address, key: Bytes, own: Token, entry: Token)
    requires sh.users == map[(a, key) := own] && sh.sys == map[key := Entry(entry)]
    requires own.value == entry.value > 0 && own.meta.None? && entry.meta.Some?
    ensures Liquidity.Agrees(sh)
  {
    hide IsNftKey;
    var none: Users := map[];
    assert sh.users == none[(a, key) := own];
    Totals.TotalPut(none, a, key, own);
  }

  lemma DashedAgrees()
    ensures Liquidity.Agrees(Dashed())
  {
    hide TokenKey, Liquidity.Agrees;
    var own, entry := Dashed().users[(RECEIVER, DashedKey())], Dashed().sys[DashedKey()].token;
    OneHolderAgrees(Dashed(), RECEIVER, DashedKey(), own, entry);
  }
}
