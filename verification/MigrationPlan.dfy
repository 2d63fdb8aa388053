/** The batches of a wallet migration (pkg/api/migration_handlers.go). */
module MigrationPlan {
  import opened Wrappers

  const GAS_PER_TRANSFER: nat := 50_000_000             // a twentieth of a Gram
  const MIN_GRAM_TRANSFER_FEE: nat := 500_000
  const SWEEP_MODE: bv8 := 130
  const DEFAULT_MODE: bv8 := 3
  const BATTERY_SPONSORSHIP_CAP: nat := 2_100_000_000
  const SPONSORED_BATCH_MAX_MESSAGES: nat := 42         // BATTERY_SPONSORSHIP_CAP / GAS_PER_TRANSFER

  datatype Cargo =
    | NftTransfer(item: nat)
    | JettonTransfer(wallet: nat, amount: int)
    | GramTransfer(amount: int)
    | Commission(terms: nat)

  datatype RawMessage = RawMessage(mode: bv8, to: nat, cargo: Cargo)

  datatype Batch = Batch(messages: seq<RawMessage>, sponsored: bool, commission: Option<int>)

  type Plan = seq<Batch>

  // ----- how much Gram a plan needs -----

  predicate GasFunded(m: RawMessage) {
    m.mode & 128 == 0
  }

  function GasFundedCount(messages: seq<RawMessage>): nat {
    if messages == [] then 0 else
    (if GasFunded(messages[0]) then 1 else 0) + GasFundedCount(messages[1..])
  }

  method GasFundedMessages(batch: Batch) returns (n: nat)
    ensures n == GasFundedCount(batch.messages)
  {
    n := 0;
    for i := 0 to |batch.messages|
      invariant n + GasFundedCount(batch.messages[i..]) == GasFundedCount(batch.messages)
    {
      assert batch.messages[i..][1..] == batch.messages[i + 1..];
      if GasFunded(batch.messages[i]) {
        n := n + 1;
      }
    }
  }

  function BatchGram(batch: Batch): nat {
    if batch.sponsored then 0 else GasFundedCount(batch.messages) * GAS_PER_TRANSFER
  }

  function MinGram(plan: Plan): nat {
    if plan == [] then 0 else BatchGram(plan[0]) + MinGram(plan[1..])
  }

  method MinGramBalanceRequired(plan: Plan) returns (res: nat)
    ensures res == MinGram(plan)
  {
    res := 0;
    for i := 0 to |plan|
      invariant res + MinGram(plan[i..]) == MinGram(plan)
    {
      assert plan[i..][1..] == plan[i + 1..];
      if !plan[i].sponsored {
        var n := GasFundedMessages(plan[i]);
        res := res + n * GAS_PER_TRANSFER;
      }
    }
  }

  // ----- chunking -----

  /** `batch` cut into pieces of `n` messages, the last one possibly shorter; nothing is left of an empty batch. */
  function Chunks(batch: Batch, n: nat): Plan
    requires n >= 1
    decreases |batch.messages|
  {
    if batch.messages == [] then [] else
    var cut := if |batch.messages| < n then |batch.messages| else n;
    [Batch(batch.messages[..cut], batch.sponsored, None)]
    + Chunks(batch.(messages := batch.messages[cut..]), n)
  }

  function ChunkedPlan(plan: Plan, n: nat): Plan
    requires n >= 1
  {
    if plan == [] then [] else Chunks(plan[0], n) + ChunkedPlan(plan[1..], n)
  }

  method Chunk(batch: Batch, n: nat) returns (batches: Plan)
    requires n >= 1
    ensures batches == Chunks(batch, n)
  {
    batches := [];
    var i := 0;
    while i < |batch.messages|
      invariant i <= |batch.messages|
      invariant batches + Chunks(batch.(messages := batch.messages[i..]), n) == Chunks(batch, n)
      decreases |batch.messages| - i
    {
      var end := if |batch.messages| - i < n then |batch.messages| else i + n;
      ChunkStep(batch, i, end, n);
      batches := batches + [Batch(batch.messages[i..end], batch.sponsored, None)];
      i := end;
    }
  }

  lemma ChunkStep(batch: Batch, i: nat, end: nat, n: nat)
    requires n >= 1 && i < |batch.messages| && end == if |batch.messages| - i < n then |batch.messages| else i + n
    ensures Chunks(batch.(messages := batch.messages[i..]), n)
         == [Batch(batch.messages[i..end], batch.sponsored, None)]
            + Chunks(batch.(messages := batch.messages[end..]), n)
  {
    var rest := batch.messages[i..];
    assert rest[..end - i] == batch.messages[i..end] && rest[end - i..] == batch.messages[end..];
  }

  /** The largest batch: what the wallet takes at once, or what the relay's gas cap covers; a commission takes a
      place. */
  function ChunkSize(maxMessageNumber: nat, relayFunded: bool, reserveCommissionSlot: bool): int {
    var reserved := if reserveCommissionSlot then 1 else 0;
    var size := maxMessageNumber - reserved;
    if relayFunded && SPONSORED_BATCH_MAX_MESSAGES - reserved < size
    then SPONSORED_BATCH_MAX_MESSAGES - reserved
    else size
  }

  /** One message more would not fit the wallet, or the relay's gas cap, with the commission's place kept free. */
  lemma ChunkSizeIsLargest(maxMessageNumber: nat, relayFunded: bool, reserveCommissionSlot: bool)
    requires maxMessageNumber >= 2
    ensures var n := ChunkSize(maxMessageNumber, relayFunded, reserveCommissionSlot);
            var sent := n + if reserveCommissionSlot then 1 else 0;
            && n >= 1 && sent <= maxMessageNumber
               && (relayFunded ==> sent * GAS_PER_TRANSFER <= BATTERY_SPONSORSHIP_CAP)
            && (sent + 1 > maxMessageNumber
                || (relayFunded && (sent + 1) * GAS_PER_TRANSFER > BATTERY_SPONSORSHIP_CAP))
  {
  }

  /** A wallet takes at least two messages at once. */
  method ChunkMigrationPlan(maxMessageNumber: nat, relayFunded: bool, reserveCommissionSlot: bool, plan: Plan)
    returns (chunked: Plan)
    requires maxMessageNumber >= 2
    ensures chunked == ChunkedPlan(plan, ChunkSize(maxMessageNumber, relayFunded, reserveCommissionSlot))
  {
    var chunkSize := ChunkSize(maxMessageNumber, relayFunded, reserveCommissionSlot);
    chunked := [];
    assert plan[0..] == plan;
    for i := 0 to |plan|
      invariant chunked + ChunkedPlan(plan[i..], chunkSize) == ChunkedPlan(plan, chunkSize)
    {
      var pieces := Chunk(plan[i], chunkSize);
      ChunkedPlanStep(chunked, plan, i, chunkSize);
      chunked := chunked + pieces;
    }
  }

  lemma ChunkedPlanStep(chunked: Plan, plan: Plan, i: nat, n: nat)
    requires n >= 1 && i < |plan|
    ensures chunked + ChunkedPlan(plan[i..], n) == chunked + Chunks(plan[i], n) + ChunkedPlan(plan[i + 1..], n)
  {
    assert plan[i..][1..] == plan[i + 1..];
  }

  /** A message with who pays its gas. */
  datatype Slot = Slot(message: RawMessage, sponsored: bool)

  function SlotsOf(batch: Batch): (slots: seq<Slot>)
    ensures |slots| == |batch.messages|
  {
    seq(|batch.messages|, i requires 0 <= i < |batch.messages| => Slot(batch.messages[i], batch.sponsored))
  }

  /** All messages of a plan in the order in which they are sent. */
  function Slots(plan: Plan): seq<Slot> {
    if plan == [] then [] else SlotsOf(plan[0]) + Slots(plan[1..])
  }

  lemma {:induction false} SlotsConcat(a: Plan, b: Plan)
    ensures Slots(a + b) == Slots(a) + Slots(b) && MinGram(a + b) == MinGram(a) + MinGram(b)
  {
    if a == [] {
      assert a + b == b;
    } else {
      assert (a + b)[1..] == a[1..] + b;
      SlotsConcat(a[1..], b);
    }
  }

  lemma {:induction false} GasFundedConcat(a: seq<RawMessage>, b: seq<RawMessage>)
    ensures GasFundedCount(a + b) == GasFundedCount(a) + GasFundedCount(b)
  {
    if a == [] {
      assert a + b == b;
    } else {
      assert (a + b)[1..] == a[1..] + b;
      GasFundedConcat(a[1..], b);
    }
  }

  /** No piece is empty or over the limit, and each has the batch's sponsor. */
  ghost predicate Pieces(plan: Plan, n: nat) {
    forall i | 0 <= i < |plan| :: 1 <= |plan[i].messages| <= n && plan[i].commission == None
  }

  lemma {:induction false} ChunksKeep(batch: Batch, n: nat)
    requires n >= 1
    ensures Slots(Chunks(batch, n)) == SlotsOf(batch) && MinGram(Chunks(batch, n)) == BatchGram(batch)
    ensures Pieces(Chunks(batch, n), n)
    ensures forall i | 0 <= i < |Chunks(batch, n)| :: Chunks(batch, n)[i].sponsored == batch.sponsored
    ensures forall i | 0 <= i < |Chunks(batch, n)| - 1 :: |Chunks(batch, n)[i].messages| == n
    decreases |batch.messages|
  {
    if batch.messages != [] {
      var cut := if |batch.messages| < n then |batch.messages| else n;
      var rest := batch.(messages := batch.messages[cut..]);
      CutKeeps(batch, cut);
      ChunksKeep(rest, n);
      SlotsConcat([Batch(batch.messages[..cut], batch.sponsored, None)], Chunks(rest, n));
    }
  }

  lemma CutKeeps(batch: Batch, cut: nat)
    requires cut <= |batch.messages|
    ensures var first := Batch(batch.messages[..cut], batch.sponsored, None);
            var rest := batch.(messages := batch.messages[cut..]);
            Slots([first]) + SlotsOf(rest) == SlotsOf(batch) && MinGram([first]) + BatchGram(rest) == BatchGram(batch)
  {
    var first := Batch(batch.messages[..cut], batch.sponsored, None);
    assert batch.messages == batch.messages[..cut] + batch.messages[cut..];
    GasFundedConcat(batch.messages[..cut], batch.messages[cut..]);
    assert [first][1..] == [];
    assert Slots([first]) == SlotsOf(first) && MinGram([first]) == BatchGram(first);
  }

  /** The messages whose gas the wallet itself pays. */
  function OwnGas(slots: seq<Slot>): nat {
    if slots == [] then 0 else
    (if !slots[0].sponsored && slots[0].message.mode & 128 == 0 then 1 else 0) + OwnGas(slots[1..])
  }

  lemma {:induction false} OwnGasConcat(a: seq<Slot>, b: seq<Slot>)
    ensures OwnGas(a + b) == OwnGas(a) + OwnGas(b)
  {
    if a == [] {
      assert a + b == b;
    } else {
      assert (a + b)[1..] == a[1..] + b;
      OwnGasConcat(a[1..], b);
    }
  }

  lemma {:induction false} BatchOwnGas(batch: Batch)
    ensures OwnGas(SlotsOf(batch)) == if batch.sponsored then 0 else GasFundedCount(batch.messages)
    decreases |batch.messages|
  {
    if batch.messages != [] {
      var rest := batch.(messages := batch.messages[1..]);
      BatchOwnGas(rest);
      assert SlotsOf(batch)[1..] == SlotsOf(rest);
    }
  }

  /** What a plan needs is the gas of all messages that no relay pays for and that do not empty the wallet. */
  lemma {:induction false} MinGramCounts(plan: Plan)
    ensures MinGram(plan) == OwnGas(Slots(plan)) * GAS_PER_TRANSFER
  {
    if plan != [] {
      MinGramCounts(plan[1..]);
      BatchOwnGas(plan[0]);
      OwnGasConcat(SlotsOf(plan[0]), Slots(plan[1..]));
    }
  }

  lemma PiecesConcat(p: Plan, q: Plan, n: nat)
    requires Pieces(p, n) && Pieces(q, n)
    ensures Pieces(p + q, n)
  {
  }

  /** Chunking keeps every message, its order and its sponsor, and what the plan costs. */
  lemma {:induction false} ChunkedPlanKeeps(plan: Plan, n: nat)
    requires n >= 1
    ensures Slots(ChunkedPlan(plan, n)) == Slots(plan) && MinGram(ChunkedPlan(plan, n)) == MinGram(plan)
    ensures Pieces(ChunkedPlan(plan, n), n)
  {
    if plan != [] {
      ChunksKeep(plan[0], n);
      ChunkedPlanKeeps(plan[1..], n);
      SlotsConcat(Chunks(plan[0], n), ChunkedPlan(plan[1..], n));
      PiecesConcat(Chunks(plan[0], n), ChunkedPlan(plan[1..], n), n);
      assert ChunkedPlan(plan, n) == Chunks(plan[0], n) + ChunkedPlan(plan[1..], n);
    }
  }

  /** A batch the relay pays for stays within its gas cap, with the commission transfer appended where one is. */
  lemma {:induction false} WithinGasCap(maxMessageNumber: nat, reserveCommissionSlot: bool, plan: Plan, i: nat)
    requires maxMessageNumber >= 2
    requires i < |ChunkedPlan(plan, ChunkSize(maxMessageNumber, true, reserveCommissionSlot))|
    ensures var batch := ChunkedPlan(plan, ChunkSize(maxMessageNumber, true, reserveCommissionSlot))[i];
            var sent := |batch.messages| + if reserveCommissionSlot then 1 else 0;
            sent <= maxMessageNumber && sent * GAS_PER_TRANSFER <= BATTERY_SPONSORSHIP_CAP
  {
    ChunkedPlanKeeps(plan, ChunkSize(maxMessageNumber, true, reserveCommissionSlot));
  }

  // ----- assembling -----

  datatype Parts = Parts(
    to: nat,
    excessDestination: nat,
    relayFunded: bool,
    sweepSponsored: bool,
    gramBalance: nat,
    nftTransfers: seq<RawMessage>,
    jettonTransfers: seq<RawMessage>)

  /** The message that sends whatever Gram is left. */
  function SweepTo(to: nat): RawMessage {
    RawMessage(SWEEP_MODE, to, GramTransfer(0))
  }

  function SweepBatch(p: Parts): Plan {
    if p.gramBalance <= MIN_GRAM_TRANSFER_FEE then []
    else if p.sweepSponsored then
      [Batch([RawMessage(DEFAULT_MODE, p.to, GramTransfer(p.gramBalance)), SweepTo(p.excessDestination)], true, None)]
    else [Batch([SweepTo(p.to)], false, None)]
  }

  function AssembleMigrationPlan(p: Parts): Plan {
    (if p.nftTransfers == [] then [] else [Batch(p.nftTransfers, p.relayFunded, None)])
    + (if p.jettonTransfers == [] then [] else [Batch(p.jettonTransfers, p.relayFunded, None)])
    + SweepBatch(p)
  }

  /** Every asset transfer attaches its own gas. */
  predicate AllGasFunded(messages: seq<RawMessage>) {
    forall i | 0 <= i < |messages| :: GasFunded(messages[i])
  }

  function Tagged(messages: seq<RawMessage>, sponsored: bool): seq<Slot> {
    SlotsOf(Batch(messages, sponsored, None))
  }

  /** What the assembled plan sends: all asset transfers first, in order and with one sponsor, then the rest of the
      Gram. */
  lemma AssembledSlots(p: Parts)
    ensures Slots(AssembleMigrationPlan(p))
         == Tagged(p.nftTransfers, p.relayFunded) + Tagged(p.jettonTransfers, p.relayFunded) + Slots(SweepBatch(p))
  {
    var nft := if p.nftTransfers == [] then [] else [Batch(p.nftTransfers, p.relayFunded, None)];
    var jettons := if p.jettonTransfers == [] then [] else [Batch(p.jettonTransfers, p.relayFunded, None)];
    OneBatch(p.nftTransfers, p.relayFunded);
    OneBatch(p.jettonTransfers, p.relayFunded);
    SlotsConcat(nft, jettons);
    SlotsConcat(nft + jettons, SweepBatch(p));
  }

  // ----- what becomes of the Gram -----

  /** Transfers of assets, each sent to the asset's own contract with gas attached. */
  predicate AreAssets(messages: seq<RawMessage>) {
    forall i | 0 <= i < |messages| ::
      && GasFunded(messages[i])
      && match messages[i].cargo
         case NftTransfer(item) => messages[i].to == item
         case JettonTransfer(wallet, _) => messages[i].to == wallet
         case _ => false
  }

  /** What is sent to this address in transfers of a fixed amount of Gram. */
  function FixedGram(slots: seq<Slot>, to: nat): int {
    if slots == [] then 0 else
    var m := slots[0].message;
    (if m.cargo.GramTransfer? && GasFunded(m) && m.to == to then m.cargo.amount else 0) + FixedGram(slots[1..], to)
  }

  lemma {:induction false} FixedGramConcat(a: seq<Slot>, b: seq<Slot>, to: nat)
    ensures FixedGram(a + b, to) == FixedGram(a, to) + FixedGram(b, to)
  {
    if a == [] {
      assert a + b == b;
    } else {
      assert (a + b)[1..] == a[1..] + b;
      FixedGramConcat(a[1..], b, to);
    }
  }

  lemma {:induction false} AssetsAreNoGram(slots: seq<Slot>, to: nat)
    requires forall i | 0 <= i < |slots| :: !slots[i].message.cargo.GramTransfer?
    ensures FixedGram(slots, to) == 0
  {
    if slots != [] { AssetsAreNoGram(slots[1..], to); }
  }

  /** Up to the fee no Gram is sent. Above it the last message, and no other, sends all that is left; the owner gets the
      whole balance, in a fixed amount when a sponsor is to get what is left, and else as what is left. */
  ghost predicate HandsOverGram(slots: seq<Slot>, p: Parts) {
    if p.gramBalance <= MIN_GRAM_TRANSFER_FEE then
      forall i | 0 <= i < |slots| :: !slots[i].message.cargo.GramTransfer? && GasFunded(slots[i].message)
    else
      var last := |slots| - 1;
      && slots != [] && slots[last].message.cargo.GramTransfer? && slots[last].sponsored == p.sweepSponsored
      && slots[last].message.to == (if p.sweepSponsored then p.excessDestination else p.to)
      && (forall i | 0 <= i <= last :: GasFunded(slots[i].message) <==> i != last)
      && (forall a :: FixedGram(slots, a) == if p.sweepSponsored && a == p.to then p.gramBalance else 0)
      && (forall i | 0 <= i < last && slots[i].message.cargo.GramTransfer? ::
            p.sweepSponsored && slots[i].sponsored && slots[i].message.to == p.to)
  }

  /** The assets come first, in order and with one sponsor; nothing of them is left out or added. */
  ghost predicate HandsOverAssets(slots: seq<Slot>, p: Parts) {
    var assets := p.nftTransfers + p.jettonTransfers;
    && |slots| >= |assets|
    && (forall i | 0 <= i < |assets| :: slots[i] == Slot(assets[i], p.relayFunded))
    && (forall i | |assets| <= i < |slots| :: slots[i].message.cargo.GramTransfer?)
  }

  lemma {:induction false} AssembledHandsOver(p: Parts)
    requires AreAssets(p.nftTransfers) && AreAssets(p.jettonTransfers)
    ensures HandsOverGram(Slots(AssembleMigrationPlan(p)), p) && HandsOverAssets(Slots(AssembleMigrationPlan(p)), p)
  {
    AssembledSlots(p);
    var assets := Tagged(p.nftTransfers, p.relayFunded) + Tagged(p.jettonTransfers, p.relayFunded);
    var rest := Slots(SweepBatch(p));
    SweepSlots(p);
    forall a ensures FixedGram(assets + rest, a) == FixedGram(rest, a) {
      FixedGramConcat(assets, rest, a);
      AssetsAreNoGram(assets, a);
    }
    AssetsThenGram(p, assets, rest);
  }

  lemma SweepSlots(p: Parts)
    ensures HandsOverGram(Slots(SweepBatch(p)), p)
    ensures forall i | 0 <= i < |Slots(SweepBatch(p))| :: Slots(SweepBatch(p))[i].message.cargo.GramTransfer?
  {
    var sweep := SweepBatch(p);
    if sweep != [] {
      OneBatch(sweep[0].messages, sweep[0].sponsored);
      var slots := Tagged(sweep[0].messages, sweep[0].sponsored);
      assert Slots(sweep) == slots;
      assert SWEEP_MODE & 128 != 0 && DEFAULT_MODE & 128 == 0;
      forall a ensures FixedGram(slots, a) == if p.sweepSponsored && a == p.to then p.gramBalance else 0 {
        var none: seq<Slot> := [];
        assert FixedGram(none, a) == 0;
        if p.sweepSponsored {
          assert slots[1..][1..] == none && FixedGram(slots[1..], a) == 0;
        } else {
          assert slots[1..] == none;
        }
      }
    }
  }

  lemma AssetsThenGram(p: Parts, assets: seq<Slot>, rest: seq<Slot>)
    requires HandsOverGram(rest, p) && forall i | 0 <= i < |rest| :: rest[i].message.cargo.GramTransfer?
    requires AreAssets(p.nftTransfers) && AreAssets(p.jettonTransfers)
    requires assets == Tagged(p.nftTransfers, p.relayFunded) + Tagged(p.jettonTransfers, p.relayFunded)
    requires forall a :: FixedGram(assets + rest, a) == FixedGram(rest, a)
    ensures HandsOverGram(assets + rest, p) && HandsOverAssets(assets + rest, p)
  {
    var all := assets + rest;
    forall i | 0 <= i < |all|
      ensures all[i] == if i < |assets| then assets[i] else rest[i - |assets|]
      ensures i < |assets| ==> !all[i].message.cargo.GramTransfer? && GasFunded(all[i].message)
    {
    }
  }

  /** Chunking changes none of it. */
  lemma {:induction false} PlanHandsOver(p: Parts, n: nat)
    requires n >= 1 && AreAssets(p.nftTransfers) && AreAssets(p.jettonTransfers)
    ensures var slots := Slots(ChunkedPlan(AssembleMigrationPlan(p), n));
            HandsOverGram(slots, p) && HandsOverAssets(slots, p)
  {
    AssembledHandsOver(p);
    ChunkedPlanKeeps(AssembleMigrationPlan(p), n);
  }

  lemma OneBatch(messages: seq<RawMessage>, sponsored: bool)
    ensures Slots(if messages == [] then [] else [Batch(messages, sponsored, None)]) == Tagged(messages, sponsored)
  {
    var b := Batch(messages, sponsored, None);
    assert [b][1..] == [];
    assert SlotsOf(b) + [] == SlotsOf(b);
  }

  predicate IsSweep(batch: Batch) {
    GasFundedCount(batch.messages) == 0
  }

  lemma {:induction false} SomeGasFunded(messages: seq<RawMessage>)
    requires AllGasFunded(messages)
    ensures GasFundedCount(messages) == |messages|
  {
    if messages != [] { SomeGasFunded(messages[1..]); }
  }

  lemma {:induction false} ChunksAreNoSweeps(batch: Batch, n: nat)
    requires n >= 1 && AllGasFunded(batch.messages)
    ensures forall i | 0 <= i < |Chunks(batch, n)| :: !IsSweep(Chunks(batch, n)[i])
    decreases |batch.messages|
  {
    if batch.messages != [] {
      var cut := if |batch.messages| < n then |batch.messages| else n;
      SomeGasFunded(batch.messages[..cut]);
      ChunksAreNoSweeps(batch.(messages := batch.messages[cut..]), n);
    }
  }

  /** Only the last batch of a chunked plan empties the wallet, so nothing is sent after it. */
  lemma {:induction false} OnlyTheLastSweeps(p: Parts, n: nat, i: nat)
    requires n >= 1 && AllGasFunded(p.nftTransfers) && AllGasFunded(p.jettonTransfers)
    requires i < |ChunkedPlan(AssembleMigrationPlan(p), n)|
    ensures var plan := ChunkedPlan(AssembleMigrationPlan(p), n);
            IsSweep(plan[i]) ==> i == |plan| - 1
    ensures var plan := ChunkedPlan(AssembleMigrationPlan(p), n);
            !p.sweepSponsored && p.gramBalance > MIN_GRAM_TRANSFER_FEE ==>
              plan[|plan| - 1] == Batch([SweepTo(p.to)], false, None)
  {
    var assets := (if p.nftTransfers == [] then [] else [Batch(p.nftTransfers, p.relayFunded, None)])
                + (if p.jettonTransfers == [] then [] else [Batch(p.jettonTransfers, p.relayFunded, None)]);
    var head, tail := ChunkedPlan(assets, n), ChunkedPlan(SweepBatch(p), n);
    ChunkedConcat(assets, SweepBatch(p), n);
    NoSweeps(assets, n);
    SweepChunks(p, n);
    LastOfTwo(head, tail, i);
  }

  lemma LastOfTwo(head: Plan, tail: Plan, i: nat)
    requires i < |head + tail| && |tail| <= 2 && (|tail| == 2 ==> !IsSweep(tail[0]))
    requires forall j | 0 <= j < |head| :: !IsSweep(head[j])
    ensures IsSweep((head + tail)[i]) ==> i == |head + tail| - 1
  {
    if i < |head| { assert (head + tail)[i] == head[i]; } else { assert (head + tail)[i] == tail[i - |head|]; }
  }

  lemma {:induction false} ChunkedConcat(a: Plan, b: Plan, n: nat)
    requires n >= 1
    ensures ChunkedPlan(a + b, n) == ChunkedPlan(a, n) + ChunkedPlan(b, n)
  {
    if a == [] {
      assert a + b == b;
    } else {
      assert (a + b)[1..] == a[1..] + b;
      ChunkedConcat(a[1..], b, n);
    }
  }

  lemma {:induction false} NoSweeps(plan: Plan, n: nat)
    requires n >= 1 && forall i | 0 <= i < |plan| :: AllGasFunded(plan[i].messages)
    ensures forall i | 0 <= i < |ChunkedPlan(plan, n)| :: !IsSweep(ChunkedPlan(plan, n)[i])
  {
    if plan != [] {
      ChunksAreNoSweeps(plan[0], n);
      NoSweeps(plan[1..], n);
    }
  }

  /** The sweep is one batch, or with a payout before it and a limit of one message, two. */
  lemma SweepChunks(p: Parts, n: nat)
    requires n >= 1
    ensures var tail := ChunkedPlan(SweepBatch(p), n);
            && |tail| <= 2 && (|tail| == 2 ==> !IsSweep(tail[0]))
            && (!p.sweepSponsored && p.gramBalance > MIN_GRAM_TRANSFER_FEE ==>
                  tail == [Batch([SweepTo(p.to)], false, None)])
  {
    var sweep := SweepBatch(p);
    if sweep != [] {
      assert sweep[1..] == [] && ChunkedPlan(sweep[1..], n) == [];
      assert ChunkedPlan(sweep, n) == Chunks(sweep[0], n);
      if p.sweepSponsored {
        var payout := RawMessage(DEFAULT_MODE, p.to, GramTransfer(p.gramBalance));
        assert payout.mode & 128 == 0;
        if n == 1 {
          assert sweep[0].messages[..1] == [payout];
          assert [payout][1..] == [];
          assert sweep[0].messages[1..] == [SweepTo(p.excessDestination)];
          OneChunk(Batch([SweepTo(p.excessDestination)], true, None), n);
        } else {
          OneChunk(sweep[0], n);
        }
      } else {
        OneChunk(sweep[0], n);
      }
    }
  }

  lemma OneChunk(batch: Batch, n: nat)
    requires n >= 1 && 1 <= |batch.messages| <= n
    ensures Chunks(batch, n) == [batch.(commission := None)]
  {
    assert batch.messages[..|batch.messages|] == batch.messages;
    assert Chunks(batch.(messages := batch.messages[|batch.messages|..]), n) == [];
  }
}
