/** Paying for a migration in a jetton: the transfers, and the relay's commission (pkg/api/migration_handlers.go). */
module Gasless {
  import opened Wrappers
  import opened MigrationPlan

  datatype Error =
    | BalanceTooLow | NoGasJetton | EstimateFailed | InvalidCommission | NotConverged | WrongMessageCount | BadTransfer

  datatype MigratableJetton = MigratableJetton(wallet: nat, master: nat, balance: int)

  function TransferOf(wallet: nat, amount: int): RawMessage {
    RawMessage(DEFAULT_MODE, wallet, JettonTransfer(wallet, amount))
  }

  predicate IsGas(j: MigratableJetton, gasMaster: Option<nat>) {
    gasMaster == Some(j.master)
  }

  /** Full-balance transfers of all jettons but the gas jetton. */
  function Ordinary(jettons: seq<MigratableJetton>, gasMaster: Option<nat>): seq<RawMessage> {
    if jettons == [] then [] else
    var last := |jettons| - 1;
    Ordinary(jettons[..last], gasMaster)
    + if IsGas(jettons[last], gasMaster) then [] else [TransferOf(jettons[last].wallet, jettons[last].balance)]
  }

  /** The last wallet of the gas jetton is the one that pays. */
  function GasWallet(jettons: seq<MigratableJetton>, gasMaster: Option<nat>): (r: Option<MigratableJetton>)
    ensures r.Some? ==> r.value in jettons && IsGas(r.value, gasMaster)
  {
    if jettons == [] then None else
    var last := |jettons| - 1;
    if IsGas(jettons[last], gasMaster) then Some(jettons[last]) else GasWallet(jettons[..last], gasMaster)
  }

  predicate CoversReserve(jettons: seq<MigratableJetton>, gasMaster: Option<nat>, reserve: int) {
    forall i | 0 <= i < |jettons| && IsGas(jettons[i], gasMaster) :: jettons[i].balance > reserve
  }

  /** The messages, with the gas jetton's own transfer last and `reserve` kept back from it. */
  function Transfers(jettons: seq<MigratableJetton>, gasMaster: Option<nat>, reserve: int)
    : Result<seq<RawMessage>, Error>
  {
    if !CoversReserve(jettons, gasMaster, reserve) then Err(BalanceTooLow)
    else if gasMaster.None? then Ok(Ordinary(jettons, gasMaster))
    else match GasWallet(jettons, gasMaster)
         case None => Err(NoGasJetton)
         case Some(j) => Ok(Ordinary(jettons, gasMaster) + [TransferOf(j.wallet, j.balance - reserve)])
  }

  /** `gasReserve` is what is kept back; nothing when it is absent. */
  method PrepareJettonTransfers(jettons: seq<MigratableJetton>, gasMaster: Option<nat>, gasReserve: Option<int>)
    returns (r: Result<seq<RawMessage>, Error>)
    ensures r == Transfers(jettons, gasMaster, if gasReserve.Some? then gasReserve.value else 0)
  {
    ghost var reserve := if gasReserve.Some? then gasReserve.value else 0;
    var messages: seq<RawMessage> := [];
    var gasTransfer: Option<RawMessage> := None;
    for i := 0 to |jettons|
      invariant messages == Ordinary(jettons[..i], gasMaster)
      invariant forall k | 0 <= k < i && IsGas(jettons[k], gasMaster) :: jettons[k].balance > reserve
      invariant gasTransfer == var j := GasWallet(jettons[..i], gasMaster);
                               if j.None? then None else Some(TransferOf(j.value.wallet, j.value.balance - reserve))
    {
      assert jettons[..i + 1][..i] == jettons[..i];
      var mj := jettons[i];
      var amount := mj.balance;
      if gasMaster.Some? && mj.master == gasMaster.value {
        if gasReserve.Some? {
          amount := amount - gasReserve.value;
        }
        if amount <= 0 {
          return Err(BalanceTooLow);
        }
        gasTransfer := Some(TransferOf(mj.wallet, amount));
      } else {
        messages := messages + [TransferOf(mj.wallet, amount)];
      }
    }
    assert jettons[..|jettons|] == jettons;
    if gasMaster.Some? {
      if gasTransfer.None? {
        return Err(NoGasJetton);
      }
      messages := messages + [gasTransfer.value];
    }
    return Ok(messages);
  }

  /** The transfers can be made if and only if every wallet of the gas jetton holds more than is kept back, and there
      is one if a gas jetton is named; what is missing decides the error. */
  lemma {:induction false} TransfersOkIff(jettons: seq<MigratableJetton>, gasMaster: Option<nat>, reserve: int)
    ensures var r := Transfers(jettons, gasMaster, reserve);
            var covered := forall i | 0 <= i < |jettons| && gasMaster == Some(jettons[i].master) ::
                             jettons[i].balance > reserve;
            var named := gasMaster.Some? ==>
                           exists i :: 0 <= i < |jettons| && gasMaster == Some(jettons[i].master);
            && (r.Ok? <==> covered && named)
            && (r == Err(BalanceTooLow) <==> !covered) && (r == Err(NoGasJetton) <==> covered && !named)
  {
    if GasWallet(jettons, gasMaster).None? {
      forall i | 0 <= i < |jettons| ensures gasMaster != Some(jettons[i].master) {
        if IsGas(jettons[i], gasMaster) { SomeGasWallet(jettons, gasMaster, i); }
      }
    }
  }

  /** The i-th jetton's whole balance less `kept`, sent from its own wallet. */
  ghost predicate Empties(m: RawMessage, j: MigratableJetton, kept: int) {
    m.mode == DEFAULT_MODE && m.to == j.wallet && m.cargo == JettonTransfer(j.wallet, j.balance - kept)
  }

  /** These messages empty the jettons at these places, which are all that are not the gas jetton's, in order. */
  ghost predicate EmptiesInOrder(messages: seq<RawMessage>, jettons: seq<MigratableJetton>, gasMaster: Option<nat>,
                                 at: seq<nat>) {
    && |messages| == |at|
    && (forall k | 0 <= k < |at| :: at[k] < |jettons| && Empties(messages[k], jettons[at[k]], 0))
    && (forall k, l | 0 <= k < l < |at| :: at[k] < at[l])
    && (forall i | 0 <= i < |jettons| :: i in at <==> gasMaster != Some(jettons[i].master))
  }

  lemma OneMoreEmptied(messages: seq<RawMessage>, jettons: seq<MigratableJetton>, gasMaster: Option<nat>, at: seq<nat>)
    requires jettons != [] && EmptiesInOrder(messages, jettons[..|jettons| - 1], gasMaster, at)
    requires gasMaster != Some(jettons[|jettons| - 1].master)
    ensures var last := |jettons| - 1;
            EmptiesInOrder(messages + [TransferOf(jettons[last].wallet, jettons[last].balance)], jettons, gasMaster,
                           at + [last])
  {
    var last := |jettons| - 1;
    forall i | 0 <= i < |jettons| ensures i in at + [last] <==> gasMaster != Some(jettons[i].master) {
      if i < last { assert jettons[..last][i] == jettons[i]; }
    }
  }

  lemma {:induction false} OrdinaryInOrder(jettons: seq<MigratableJetton>, gasMaster: Option<nat>)
    returns (at: seq<nat>)
    ensures EmptiesInOrder(Ordinary(jettons, gasMaster), jettons, gasMaster, at)
  {
    if jettons == [] {
      at := [];
    } else {
      var last := |jettons| - 1;
      var before := OrdinaryInOrder(jettons[..last], gasMaster);
      if gasMaster == Some(jettons[last].master) {
        at := before;
        assert Ordinary(jettons, gasMaster) == Ordinary(jettons[..last], gasMaster);
      } else {
        at := before + [last];
        OneMoreEmptied(Ordinary(jettons[..last], gasMaster), jettons, gasMaster, before);
      }
    }
  }

  /** All ordinary jettons are emptied in order, and then the last wallet of the gas jetton but for the reserve. */
  lemma {:induction false} TransfersInOrder(jettons: seq<MigratableJetton>, gasMaster: Option<nat>, reserve: int)
    returns (at: seq<nat>, gas: nat)
    requires Transfers(jettons, gasMaster, reserve).Ok?
    ensures var messages := Transfers(jettons, gasMaster, reserve).value;
            if gasMaster.None? then EmptiesInOrder(messages, jettons, gasMaster, at) else
            && messages != [] && EmptiesInOrder(messages[..|messages| - 1], jettons, gasMaster, at)
            && gas < |jettons| && gasMaster == Some(jettons[gas].master)
            && (forall i | gas < i < |jettons| :: gasMaster != Some(jettons[i].master))
            && Empties(messages[|messages| - 1], jettons[gas], reserve)
  {
    at := OrdinaryInOrder(jettons, gasMaster);
    gas := 0;
    if gasMaster.Some? {
      gas := LastGas(jettons, gasMaster);
      var messages := Transfers(jettons, gasMaster, reserve).value;
      assert messages[..|messages| - 1] == Ordinary(jettons, gasMaster);
    }
  }

  lemma {:induction false} LastGas(jettons: seq<MigratableJetton>, gasMaster: Option<nat>) returns (i: nat)
    requires GasWallet(jettons, gasMaster).Some?
    ensures i < |jettons| && GasWallet(jettons, gasMaster) == Some(jettons[i])
    ensures forall k | i < k < |jettons| :: gasMaster != Some(jettons[k].master)
  {
    i := |jettons| - 1;
    if !IsGas(jettons[i], gasMaster) { i := LastGas(jettons[..i], gasMaster); }
  }

  // ----- building the plan -----

  /** Everything but the jetton transfers is fixed before the commission is priced. */
  datatype Terms = Terms(parts: Parts, jettons: seq<MigratableJetton>, gasMaster: Option<nat>, maxMessageNumber: nat)

  function Size(p: Terms): int {
    ChunkSize(p.maxMessageNumber, p.parts.relayFunded, p.gasMaster.Some?)
  }

  function Assembled(p: Terms, reserve: int): Plan
    requires Transfers(p.jettons, p.gasMaster, reserve).Ok?
  {
    AssembleMigrationPlan(p.parts.(jettonTransfers := Transfers(p.jettons, p.gasMaster, reserve).value))
  }

  function Built(p: Terms, reserve: int): Result<Plan, Error>
    requires p.maxMessageNumber >= 2
  {
    var transfers := Transfers(p.jettons, p.gasMaster, reserve);
    if transfers.Err? then Err(transfers.error) else Ok(ChunkedPlan(Assembled(p, reserve), Size(p)))
  }

  method BuildPlan(p: Terms, gasReserve: Option<int>) returns (r: Result<Plan, Error>)
    requires p.maxMessageNumber >= 2
    ensures r == Built(p, if gasReserve.Some? then gasReserve.value else 0)
  {
    var transfers := PrepareJettonTransfers(p.jettons, p.gasMaster, gasReserve);
    if transfers.Err? {
      return Err(transfers.error);
    }
    var plan := AssembleMigrationPlan(p.parts.(jettonTransfers := transfers.value));
    var chunked := ChunkMigrationPlan(p.maxMessageNumber, p.parts.relayFunded, p.gasMaster.Some?, plan);
    return Ok(chunked);
  }

  // ----- the shape of a plan does not depend on the reserve -----

  ghost predicate SameShape(a: Plan, b: Plan) {
    |a| == |b| && forall i | 0 <= i < |a| :: |a[i].messages| == |b[i].messages| && a[i].sponsored == b[i].sponsored
  }

  lemma ShapeConcat(a: Plan, b: Plan, c: Plan, d: Plan)
    requires SameShape(a, b) && SameShape(c, d)
    ensures SameShape(a + c, b + d)
  {
  }

  lemma {:induction false} SameChunks(a: Batch, b: Batch, n: nat)
    requires n >= 1 && |a.messages| == |b.messages| && a.sponsored == b.sponsored
    ensures SameShape(Chunks(a, n), Chunks(b, n))
    decreases |a.messages|
  {
    if a.messages != [] {
      var cut := if |a.messages| < n then |a.messages| else n;
      var c, d := a.(messages := a.messages[cut..]), b.(messages := b.messages[cut..]);
      SameChunks(c, d, n);
      ShapeConcat([Batch(a.messages[..cut], a.sponsored, None)], [Batch(b.messages[..cut], b.sponsored, None)],
                  Chunks(c, n), Chunks(d, n));
    }
  }

  lemma {:induction false} SameChunkedPlan(a: Plan, b: Plan, n: nat)
    requires n >= 1 && SameShape(a, b)
    ensures SameShape(ChunkedPlan(a, n), ChunkedPlan(b, n))
  {
    if a != [] {
      SameChunks(a[0], b[0], n);
      SameChunkedPlan(a[1..], b[1..], n);
      ShapeConcat(Chunks(a[0], n), Chunks(b[0], n), ChunkedPlan(a[1..], n), ChunkedPlan(b[1..], n));
    }
  }

  /** Rebuilding with another reserve keeps the number of batches, their sizes and who pays for them. */
  lemma ReserveKeepsShape(p: Terms, r1: int, r2: int)
    requires p.maxMessageNumber >= 2 && Built(p, r1).Ok? && Built(p, r2).Ok?
    ensures SameShape(Built(p, r1).value, Built(p, r2).value)
  {
    SameChunkedPlan(Assembled(p, r1), Assembled(p, r2), Size(p));
  }

  // ----- what the plan takes from a jetton wallet -----

  function Amount(m: RawMessage, wallet: nat): int {
    if m.cargo.JettonTransfer? && m.cargo.wallet == wallet then m.cargo.amount else 0
  }

  function Outflow(slots: seq<Slot>, wallet: nat): int {
    if slots == [] then 0 else Amount(slots[0].message, wallet) + Outflow(slots[1..], wallet)
  }

  lemma {:induction false} OutflowConcat(a: seq<Slot>, b: seq<Slot>, wallet: nat)
    ensures Outflow(a + b, wallet) == Outflow(a, wallet) + Outflow(b, wallet)
  {
    if a == [] {
      assert a + b == b;
    } else {
      assert (a + b)[1..] == a[1..] + b;
      OutflowConcat(a[1..], b, wallet);
    }
  }

  lemma {:induction false} NoOutflow(slots: seq<Slot>, wallet: nat)
    requires forall i | 0 <= i < |slots| :: Amount(slots[i].message, wallet) == 0
    ensures Outflow(slots, wallet) == 0
  {
    if slots != [] { NoOutflow(slots[1..], wallet); }
  }

  /** What these messages take from a wallet. */
  function Sent(messages: seq<RawMessage>, wallet: nat): int {
    if messages == [] then 0 else
    var last := |messages| - 1;
    Sent(messages[..last], wallet) + Amount(messages[last], wallet)
  }

  lemma {:induction false} TaggedOutflow(messages: seq<RawMessage>, sponsored: bool, wallet: nat)
    ensures Outflow(Tagged(messages, sponsored), wallet) == Sent(messages, wallet)
  {
    if messages != [] {
      var last := |messages| - 1;
      var one := [Slot(messages[last], sponsored)];
      assert Tagged(messages, sponsored) == Tagged(messages[..last], sponsored) + one;
      OutflowConcat(Tagged(messages[..last], sponsored), one, wallet);
      assert one[1..] == [];
      TaggedOutflow(messages[..last], sponsored, wallet);
    }
  }

  predicate NoJettons(messages: seq<RawMessage>) {
    forall i | 0 <= i < |messages| :: !messages[i].cargo.JettonTransfer?
  }

  lemma SweepOutflow(p: Parts, wallet: nat)
    ensures Outflow(Slots(SweepBatch(p)), wallet) == 0
  {
    var sweep := SweepBatch(p);
    if sweep != [] {
      assert sweep[1..] == [] && Slots(sweep[1..]) == [];
      assert Slots(sweep) == SlotsOf(sweep[0]) + [] == SlotsOf(sweep[0]);
      assert NoJettons(sweep[0].messages);
      NoOutflow(SlotsOf(sweep[0]), wallet);
    }
  }

  lemma AssembledOutflow(p: Parts, wallet: nat)
    requires NoJettons(p.nftTransfers)
    ensures Outflow(Slots(AssembleMigrationPlan(p)), wallet) == Sent(p.jettonTransfers, wallet)
  {
    var nft, jettons := Tagged(p.nftTransfers, p.relayFunded), Tagged(p.jettonTransfers, p.relayFunded);
    AssembledSlots(p);
    OutflowConcat(nft + jettons, Slots(SweepBatch(p)), wallet);
    OutflowConcat(nft, jettons, wallet);
    NoOutflow(nft, wallet);
    SweepOutflow(p, wallet);
    TaggedOutflow(p.jettonTransfers, p.relayFunded, wallet);
  }

  /** Only the jetton transfers of a plan move jettons. */
  lemma PlanOutflow(p: Terms, reserve: int, wallet: nat)
    requires p.maxMessageNumber >= 2 && Built(p, reserve).Ok? && NoJettons(p.parts.nftTransfers)
    ensures Outflow(Slots(Built(p, reserve).value), wallet)
         == Sent(Transfers(p.jettons, p.gasMaster, reserve).value, wallet)
  {
    ChunkedPlanKeeps(Assembled(p, reserve), Size(p));
    AssembledOutflow(p.parts.(jettonTransfers := Transfers(p.jettons, p.gasMaster, reserve).value), wallet);
  }

  lemma {:induction false} OrdinaryAreAssets(jettons: seq<MigratableJetton>, gasMaster: Option<nat>)
    ensures AreAssets(Ordinary(jettons, gasMaster))
  {
    if jettons != [] {
      OrdinaryAreAssets(jettons[..|jettons| - 1], gasMaster);
      assert DEFAULT_MODE & 128 == 0;
    }
  }

  /** Whatever is kept back for the relay, the built plan hands over the Gram and all assets. */
  lemma {:induction false} BuiltHandsOver(p: Terms, reserve: int)
    requires p.maxMessageNumber >= 2 && Built(p, reserve).Ok? && AreAssets(p.parts.nftTransfers)
    ensures var transfers := Transfers(p.jettons, p.gasMaster, reserve);
            var slots := Slots(Built(p, reserve).value);
            && transfers.Ok? && HandsOverGram(slots, p.parts)
            && HandsOverAssets(slots, p.parts.(jettonTransfers := transfers.value))
  {
    OrdinaryAreAssets(p.jettons, p.gasMaster);
    assert DEFAULT_MODE & 128 == 0;
    var parts := p.parts.(jettonTransfers := Transfers(p.jettons, p.gasMaster, reserve).value);
    PlanHandsOver(parts, Size(p));
  }

  predicate DistinctWallets(jettons: seq<MigratableJetton>) {
    forall i, j | 0 <= i < j < |jettons| :: jettons[i].wallet != jettons[j].wallet
  }

  predicate AtMostOneGasWallet(jettons: seq<MigratableJetton>, gasMaster: Option<nat>) {
    forall i, j | 0 <= i < j < |jettons| :: !(IsGas(jettons[i], gasMaster) && IsGas(jettons[j], gasMaster))
  }

  lemma {:induction false} NotSent(jettons: seq<MigratableJetton>, gasMaster: Option<nat>, wallet: nat)
    requires forall i | 0 <= i < |jettons| :: jettons[i].wallet != wallet
    ensures Sent(Ordinary(jettons, gasMaster), wallet) == 0
  {
    if jettons != [] {
      var last := |jettons| - 1;
      NotSent(jettons[..last], gasMaster, wallet);
      OneMoreSent(jettons, gasMaster, wallet);
    }
  }

  /** What the transfer of one wallet's whole balance takes from a wallet. */
  function OwnTransfer(j: MigratableJetton, gasMaster: Option<nat>, wallet: nat): int {
    if !IsGas(j, gasMaster) && j.wallet == wallet then j.balance else 0
  }

  lemma OneMoreSent(jettons: seq<MigratableJetton>, gasMaster: Option<nat>, wallet: nat)
    requires jettons != []
    ensures Sent(Ordinary(jettons, gasMaster), wallet)
         == Sent(Ordinary(jettons[..|jettons| - 1], gasMaster), wallet)
          + OwnTransfer(jettons[|jettons| - 1], gasMaster, wallet)
  {
    var last := |jettons| - 1;
    var before, all := Ordinary(jettons[..last], gasMaster), Ordinary(jettons, gasMaster);
    if IsGas(jettons[last], gasMaster) {
      assert all == before;
    } else {
      assert all[..|before|] == before;
    }
  }

  /** Every wallet but those of the gas jetton is emptied. */
  lemma {:induction false} OrdinarySent(jettons: seq<MigratableJetton>, gasMaster: Option<nat>, n: nat)
    requires DistinctWallets(jettons) && n < |jettons|
    ensures Sent(Ordinary(jettons, gasMaster), jettons[n].wallet)
         == if IsGas(jettons[n], gasMaster) then 0 else jettons[n].balance
  {
    var last, wallet := |jettons| - 1, jettons[n].wallet;
    OneMoreSent(jettons, gasMaster, wallet);
    if n < last {
      assert DistinctWallets(jettons[..last]) && jettons[..last][n] == jettons[n] && jettons[last].wallet != wallet;
      OrdinarySent(jettons[..last], gasMaster, n);
    } else {
      forall i | 0 <= i < last ensures jettons[..last][i].wallet != wallet { assert jettons[..last][i] == jettons[i]; }
      NotSent(jettons[..last], gasMaster, wallet);
    }
  }

  /** All of an ordinary wallet, all but the reserve of the gas jetton's last wallet, and nothing of its other
      wallets. */
  function Share(p: Terms, reserve: int, j: MigratableJetton): int {
    if !IsGas(j, p.gasMaster) then j.balance
    else if GasWallet(p.jettons, p.gasMaster) == Some(j) then j.balance - reserve
    else 0
  }

  /** What a plan takes from each of the wallets. */
  lemma {:induction false} WalletOutflow(p: Terms, reserve: int, n: nat)
    requires p.maxMessageNumber >= 2 && Built(p, reserve).Ok? && NoJettons(p.parts.nftTransfers)
    requires DistinctWallets(p.jettons) && n < |p.jettons|
    ensures Outflow(Slots(Built(p, reserve).value), p.jettons[n].wallet) == Share(p, reserve, p.jettons[n])
  {
    PlanOutflow(p, reserve, p.jettons[n].wallet);
    OrdinarySent(p.jettons, p.gasMaster, n);
    if p.gasMaster.Some? { GasShare(p, reserve, n); }
  }

  lemma GasShare(p: Terms, reserve: int, n: nat)
    requires Transfers(p.jettons, p.gasMaster, reserve).Ok? && p.gasMaster.Some?
    requires DistinctWallets(p.jettons) && n < |p.jettons|
    requires Sent(Ordinary(p.jettons, p.gasMaster), p.jettons[n].wallet)
          == if IsGas(p.jettons[n], p.gasMaster) then 0 else p.jettons[n].balance
    ensures Sent(Transfers(p.jettons, p.gasMaster, reserve).value, p.jettons[n].wallet)
            == Share(p, reserve, p.jettons[n])
  {
    var gas := GasWallet(p.jettons, p.gasMaster).value;
    SameWallet(p.jettons, gas, n);
    GasSent(Ordinary(p.jettons, p.gasMaster), gas, reserve, p.jettons[n].wallet);
  }

  lemma SameWallet(jettons: seq<MigratableJetton>, gas: MigratableJetton, n: nat)
    requires DistinctWallets(jettons) && gas in jettons && n < |jettons|
    ensures gas.wallet == jettons[n].wallet <==> gas == jettons[n]
  {
    var i :| 0 <= i < |jettons| && jettons[i] == gas;
    assert i < n ==> jettons[i].wallet != jettons[n].wallet;
    assert n < i ==> jettons[n].wallet != jettons[i].wallet;
  }

  lemma GasSent(ordinary: seq<RawMessage>, gas: MigratableJetton, reserve: int, wallet: nat)
    ensures Sent(ordinary + [TransferOf(gas.wallet, gas.balance - reserve)], wallet)
         == Sent(ordinary, wallet) + if gas.wallet == wallet then gas.balance - reserve else 0
  {
    assert (ordinary + [TransferOf(gas.wallet, gas.balance - reserve)])[..|ordinary|] == ordinary;
  }

  /** The plan moves the balance of this wallet, but for the reserve if it pays for gas. */
  predicate IsMoved(p: Terms, reserve: int, j: MigratableJetton)
    requires p.maxMessageNumber >= 2 && Built(p, reserve).Ok?
  {
    Outflow(Slots(Built(p, reserve).value), j.wallet) == j.balance - if IsGas(j, p.gasMaster) then reserve else 0
  }

  /** Every wallet's balance is moved if and only if the gas jetton has at most one wallet. */
  lemma {:induction false} AllMovedIffOneGasWallet(p: Terms, reserve: int)
    requires p.maxMessageNumber >= 2 && Built(p, reserve).Ok? && NoJettons(p.parts.nftTransfers)
    requires DistinctWallets(p.jettons)
    ensures (forall n | 0 <= n < |p.jettons| :: IsMoved(p, reserve, p.jettons[n]))
            <==> AtMostOneGasWallet(p.jettons, p.gasMaster)
  {
    forall n | 0 <= n < |p.jettons|
      ensures IsMoved(p, reserve, p.jettons[n])
              <==> (IsGas(p.jettons[n], p.gasMaster) ==> GasWallet(p.jettons, p.gasMaster) == Some(p.jettons[n]))
    {
      WalletOutflow(p, reserve, n);
      assert IsGas(p.jettons[n], p.gasMaster) ==> p.jettons[n].balance > reserve;
    }
    OneGasWalletIff(p.jettons, p.gasMaster);
  }

  /** At most one wallet of the gas jetton means that each is the last one. */
  lemma {:induction false} OneGasWalletIff(jettons: seq<MigratableJetton>, gasMaster: Option<nat>)
    requires DistinctWallets(jettons)
    ensures AtMostOneGasWallet(jettons, gasMaster) <==>
            forall n | 0 <= n < |jettons| && IsGas(jettons[n], gasMaster) ::
              GasWallet(jettons, gasMaster) == Some(jettons[n])
  {
    forall n | 0 <= n < |jettons| && IsGas(jettons[n], gasMaster)
      ensures GasWallet(jettons, gasMaster).Some?
    {
      SomeGasWallet(jettons, gasMaster, n);
    }
    if !AtMostOneGasWallet(jettons, gasMaster) {
      var i, j :| 0 <= i < j < |jettons| && IsGas(jettons[i], gasMaster) && IsGas(jettons[j], gasMaster);
      assert jettons[i] != jettons[j];
    }
  }

  lemma {:induction false} SomeGasWallet(jettons: seq<MigratableJetton>, gasMaster: Option<nat>, n: nat)
    requires n < |jettons| && IsGas(jettons[n], gasMaster)
    ensures GasWallet(jettons, gasMaster).Some?
  {
    if n < |jettons| - 1 { SomeGasWallet(jettons[..|jettons| - 1], gasMaster, n); }
  }

  /** The plan takes the balance less the reserve from the wallet that pays for gas. */
  lemma {:induction false} GasOutflow(p: Terms, reserve: int)
    requires p.maxMessageNumber >= 2 && Built(p, reserve).Ok? && p.gasMaster.Some?
    requires DistinctWallets(p.jettons) && NoJettons(p.parts.nftTransfers)
    ensures GasWallet(p.jettons, p.gasMaster).Some?
    ensures var j := GasWallet(p.jettons, p.gasMaster).value;
            Outflow(Slots(Built(p, reserve).value), j.wallet) == j.balance - reserve > 0
  {
    var j := GasWallet(p.jettons, p.gasMaster).value;
    var n :| 0 <= n < |p.jettons| && p.jettons[n] == j;
    WalletOutflow(p, reserve, n);
    assert CoversReserve(p.jettons, p.gasMaster, reserve);
  }

  /** With two wallets of the gas jetton, the first one is left behind: no message of the plan moves its balance. */
  lemma {:induction false} TwoGasWalletsLeaveOneBehind(p: Terms, reserve: nat, a: MigratableJetton, b: MigratableJetton)
    requires p.maxMessageNumber >= 2 && NoJettons(p.parts.nftTransfers) && p.jettons == [a, b]
    requires p.gasMaster == Some(a.master) == Some(b.master) && a.wallet != b.wallet
    requires a.balance > reserve && b.balance > reserve
    ensures Built(p, reserve).Ok? && a.balance > 0 && Outflow(Slots(Built(p, reserve).value), a.wallet) == 0
    ensures !IsMoved(p, reserve, a)
  {
    assert GasWallet(p.jettons, p.gasMaster) == Some(b);
    WalletOutflow(p, reserve, 0);
  }

  // ----- pricing the commission -----

  /** What the relay answers to one request; `commission` is absent when it is not a number. */
  datatype Estimate =
    | Failed(notEnoughJettons: bool)
    | Priced(commission: Option<int>, messages: seq<Option<RawMessage>>)

  function Sponsored(plan: Plan): seq<nat> {
    if plan == [] then [] else
    var last := |plan| - 1;
    Sponsored(plan[..last]) + if plan[last].sponsored then [last] else []
  }

  lemma {:induction false} SponsoredIs(plan: Plan)
    ensures forall i :: i in Sponsored(plan) <==> 0 <= i < |plan| && plan[i].sponsored
    ensures forall i, j | 0 <= i < j < |Sponsored(plan)| :: Sponsored(plan)[i] < Sponsored(plan)[j]
  {
    if plan != [] {
      var before := Sponsored(plan[..|plan| - 1]);
      SponsoredIs(plan[..|plan| - 1]);
      forall i | 0 <= i < |before| ensures before[i] < |plan| - 1 {
        assert before[i] in before;
      }
    }
  }

  lemma {:induction false} SameSponsored(a: Plan, b: Plan)
    requires SameShape(a, b)
    ensures Sponsored(a) == Sponsored(b)
  {
    if a != [] { SameSponsored(a[..|a| - 1], b[..|b| - 1]); }
  }

  method SponsoredBatches(plan: Plan) returns (sponsored: seq<nat>)
    ensures sponsored == Sponsored(plan)
  {
    sponsored := [];
    for i := 0 to |plan|
      invariant sponsored == Sponsored(plan[..i])
    {
      assert plan[..i + 1][..i] == plan[..i];
      if plan[i].sponsored {
        sponsored := sponsored + [i];
      }
    }
    assert plan[..|plan|] == plan;
  }

  /** Every sponsored batch pays the commission with one more message at its end. */
  ghost predicate WithCommission(plan: Plan, built: Plan, transfer: RawMessage, commission: int) {
    |plan| == |built| && forall i | 0 <= i < |plan| ::
      plan[i] == if built[i].sponsored then Batch(built[i].messages + [transfer], true, Some(commission)) else built[i]
  }

  /** Adds the commission transfer to the batches at these places. */
  method Append(built: Plan, sponsored: seq<nat>, transfer: RawMessage, commission: int) returns (plan: Plan)
    requires sponsored == Sponsored(built)
    ensures WithCommission(plan, built, transfer, commission)
  {
    SponsoredIs(built);
    plan := built;
    for k := 0 to |sponsored|
      invariant |plan| == |built|
      invariant forall i | 0 <= i < |plan| ::
        plan[i] == if i in sponsored[..k] then Batch(built[i].messages + [transfer], true, Some(commission))
                   else built[i]
    {
      var i := sponsored[k];
      assert i in sponsored && sponsored[..k + 1] == sponsored[..k] + [i];
      assert i !in sponsored[..k];
      plan := plan[i := Batch(plan[i].messages + [transfer], plan[i].sponsored, Some(commission))];
    }
    assert sponsored[..|sponsored|] == sponsored;
  }

  predicate ValidPrice(e: Estimate) {
    e.Priced? && e.commission.Some? && e.commission.value >= 0
  }

  /** The price the relay named in its k-th answer. */
  function Price(estimates: seq<Estimate>, k: nat): int
    requires k < |estimates| && ValidPrice(estimates[k])
  {
    estimates[k].commission.value
  }

  /** The first k answers were prices that grew and that plans could be built for. */
  ghost predicate Growing(p: Terms, sponsored: seq<nat>, estimates: seq<Estimate>, k: nat)
    requires p.maxMessageNumber >= 2 && k < 3 <= |estimates|
  {
    && (forall j | 0 <= j < k :: ValidPrice(estimates[j]) && Built(p, Price(estimates, j) * |sponsored|).Ok?)
    && (forall j | 0 < j < k :: Price(estimates, j) > Price(estimates, j - 1))
  }

  /** How pricing ends at the relay's k-th answer, when all answers before it were prices that grew and that plans
      could be built for: with the first price that does not grow, on the plan for the price before it, or with an
      error. */
  ghost predicate EndsAt(p: Terms, sponsored: seq<nat>, estimates: seq<Estimate>, k: nat, r: Result<(Plan, int), Error>)
    requires p.maxMessageNumber >= 2 && k < 3 <= |estimates|
  {
    && Growing(p, sponsored, estimates, k)
    && if !ValidPrice(estimates[k]) then
         r == Err(match estimates[k]
                  case Failed(notEnoughJettons) => if notEnoughJettons then BalanceTooLow else EstimateFailed
                  case Priced(_, _) => InvalidCommission)
       else if k > 0 && Price(estimates, k) <= Price(estimates, k - 1) then
         r == Ok((Built(p, Price(estimates, k - 1) * |sponsored|).value, Price(estimates, k)))
       else if k == 2 then r == Err(NotConverged)
       else
         && Built(p, Price(estimates, k) * |sponsored|).Err?
         && r == Err(Built(p, Price(estimates, k) * |sponsored|).error)
  }

  /** The plan for another reserve; the same batches are sponsored. */
  method Rebuild(p: Terms, first: Plan, sponsored: seq<nat>, reserve: int) returns (r: Result<Plan, Error>)
    requires p.maxMessageNumber >= 2 && Built(p, 1) == Ok(first) && sponsored == Sponsored(first)
    ensures r == Built(p, reserve) && (r.Ok? ==> Sponsored(r.value) == sponsored)
  {
    r := BuildPlan(p, Some(reserve));
    if r.Ok? {
      ReserveKeepsShape(p, 1, reserve);
      SameSponsored(first, r.value);
    }
  }

  /** The relay is asked until the price stops growing, at most three times; `estimates` are its answers in order. */
  method PriceCommission(p: Terms, first: Plan, sponsored: seq<nat>, estimates: seq<Estimate>)
    returns (r: Result<(Plan, int), Error>, requests: nat)
    requires p.maxMessageNumber >= 2 && Built(p, 1) == Ok(first)
    requires sponsored == Sponsored(first) && sponsored != [] && |estimates| >= 3
    ensures 1 <= requests <= 3 && EndsAt(p, sponsored, estimates, requests - 1, r)
    ensures r.Ok? ==> Sponsored(r.value.0) == sponsored
  {
    var commission := 0;
    var plan := first;
    var attempt := 0;
    while true
      invariant attempt <= 2 && Sponsored(plan) == sponsored && Growing(p, sponsored, estimates, attempt)
      invariant attempt > 0 ==>
                  commission == Price(estimates, attempt - 1) && Built(p, commission * |sponsored|) == Ok(plan)
      decreases 2 - attempt
    {
      var estimated := estimates[attempt];
      requests := attempt + 1;
      if estimated.Failed? {
        return Err(if estimated.notEnoughJettons then BalanceTooLow else EstimateFailed), requests;
      }
      if estimated.commission.None? || estimated.commission.value < 0 {
        return Err(InvalidCommission), requests;
      }
      var newCommission := estimated.commission.value;
      if attempt > 0 && newCommission <= commission {
        return Ok((plan, newCommission)), requests;
      }
      if attempt >= 2 {
        return Err(NotConverged), requests;
      }
      commission := newCommission;
      var rebuilt := Rebuild(p, first, sponsored, commission * |sponsored|);
      if rebuilt.Err? {
        return Err(rebuilt.error), requests;
      }
      plan := rebuilt.value;
      attempt := attempt + 1;
    }
  }

  /** What becomes of a priced plan: the relay's last message is the commission transfer of every sponsored batch. */
  ghost predicate Embeds(r: Result<Plan, Error>, priced: Result<(Plan, int), Error>, sponsored: seq<nat>,
                         answer: Estimate)
    requires sponsored != []
  {
    if priced.Err? then r == Err(priced.error) else
    var built := priced.value.0;
    && answer.Priced? && sponsored == Sponsored(built) && sponsored[0] < |built|
    && if |answer.messages| != |built[sponsored[0]].messages| + 1 then r == Err(WrongMessageCount)
       else if answer.messages[|answer.messages| - 1].None? then r == Err(BadTransfer)
       else r.Ok? && WithCommission(r.value, built, answer.messages[|answer.messages| - 1].value, priced.value.1)
  }

  method EmbedGaslessCommission(p: Terms, first: Plan, estimates: seq<Estimate>)
    returns (r: Result<Plan, Error>, requests: nat, ghost priced: Result<(Plan, int), Error>)
    requires p.maxMessageNumber >= 2 && Built(p, 1) == Ok(first) && |estimates| >= 3
    ensures Sponsored(first) == [] ==> r == Ok(first) && requests == 0
    ensures Sponsored(first) != [] ==>
      && 1 <= requests <= 3 && EndsAt(p, Sponsored(first), estimates, requests - 1, priced)
      && Embeds(r, priced, Sponsored(first), estimates[requests - 1])
  {
    priced := Err(NotConverged);
    var sponsored := SponsoredBatches(first);
    if sponsored == [] {
      return Ok(first), 0, priced;
    }
    var pricing;
    pricing, requests := PriceCommission(p, first, sponsored, estimates);
    priced := pricing;
    if pricing.Err? {
      return Err(pricing.error), requests, priced;
    }
    var plan, commission := pricing.value.0, pricing.value.1;
    SponsoredIs(plan);
    assert sponsored[0] in sponsored;
    var messages := estimates[requests - 1].messages;
    if |messages| != |plan[sponsored[0]].messages| + 1 {
      return Err(WrongMessageCount), requests, priced;
    }
    var transfer := messages[|messages| - 1];
    if transfer.None? {
      return Err(BadTransfer), requests, priced;
    }
    plan := Append(plan, sponsored, transfer.value, commission);
    r := Ok(plan);
  }

  /** All that a plan's batches pay as commission. */
  function Commissions(plan: Plan): int {
    if plan == [] then 0 else
    var last := |plan| - 1;
    Commissions(plan[..last]) + if plan[last].commission.Some? then plan[last].commission.value else 0
  }

  lemma {:induction false} CommissionsSum(plan: Plan, built: Plan, transfer: RawMessage, commission: int)
    requires WithCommission(plan, built, transfer, commission)
    requires forall i | 0 <= i < |built| :: built[i].commission.None?
    ensures Commissions(plan) == commission * |Sponsored(built)|
  {
    if plan != [] {
      var last := |plan| - 1;
      CommissionsSum(plan[..last], built[..last], transfer, commission);
    }
  }

  /** The gas jetton is never overspent: whenever pricing and embedding succeed, what the priced plan moves of it and
      the commissions of all batches of the final plan together are at most the balance of the wallet that pays. */
  lemma {:induction false} NeverOverspent(p: Terms, first: Plan, estimates: seq<Estimate>, k: nat,
                                          priced: Result<(Plan, int), Error>, r: Result<Plan, Error>)
    requires p.maxMessageNumber >= 2 && p.gasMaster.Some? && k < 3 <= |estimates| && Sponsored(first) != []
    requires EndsAt(p, Sponsored(first), estimates, k, priced) && Embeds(r, priced, Sponsored(first), estimates[k])
    requires r.Ok? && DistinctWallets(p.jettons) && NoJettons(p.parts.nftTransfers)
    ensures GasWallet(p.jettons, p.gasMaster).Some? && priced.Ok?
    ensures var j := GasWallet(p.jettons, p.gasMaster).value;
            var moved := Outflow(Slots(priced.value.0), j.wallet);
            moved > 0 && moved + Commissions(r.value) <= j.balance
  {
    var reserved := PricedPlan(p, Sponsored(first), estimates, k, priced);
    EmbeddedCommissions(p, reserved * |Sponsored(first)|, priced.value, Sponsored(first), estimates[k], r);
    GasOutflow(p, reserved * |Sponsored(first)|);
    AtMostReserved(priced.value.1, reserved, |Sponsored(first)|);
  }

  lemma PricedPlan(p: Terms, sponsored: seq<nat>, estimates: seq<Estimate>, k: nat, priced: Result<(Plan, int), Error>)
    returns (reserved: int)
    requires p.maxMessageNumber >= 2 && k < 3 <= |estimates| && EndsAt(p, sponsored, estimates, k, priced) && priced.Ok?
    ensures Built(p, reserved * |sponsored|) == Ok(priced.value.0) && priced.value.1 <= reserved
  {
    reserved := Price(estimates, k - 1);
  }

  lemma EmbeddedCommissions(p: Terms, reserve: int, priced: (Plan, int), sponsored: seq<nat>, answer: Estimate,
                            r: Result<Plan, Error>)
    requires p.maxMessageNumber >= 2 && Built(p, reserve) == Ok(priced.0) && sponsored != []
    requires Embeds(r, Ok(priced), sponsored, answer) && r.Ok?
    ensures Commissions(r.value) == priced.1 * |sponsored|
  {
    ChunkedPlanKeeps(Assembled(p, reserve), Size(p));
    CommissionsSum(r.value, priced.0, answer.messages[|answer.messages| - 1].value, priced.1);
  }

  lemma AtMostReserved(commission: int, reserved: int, n: nat)
    requires commission <= reserved
    ensures commission * n <= reserved * n
  {
  }

  /** With a commission's place kept free, a sponsored batch with its commission still fits wallet and gas cap. */
  lemma CommissionFits(p: Terms, reserve: int, i: nat)
    requires p.maxMessageNumber >= 2 && p.gasMaster.Some? && p.parts.relayFunded && Built(p, reserve).Ok?
    requires i < |Built(p, reserve).value|
    ensures var sent := |Built(p, reserve).value[i].messages| + 1;
            sent <= p.maxMessageNumber && sent * GAS_PER_TRANSFER <= BATTERY_SPONSORSHIP_CAP
  {
    WithinGasCap(p.maxMessageNumber, true, Assembled(p, reserve), i);
  }
}
