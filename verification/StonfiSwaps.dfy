/** What a Stonfi swap says, told by the bubbles it is made of (pkg/bath/stonfi.go). */
module StonfiSwaps {
  import opened Wrappers
  import opened Ledger
  import opened Bubbles
  import opened StonfiRoutes
  import opened StonfiMerges
  import opened Clusters

  // ----- the bubbles of a swap -----

  /** A transaction with this message on an account of this kind. */
  predicate Carries(info: Info, body: Body, on: Interface) {
    info.Tx? && info.tx.decodedBody == Some(body) && on in info.tx.account.interfaces
  }

  predicate PoolSwaps(info: Info) { Carries(info, StonfiSwapV2Body, Interface.StonfiPoolV2) }
  predicate ReferrerPaid(info: Info) { Carries(info, StonfiPayVaultV2Body, Interface.StonfiRouterV2) }
  predicate FeeDeposited(info: Info) { Carries(info, StonfiDepositRefFeeV2Body, Interface.StonfiVaultV2) }
  predicate ExcessReturned(info: Info) { info.Tx? && info.tx.decodedBody == Some(ExcessBody) }

  predicate RouterPays(info: Info) {
    && info.Tx? && Interface.StonfiRouterV2 in info.tx.account.interfaces
    && info.tx.decodedBody.Some? && info.tx.decodedBody.value.StonfiPayToV2Body?
  }

  /** Somebody sends jettons to a router and asks for a swap. */
  predicate AsksRouter(info: Info) {
    && info.JettonTransfer? && info.transfer.payload.StonfiSwapV2Payload? && info.transfer.sender.Some?
    && info.transfer.recipient.Some? && Interface.StonfiRouterV2 in info.transfer.recipient.value.interfaces
  }

  // ----- one leg: from the transfer to a router to the transfer that its last payout makes -----

  /** A pool that pays out through its last child, with a referrer's payout before it or alone. */
  predicate Goes(b: Tree) {
    && PoolSwaps(b.rec.info) && 1 <= |b.kids| <= 2 && (|b.kids| == 2 ==> ReferrerPaid(b.kids[0].rec.info))
    && RouterPays(b.kids[|b.kids| - 1].rec.info) && |b.kids[|b.kids| - 1].kids| == 1
  }

  function PayoutFor(b: Tree): (r: Tree)
    requires Goes(b)
    ensures r < b && |r.kids| == 1
  {
    b.kids[|b.kids| - 1]
  }

  /** What the payout of a pool leads to: the next pool of the router, or a transfer. */
  function Receipt(b: Tree): (r: Tree)
    requires Goes(b)
    ensures r < b
  {
    PayoutFor(b).kids[0]
  }

  function LastPool(b: Tree): (r: Tree)
    requires Goes(b)
    ensures Goes(r) && !Goes(Receipt(r)) && Receipt(r) < b
    decreases b
  {
    if Goes(Receipt(b)) then LastPool(Receipt(b)) else b
  }

  predicate LeadsToPools(start: Tree) {
    AsksRouter(start.rec.info) && |start.kids| == 1 && Goes(start.kids[0])
  }

  function FinalReceipt(start: Tree): (r: Tree)
    requires LeadsToPools(start)
    ensures r < start
  {
    Receipt(LastPool(start.kids[0]))
  }

  function FinalPayout(start: Tree): (body: Body)
    requires LeadsToPools(start)
    ensures body.StonfiPayToV2Body?
  {
    PayoutFor(LastPool(start.kids[0])).rec.info.tx.decodedBody.value
  }

  /** The token that the final pool paid out. */
  function PaidToken(start: Tree): Option<AccountID>
    requires LeadsToPools(start)
  {
    if FinalPayout(start).amount0Out == 0 then FinalPayout(start).token1 else FinalPayout(start).token0
  }

  predicate IsPaid(start: Tree)
    requires LeadsToPools(start)
  {
    FinalPayout(start).exitCode == SWAP_OK
  }

  /** A transfer to a router whose pools end in a transfer, with all that is needed to say what came out. */
  predicate IsLeg(start: Tree) {
    && LeadsToPools(start) && FinalReceipt(start).rec.info.JettonTransfer? && PaidToken(start).Some?
    && (!IsPaid(start) ==>
          FinalPayout(start).toAddress.Some? && start.rec.info.transfer.payload.tokenWallet1.Some?)
  }

  predicate AreLegs(legs: seq<Tree>) {
    forall i | 0 <= i < |legs| :: IsLeg(legs[i])
  }

  /** The legs from `t` on, each starting with the transfer that ends the one before it. */
  function Legs(t: Tree): (legs: seq<Tree>)
    ensures AreLegs(legs)
    ensures legs != [] <==> IsLeg(t)
    decreases t
  {
    if IsLeg(t) then [t] + Legs(FinalReceipt(t)) else []
  }

  // ----- what a leg says -----

  function InOf(leg: Tree): AssetTransfer
    requires IsLeg(leg)
  {
    var j := leg.rec.info.transfer;
    AssetTransfer(j.amount, j.isWrappedTon, j.master, j.senderWallet)
  }

  /** A paid leg puts out what its final transfer carries, from the wallet of the token that the pool paid out. Else it
      says the least that was asked for, of the master that the first pool knows for the wanted wallet. */
  function OutOf(leg: Tree): AssetTransfer
    requires IsLeg(leg)
  {
    var j, asked := FinalReceipt(leg).rec.info.transfer, leg.rec.info.transfer.payload;
    var masters := leg.kids[0].rec.info.tx.jettonMasters;
    if IsPaid(leg) then AssetTransfer(j.amount, j.isWrappedTon, j.master, PaidToken(leg).value)
    else
      var wanted := asked.tokenWallet1.value;
      AssetTransfer(asked.minOut, false, if wanted in masters then masters[wanted] else AccountID(0, 0),
                    FinalPayout(leg).toAddress.value)
  }

  function SenderOf(leg: Tree): AccountID
    requires IsLeg(leg)
  {
    leg.rec.info.transfer.sender.value.address
  }

  function RouterOf(leg: Tree): AccountID
    requires IsLeg(leg)
  {
    leg.rec.info.transfer.recipient.value.address
  }

  /** The referrer's payout, the deposit of its fee and the excess of that, as far as each follows the one before. */
  function SideIds(r: Tree): set<Bubble> {
    if r.kids == [] || !FeeDeposited(r.kids[0].rec.info) then {r.id}
    else if r.kids[0].kids == [] || !ExcessReturned(r.kids[0].kids[0].rec.info) then {r.id, r.kids[0].id}
    else {r.id, r.kids[0].id, r.kids[0].kids[0].id}
  }

  function ReferrerIds(b: Tree): set<Bubble> {
    if |b.kids| == 2 && PoolSwaps(b.rec.info) && ReferrerPaid(b.kids[0].rec.info) then SideIds(b.kids[0]) else {}
  }

  /** All bubbles from a pool on. A referrer's payout is taken even below a pool that does not pay out. */
  function PoolIds(b: Tree): set<Bubble>
    requires Goes(b)
    decreases b
  {
    {b.id, PayoutFor(b).id, Receipt(b).id} + ReferrerIds(b)
    + if Goes(Receipt(b)) then PoolIds(Receipt(b)) else ReferrerIds(Receipt(b))
  }

  /** All bubbles of a leg; a next leg takes the transfer between them. */
  function LegIds(leg: Tree): set<Bubble>
    requires IsLeg(leg)
  {
    {leg.id} + PoolIds(leg.kids[0]) - if IsLeg(FinalReceipt(leg)) then {FinalReceipt(leg).id} else {}
  }

  ghost predicate Reads(hop: Hop, leg: Tree) {
    && IsLeg(leg) && hop.swaps != []
    && hop.sender == SenderOf(leg) && hop.router == RouterOf(leg) && hop.in_ == InOf(leg) && hop.out == OutOf(leg)
    && hop.success == IsPaid(leg) && hop.used == LegIds(leg) && hop.swaps[0].transfer == FinalReceipt(leg).rec.info
  }

  lemma ChainUnroll(b: Tree)
    ensures RouterChain(b).ok <==> Goes(b)
    ensures !Goes(b) ==> RouterChain(b).used == ReferrerIds(b)
    ensures Goes(b) ==>
      var r, rest := RouterChain(b), RouterChain(Receipt(b));
      && r.swaps == rest.swaps + [Swap(b.rec.info.tx, Receipt(b).rec.info, PayoutFor(b).rec.info.tx.decodedBody.value)]
      && r.next == (if rest.ok then rest.next else Some(Receipt(b)))
      && r.used == {b.id} + ReferrerIds(b) + ({PayoutFor(b).id} + ({Receipt(b).id} + rest.used))
  {
    if |b.kids| == 2 { assert SideUsed(b) == ReferrerUsed(b.kids[0]) == SideIds(b.kids[0]); }
  }

  lemma {:induction false} NoChainNoSwaps(b: Tree)
    requires !Goes(b)
    ensures RouterChain(b).swaps == []
  {
  }

  ghost predicate ChainSays(r: Chain, b: Tree)
    requires Goes(b)
  {
    && r.swaps != [] && r.swaps[0].payout == PayoutFor(LastPool(b)).rec.info.tx.decodedBody.value
    && r.swaps[0].transfer == Receipt(LastPool(b)).rec.info && r.swaps[|r.swaps| - 1].swapTx == b.rec.info.tx
    && r.next == Some(Receipt(LastPool(b))) && r.used == PoolIds(b)
  }

  lemma {:induction false} ChainTells(b: Tree)
    requires Goes(b)
    ensures RouterChain(b).ok && ChainSays(RouterChain(b), b)
    decreases b
  {
    ChainUnroll(b);
    ChainUnroll(Receipt(b));
    if Goes(Receipt(b)) { ChainTells(Receipt(b)); } else { NoChainNoSwaps(Receipt(b)); }
  }

  /** What comes out of the leg can be told if and only if this is a leg. */
  lemma OutTells(t: Tree, swaps: seq<Swap>)
    requires LeadsToPools(t) && swaps != [] && swaps[0].payout == FinalPayout(t)
    requires swaps[0].transfer == FinalReceipt(t).rec.info && swaps[|swaps| - 1].swapTx == t.kids[0].rec.info.tx
    ensures var out := HopOut(t.rec.info.transfer.payload, swaps);
            out == if IsLeg(t) then Some(OutOf(t)) else None
  {
  }

  /** The hop that a leg makes, when `next` tells whether another hop follows. */
  ghost predicate IsHopOf(hop: Hop, leg: Tree, next: bool)
    requires IsLeg(leg)
  {
    && hop.swaps != [] && hop.swaps[0].transfer == FinalReceipt(leg).rec.info
    && hop.sender == SenderOf(leg) && hop.router == RouterOf(leg) && hop.in_ == InOf(leg) && hop.out == OutOf(leg)
    && hop.success == IsPaid(leg)
    && hop.used == {leg.id} + PoolIds(leg.kids[0]) - if next then {FinalReceipt(leg).id} else {}
  }

  lemma HopsUnfold(t: Tree, chain: Chain)
    requires LeadsToPools(t) && chain == RouterChain(t.kids[0]) && chain.ok
    ensures var out := HopOut(t.rec.info.transfer.payload, chain.swaps);
            if out.None? then Hops(t) == [] else
            var j, next := t.rec.info.transfer, Hops(chain.next.value);
            var hop := Hop({t.id} + chain.used, j.recipient.value.address, j.sender.value.address,
                           AssetTransfer(j.amount, j.isWrappedTon, j.master, j.senderWallet), out.value, chain.swaps,
                           chain.swaps[0].payout.exitCode == SWAP_OK);
            Hops(t) == if next == [] then [hop] else next + [hop.(used := hop.used - {chain.next.value.id})]
  {
  }

  lemma HopUnroll(t: Tree)
    requires LeadsToPools(t)
    ensures if !IsLeg(t) then Hops(t) == [] else
            var next := Hops(FinalReceipt(t));
            && |Hops(t)| == |next| + 1 && Hops(t)[..|next|] == next && IsHopOf(Hops(t)[|next|], t, next != [])
  {
    var chain := RouterChain(t.kids[0]);
    ChainTells(t.kids[0]);
    OutTells(t, chain.swaps);
    HopsUnfold(t, chain);
  }

  lemma NoHops(t: Tree)
    requires !LeadsToPools(t)
    ensures Hops(t) == [] && Legs(t) == []
  {
    if |t.kids| == 1 { ChainUnroll(t.kids[0]); }
  }

  lemma {:induction false} HopsAndLegs(t: Tree)
    ensures |Hops(t)| == |Legs(t)|
    decreases t
  {
    if LeadsToPools(t) {
      HopUnroll(t);
      if IsLeg(t) { HopsAndLegs(FinalReceipt(t)); }
    } else {
      NoHops(t);
    }
  }

  lemma FirstReads(t: Tree)
    requires IsLeg(t)
    ensures |Hops(t)| == |Legs(FinalReceipt(t))| + 1 && Hops(t)[..|Legs(FinalReceipt(t))|] == Hops(FinalReceipt(t))
    ensures Reads(Hops(t)[|Legs(FinalReceipt(t))|], t)
  {
    HopUnroll(t);
    HopsAndLegs(FinalReceipt(t));
  }

  lemma LegsUnfold(t: Tree)
    requires IsLeg(t)
    ensures Legs(t) == [t] + Legs(FinalReceipt(t))
  {
  }

  ghost predicate AllRead(hops: seq<Hop>, legs: seq<Tree>) {
    |hops| == |legs| && forall k | 0 <= k < |legs| :: Reads(hops[|hops| - 1 - k], legs[k])
  }

  lemma OneMoreReads(hops: seq<Hop>, hop: Hop, legs: seq<Tree>, leg: Tree)
    requires AllRead(hops, legs) && Reads(hop, leg)
    ensures AllRead(hops + [hop], [leg] + legs)
  {
    var more, all := hops + [hop], [leg] + legs;
    forall k | 0 <= k < |all| ensures Reads(more[|more| - 1 - k], all[k]) {
      if k > 0 { assert Reads(hops[|hops| - 1 - (k - 1)], legs[k - 1]); }
    }
  }

  /** The hops are the legs, the last one first. */
  lemma {:induction false} HopsAreLegs(t: Tree)
    ensures AllRead(Hops(t), Legs(t))
    decreases t
  {
    if IsLeg(t) {
      var next := FinalReceipt(t);
      FirstReads(t);
      LegsUnfold(t);
      HopsAreLegs(next);
      assert Hops(t) == Hops(next) + [Hops(t)[|Legs(next)|]];
      OneMoreReads(Hops(next), Hops(t)[|Legs(next)|], Legs(next), t);
    } else if LeadsToPools(t) {
      HopUnroll(t);
    } else {
      NoHops(t);
    }
  }

  // ----- what the merge says -----

  /** The last leg ends at the account that the first one starts from. */
  ghost predicate ReturnsToSender(legs: seq<Tree>)
    requires AreLegs(legs)
  {
    legs != [] &&
    var final := FinalReceipt(legs[|legs| - 1]).rec.info;
    final.JettonTransfer? && final.transfer.recipient.Some?
    && final.transfer.recipient.value.address == SenderOf(legs[0])
  }

  /** The merger applies if and only if the legs return to the sender. */
  lemma {:induction false} StonfiTakesEverySwap(t: Tree)
    ensures Hops(t) != [] && PaysTheUser(Hops(t)) <==> ReturnsToSender(Legs(t))
  {
    HopsAreLegs(t);
    if Hops(t) != [] {
      assert Reads(Hops(t)[|Hops(t)| - 1 - 0], Legs(t)[0]);
      assert Reads(Hops(t)[|Hops(t)| - 1 - (|Hops(t)| - 1)], Legs(t)[|Legs(t)| - 1]);
    }
  }

  /** The swap takes the paid legs up to the first one that is not, or that one alone if it is the first. */
  ghost predicate GoesUpTo(legs: seq<Tree>, k: nat)
    requires 0 < k <= |legs| && AreLegs(legs)
  {
    if !IsPaid(legs[0]) then k == 1
    else (forall i | 0 <= i < k :: IsPaid(legs[i])) && (k < |legs| ==> !IsPaid(legs[k]))
  }

  /** What the first k legs say as one swap. If not all legs are paid, what came out is back at the user. */
  function SwapSaid(legs: seq<Tree>, k: nat): SwapInfo
    requires 0 < k <= |legs| && AreLegs(legs)
  {
    var user, out := SenderOf(legs[0]), OutOf(legs[k - 1]);
    var back := |legs| > 1 && (k < |legs| || !IsPaid(legs[0]));
    SwapInfo(Stonfi, user, RouterOf(legs[k - 1]), if back then out.(jettonWallet := user) else out, InOf(legs[0]),
             IsPaid(legs[0]))
  }

  /** A leg that comes too late is a failed swap of its own. */
  function FailureSaid(leg: Tree, user: AccountID): SwapInfo
    requires IsLeg(leg)
  {
    SwapInfo(Stonfi, user, RouterOf(leg), OutOf(leg), InOf(leg), false)
  }

  function AllLegIds(legs: seq<Tree>): set<Bubble>
    requires AreLegs(legs)
  {
    if legs == [] then {} else
    var last := |legs| - 1;
    AllLegIds(legs[..last]) + LegIds(legs[last])
  }

  lemma {:induction false} UsedAreLegIds(hops: seq<Hop>, legs: seq<Tree>)
    requires AllRead(hops, legs)
    ensures AreLegs(legs) && UsedBy(hops) == AllLegIds(legs)
  {
    forall k | 0 <= k < |legs| ensures IsLeg(legs[k]) { assert Reads(hops[|hops| - 1 - k], legs[k]); }
    if hops != [] {
      var last := |legs| - 1;
      LaterRead(hops, legs, 1, last);
      UsedAreLegIds(hops[1..], legs[..last]);
      assert Reads(hops[|hops| - 1 - last], legs[last]);
    }
  }

  lemma {:induction false} LaterRead(hops: seq<Hop>, legs: seq<Tree>, n: nat, k: nat)
    requires AllRead(hops, legs) && n + k == |hops|
    ensures AllRead(hops[n..], legs[..k])
  {
    var less, early := hops[n..], legs[..k];
    forall i | 0 <= i < |early| ensures Reads(less[|less| - 1 - i], early[i]) {
      assert Reads(hops[|hops| - 1 - i], legs[i]);
    }
  }

  lemma PaidUpTo(hops: seq<Hop>, legs: seq<Tree>, k: nat)
    requires AllRead(hops, legs) && hops != [] && AreLegs(legs) && FailedHops(hops) + k == |legs|
    ensures k > 0 && GoesUpTo(legs, k)
  {
    forall i | 0 <= i < |legs| ensures IsPaid(legs[i]) == hops[|hops| - 1 - i].success {
      assert Reads(hops[|hops| - 1 - i], legs[i]);
    }
    assert IsPaid(legs[0]) == hops[|hops| - 1].success;
    if k < |legs| { assert IsPaid(legs[k]) == hops[|hops| - 1 - k].success; }
  }

  lemma SwapSays(hops: seq<Hop>, legs: seq<Tree>, k: nat)
    requires AllRead(hops, legs) && hops != [] && AreLegs(legs) && FailedHops(hops) + k == |legs| && k > 0
    ensures SwapOf(hops) == SwapSaid(legs, k)
  {
    var first, last := hops[|hops| - 1 - 0], hops[|hops| - 1 - (k - 1)];
    assert Reads(first, legs[0]) && Reads(last, legs[k - 1]);
    assert first == hops[|hops| - 1] && last == hops[FailedHops(hops)];
  }

  lemma SwapTold(hops: seq<Hop>, legs: seq<Tree>, n: nat, k: nat)
    requires AllRead(hops, legs) && AreLegs(legs) && hops != [] && n == FailedHops(hops) && n + k == |hops|
    ensures 0 < k <= |legs| && GoesUpTo(legs, k) && SwapOf(hops) == SwapSaid(legs, k)
    ensures UsedBy(hops[n..]) == AllLegIds(legs[..k])
  {
    PaidUpTo(hops, legs, k);
    SwapSays(hops, legs, k);
    LaterRead(hops, legs, n, k);
    UsedAreLegIds(hops[n..], legs[..k]);
  }

  lemma FailureTold(hops: seq<Hop>, legs: seq<Tree>, i: nat, k: nat)
    requires AllRead(hops, legs) && AreLegs(legs) && i + k + 1 == |hops|
    ensures FailedSwapOf(hops, i) == FailureSaid(legs[k], SenderOf(legs[0])) && hops[i].used == LegIds(legs[k])
  {
    assert i == |hops| - 1 - k;
    assert Reads(hops[|hops| - 1 - k], legs[k]) && Reads(hops[|hops| - 1 - 0], legs[0]);
  }

  lemma MergeParts(t: Tree, t': Tree, main: Visit, failed: seq<Visit>)
    requires IsStonfiMerge(t, t', main, failed)
    ensures Hops(t) != [] && PaysTheUser(Hops(t)) && |failed| == FailedHops(Hops(t)) && |failed| <= |t'.kids|
    ensures t'.rec.info == JettonSwap(SwapOf(Hops(t)))
    ensures PickIds(main.picks) == UsedBy(Hops(t)[|failed|..]) - {t.id}
  {
  }

  lemma SwapFailures(t: Tree, hops: seq<Hop>, t': Tree, main: Visit, failed: seq<Visit>, j: nat, i: nat)
    requires hops != [] && IsSwapOf(t, hops, t', main, failed) && i + j + 1 == |failed|
    ensures i < |hops| && j < |t'.kids|
    ensures t'.kids[j].rec.info == JettonSwap(FailedSwapOf(hops, i)) && PickIds(failed[j].picks) == hops[i].used
  {
    assert i == |failed| - 1 - j;
  }

  lemma FailureOfLeg(t: Tree, hops: seq<Hop>, legs: seq<Tree>, t': Tree, main: Visit, failed: seq<Visit>, k: nat,
                     j: nat)
    requires hops != [] && IsSwapOf(t, hops, t', main, failed) && AllRead(hops, legs) && AreLegs(legs)
    requires k + |failed| == |legs| && j < |failed|
    ensures j < |t'.kids| && t'.kids[j].rec.info == JettonSwap(FailureSaid(legs[k + j], SenderOf(legs[0])))
    ensures PickIds(failed[j].picks) == LegIds(legs[k + j])
  {
    var i := |failed| - 1 - j;
    SwapFailures(t, hops, t', main, failed, j, i);
    FailureTold(hops, legs, i, k + j);
  }

  /** What a merge leaves behind: the first k legs are one swap, with all of their bubbles. */
  lemma {:induction false} StonfiTellsTheSwap(t: Tree, t': Tree, main: Visit, failed: seq<Visit>, k: nat)
    requires IsStonfiMerge(t, t', main, failed) && k + |failed| == |Legs(t)|
    ensures k > 0 && ReturnsToSender(Legs(t)) && GoesUpTo(Legs(t), k)
    ensures t'.rec.info == JettonSwap(SwapSaid(Legs(t), k))
    ensures PickIds(main.picks) == AllLegIds(Legs(t)[..k]) - {t.id}
  {
    MergeParts(t, t', main, failed);
    HopsAreLegs(t);
    StonfiTakesEverySwap(t);
    SwapTold(Hops(t), Legs(t), |failed|, k);
  }

  /** Every later leg is a failed swap of its own, in order, with its own bubbles. */
  lemma {:induction false} StonfiTellsTheFailed(t: Tree, t': Tree, main: Visit, failed: seq<Visit>, k: nat, j: nat)
    requires IsStonfiMerge(t, t', main, failed) && k + |failed| == |Legs(t)| && j < |failed|
    ensures j < |t'.kids| && t'.kids[j].rec.info == JettonSwap(FailureSaid(Legs(t)[k + j], SenderOf(t)))
    ensures PickIds(failed[j].picks) == LegIds(Legs(t)[k + j])
  {
    HopsAreLegs(t);
    FailureOfLeg(t, Hops(t), Legs(t), t', main, failed, k, j);
  }
}
