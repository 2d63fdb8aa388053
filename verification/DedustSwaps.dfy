/** What a Dedust swap says, told by the bubbles it is made of (pkg/bath/dedust.go). */
module DedustSwaps {
  import opened Wrappers
  import opened Ledger
  import opened Bubbles
  import opened Clusters
  import opened DedustRoutes

  // ----- the way down -----

  predicate IsFirstChild(k: Tree, t: Tree) {
    t.kids != [] && k == t.kids[0]
  }

  /** Each bubble is the first child of the one before it. */
  ghost predicate Descends(path: seq<Tree>) {
    forall i | 0 < i < |path| :: IsFirstChild(path[i], path[i - 1])
  }

  predicate IsReportedPool(info: Info) {
    info.Tx? && info.tx.account.Is(DedustPool) && info.tx.swapReported
  }

  /** From `t` through m pools, each of which reports its swap, to the first transaction that is not on a pool. */
  ghost predicate IsWay(t: Tree, path: seq<Tree>, m: nat) {
    && |path| == m + 2 && path[0] == t && Descends(path)
    && (forall i | 1 <= i <= m :: IsReportedPool(path[i].rec.info))
    && path[m + 1].rec.info.Tx? && !path[m + 1].rec.info.tx.account.Is(DedustPool)
  }

  lemma {:induction false} WayOfSteps(t: Tree) returns (path: seq<Tree>)
    requires ProcessSteps(t).Some? && ProcessSteps(t).value.fails == 0
    ensures var r := ProcessSteps(t).value;
            && IsWay(t, path, r.steps) && path[r.steps + 1] == r.end
            && (r.steps > 0 ==> r.swaps != [] && r.swaps[0] == path[r.steps])
            && PickIds(r.swaps) == PickIds(path[1..r.steps + 1])
    decreases t
  {
    var child := t.kids[0];
    if child.rec.info.tx.account.Is(DedustPool) {
      var below := WayOfSteps(child);
      path := [t] + below;
      var n := ProcessSteps(child).value.steps;
      WayIds(t, below, n, ProcessSteps(child).value.swaps);
    } else {
      path := [t, child];
    }
  }

  lemma WayIds(t: Tree, below: seq<Tree>, n: nat, swaps: seq<Tree>)
    requires |below| == n + 2 && PickIds(swaps) == PickIds(below[1..n + 1])
    ensures PickIds(swaps + [below[0]]) == PickIds(([t] + below)[1..n + 2])
  {
    assert ([t] + below)[1..n + 2] == [below[0]] + below[1..n + 1];
    PickIdsConcat(swaps, [below[0]]);
    PickIdsConcat([below[0]], below[1..n + 1]);
  }

  lemma PickIdsOne(n: Tree)
    ensures PickIds([n]) == {n.id}
  {
    assert [n][0].id in PickIds([n]);
  }

  lemma PickIdsConcat(a: seq<Tree>, b: seq<Tree>)
    ensures PickIds(a + b) == PickIds(a) + PickIds(b)
  {
    forall i | 0 <= i < |a| ensures a[i].id in PickIds(a + b) { assert (a + b)[i] == a[i]; }
    forall i | 0 <= i < |b| ensures b[i].id in PickIds(a + b) { assert (a + b)[|a| + i] == b[i]; }
  }

  lemma {:induction false} StepsOfWay(t: Tree, path: seq<Tree>, m: nat)
    requires IsWay(t, path, m)
    ensures ProcessSteps(t).Some?
    ensures var r := ProcessSteps(t).value;
            r.steps == m && r.fails == 0 && r.end == path[m + 1] && (m > 0 ==> r.swaps != [] && r.swaps[0] == path[m])
    decreases t
  {
    assert IsFirstChild(path[1], path[0]);
    if m > 0 {
      assert IsReportedPool(path[1].rec.info);
      var below := path[1..];
      forall i | 0 < i < |below| ensures IsFirstChild(below[i], below[i - 1]) {
        assert IsFirstChild(path[i + 1], path[i + 1 - 1]);
      }
      StepsOfWay(t.kids[0], below, m - 1);
    }
  }

  // ----- who asks for what -----

  /** The list of steps has this length. */
  predicate HasLength(step: DedustStep, n: nat)
    decreases step
  {
    n > 0 && if step.next.None? then n == 1 else HasLength(step.next.value, n - 1)
  }

  lemma {:induction false} CountIsLength(step: DedustStep, n: nat)
    ensures HasLength(step, n) <==> n == CountSteps(step)
    decreases step
  {
    if step.next.Some? && n > 0 { CountIsLength(step.next.value, n - 1); }
  }

  /** `user` asks for a swap in n steps and pays `in_`, in Gram or in jettons. */
  predicate AsksFor(info: Info, user: AccountID, in_: AssetTransfer, n: nat) {
    || (&& info.Tx? && info.tx.decodedBody.Some? && info.tx.decodedBody.value.DedustSwapBody?
        && var body := info.tx.decodedBody.value;
        && info.tx.inputFrom.Some? && info.tx.inputFrom.value.address == user && HasLength(body.step, n)
        && in_.isTon && in_.amount == body.amount && in_.jettonMaster == in_.jettonWallet == NO_ACCOUNT)
    || (&& info.JettonTransfer? && info.transfer.payload.DedustSwapPayload?
        && var j := info.transfer;
        && j.sender.Some? && j.sender.value.address == user && HasLength(j.payload.step, n)
        && !in_.isTon && in_.amount == j.amount && in_.jettonMaster == j.master && in_.jettonWallet == j.senderWallet)
  }

  // ----- who is paid what -----

  predicate Carries(info: Info, body: Body) {
    info.Tx? && info.tx.decodedBody == Some(body)
  }

  /** Both shares of a Gram payout that a referral splits. */
  predicate AreShares(a: Info, b: Info) {
    || (Carries(a, DedustTonExcessesBody) && Carries(b, DedustTonPayBody))
    || (Carries(a, ExcessBody) && Carries(b, ExcessBody))
  }

  predicate IsSplit(to: Account, payout: Tree) {
    to.Is(OmnistonReferral) && |payout.kids| == 2
  }

  predicate IsGram(out: AssetTransfer, amount: int) {
    out.isTon && out.amount == amount && out.jettonMaster == out.jettonWallet == NO_ACCOUNT
  }

  /** The user gets the larger share, the first one of two equal ones. */
  ghost predicate PaysLargerShare(payout: Tree, i: nat, user: AccountID, out: AssetTransfer)
    requires |payout.kids| == 2 && i < 2
  {
    && AreShares(payout.kids[0].rec.info, payout.kids[1].rec.info)
    && var mine, other := payout.kids[i].rec.info.tx, payout.kids[1 - i].rec.info.tx;
    && mine.account.address == user && IsGram(out, mine.inputAmount)
    && if i == 0 then mine.inputAmount >= other.inputAmount else mine.inputAmount > other.inputAmount
  }

  /** `j` is paid to the user, in the asset of the payout `of`. */
  predicate PaysJettons(j: JettonTransferInfo, of: JettonTransferInfo, user: AccountID, out: AssetTransfer) {
    && j.recipient.Some? && j.recipient.value.address == user && !out.isTon && out.amount == j.amount
    && out.jettonMaster == of.master && out.jettonWallet == of.senderWallet
  }

  /** The referral's child of a jetton payout, and the bubble that pays the user: the second child when the first one is
      a transaction, else the payout itself. */
  function ReferralOf(payout: Tree): Tree
    requires |payout.kids| == 2
  {
    if payout.kids[0].rec.info.Tx? then payout.kids[0] else payout.kids[1]
  }

  function ReceiptOf(payout: Tree): Tree
    requires |payout.kids| == 2
  {
    if payout.kids[0].rec.info.Tx? then payout.kids[1] else payout
  }

  /** The bubbles below the payout that are merged for the user's share. */
  ghost function ShareIds(referral: Tree, mine: Tree): set<Bubble> {
    {mine.id} + if |referral.kids| == 1 && Carries(referral.kids[0].rec.info, ExcessBody)
                then {referral.id, referral.kids[0].id} else {}
  }

  /** The payout pays `user` exactly `out`, and `share` is what a split adds to the merged bubbles. */
  ghost predicate PaysOut(payout: Tree, commanded: int, user: AccountID, out: AssetTransfer, share: set<Bubble>) {
    if payout.rec.info.Tx? then
      && Carries(payout.rec.info, DedustPayoutBody)
      && var to := payout.rec.info.tx.account;
      if !IsSplit(to, payout) then to.address == user && IsGram(out, commanded) && share == {}
      else exists i :: 0 <= i < 2 && PaysLargerShare(payout, i, user, out) && share == {payout.kids[i].id}
    else
      && payout.rec.info.JettonTransfer? && payout.rec.info.transfer.recipient.Some?
      && var j := payout.rec.info.transfer;
      if !IsSplit(j.recipient.value, payout) then PaysJettons(j, j, user, out) && share == {}
      else
        var referral, mine := ReferralOf(payout), ReceiptOf(payout);
        && (mine == payout ==> referral.rec.info.Tx? && referral.rec.info.tx.opCode == Some(REFERRAL_OPCODE))
        && mine.rec.info.JettonTransfer? && PaysJettons(mine.rec.info.transfer, j, user, out)
        && share == ShareIds(referral, mine)
  }

  // ----- the swap -----

  /** The bubbles of `path` are a swap that says `swap`: asked for at the top, done by m pools, commanded, and paid. */
  ghost predicate IsDedustSwap(t: Tree, path: seq<Tree>, m: nat, share: set<Bubble>, swap: SwapInfo) {
    && m > 0 && IsWay(t, path, m)
    && AsksFor(t.rec.info, swap.userWallet, swap.in_, m)
    && path[m + 1].kids != [] && path[m + 1].rec.info.tx.decodedBody.Some?
    && var command := path[m + 1].rec.info.tx.decodedBody.value;
    && command.DedustPayoutFromPoolBody?
    && PaysOut(path[m + 1].kids[0], command.amount, swap.userWallet, swap.out, share)
    && swap.router == path[m].rec.info.tx.account.address && swap.dex == Dedust && swap.success
  }

  /** The merged bubbles: all on the way but the root, the payout, and what a split adds. */
  ghost function MergedIds(path: seq<Tree>, m: nat, share: set<Bubble>): set<Bubble>
    requires |path| == m + 2 && path[m + 1].kids != []
  {
    PickIds(path[1..]) + {path[m + 1].kids[0].id} + share
  }

  /** When the merger applies, its swap is one that the bubbles tell of, and it merges exactly these bubbles. */
  lemma {:induction false} DedustTellsTheSwap(t: Tree) returns (path: seq<Tree>, m: nat, share: set<Bubble>)
    requires PlanOf(t).Some?
    ensures DedustTree(t).rec.info.JettonSwap? && IsDedustSwap(t, path, m, share, DedustTree(t).rec.info.swap)
    ensures PickIds(PlanOf(t).value.toMerge) == MergedIds(path, m, share)
  {
    var r := ProcessSteps(t).value;
    path := WayOfSteps(t);
    m := r.steps;
    var swap := PlanOf(t).value.swap;
    AskedFor(t.rec.info, m);
    var payoutB := r.end.kids[0];
    var payout := PayoutOf(payoutB.rec.info, r.end.rec.info.tx.decodedBody.value.amount).value;
    share := SplitPays(payout, payoutB, r.end.rec.info.tx.decodedBody.value.amount, swap.userWallet);
    MergedIdsAre(path, m, r.swaps, SplitOf(payout, payoutB).value.more, share);
  }

  lemma MergedIdsAre(path: seq<Tree>, m: nat, swaps: seq<Tree>, more: seq<Tree>, share: set<Bubble>)
    requires |path| == m + 2 && path[m + 1].kids != [] && PickIds(swaps) == PickIds(path[1..m + 1])
    requires PickIds(more) == share
    ensures PickIds(swaps + more + [path[m + 1], path[m + 1].kids[0]]) == MergedIds(path, m, share)
  {
    var end, payoutB := path[m + 1], path[m + 1].kids[0];
    assert path[1..] == path[1..m + 1] + [end] && [end, payoutB] == [end] + [payoutB];
    PickIdsConcat(path[1..m + 1], [end]);
    PickIdsConcat(swaps, more);
    PickIdsConcat(swaps + more, [end, payoutB]);
    PickIdsConcat([end], [payoutB]);
    PickIdsOne(end);
    PickIdsOne(payoutB);
  }

  lemma AskedFor(info: Info, m: nat)
    requires OrderOf(info).Some? && CountSteps(OrderOf(info).value.step) == m
    ensures AsksFor(info, OrderOf(info).value.sender, OrderOf(info).value.in_, m)
  {
    CountIsLength(OrderOf(info).value.step, m);
  }

  lemma SplitPays(payout: Payout, payoutB: Tree, commanded: int, user: AccountID) returns (share: set<Bubble>)
    requires PayoutOf(payoutB.rec.info, commanded) == Some(payout) && SplitOf(payout, payoutB).Some?
    requires SplitOf(payout, payoutB).value.payout.to.address == user
    ensures PaysOut(payoutB, commanded, user, SplitOf(payout, payoutB).value.payout.out, share)
    ensures share == PickIds(SplitOf(payout, payoutB).value.more)
  {
    var more := SplitOf(payout, payoutB).value.more;
    var none: seq<Tree> := [];
    assert PickIds(none) == {};
    share := PickIds(more);
    if IsReferral(payout, payoutB) {
      if payout.out.isTon {
        var i := if more == [payoutB.kids[0]] then 0 else 1;
        PickIdsOne(payoutB.kids[i]);
      } else {
        var referral, mine := ReferralOf(payoutB), ReceiptOf(payoutB);
        PickIdsOne(mine);
        if |more| > 1 {
          assert more == [mine] + [referral.kids[0], referral];
          assert [referral.kids[0], referral] == [referral.kids[0]] + [referral];
          PickIdsConcat([mine], [referral.kids[0], referral]);
          PickIdsConcat([referral.kids[0]], [referral]);
          PickIdsOne(referral);
          PickIdsOne(referral.kids[0]);
        }
      }
    }
  }

  /** And only then: whatever bubbles are a swap, the merger takes it, and says just that. */
  lemma {:induction false} DedustTakesEverySwap(t: Tree, path: seq<Tree>, m: nat, share: set<Bubble>, swap: SwapInfo)
    requires IsDedustSwap(t, path, m, share, swap)
    ensures PlanOf(t).Some? && DedustTree(t).rec.info == JettonSwap(swap)
  {
    StepsOfWay(t, path, m);
    Asked(t.rec.info, swap.userWallet, swap.in_, m);
    Paid(path[m + 1].kids[0], path[m + 1].rec.info.tx.decodedBody.value.amount, swap.userWallet, swap.out, share);
  }

  lemma Asked(info: Info, user: AccountID, in_: AssetTransfer, m: nat)
    requires AsksFor(info, user, in_, m)
    ensures OrderOf(info).Some? && CountSteps(OrderOf(info).value.step) == m
    ensures OrderOf(info).value.sender == user && OrderOf(info).value.in_ == in_
  {
    CountIsLength(OrderOf(info).value.step, m);
  }

  lemma Paid(payoutB: Tree, commanded: int, user: AccountID, out: AssetTransfer, share: set<Bubble>)
    requires PaysOut(payoutB, commanded, user, out, share)
    ensures PayoutOf(payoutB.rec.info, commanded).Some?
    ensures var split := SplitOf(PayoutOf(payoutB.rec.info, commanded).value, payoutB);
            split.Some? && split.value.payout.to.address == user && split.value.payout.out == out
  {
  }
}
