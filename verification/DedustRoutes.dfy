/** What the Dedust merger reads off a tree and makes of it (pkg/bath/dedust.go). */
module DedustRoutes {
  import opened Wrappers
  import opened Ledger
  import opened Bubbles
  import opened Patterns
  import opened Clusters
  import opened StonfiRoutes
  import opened Gathering

  const REFERRAL_OPCODE: nat := 0x603f6e78
  const NO_ACCOUNT: AccountID := AccountID(0, 0)

  /** Steps done, steps that report no swap, the pool bubbles from the last step to the first, and what follows them. */
  datatype Route = Route(steps: nat, fails: nat, swaps: seq<Tree>, end: Tree)

  function ProcessSteps(b: Tree): (r: Option<Route>)
    ensures r.Some? ==> r.value.steps == |r.value.swaps| && r.value.end.rec.info.Tx?
    ensures r.Some? ==> forall n | n in r.value.swaps :: n.rec.info.Tx?
    decreases b
  {
    if b.kids == [] || !b.kids[0].rec.info.Tx? then None else
    var child := b.kids[0];
    if !child.rec.info.tx.account.Is(DedustPool) then Some(Route(0, 0, [], child)) else
    match ProcessSteps(child)
    case None => None
    case Some(r) =>
      var fails := if child.rec.info.tx.swapReported then r.fails else r.fails + 1;
      Some(Route(r.steps + 1, fails, r.swaps + [child], r.end))
  }

  function CountSteps(step: DedustStep): nat {
    if step.next.None? then 1 else CountSteps(step.next.value) + 1
  }

  /** The steps asked for, who asked, and what was paid in. */
  datatype Order = Order(step: DedustStep, sender: AccountID, in_: AssetTransfer)

  function OrderOf(info: Info): Option<Order> {
    if info.Tx? && info.tx.decodedBody.Some? && info.tx.decodedBody.value.DedustSwapBody? then
      if info.tx.inputFrom.None? then None else
      var swap := info.tx.decodedBody.value;
      Some(Order(swap.step, info.tx.inputFrom.value.address, AssetTransfer(swap.amount, true, NO_ACCOUNT, NO_ACCOUNT)))
    else if info.JettonTransfer? && info.transfer.payload.DedustSwapPayload? then
      if info.transfer.sender.None? then None else
      var j := info.transfer;
      Some(Order(j.payload.step, j.sender.value.address, AssetTransfer(j.amount, false, j.master, j.senderWallet)))
    else None
  }

  /** Where a payout goes and what it pays. */
  datatype Payout = Payout(to: Account, out: AssetTransfer)

  function PayoutOf(info: Info, commanded: int): Option<Payout> {
    if info.Tx? && info.tx.decodedBody == Some(DedustPayoutBody) then
      Some(Payout(info.tx.account, AssetTransfer(commanded, true, NO_ACCOUNT, NO_ACCOUNT)))
    else if info.JettonTransfer? && info.transfer.recipient.Some? then
      var j := info.transfer;
      Some(Payout(j.recipient.value, AssetTransfer(j.amount, false, j.master, j.senderWallet)))
    else None
  }

  /** A payout that a referral account splits in two: what goes to the user, and the bubbles merged for it. */
  datatype Split = Split(payout: Payout, more: seq<Tree>)

  predicate IsExcesses(a: BubbleTx, b: BubbleTx) {
    (a.decodedBody == Some(DedustTonExcessesBody) && b.decodedBody == Some(DedustTonPayBody))
    || (a.decodedBody == Some(ExcessBody) && b.decodedBody == Some(ExcessBody))
  }

  function SplitGram(payout: Payout, referal: Tree, payout2: Tree): Option<Split> {
    var a, b := referal.rec.info, payout2.rec.info;
    if !a.Tx? || !b.Tx? || !IsExcesses(a.tx, b.tx) then None
    else if a.tx.inputAmount < b.tx.inputAmount then
      Some(Split(Payout(b.tx.account, payout.out.(amount := b.tx.inputAmount)), [payout2]))
    else Some(Split(Payout(a.tx.account, payout.out.(amount := a.tx.inputAmount)), [referal]))
  }

  /** The children of a jetton payout come in either order; in the second order the payout itself is taken again. */
  predicate SwapsChildren(payoutB: Tree)
    requires |payoutB.kids| == 2
  {
    !payoutB.kids[0].rec.info.Tx?
  }

  function SplitJetton(payout: Payout, payoutB: Tree): Option<Split>
    requires |payoutB.kids| == 2
  {
    var swapped := SwapsChildren(payoutB);
    var referal := if swapped then payoutB.kids[1] else payoutB.kids[0];
    var payout2 := if swapped then payoutB else payoutB.kids[1];
    if swapped && (!referal.rec.info.Tx? || referal.rec.info.tx.opCode != Some(REFERRAL_OPCODE)) then None
    else if !payout2.rec.info.JettonTransfer? || payout2.rec.info.transfer.recipient.None? then None
    else
      var j := payout2.rec.info.transfer;
      var more := if |referal.kids| == 1 && IsExcess(referal.kids[0].rec.info)
                  then [payout2, referal.kids[0], referal] else [payout2];
      Some(Split(Payout(j.recipient.value, payout.out.(amount := j.amount)), more))
  }

  predicate IsReferral(payout: Payout, payoutB: Tree) {
    payout.to.Is(OmnistonReferral) && |payoutB.kids| == 2
  }

  function SplitOf(payout: Payout, payoutB: Tree): Option<Split> {
    if !IsReferral(payout, payoutB) then Some(Split(payout, []))
    else if payout.out.isTon then SplitGram(payout, payoutB.kids[0], payoutB.kids[1])
    else SplitJetton(payout, payoutB)
  }

  /** The bubbles to merge into the root, in order, and the swap they make. */
  datatype Plan = Plan(toMerge: seq<Tree>, swap: SwapInfo)

  function PlanOf(b: Tree): Option<Plan> {
    var order := OrderOf(b.rec.info);
    var route := ProcessSteps(b);
    if order.None? || route.None? then None else
    var r := route.value;
    if r.fails != 0 || CountSteps(order.value.step) != r.steps then None else
    var command := r.end.rec.info.tx.decodedBody;
    if r.end.kids == [] || command.None? || !command.value.DedustPayoutFromPoolBody? then None else
    var payoutB := r.end.kids[0];
    var payout := PayoutOf(payoutB.rec.info, command.value.amount);
    if payout.None? then None else
    var split := SplitOf(payout.value, payoutB);
    if split.None? || split.value.payout.to.address != order.value.sender || r.swaps == [] then None else
    Some(Plan(r.swaps + split.value.more + [r.end, payoutB],
              SwapInfo(Dedust, order.value.sender, r.swaps[0].rec.info.tx.account.address, split.value.payout.out,
                       order.value.in_, true)))
  }

  /** The branch that takes the payout bubble twice. */
  predicate TakesPayoutTwice(b: Tree) {
    PlanOf(b).Some? &&
    var end := ProcessSteps(b).value.end;
    var payout := PayoutOf(end.kids[0].rec.info, end.rec.info.tx.decodedBody.value.amount).value;
    IsReferral(payout, end.kids[0]) && !payout.out.isTon && SwapsChildren(end.kids[0])
  }

  function PayoutBubble(b: Tree): Tree
    requires PlanOf(b).Some?
  {
    ProcessSteps(b).value.end.kids[0]
  }

  /** The tree after a Dedust merge; the root keeps its objects. */
  function DedustTree(t: Tree): Tree
    requires PlanOf(t).Some?
  {
    var plan := PlanOf(t).value;
    var ids := set i | 0 <= i < |plan.toMerge| :: plan.toMerge[i].id;
    Node(t.id, t.cell,
         Rec(JettonSwap(plan.swap), AccountsInto(t.rec.accounts, plan.toMerge), FlowInto(t.rec.flow, plan.toMerge),
             TransactionsInto(t.rec.transaction, plan.toMerge), t.rec.merged),
         Outside(t.kids, ids) + Rescue(plan.toMerge, ids))
  }

  // ----- where the merged bubbles lie -----

  /** The picked bubbles lead from `b` down to `end`. */
  ghost predicate LeadsTo(b: Tree, picks: seq<Tree>, end: Tree) {
    var path := {b.id} + PickIds(picks) + {end.id};
    && TopClosed(b, path) && path <= Ids(b) && end in Nodes(b) && end != b && path * Ids(end) == {end.id}
    && Enumerates(b, picks, PickIds(picks)) && b.id !in PickIds(picks) && end.id !in PickIds(picks)
  }

  lemma LeadsToKid(b: Tree, c: Tree)
    requires Distinct(b) && b.kids != [] && c == b.kids[0]
    ensures LeadsTo(b, [], c)
  {
    var none: seq<Tree> := [];
    assert PickIds(none) == {} && {b.id} + PickIds(none) + {c.id} == {b.id} + {c.id};
    assert Enumerates(b, none, PickIds(none));
    KidPath(b, c);
  }

  lemma KidPath(b: Tree, c: Tree)
    requires Distinct(b) && b.kids != [] && c == b.kids[0]
    ensures TopClosed(b, {b.id} + {c.id}) && {b.id} + {c.id} <= Ids(b)
    ensures c in Nodes(b) && c != b && ({b.id} + {c.id}) * Ids(c) == {c.id}
  {
    KidUnder(b, c);
    LoneClosed(c);
    BranchClosed(b, 0, {c.id});
    AboveIsElsewhere(b, c);
  }

  lemma {:induction false} LeadsOn(b: Tree, c: Tree, picks: seq<Tree>, end: Tree)
    requires Distinct(b) && b.kids != [] && c == b.kids[0] && LeadsTo(c, picks, end)
    ensures LeadsTo(b, picks + [c], end)
  {
    var path := {c.id} + PickIds(picks) + {end.id};
    LeadsOnPicks(b, c, picks);
    assert {b.id} + PickIds(picks + [c]) + {end.id} == {b.id} + path;
    LeadsOnEnd(b, c, end, path);
    AboveIsElsewhere(c, end);
    assert end in Nodes(end) && end.id in Ids(end);
  }

  lemma LeadsOnPicks(b: Tree, c: Tree, picks: seq<Tree>)
    requires Distinct(b) && c in b.kids && Enumerates(c, picks, PickIds(picks)) && c.id !in PickIds(picks)
    ensures Enumerates(b, picks + [c], PickIds(picks + [c])) && b.id !in PickIds(picks + [c])
    ensures PickIds(picks + [c]) == PickIds(picks) + {c.id}
  {
    KidUnder(b, c);
    PickMore(c, picks, PickIds(picks), c, map[]);
    InBiggerTree(b, c, picks + [c]);
  }

  lemma LeadsOnEnd(b: Tree, c: Tree, end: Tree, path: set<Bubble>)
    requires Distinct(b) && b.kids != [] && c == b.kids[0]
    requires TopClosed(c, path) && path <= Ids(c) && end in Nodes(c) && path * Ids(end) == {end.id}
    ensures TopClosed(b, {b.id} + path) && {b.id} + path <= Ids(b)
    ensures end in Nodes(b) && end != b && ({b.id} + path) * Ids(end) == {end.id}
  {
    BranchClosed(b, 0, path);
    KidUnder(b, c);
    NodesUnder(c, end);
    AboveIsElsewhere(b, c);
  }

  /** The pools and the payout command form a path down from `b`. */
  lemma {:induction false} RouteShape(b: Tree)
    requires Distinct(b) && ProcessSteps(b).Some?
    ensures LeadsTo(b, ProcessSteps(b).value.swaps, ProcessSteps(b).value.end)
    decreases b
  {
    LeadsToKid(b, b.kids[0]);
    if ProcessSteps(b).value.swaps != [] {
      KidUnder(b, b.kids[0]);
      RouteShape(b.kids[0]);
      LeadsOn(b, b.kids[0], ProcessSteps(b.kids[0]).value.swaps, ProcessSteps(b).value.end);
    }
  }

  lemma InBiggerTree(b: Tree, c: Tree, picks: seq<Tree>)
    requires Distinct(b) && c in Nodes(b) && Enumerates(c, picks, PickIds(picks))
    ensures Enumerates(b, picks, PickIds(picks)) && PickIds(picks) <= Ids(c)
  {
    NodesUnder(b, c);
    forall i | 0 <= i < |picks| ensures picks[i] in Nodes(b) && picks[i].id in Ids(c) {
      assert picks[i] in picks;
    }
  }

  /** What is merged below the payout command, when nothing is taken twice. */
  function TailOf(b: Tree): seq<Tree>
    requires PlanOf(b).Some?
  {
    var r := ProcessSteps(b).value;
    var all := PlanOf(b).value.toMerge[|r.swaps|..];
    if TakesPayoutTwice(b) then all[1..] else all
  }

  /** The bubbles to merge, each once. */
  function OnceEach(b: Tree): seq<Tree>
    requires PlanOf(b).Some?
  {
    ProcessSteps(b).value.swaps + TailOf(b)
  }

  /** These bubbles lie in a region right below the payout. */
  ghost predicate Share(payoutB: Tree, picks: seq<Tree>) {
    && Enumerates(payoutB, picks, PickIds(picks)) && payoutB.id !in PickIds(picks)
    && TopClosed(payoutB, {payoutB.id} + PickIds(picks)) && {payoutB.id} + PickIds(picks) <= Ids(payoutB)
  }

  lemma ShareNone(payoutB: Tree)
    requires Distinct(payoutB)
    ensures Share(payoutB, [])
  {
    LoneClosed(payoutB);
    assert PickIds([]) == {} && {payoutB.id} + {} == {payoutB.id};
  }

  lemma OnePick(t: Tree, n: Tree)
    requires n in Nodes(t)
    ensures PickIds([n]) == {n.id} && Enumerates(t, [n], {n.id})
  {
    assert [n][0].id in PickIds([n]);
  }

  lemma ShareOne(payoutB: Tree, i: nat)
    requires Distinct(payoutB) && i < |payoutB.kids|
    ensures Share(payoutB, [payoutB.kids[i]])
  {
    var k := payoutB.kids[i];
    KidUnder(payoutB, k);
    LoneClosed(k);
    BranchClosed(payoutB, i, {k.id});
    OnePick(payoutB, k);
  }

  /** A child with its only child. */
  lemma PairClosed(k: Tree)
    requires Distinct(k) && |k.kids| == 1
    ensures TopClosed(k, {k.id} + {k.kids[0].id}) && {k.id} + {k.kids[0].id} <= Ids(k)
  {
    KidUnder(k, k.kids[0]);
    LoneClosed(k.kids[0]);
    BranchClosed(k, 0, {k.kids[0].id});
  }

  lemma PairPicks(t: Tree, k: Tree)
    requires Distinct(t) && k in Nodes(t) && |k.kids| == 1
    ensures Enumerates(t, [k.kids[0], k], {k.id} + {k.kids[0].id})
  {
    KidUnder(k, k.kids[0]);
    NodesUnder(t, k);
    TwoPicks(t, k.kids[0], k);
  }

  lemma TwoPicks(t: Tree, c: Tree, k: Tree)
    requires c in Nodes(t) && k in Nodes(t) && c.id != k.id
    ensures Enumerates(t, [c, k], {k.id} + {c.id})
  {
    OnePick(t, c);
    PickMore(t, [c], {c.id}, k, map[]);
    assert [c] + [k] == [c, k] && {c.id} + {k.id} == {k.id} + {c.id};
  }

  lemma SharePair(payoutB: Tree, i: nat)
    requires Distinct(payoutB) && i < |payoutB.kids| && |payoutB.kids[i].kids| == 1
    ensures Share(payoutB, [payoutB.kids[i].kids[0], payoutB.kids[i]])
  {
    var k := payoutB.kids[i];
    KidUnder(payoutB, k);
    PairClosed(k);
    PairPicks(payoutB, k);
    BranchClosed(payoutB, i, {k.id} + {k.kids[0].id});
  }

  lemma ShareBoth(payoutB: Tree)
    requires Distinct(payoutB) && |payoutB.kids| == 2 && |payoutB.kids[0].kids| == 1
    ensures Share(payoutB, [payoutB.kids[1], payoutB.kids[0].kids[0], payoutB.kids[0]])
  {
    var k, l := payoutB.kids[0], payoutB.kids[1];
    BothPicks(payoutB, k, l);
    BothClosed(payoutB, k, l);
    BothBelow(payoutB, k, l);
    IsShare(payoutB, [l, k.kids[0], k], {l.id} + ({k.id} + {k.kids[0].id}));
  }

  lemma IsShare(payoutB: Tree, picks: seq<Tree>, some: set<Bubble>)
    requires Enumerates(payoutB, picks, some) && payoutB.id !in some
    requires TopClosed(payoutB, {payoutB.id} + some) && {payoutB.id} + some <= Ids(payoutB)
    ensures Share(payoutB, picks)
  {
  }

  lemma BothBelow(t: Tree, k: Tree, l: Tree)
    requires Distinct(t) && k in t.kids && l in t.kids && |k.kids| == 1
    ensures t.id !in {l.id} + ({k.id} + {k.kids[0].id})
  {
    RootNotBelow(t, k, k);
    RootNotBelow(t, l, l);
    RootNotBelow(t, k, k.kids[0]);
  }

  lemma RootNotBelow(t: Tree, k: Tree, n: Tree)
    requires Distinct(t) && k in t.kids && (n == k || n in k.kids)
    ensures n.id != t.id
  {
    assert t.id !in Foot(k);
    assert k in Nodes(k) && n in Nodes(k) by { if n in k.kids { KidUnder(k, n); } }
    assert n.id in Foot(k);
  }

  lemma BothClosed(t: Tree, k: Tree, l: Tree)
    requires Distinct(t) && |t.kids| == 2 && k == t.kids[0] && l == t.kids[1] && |k.kids| == 1
    ensures var all := {t.id} + ({l.id} + ({k.id} + {k.kids[0].id})); TopClosed(t, all) && all <= Ids(t)
  {
    var pair := {k.id} + {k.kids[0].id};
    assert Distinct(k) && Distinct(l);
    assert TopClosed(k, pair) && pair <= Ids(k) by { PairClosed(k); }
    assert TopClosed(l, {l.id}) && {l.id} <= Ids(l) by { LoneClosed(l); }
    SidesClosed(t, pair, {l.id});
    assert {t.id} + ({t.id} + pair + {l.id}) == {t.id} + ({l.id} + pair);
  }

  lemma BothPicks(t: Tree, k: Tree, l: Tree)
    requires Distinct(t) && |t.kids| == 2 && k == t.kids[0] && l == t.kids[1] && |k.kids| == 1
    ensures Enumerates(t, [l, k.kids[0], k], {l.id} + ({k.id} + {k.kids[0].id}))
  {
    assert [l] + [k.kids[0], k] == [l, k.kids[0], k];
    assert k in Nodes(t) && l in Nodes(t) && l.id != k.id && l.id != k.kids[0].id by {
      KidUnder(t, k);
      KidUnder(t, l);
      KidUnder(k, k.kids[0]);
      Apart(t, 0, 1);
    }
    PairPicks(t, k);
    OnePick(t, l);
    EnumeratesConcat(t, [l], [k.kids[0], k], {l.id}, {k.id} + {k.kids[0].id});
  }

  /** A referral's share lies right below the payout; only the second order of children takes the payout again. */
  lemma SplitShape(payout: Payout, payoutB: Tree)
    requires Distinct(payoutB) && SplitOf(payout, payoutB).Some?
    ensures var more := SplitOf(payout, payoutB).value.more;
            if IsReferral(payout, payoutB) && !payout.out.isTon && SwapsChildren(payoutB)
            then more != [] && more[0] == payoutB && Share(payoutB, more[1..])
            else Share(payoutB, more)
  {
    ShareNone(payoutB);
    if IsReferral(payout, payoutB) {
      var more := SplitOf(payout, payoutB).value.more;
      ShareOne(payoutB, 0);
      ShareOne(payoutB, 1);
      if !payout.out.isTon {
        if SwapsChildren(payoutB) {
          if |more| > 1 { SharePair(payoutB, 1); }
        } else {
          if |more| > 1 { ShareBoth(payoutB); }
        }
      }
    }
  }

  /** The bubbles to merge, each once, form a region below the root. */
  lemma {:induction false} PlanShape(t: Tree)
    requires Distinct(t) && PlanOf(t).Some?
    ensures var picks := OnceEach(t);
            && Enumerates(t, picks, PickIds(picks)) && t.id !in PickIds(picks)
            && TopClosed(t, {t.id} + PickIds(picks))
  {
    var r := ProcessSteps(t).value;
    RouteShape(t);
    TailShape(t);
    PathAndTail(t, r.swaps, r.end, TailOf(t));
  }

  lemma {:induction false} PathAndTail(t: Tree, swaps: seq<Tree>, end: Tree, tail: seq<Tree>)
    requires Distinct(t) && LeadsTo(t, swaps, end)
    requires Enumerates(end, tail, PickIds(tail)) && TopClosed(end, PickIds(tail)) && PickIds(tail) <= Ids(end)
    ensures var picks := swaps + tail;
            && Enumerates(t, picks, PickIds(picks)) && t.id !in PickIds(picks)
            && TopClosed(t, {t.id} + PickIds(picks))
  {
    var path := {t.id} + PickIds(swaps) + {end.id};
    assert Enumerates(t, swaps + tail, PickIds(swaps) + PickIds(tail)) by {
      SwapsAbove(t, swaps, end);
      InBiggerTree(t, end, tail);
      EnumeratesConcat(t, swaps, tail, PickIds(swaps), PickIds(tail));
    }
    assert t.id !in Ids(end) by { AboveIsElsewhere(t, end); }
    Graft(t, path, end, PickIds(tail));
    assert path + PickIds(tail) == {t.id} + PickIds(swaps + tail);
  }

  lemma SwapsAbove(t: Tree, swaps: seq<Tree>, end: Tree)
    requires LeadsTo(t, swaps, end)
    ensures PickIds(swaps) !! Ids(end)
  {
    var path := {t.id} + PickIds(swaps) + {end.id};
    forall x | x in PickIds(swaps) ensures x !in Ids(end) {
      assert x in path && (x in Ids(end) ==> x in path * Ids(end));
    }
  }

  /** What is merged from the payout command down. */
  lemma {:induction false} TailShape(t: Tree)
    requires Distinct(t) && PlanOf(t).Some?
    ensures var end, tail := ProcessSteps(t).value.end, TailOf(t);
            && Enumerates(end, tail, PickIds(tail)) && TopClosed(end, PickIds(tail)) && PickIds(tail) <= Ids(end)
            && Distinct(end)
  {
    RouteShape(t);
    var end := ProcessSteps(t).value.end;
    var payoutB := end.kids[0];
    var payout := PayoutOf(payoutB.rec.info, end.rec.info.tx.decodedBody.value.amount).value;
    NodesUnder(t, end);
    assert Distinct(payoutB);
    TailIs(t);
    SplitShape(payout, payoutB);
    ShareOfEnd(end, payoutB, ShareOf(t));
  }

  /** The referral's share, without the payout itself. */
  function ShareOf(b: Tree): seq<Tree>
    requires PlanOf(b).Some?
  {
    var end := ProcessSteps(b).value.end;
    var payout := PayoutOf(end.kids[0].rec.info, end.rec.info.tx.decodedBody.value.amount).value;
    var more := SplitOf(payout, end.kids[0]).value.more;
    if TakesPayoutTwice(b) then more[1..] else more
  }

  lemma TailIs(b: Tree)
    requires PlanOf(b).Some?
    ensures var end := ProcessSteps(b).value.end; TailOf(b) == ShareOf(b) + [end, end.kids[0]]
    ensures var swaps := ProcessSteps(b).value.swaps;
            PlanOf(b).value.toMerge ==
            if TakesPayoutTwice(b) then swaps + [PayoutBubble(b)] + TailOf(b) else swaps + TailOf(b)
  {
    var r := ProcessSteps(b).value;
    var payoutB := r.end.kids[0];
    var payout := PayoutOf(payoutB.rec.info, r.end.rec.info.tx.decodedBody.value.amount).value;
    var more := SplitOf(payout, payoutB).value.more;
    var all := PlanOf(b).value.toMerge;
    assert all == r.swaps + (more + [r.end, payoutB]) && all[|r.swaps|..] == more + [r.end, payoutB];
    if TakesPayoutTwice(b) {
      assert more == [payoutB] + more[1..];
      assert all == r.swaps + [payoutB] + (more[1..] + [r.end, payoutB]);
    }
  }

  lemma ShareOfEnd(end: Tree, payoutB: Tree, share: seq<Tree>)
    requires Distinct(end) && end.kids != [] && payoutB == end.kids[0] && Share(payoutB, share)
    ensures var tail := share + [end, payoutB];
            Enumerates(end, tail, PickIds(tail)) && TopClosed(end, PickIds(tail)) && PickIds(tail) <= Ids(end)
  {
    ShareOfEndPicks(end, payoutB, share);
    BranchClosed(end, 0, {payoutB.id} + PickIds(share));
  }

  lemma ShareOfEndPicks(end: Tree, payoutB: Tree, share: seq<Tree>)
    requires Distinct(end) && end.kids != [] && payoutB == end.kids[0]
    requires Enumerates(payoutB, share, PickIds(share)) && payoutB.id !in PickIds(share)
    ensures var tail := share + [end, payoutB];
            Enumerates(end, tail, PickIds(tail)) && PickIds(tail) == {end.id} + ({payoutB.id} + PickIds(share))
  {
    assert payoutB in Nodes(end) && end in Nodes(end) && end.id !in Ids(payoutB) && payoutB.id in Ids(payoutB) by {
      KidUnder(end, payoutB);
    }
    InBiggerTree(end, payoutB, share);
    PickMore(end, share, PickIds(share), end, map[]);
    PickMore(end, share + [end], PickIds(share) + {end.id}, payoutB, map[]);
    assert share + [end] + [payoutB] == share + [end, payoutB];
    assert PickIds(share) + {end.id} + {payoutB.id} == {end.id} + ({payoutB.id} + PickIds(share));
  }
}
