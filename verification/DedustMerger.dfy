/** The Dedust merger over the mutable tree (pkg/bath/dedust.go). */
module DedustMerger {
  import opened Wrappers
  import opened Ledger
  import opened Bubbles
  import opened Patterns
  import opened Clusters
  import opened StonfiRoutes
  import opened Gathering
  import opened DedustRoutes
  import opened DedustMerges
  import Matcher
  import S = StonfiMerger

  /** Steps, fails, the pool bubbles from the last to the first, and the bubble after them;
      None on an unexpected end. */
  method RecursiveProcessSteps(b: Bubble, ghost t: Tree)
    returns (found: bool, steps: nat, fails: nat, swaps: seq<Bubble>, end: Bubble)
    requires Rep(t) && t.id == b
    ensures found == ProcessSteps(t).Some?
    ensures found ==> var r := ProcessSteps(t).value;
                      steps == r.steps && fails == r.fails && swaps == Roots(r.swaps) && end == r.end.id
    decreases t
  {
    found, steps, fails, swaps, end := false, 0, 0, [], b;
    assert Here(t) by { assert t in Nodes(t); }
    if |b.children| < 1 {
      return;
    }
    S.KidHere(t, 0);
    var child := b.children[0];
    if !child.info.Tx? {
      return;
    }
    if child.info.tx.account.Is(DedustPool) {
      found, steps, fails, swaps, end := RecursiveProcessSteps(child, t.kids[0]);
      if !found {
        return;
      }
      if !child.info.tx.swapReported {
        fails := fails + 1;
      }
      Matcher.Push(ProcessSteps(t.kids[0]).value.swaps, t.kids[0], []);
      steps, swaps := steps + 1, swaps + [child];
      return;
    }
    return true, 0, 0, [], child;
  }

  method SplitGramBubbles(payout: Payout, payoutB: Bubble, ghost t: Tree) returns (r: Option<(Payout, seq<Bubble>)>)
    requires Rep(t) && t.id == payoutB && |t.kids| == 2
    ensures r.Some? == SplitGram(payout, t.kids[0], t.kids[1]).Some?
    ensures r.Some? ==> var s := SplitGram(payout, t.kids[0], t.kids[1]).value;
                        r.value.0 == s.payout && r.value.1 == Roots(s.more)
  {
    S.KidHere(t, 0);
    S.KidHere(t, 1);
    var referalBubble, payoutBubble2 := payoutB.children[0], payoutB.children[1];
    if !referalBubble.info.Tx? || !payoutBubble2.info.Tx? || !IsExcesses(referalBubble.info.tx, payoutBubble2.info.tx) {
      return None;
    }
    var first, second := referalBubble.info.tx, payoutBubble2.info.tx;
    if first.inputAmount < second.inputAmount {
      return Some((Payout(second.account, payout.out.(amount := second.inputAmount)), [payoutBubble2]));
    }
    return Some((Payout(first.account, payout.out.(amount := first.inputAmount)), [referalBubble]));
  }

  method SplitJettonBubbles(payout: Payout, payoutB: Bubble, ghost t: Tree) returns (r: Option<(Payout, seq<Bubble>)>)
    requires Rep(t) && t.id == payoutB && |t.kids| == 2
    ensures r.Some? == SplitJetton(payout, t).Some?
    ensures r.Some? ==> var s := SplitJetton(payout, t).value; r.value.0 == s.payout && r.value.1 == Roots(s.more)
  {
    S.KidHere(t, 0);
    S.KidHere(t, 1);
    var referalBubble, payoutBubble2 := payoutB.children[0], payoutB.children[1];
    ghost var ref := t.kids[0];
    if !referalBubble.info.Tx? {
      referalBubble, payoutBubble2 := payoutBubble2, payoutB;
      ref := t.kids[1];
      if !referalBubble.info.Tx? || referalBubble.info.tx.opCode != Some(REFERRAL_OPCODE) {
        return None;
      }
    }
    if !payoutBubble2.info.JettonTransfer? || payoutBubble2.info.transfer.recipient.None? {
      return None;
    }
    var j := payoutBubble2.info.transfer;
    var swaps := [payoutBubble2];
    if |referalBubble.children| == 1 {
      S.KidHere(ref, 0);
      if IsExcess(referalBubble.children[0].info) {
        swaps := swaps + [referalBubble.children[0]];
        swaps := swaps + [referalBubble];
      }
    }
    return Some((Payout(j.recipient.value, payout.out.(amount := j.amount)), swaps));
  }

  /** All the checks of the merger: the bubbles to merge and the swap they make. */
  method FindPlan(b: Bubble, ghost t: Tree) returns (r: Option<(seq<Bubble>, SwapInfo)>)
    requires Rep(t) && t.id == b
    ensures r.Some? == PlanOf(t).Some?
    ensures r.Some? ==> r.value.0 == Roots(PlanOf(t).value.toMerge) && r.value.1 == PlanOf(t).value.swap
  {
    assert allocated(Foot(t)) && allocated(Nodes(t));
    assert Here(t) by { assert t in Nodes(t); }
    var order := OrderOf(b.info);
    if order.None? {
      return None;
    }
    var found, steps, fails, swapsBubbles, payoutCommandBubble := RecursiveProcessSteps(b, t);
    if !found || fails != 0 || CountSteps(order.value.step) != steps {
      return None;
    }
    ghost var end := ProcessSteps(t).value.end;
    EndHere(t);
    var command := payoutCommandBubble.info.tx.decodedBody;
    if |payoutCommandBubble.children| < 1 || command.None? || !command.value.DedustPayoutFromPoolBody? {
      return None;
    }
    S.KidHere(end, 0);
    var payoutBubble := payoutCommandBubble.children[0];
    var payout := PayoutOf(payoutBubble.info, command.value.amount);
    if payout.None? {
      return None;
    }
    var split := SplitPayout(payout.value, payoutBubble, end.kids[0]);
    if split.None? || split.value.0.to.address != order.value.sender {
      return None;
    }
    ToMergeRoots(ProcessSteps(t).value.swaps, SplitOf(payout.value, end.kids[0]).value.more, end);
    S.KidHere(t, 0);
    FirstPool(t);
    r := Some((swapsBubbles + split.value.1 + [payoutCommandBubble, payoutBubble],
               SwapInfo(Dedust, order.value.sender, swapsBubbles[0].info.tx.account.address, split.value.0.out,
                        order.value.in_, true)));
  }

  method SplitPayout(payout: Payout, payoutBubble: Bubble, ghost t: Tree) returns (r: Option<(Payout, seq<Bubble>)>)
    requires Rep(t) && t.id == payoutBubble
    ensures r.Some? == SplitOf(payout, t).Some?
    ensures r.Some? ==> var s := SplitOf(payout, t).value; r.value.0 == s.payout && r.value.1 == Roots(s.more)
  {
    assert Here(t) by { assert t in Nodes(t); }
    if !payout.to.Is(OmnistonReferral) || |payoutBubble.children| != 2 {
      return Some((payout, []));
    }
    if payout.out.isTon {
      r := SplitGramBubbles(payout, payoutBubble, t);
    } else {
      r := SplitJettonBubbles(payout, payoutBubble, t);
    }
  }

  lemma EndHere(t: Tree)
    requires Rep(t) && ProcessSteps(t).Some?
    ensures Rep(ProcessSteps(t).value.end) && Here(ProcessSteps(t).value.end)
    decreases t
  {
    S.KidHere(t, 0);
    if ProcessSteps(t).value.swaps != [] { EndHere(t.kids[0]); }
  }

  lemma ToMergeRoots(swaps: seq<Tree>, more: seq<Tree>, end: Tree)
    requires end.kids != []
    ensures Roots(swaps + more + [end, end.kids[0]]) == Roots(swaps) + Roots(more) + [end.id, end.kids[0].id]
  {
    Matcher.RootsConcat(swaps, more);
    Matcher.RootsConcat(swaps + more, [end, end.kids[0]]);
    assert Roots([end, end.kids[0]]) == [end.id, end.kids[0].id];
  }

  lemma FirstPool(t: Tree)
    requires Rep(t) && ProcessSteps(t).Some? && ProcessSteps(t).value.swaps != []
    ensures var first := ProcessSteps(t).value.swaps[0]; Here(first)
    decreases t
  {
    S.KidHere(t, 0);
    if ProcessSteps(t.kids[0]).value.swaps != [] { FirstPool(t.kids[0]); }
  }

  // ----- merging -----

  lemma OutsideFrom(kids: seq<Tree>, i: nat, ids: set<Bubble>)
    requires i < |kids|
    ensures Outside(kids[i..], ids) == (if kids[i].id in ids then [] else [kids[i]]) + Outside(kids[i + 1..], ids)
  {
    assert kids[i..][0] == kids[i] && kids[i..][1..] == kids[i + 1..];
  }

  method Without(children: seq<Bubble>, toMerge: seq<Bubble>, ghost kids: seq<Tree>, ghost picks: seq<Tree>)
    returns (left: seq<Bubble>)
    requires children == Roots(kids) && toMerge == Roots(picks)
    ensures left == Roots(Outside(kids, PickIds(picks)))
  {
    left := [];
    ghost var kept: seq<Tree> := [];
    for i := 0 to |children|
      invariant left == Roots(kept) && kept + Outside(kids[i..], PickIds(picks)) == Outside(kids, PickIds(picks))
    {
      OutsideFrom(kids, i, PickIds(picks));
      InPicks(picks, children[i]);
      if children[i] !in toMerge {
        Matcher.Push(kept, kids[i], Outside(kids[i + 1..], PickIds(picks)));
        left, kept := left + [children[i]], kept + [kids[i]];
      }
    }
  }

  lemma InPicks(picks: seq<Tree>, x: Bubble)
    ensures x in Roots(picks) <==> x in PickIds(picks)
  {
    if x in PickIds(picks) {
      var i :| 0 <= i < |picks| && picks[i].id == x;
      assert Roots(picks)[i] == x;
    }
  }

  /** One round of the merge loop. */
  method MergeOne(b: Bubble, k: Bubble, ghost t: Tree, ghost n: Tree)
    requires Distinct(t) && S.Others(t) && b == t.id && b.valueFlow == t.cell && n in Nodes(t) && n != t && n.id == k
    modifies b`accounts, b`transaction, t.cell
    ensures S.Others(t)
    ensures t.cell.accounts == Merged(old(t.cell.accounts), n.rec.flow)
    ensures b.accounts == old(b.accounts) + n.rec.accounts && b.transaction == old(b.transaction) + n.rec.transaction
  {
    assert allocated(Foot(t)) && allocated(Nodes(t));
    assert Here(n);
    S.CellsApart(t, n);
    b.valueFlow.Merge(k.valueFlow);
    b.accounts := b.accounts + k.accounts;
    b.transaction := b.transaction + k.transaction;
    forall m | m in Nodes(t) && m != t ensures Here(m) {
      assert old(Here(m));
      S.CellsApart(t, m);
    }
  }

  /** All merged bubbles lie below the root. */
  lemma MergedBelow(t: Tree, n: Tree)
    requires Distinct(t) && PlanOf(t).Some? && n in PlanOf(t).value.toMerge
    ensures n in Nodes(t) && n != t
  {
    PlanShape(t);
    InOnceEach(t, n);
    PickedId(OnceEach(t), n);
  }

  lemma InOnceEach(t: Tree, n: Tree)
    requires PlanOf(t).Some? && n in PlanOf(t).value.toMerge
    ensures n in OnceEach(t)
  {
    TailIs(t);
    if TakesPayoutTwice(t) && n == PayoutBubble(t) {
      var tail := TailOf(t);
      assert tail[|tail| - 1] == n;
    }
  }

  lemma PickedId(picks: seq<Tree>, n: Tree)
    requires n in picks
    ensures n.id in PickIds(picks)
  {
    var i :| 0 <= i < |picks| && picks[i] == n;
  }

  /** The root with the first `i` bubbles merged in; its children and info are not replaced yet. */
  ghost predicate MergedSoFar(t: Tree, b: Bubble, picks: seq<Tree>)
    reads Foot(t), b
  {
    && S.Others(t) && b == t.id && b.valueFlow == t.cell && b.isMerged == t.rec.merged
    && t.cell.accounts == FlowInto(t.rec.flow, picks)
    && b.accounts == AccountsInto(t.rec.accounts, picks) && b.transaction == TransactionsInto(t.rec.transaction, picks)
  }

  method MergePick(b: Bubble, toMerge: seq<Bubble>, i: nat, ghost t: Tree, ghost picks: seq<Tree>)
    returns (orphans: seq<Bubble>)
    requires i < |picks| && picks[i] in Nodes(t) && picks[i] != t && toMerge == Roots(picks)
    requires Distinct(t) && MergedSoFar(t, b, picks[..i])
    modifies b`accounts, b`transaction, t.cell
    ensures MergedSoFar(t, b, picks[..i + 1])
    ensures orphans == Roots(Outside(picks[i].kids, PickIds(picks)))
  {
    assert allocated(Foot(t)) && allocated(Nodes(t));
    ghost var n := picks[i];
    assert Here(n);
    orphans := Without(toMerge[i].children, toMerge, n.kids, picks);
    MergeOne(b, toMerge[i], t, n);
    assert picks[..i + 1][..i] == picks[..i];
  }

  method MergePicks(b: Bubble, toMerge: seq<Bubble>, ghost t: Tree, ghost picks: seq<Tree>)
    returns (newChildren: seq<Bubble>)
    requires Valid(t) && t.id == b && toMerge == Roots(picks) && forall n | n in picks :: n in Nodes(t) && n != t
    modifies b`accounts, b`transaction, t.cell
    ensures MergedSoFar(t, b, picks)
    ensures newChildren == Roots(Outside(t.kids, PickIds(picks)) + Rescue(picks, PickIds(picks)))
  {
    assert allocated(Foot(t)) && allocated(Nodes(t));
    assert Here(t) by { assert t in Nodes(t); }
    newChildren := Without(b.children, toMerge, t.kids, picks);
    ghost var kids := Outside(t.kids, PickIds(picks));
    assert kids + Rescue(picks[..0], PickIds(picks)) == kids;
    for i := 0 to |toMerge|
      invariant MergedSoFar(t, b, picks[..i])
      invariant newChildren == Roots(kids + Rescue(picks[..i], PickIds(picks)))
    {
      assert picks[i] in picks;
      var orphans := MergePick(b, toMerge, i, t, picks);
      RescuePrefix(kids, picks, i, PickIds(picks));
      newChildren := newChildren + orphans;
    }
    assert picks[..|picks|] == picks;
  }

  lemma RescuePrefix(kids: seq<Tree>, picks: seq<Tree>, i: nat, ids: set<Bubble>)
    requires i < |picks|
    ensures Roots(kids + Rescue(picks[..i + 1], ids))
         == Roots(kids + Rescue(picks[..i], ids)) + Roots(Outside(picks[i].kids, ids))
  {
    assert picks[..i + 1][..i] == picks[..i];
    Matcher.RootsConcat(kids + Rescue(picks[..i], ids), Outside(picks[i].kids, ids));
    assert kids + Rescue(picks[..i + 1], ids) == kids + Rescue(picks[..i], ids) + Outside(picks[i].kids, ids);
  }

  lemma RescuedIn(t: Tree, picks: seq<Tree>, ids: set<Bubble>, k: Tree)
    requires k in Rescue(picks, ids) && forall n | n in picks :: n in Nodes(t)
    ensures k in Nodes(t) && Nodes(k) <= Nodes(t)
  {
    if k in Rescue(picks[..|picks| - 1], ids) {
      RescuedIn(t, picks[..|picks| - 1], ids, k);
    } else {
      var n := picks[|picks| - 1];
      OutsideOf(n.kids, ids, k);
      KidUnder(n, k);
      NodesUnder(t, n);
    }
  }

  /** Every node of the merged tree, its root aside, is a node of the tree before. */
  lemma OldNodes(t: Tree, n: Tree)
    requires Distinct(t) && PlanOf(t).Some? && n in Nodes(DedustTree(t)) && n != DedustTree(t)
    ensures n in Nodes(t) && n != t
  {
    var t' := DedustTree(t);
    var picks := PlanOf(t).value.toMerge;
    var ids := PickIds(picks);
    var k :| k in t'.kids && n in Nodes(k);
    forall m | m in picks ensures m in Nodes(t) && m != t { MergedBelow(t, m); }
    if k in Outside(t.kids, ids) {
      OutsideOf(t.kids, ids, k);
      KidUnder(t, k);
      Smaller(k, n);
    } else {
      RescuedIn(t, picks, ids, k);
      RescuedBelow(t, picks, ids, k);
      Smaller(k, n);
    }
  }

  lemma RescuedBelow(t: Tree, picks: seq<Tree>, ids: set<Bubble>, k: Tree)
    requires k in Rescue(picks, ids) && forall n | n in picks :: n in Nodes(t)
    ensures k < t
  {
    if k in Rescue(picks[..|picks| - 1], ids) {
      RescuedBelow(t, picks[..|picks| - 1], ids, k);
    } else {
      var n := picks[|picks| - 1];
      OutsideOf(n.kids, ids, k);
      Smaller(t, n);
    }
  }

  predicate Repeats(bs: seq<Bubble>) {
    exists i, j :: 0 <= i < j < |bs| && bs[i] == bs[j]
  }

  /** The list of bubbles to merge has a duplicate exactly in the branch that takes the payout bubble again. */
  lemma RepeatsIffTwice(t: Tree)
    requires Distinct(t) && PlanOf(t).Some?
    ensures Repeats(Roots(PlanOf(t).value.toMerge)) <==> TakesPayoutTwice(t)
  {
    var all, n := PlanOf(t).value.toMerge, |ProcessSteps(t).value.swaps|;
    TailIs(t);
    if TakesPayoutTwice(t) {
      assert all[n] == PayoutBubble(t) && all[|all| - 1] == PayoutBubble(t) && n < |all| - 1;
      assert Roots(all)[n] == Roots(all)[|all| - 1];
    } else {
      PlanShape(t);
      assert all == OnceEach(t);
    }
  }

  /** `twice` says whether the list of bubbles to merge has a duplicate. */
  method Merge(b: Bubble, ghost t: Tree) returns (ok: bool, twice: bool, ghost t': Tree)
    requires Valid(t) && NoMarks(t) && t.id == b
    modifies b, t.cell
    ensures ok <==> PlanOf(t).Some?
    ensures twice <==> ok && TakesPayoutTwice(t)
    ensures !ok ==> t' == t && Rep(t)
    ensures ok ==> t' == DedustTree(t) && Rep(t')
    ensures ok && !TakesPayoutTwice(t) ==> Valid(t') && NoMarks(t') && Foot(t') <= Foot(t)
  {
    assert allocated(Foot(t)) && allocated(Nodes(t));
    var plan := FindPlan(b, t);
    if plan.None? {
      return false, false, t;
    }
    RepeatsIffTwice(t);
    twice := Repeats(plan.value.0);
    ghost var picks := PlanOf(t).value.toMerge;
    forall n | n in picks ensures n in Nodes(t) && n != t { MergedBelow(t, n); }
    var newChildren := MergePicks(b, plan.value.0, t, picks);
    t' := FinishMerge(b, newChildren, plan.value.1, t);
    ok := true;
    if !TakesPayoutTwice(t) { DedustValid(t); }
  }

  method FinishMerge(b: Bubble, newChildren: seq<Bubble>, swap: SwapInfo, ghost t: Tree) returns (ghost t': Tree)
    requires Distinct(t) && PlanOf(t).Some? && swap == PlanOf(t).value.swap
             && MergedSoFar(t, b, PlanOf(t).value.toMerge)
    requires var picks := PlanOf(t).value.toMerge;
             newChildren == Roots(Outside(t.kids, PickIds(picks)) + Rescue(picks, PickIds(picks)))
    modifies b
    ensures t' == DedustTree(t) && Rep(t')
  {
    assert allocated(Foot(t)) && allocated(Nodes(t));
    ghost var picks := PlanOf(t).value.toMerge;
    b.children, b.info := newChildren, JettonSwap(swap);
    t' := DedustTree(t);
    assert t'.kids == Outside(t.kids, PickIds(picks)) + Rescue(picks, PickIds(picks));
    forall n | n in Nodes(t') ensures Here(n) {
      if n != t' {
        OldNodes(t, n);
        S.CellsApart(t, n);
        assert old(Here(n));
      }
    }
  }
}
