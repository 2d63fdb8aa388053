/** The Stonfi merger over the mutable tree (pkg/bath/stonfi.go). */
module StonfiMerger {
  import opened Wrappers
  import opened Ledger
  import opened Bubbles
  import opened Clusters
  import opened StonfiRoutes
  import opened Gathering
  import opened StonfiMerges
  import opened Matcher

  lemma KidHere(t: Tree, i: nat)
    requires Rep(t) && i < |t.kids|
    ensures Here(t) && t.id.children[i] == t.kids[i].id && Rep(t.kids[i]) && Here(t.kids[i])
  {
    assert t in Nodes(t);
    KidUnder(t, t.kids[i]);
  }

  method ReferrerBubbles(referrerB: Bubble, ghost r: Tree) returns (used: set<Bubble>)
    requires Rep(r) && r.id == referrerB
    ensures used == ReferrerUsed(r)
  {
    used := {referrerB};
    assert Here(r) by { assert r in Nodes(r); }
    if |referrerB.children| > 0 {
      var refPayoutBubble := referrerB.children[0];
      KidHere(r, 0);
      if IsRefDeposit(refPayoutBubble.info) {
        used := used + {refPayoutBubble};
        if |refPayoutBubble.children| > 0 {
          var excessBubble := refPayoutBubble.children[0];
          KidHere(r.kids[0], 0);
          if IsExcess(excessBubble.info) {
            used := used + {excessBubble};
          }
        }
      }
    }
  }

  /** The swaps over one router; every bubble on the way is added to the used ones, on failure too. */
  method ProcessSingleRouterSwaps(b: Bubble, usedBubbles: set<Bubble>, ghost t: Tree)
    returns (swaps: seq<Swap>, nextB: Option<Bubble>, ok: bool, used: set<Bubble>)
    requires Rep(t) && t.id == b
    ensures used == usedBubbles + RouterChain(t).used
    ensures ok == RouterChain(t).ok && swaps == RouterChain(t).swaps
    ensures nextB == if RouterChain(t).next.Some? then Some(RouterChain(t).next.value.id) else None
    decreases t, 1
  {
    swaps, nextB, ok, used := [], None, false, usedBubbles;
    assert allocated(Foot(t)) && allocated(Nodes(t));
    assert Here(t) by { assert t in Nodes(t); }
    if !IsSwap(b.info) || |b.children| == 0 || |b.children| > 2 {
      return;
    }
    var payoutB := b.children[0];
    KidHere(t, 0);
    if |b.children| == 2 {
      var referrerB := b.children[0];
      payoutB := b.children[1];
      KidHere(t, 1);
      if !IsVaultPayout(referrerB.info) {
        return;
      }
      var side := ReferrerBubbles(referrerB, t.kids[0]);
      used := used + side;
    }
    ghost var p := t.kids[|t.kids| - 1];
    KidHere(t, |t.kids| - 1);
    if !IsPayout(payoutB.info) || |payoutB.children| != 1 {
      return;
    }
    ok := true;
    swaps, nextB, used := FollowPayout(b, payoutB, used, t, p);
  }

  /** The swap that a payout makes, and all that follow it. */
  method FollowPayout(b: Bubble, payoutB: Bubble, usedBubbles: set<Bubble>, ghost t: Tree, ghost p: Tree)
    returns (swaps: seq<Swap>, nextB: Option<Bubble>, used: set<Bubble>)
    requires Rep(t) && t.id == b && IsSwap(t.rec.info) && 1 <= |t.kids| <= 2
    requires |t.kids| == 2 ==> IsVaultPayout(t.kids[0].rec.info)
    requires p == t.kids[|t.kids| - 1] && p.id == payoutB && IsPayout(p.rec.info) && |p.kids| == 1
    ensures RouterChain(t).ok && used + SideUsed(t) == usedBubbles + RouterChain(t).used
    ensures SideUsed(t) <= usedBubbles ==> used == usedBubbles + RouterChain(t).used
    ensures swaps == RouterChain(t).swaps
    ensures nextB == if RouterChain(t).next.Some? then Some(RouterChain(t).next.value.id) else None
    decreases t, 0
  {
    assert allocated(Foot(t)) && allocated(Nodes(t));
    KidHere(t, |t.kids| - 1);
    KidHere(p, 0);
    var next := payoutB.children[0];
    var payout := Swap(b.info.tx, next.info, payoutB.info.tx.decodedBody.value);
    ChainStep(t);
    used := usedBubbles + {payoutB} + {next} + {b};
    var payoutChain, latestNextB, more;
    payoutChain, latestNextB, more, used := ProcessSingleRouterSwaps(next, used, p.kids[0]);
    swaps := payoutChain + [payout];
    nextB := if more && latestNextB.Some? then latestNextB else Some(next);
  }

  lemma ChainStep(t: Tree)
    requires IsSwap(t.rec.info) && 1 <= |t.kids| <= 2 && (|t.kids| == 2 ==> IsVaultPayout(t.kids[0].rec.info))
    requires var p := t.kids[|t.kids| - 1]; IsPayout(p.rec.info) && |p.kids| == 1
    ensures var p := t.kids[|t.kids| - 1]; var next := p.kids[0]; var rest, all := RouterChain(next), RouterChain(t);
            && all.used == SideUsed(t) + {p.id} + {next.id} + {t.id} + rest.used && all.ok
            && all.swaps == rest.swaps + [Swap(t.rec.info.tx, next.rec.info, p.rec.info.tx.decodedBody.value)]
            && all.next == if rest.ok && rest.next.Some? then rest.next else Some(next)
  {
  }

  /** The hops over several routers, the last one first. */
  method ProcessMultipleRouterSwaps(b: Bubble, ghost t: Tree) returns (hops: seq<Hop>)
    requires Rep(t) && t.id == b
    ensures hops == Hops(t)
    decreases t
  {
    assert allocated(Foot(t)) && allocated(Nodes(t));
    assert Here(t) by { assert t in Nodes(t); }
    if |b.children| != 1 || !StartsHop(b.info) {
      return [];
    }
    KidHere(t, 0);
    var transfer := b.info.transfer;
    var srSwaps, nextB, ok, usedBubbles := ProcessSingleRouterSwaps(b.children[0], {b}, t.kids[0]);
    if !ok {
      return [];
    }
    var out := HopOut(transfer.payload, srSwaps);
    if out.None? {
      return [];
    }
    var in_ := AssetTransfer(transfer.amount, transfer.isWrappedTon, transfer.master, transfer.senderWallet);
    var thisHop := Hop(usedBubbles, transfer.recipient.value.address, transfer.sender.value.address, in_, out.value,
                       srSwaps, srSwaps[0].payout.exitCode == SWAP_OK);
    ghost var next := RouterChain(t.kids[0]).next.value;
    RepOfNext(t);
    var nextHops := ProcessMultipleRouterSwaps(nextB.value, next);
    if nextHops != [] {
      return nextHops + [thisHop.(used := usedBubbles - {nextB.value})];
    }
    return [thisHop];
  }

  lemma ChainNextIn(b: Tree)
    requires RouterChain(b).ok
    ensures RouterChain(b).next.value in Nodes(b)
    decreases b
  {
    var payoutB := b.kids[|b.kids| - 1];
    var nextB := payoutB.kids[0];
    KidUnder(b, payoutB);
    KidUnder(payoutB, nextB);
    if RouterChain(nextB).ok { ChainNextIn(nextB); }
  }

  lemma RepOfNext(t: Tree)
    requires Rep(t) && |t.kids| == 1 && RouterChain(t.kids[0]).ok
    ensures Rep(RouterChain(t.kids[0]).next.value) && RouterChain(t.kids[0]).next.value < t
  {
    KidUnder(t, t.kids[0]);
    ChainNextIn(t.kids[0]);
    NodesUnder(t.kids[0], RouterChain(t.kids[0]).next.value);
  }

  /** The heap holds `t`, its root aside. */
  ghost predicate Others(t: Tree)
    reads Foot(t)
  {
    forall n | n in Nodes(t) && n != t :: Here(n)
  }

  lemma SetOfConcat(a: seq<Hash>, b: seq<Hash>)
    ensures HashSet(a + b) == HashSet(a) + HashSet(b)
  {
  }

  lemma AccountsOfConcat(a: seq<AccountID>, b: seq<AccountID>)
    ensures AccountSet(a + b) == AccountSet(a) + AccountSet(b)
  {
  }

  /** `b` may be gathered into: it is the root or a new bubble. */
  ghost predicate Collector(t: Tree, b: Bubble)
    reads b
  {
    if b == t.id then b.valueFlow == t.cell else b !in Foot(t) && b.valueFlow !in Foot(t)
  }

  method GatherOne(b: Bubble, k: Bubble, ghost t: Tree, ghost n: Tree)
    requires Distinct(t) && Others(t) && n in Nodes(t) && n.id == k && Collector(t, b) && (n == t ==> b == k)
    modifies b`accounts, b`transaction, b.valueFlow
    ensures Others(t)
    ensures b.valueFlow.accounts == if k == b then old(b.valueFlow.accounts)
                                    else Merged(old(b.valueFlow.accounts), n.rec.flow)
    ensures HashSet(b.transaction) == HashSet(old(b.transaction)) + (if k == b then {} else HashSet(n.rec.transaction))
    ensures AccountSet(b.accounts) == AccountSet(old(b.accounts)) + (if k == b then {} else AccountSet(n.rec.accounts))
  {
    assert allocated(Foot(t)) && allocated(Nodes(t));
    SetOfConcat(b.transaction, k.transaction);
    AccountsOfConcat(b.accounts, k.accounts);
    if k != b {
      assert Here(n);
      CellsApart(t, n);
      b.valueFlow.Merge(k.valueFlow);
    }
    b.accounts := b.accounts + k.accounts;
    b.transaction := b.transaction + k.transaction;
    forall m | m in Nodes(t) && m != t ensures Here(m) {
      assert old(Here(m));
      CellsApart(t, m);
    }
  }

  lemma CellsApart(t: Tree, n: Tree)
    requires Distinct(t) && n in Nodes(t) && n != t
    ensures n.id != t.id && n.cell != t.cell
  {
    assert t in Nodes(t);
    if n.id == t.id || n.cell == t.cell { OneNode(t, n, t); }
  }

  lemma UnionAssociates<T>(a: set<T>, b: set<T>, c: set<T>)
    ensures a + b + c == a + (b + c) && a + b + {} == a + b
  {
  }

  lemma VisitStep(all: set<Bubble>, todo: set<Bubble>, k: Bubble, b: Bubble)
    requires todo <= all && k in todo
    ensures all - (todo - {k}) - {b} == (if k == b then all - todo - {b} else all - todo - {b} + {k})
  {
  }

  /** Gathers the used bubbles into `b` in whatever order the set yields them. */
  method MergeValueFlowAndTXs(b: Bubble, usedBubbles: set<Bubble>, ghost t: Tree) returns (ghost picks: seq<Tree>)
    requires Distinct(t) && Others(t) && usedBubbles <= Ids(t) && Collector(t, b)
    requires b == t.id || t.id !in usedBubbles
    modifies b`accounts, b`transaction, b.valueFlow
    ensures Others(t) && Enumerates(t, picks, usedBubbles - {b})
    ensures b.valueFlow.accounts == FlowInto(old(b.valueFlow.accounts), picks)
    ensures HashSet(b.transaction) == HashSet(old(b.transaction)) + HashesOf(picks)
    ensures AccountSet(b.accounts) == AccountSet(old(b.accounts)) + AccountsOf(picks)
  {
    picks := [];
    var todo := usedBubbles;
    ghost var done: set<Bubble> := {};
    while todo != {}
      invariant todo <= usedBubbles && Others(t) && done == usedBubbles - todo - {b}
      invariant Enumerates(t, picks, done)
      invariant b.valueFlow.accounts == FlowInto(old(b.valueFlow.accounts), picks)
      invariant HashSet(b.transaction) == HashSet(old(b.transaction)) + HashesOf(picks)
      invariant AccountSet(b.accounts) == AccountSet(old(b.accounts)) + AccountsOf(picks)
      decreases todo
    {
      var k :| k in todo;
      ghost var n := NodeOf(t, k);
      GatherOne(b, k, t, n);
      UnionAssociates(HashSet(old(b.transaction)), HashesOf(picks), {});
      UnionAssociates(AccountSet(old(b.accounts)), AccountsOf(picks), {});
      VisitStep(usedBubbles, todo, k, b);
      todo := todo - {k};
      if k != b {
        PickMore(t, picks, done, n, old(b.valueFlow.accounts));
        UnionAssociates(HashSet(old(b.transaction)), HashesOf(picks), HashSet(n.rec.transaction));
        UnionAssociates(AccountSet(old(b.accounts)), AccountsOf(picks), AccountSet(n.rec.accounts));
        picks, done := picks + [n], done + {k};
      }
    }
  }

  /** The children of the used bubbles that no hop consumed, in whatever order the set yields the bubbles. */
  method RescueOrphanedChildren(usedBubbles: set<Bubble>, allUsedBubbles: set<Bubble>, ghost t: Tree)
    returns (result: seq<Bubble>, ghost order: seq<Tree>)
    requires Others(t) && usedBubbles <= Ids(t) && t.id !in usedBubbles
    ensures Enumerates(t, order, usedBubbles) && result == Roots(Rescue(order, allUsedBubbles))
  {
    result, order := [], [];
    var todo := usedBubbles;
    while todo != {}
      invariant todo <= usedBubbles
      invariant Enumerates(t, order, usedBubbles - todo) && result == Roots(Rescue(order, allUsedBubbles))
      decreases todo
    {
      var k :| k in todo;
      ghost var n := NodeOf(t, k);
      assert Here(n);
      var orphans := NotMapped(k.children, allUsedBubbles, n.kids);
      RootsConcat(Rescue(order, allUsedBubbles), Outside(n.kids, allUsedBubbles));
      PickMore(t, order, usedBubbles - todo, n, map[]);
      assert usedBubbles - todo + {k} == usedBubbles - (todo - {k});
      result, order, todo := result + orphans, order + [n], todo - {k};
    }
  }

  method AllUsedBubbles(hops: seq<Hop>) returns (all: set<Bubble>)
    ensures all == UsedBy(hops)
  {
    all := {};
    for i := 0 to |hops|
      invariant all == UsedBy(hops[..i])
    {
      assert hops[..i + 1] == hops[..i] + [hops[i]];
      UsedByConcat(hops[..i], [hops[i]]);
      all := all + hops[i].used;
    }
    assert hops[..|hops|] == hops;
  }

  /** The bubble that shows a failed hop, with everything that hop consumed. */
  method FailedSwapBubble(hops: seq<Hop>, i: nat, allUsedBubbles: set<Bubble>, ghost t: Tree)
    returns (failedSwapB: Bubble, ghost n: Tree, ghost v: Visit)
    requires Distinct(t) && Others(t) && i < |hops| && allUsedBubbles == UsedBy(hops)
    requires hops[i].used <= Ids(t) && t.id !in hops[i].used
    ensures Others(t) && fresh(failedSwapB) && n.id == failedSwapB && fresh(n.cell)
    ensures Here(n) && IsFailedHop(t, hops, n, i, v)
  {
    assert allocated(Foot(t)) && allocated(Nodes(t));
    var flow := new ValueFlow();
    failedSwapB := new Bubble(JettonSwap(FailedSwapOf(hops, i)), [], [], flow, []);
    ghost var picks := MergeValueFlowAndTXs(failedSwapB, hops[i].used, t);
    assert hops[i].used - {failedSwapB} == hops[i].used;
    ghost var order;
    failedSwapB.children, order := RescueOrphanedChildren(hops[i].used, allUsedBubbles, t);
    v := Visit(picks, order);
    n := Node(failedSwapB, flow,
              Rec(failedSwapB.info, failedSwapB.accounts, flow.accounts, failedSwapB.transaction, false),
              Rescue(order, allUsedBubbles));
  }

  /** The bubbles made so far for failed hops i..m-1, the later ones first. */
  ghost predicate Made(t: Tree, hops: seq<Hop>, made: seq<Tree>, failed: seq<Visit>, i: nat, m: nat)
    reads ObjectsOf(made)
  {
    && i <= m <= |hops| && |made| == |failed| == m - i && NewObjects(t, made, m - i)
    && forall j | 0 <= j < m - i :: Here(made[j]) && IsFailedHop(t, hops, made[j], m - 1 - j, failed[j])
  }

  lemma MadeMore(t: Tree, hops: seq<Hop>, made: seq<Tree>, failed: seq<Visit>, i: nat, m: nat, n: Tree, v: Visit)
    requires Made(t, hops, made, failed, i + 1, m) && i < m && i < |hops|
    requires Here(n) && IsFailedHop(t, hops, n, i, v)
    requires n.id !in Foot(t) && n.cell !in Foot(t) && forall k | k in made :: k.id != n.id && k.cell != n.cell
    ensures Made(t, hops, made + [n], failed + [v], i, m)
  {
    forall j | 0 <= j < m - i
      ensures Here((made + [n])[j]) && IsFailedHop(t, hops, (made + [n])[j], m - 1 - j, (failed + [v])[j])
    {
      if j < m - i - 1 { assert Here(made[j]); }
    }
  }

  /** The heap holds `t` with the picked bubbles gathered into its root, which has no info and children yet. */
  ghost predicate Gathered(t: Tree, b: Bubble, picks: seq<Tree>)
    reads Foot(t), b, b.valueFlow
  {
    && Others(t) && b == t.id && b.valueFlow == t.cell && b.isMerged == t.rec.merged
    && b.valueFlow.accounts == FlowInto(t.rec.flow, picks)
    && HashSet(b.transaction) == HashSet(t.rec.transaction) + HashesOf(picks)
    && AccountSet(b.accounts) == AccountSet(t.rec.accounts) + AccountsOf(picks)
  }

  method StartSwap(b: Bubble, used: set<Bubble>, ghost t: Tree) returns (ghost picks: seq<Tree>)
    requires Valid(t) && t.id == b && used <= Ids(t)
    modifies b, b.valueFlow
    ensures Gathered(t, b, picks) && b.children == [] && b.valueFlow == old(b.valueFlow)
    ensures Enumerates(t, picks, used - {b})
  {
    assert allocated(Foot(t)) && allocated(Nodes(t));
    assert Here(t) by { assert t in Nodes(t); }
    SetChildren(b, [], [], t, [], [], 0, 0);
    picks := MergeValueFlowAndTXs(b, used, t);
  }

  method TakeHop(b: Bubble, used: set<Bubble>, ghost t: Tree, ghost picks: seq<Tree>) returns (ghost more: seq<Tree>)
    requires Distinct(t) && Gathered(t, b, picks) && used <= Ids(t) && t.id !in used
    modifies b`accounts, b`transaction, t.cell
    ensures Gathered(t, b, picks + more) && Enumerates(t, more, used)
  {
    more := MergeValueFlowAndTXs(b, used, t);
    assert used - {b} == used;
    PicksConcat(t.rec.flow, picks, more);
  }

  method TakeFailedHop(b: Bubble, hops: seq<Hop>, i: nat, allUsedBubbles: set<Bubble>, ghost t: Tree,
                       ghost picks: seq<Tree>, ghost made: seq<Tree>, ghost failed: seq<Visit>, ghost m: nat)
    returns (ghost made': seq<Tree>, ghost failed': seq<Visit>)
    requires Distinct(t) && Gathered(t, b, picks) && i < |hops| && allUsedBubbles == UsedBy(hops)
    requires hops[i].used <= Ids(t) && t.id !in hops[i].used
    requires Made(t, hops, made, failed, i + 1, m) && b.children == Roots(made)
    modifies b`children
    ensures Gathered(t, b, picks) && Made(t, hops, made', failed', i, m) && b.children == Roots(made')
    ensures forall o | o in ObjectsOf(made') :: o in ObjectsOf(made) || fresh(o)
  {
    ghost var foot := Foot(t);
    assert allocated(foot) && allocated(Nodes(t));
    var failedSwapB;
    failedSwapB, made', failed' := MakeFailed(hops, i, allUsedBubbles, t, made, failed, m);
    assert Gathered(t, b, picks);
    SetChildren(b, b.children + [failedSwapB], hops, t, made', failed', i, m);
  }

  /** One more bubble for a failed hop; nothing that was there changes. */
  method MakeFailed(hops: seq<Hop>, i: nat, allUsedBubbles: set<Bubble>, ghost t: Tree,
                    ghost made: seq<Tree>, ghost failed: seq<Visit>, ghost m: nat)
    returns (failedSwapB: Bubble, ghost made': seq<Tree>, ghost failed': seq<Visit>)
    requires Distinct(t) && Others(t) && i < |hops| && allUsedBubbles == UsedBy(hops)
    requires hops[i].used <= Ids(t) && t.id !in hops[i].used && Made(t, hops, made, failed, i + 1, m)
    ensures Made(t, hops, made', failed', i, m) && Roots(made') == Roots(made) + [failedSwapB]
    ensures forall o | o in ObjectsOf(made') :: o in ObjectsOf(made) || fresh(o)
  {
    ghost var foot, objects := Foot(t), ObjectsOf(made);
    assert allocated(foot) && allocated(Nodes(t)) && allocated(objects) && allocated(made);
    ghost var n, v;
    failedSwapB, n, v := FailedSwapBubble(hops, i, allUsedBubbles, t);
    assert Made(t, hops, made, failed, i + 1, m);
    MadeMore(t, hops, made, failed, i, m, n, v);
    made', failed' := made + [n], failed + [v];
    Push(made, n, []);
    ObjectsMore(made, n);
  }

  lemma ObjectsMore(made: seq<Tree>, n: Tree)
    ensures ObjectsOf(made + [n]) == ObjectsOf(made) + {n.id, n.cell}
  {
    assert forall k :: k in made + [n] <==> k in made || k == n;
  }

  /** Replaces the root's children, above the bubbles made. */
  method SetChildren(b: Bubble, children: seq<Bubble>, ghost hops: seq<Hop>, ghost t: Tree,
                     ghost made: seq<Tree>, ghost failed: seq<Visit>, ghost i: nat, ghost m: nat)
    requires Distinct(t) && Others(t) && b == t.id && (made == [] || Made(t, hops, made, failed, i, m))
    modifies b`children
    ensures Others(t) && b.children == children && (made == [] || Made(t, hops, made, failed, i, m))
  {
    assert allocated(Foot(t)) && allocated(Nodes(t)) && allocated(made);
    assert made != [] ==> forall k | k in made :: k.id != b by { assert t in Nodes(t) && b in Foot(t); }
    b.children := children;
    forall k | k in Nodes(t) && k != t ensures Here(k) {
      CellsApart(t, k);
      assert old(Here(k));
    }
  }

  /** The tree once the rescued children and the swap's info are attached. */
  ghost function SwapTree(t: Tree, hops: seq<Hop>, rec: Rec, main: Visit, made: seq<Tree>): (t': Tree)
    requires hops != []
    ensures |made| <= |t'.kids| && t'.kids[..|made|] == made && t'.kids[|made|..] == Rescue(main.order, UsedBy(hops))
  {
    Node(t.id, t.cell, rec, made + Rescue(main.order, UsedBy(hops)))
  }

  lemma {:induction false} SwapTreeIsMerge(t: Tree, hops: seq<Hop>, rec: Rec, main: Visit, made: seq<Tree>,
                                           failed: seq<Visit>)
    requires hops != [] && IsVisit(t, main, UsedBy(hops[FailedHops(hops)..]) - {t.id})
    requires Made(t, hops, made, failed, 0, FailedHops(hops))
    requires Gathers(rec, t.rec, main.picks) && rec.info == JettonSwap(SwapOf(hops)) && rec.merged == t.rec.merged
    ensures IsSwapOf(t, hops, SwapTree(t, hops, rec, main, made), main, failed)
    ensures NewObjects(t, SwapTree(t, hops, rec, main, made).kids, |made|)
  {
    var t' := SwapTree(t, hops, rec, main, made);
    forall j | 0 <= j < |made| ensures t'.kids[j] == made[j] { assert t'.kids[..|made|][j] == made[j]; }
  }

  lemma {:induction false} SwapTreeRep(t: Tree, hops: seq<Hop>, rec: Rec, main: Visit, made: seq<Tree>,
                                       failed: seq<Visit>)
    requires hops != [] && Distinct(t) && Others(t) && Here(SwapTree(t, hops, rec, main, made))
    requires IsVisit(t, main, UsedBy(hops[FailedHops(hops)..]) - {t.id})
    requires Made(t, hops, made, failed, 0, FailedHops(hops))
    ensures Rep(SwapTree(t, hops, rec, main, made))
  {
    var t' := SwapTree(t, hops, rec, main, made);
    forall k, n | k in t'.kids && n in Nodes(k) ensures Here(n) {
      if k in made {
        AllMadeHere(t, hops, made, failed, 0, FailedHops(hops), k, n);
      } else {
        RescuedHere(t, main.order, UsedBy(hops), k, n);
      }
    }
  }

  lemma AllMadeHere(t: Tree, hops: seq<Hop>, made: seq<Tree>, failed: seq<Visit>, i: nat, m: nat, k: Tree, n: Tree)
    requires Distinct(t) && Others(t) && Made(t, hops, made, failed, i, m) && k in made && n in Nodes(k)
    ensures Here(n)
  {
    var j :| 0 <= j < |made| && made[j] == k;
    MadeHere(t, hops, k, m - 1 - j, failed[j], n);
  }

  lemma MadeHere(t: Tree, hops: seq<Hop>, k: Tree, i: nat, v: Visit, n: Tree)
    requires Distinct(t) && Others(t) && i < |hops| && IsFailedHop(t, hops, k, i, v) && Here(k) && n in Nodes(k)
    ensures Here(n)
  {
    if n != k {
      var c :| c in k.kids && n in Nodes(c);
      RescuedHere(t, v.order, UsedBy(hops), c, n);
    }
  }

  lemma RescuedHere(t: Tree, order: seq<Tree>, ids: set<Bubble>, k: Tree, n: Tree)
    requires Distinct(t) && Others(t) && k in Rescue(order, ids) && n in Nodes(k)
    requires forall p | p in order :: p in Nodes(t)
    ensures Here(n)
  {
    RescueIn(t, order, ids, k);
    NodesUnder(t, k);
    assert n.id in Ids(k);
  }

  /** Overwrites the root's children and info, above the bubbles made. */
  method SetRoot(b: Bubble, children: seq<Bubble>, info: Info, ghost hops: seq<Hop>, ghost t: Tree,
                 ghost made: seq<Tree>, ghost failed: seq<Visit>, ghost m: nat)
    requires Distinct(t) && Others(t) && b == t.id && Made(t, hops, made, failed, 0, m)
    modifies b`children, b`info
    ensures Others(t) && Made(t, hops, made, failed, 0, m) && b.children == children && b.info == info
  {
    assert allocated(Foot(t)) && allocated(Nodes(t)) && allocated(made);
    assert forall k | k in made :: k.id != b by { assert t in Nodes(t) && b in Foot(t); }
    b.children, b.info := children, info;
    forall k | k in Nodes(t) && k != t ensures Here(k) {
      CellsApart(t, k);
      assert old(Here(k));
    }
  }

  /** Attaches the rescued children and the swap's info. */
  method Finish(b: Bubble, rescued: seq<Bubble>, swapInfo: SwapInfo, ghost hops: seq<Hop>, ghost t: Tree,
                ghost main: Visit, ghost made: seq<Tree>, ghost failed: seq<Visit>)
    returns (ghost t': Tree)
    requires Distinct(t) && NoMarks(t) && Gathered(t, b, main.picks)
    requires hops != [] && hops == Hops(t) && PaysTheUser(hops) && swapInfo == SwapOf(hops)
    requires IsVisit(t, main, UsedBy(hops[FailedHops(hops)..]) - {t.id})
    requires rescued == Roots(Rescue(main.order, UsedBy(hops)))
    requires Made(t, hops, made, failed, 0, FailedHops(hops)) && b.children == Roots(made)
    modifies b`children, b`info
    ensures IsStonfiMerge(t, t', main, failed) && Rep(t')
    ensures Distinct(t') && NoMarks(t') && Foot(t') <= Foot(t) + ObjectsOf(made)
  {
    assert allocated(Foot(t)) && allocated(Nodes(t)) && allocated(made);
    RootsConcat(made, Rescue(main.order, UsedBy(hops)));
    SetRoot(b, b.children + rescued, JettonSwap(swapInfo), hops, t, made, failed, FailedHops(hops));
    ghost var rec := Rec(b.info, b.accounts, t.cell.accounts, b.transaction, b.isMerged);
    t' := SwapTree(t, hops, rec, main, made);
    SwapTreeRep(t, hops, rec, main, made, failed);
    Finished(t, hops, rec, main, made, failed);
  }

  lemma Finished(t: Tree, hops: seq<Hop>, rec: Rec, main: Visit, made: seq<Tree>, failed: seq<Visit>)
    requires Distinct(t) && NoMarks(t) && hops != [] && hops == Hops(t) && PaysTheUser(hops)
    requires IsVisit(t, main, UsedBy(hops[FailedHops(hops)..]) - {t.id})
    requires Made(t, hops, made, failed, 0, FailedHops(hops))
    requires Gathers(rec, t.rec, main.picks) && rec.info == JettonSwap(SwapOf(hops)) && rec.merged == t.rec.merged
    ensures var t' := SwapTree(t, hops, rec, main, made);
            && IsStonfiMerge(t, t', main, failed) && Distinct(t') && NoMarks(t')
            && Foot(t') <= Foot(t) + ObjectsOf(made)
  {
    var t' := SwapTree(t, hops, rec, main, made);
    SwapTreeIsMerge(t, hops, rec, main, made, failed);
    StonfiDistinct(t, t', main, failed);
    StonfiNoMarks(t, t', main, failed);
    StonfiFoot(t, t', main, failed);
  }

  /** What has been visited and made so far. */
  datatype Trail = Trail(picks: seq<Tree>, made: seq<Tree>, failed: seq<Visit>, m: nat)

  ghost predicate OnTrail(t: Tree, hops: seq<Hop>, b: Bubble, i: nat, g: Trail)
    reads Foot(t), b, b.valueFlow, ObjectsOf(g.made)
  {
    Gathered(t, b, g.picks) && Made(t, hops, g.made, g.failed, i, g.m) && b.children == Roots(g.made)
  }

  /** Hops i.. are dealt with; `objects` have been made for it. */
  ghost predicate AtHop(t: Tree, hops: seq<Hop>, b: Bubble, i: nat, g: Trail, hasFailed: bool, used: set<Bubble>,
                        swap: SwapInfo, objects: set<object>)
    reads Foot(t), b, b.valueFlow, ObjectsOf(g.made)
  {
    OnTrail(t, hops, b, i, g) && Follows(t, hops, i, g.m, hasFailed, g.picks, used, swap)
      && objects == ObjectsOf(g.made)
  }

  method NextHop(b: Bubble, hops: seq<Hop>, i: nat, allUsedBubbles: set<Bubble>, swap: SwapInfo, failedBefore: bool,
                 used: set<Bubble>, ghost t: Tree, ghost g: Trail, ghost objects: set<object>)
    returns (swapInfo: SwapInfo, hasFailed: bool, successUsedBubbles: set<Bubble>, ghost g': Trail,
             ghost objects': set<object>)
    requires Distinct(t) && Partitions(t, hops) && allUsedBubbles == UsedBy(hops) && i + 1 < |hops|
    requires AtHop(t, hops, b, i + 1, g, failedBefore, used, swap, objects)
    modifies b`accounts, b`transaction, b`children, t.cell
    ensures AtHop(t, hops, b, i, g', hasFailed, successUsedBubbles, swapInfo, objects')
    ensures forall o | o in objects' :: o in objects || fresh(o)
  {
    assert allocated(Foot(t)) && allocated(Nodes(t)) && allocated(g.made);
    RootInFirst(t, hops, i);
    swapInfo, hasFailed, successUsedBubbles := swap, failedBefore, used;
    if !hasFailed && hops[i].success {
      swapInfo, successUsedBubbles, g' := JoinHop(b, hops, i, swap, used, t, g);
    } else {
      FollowsFail(t, hops, i, g.m, failedBefore, g.picks, used, swap);
      hasFailed := true;
      g' := FailHop(b, hops, i, allUsedBubbles, t, g);
    }
    objects' := ObjectsOf(g'.made);
  }

  /** The next hop succeeded as well, so the swap reaches through it. */
  method JoinHop(b: Bubble, hops: seq<Hop>, i: nat, swap: SwapInfo, used: set<Bubble>, ghost t: Tree, ghost g: Trail)
    returns (swapInfo: SwapInfo, successUsedBubbles: set<Bubble>, ghost g': Trail)
    requires Distinct(t) && Partitions(t, hops) && i + 1 < |hops| && hops[i].used <= Ids(t) && t.id !in hops[i].used
    requires OnTrail(t, hops, b, i + 1, g) && Follows(t, hops, i + 1, g.m, false, g.picks, used, swap)
             && hops[i].success
    modifies b`accounts, b`transaction, t.cell
    ensures OnTrail(t, hops, b, i, g') && Follows(t, hops, i, g'.m, false, g'.picks, successUsedBubbles, swapInfo)
    ensures g'.made == []
  {
    assert allocated(Foot(t)) && allocated(Nodes(t));
    ghost var more := TakeHop(b, hops[i].used, t, g.picks);
    FollowsMerge(t, hops, i, g.picks, used, swap, more);
    swapInfo := swap.(router := hops[i].router, out := hops[i].out, success := true);
    successUsedBubbles := used + hops[i].used;
    g' := Trail(g.picks + more, [], [], i);
  }

  /** From the first failed hop on, every hop gets a bubble of its own. */
  method FailHop(b: Bubble, hops: seq<Hop>, i: nat, allUsedBubbles: set<Bubble>, ghost t: Tree, ghost g: Trail)
    returns (ghost g': Trail)
    requires Distinct(t) && OnTrail(t, hops, b, i + 1, g) && i < |hops| && allUsedBubbles == UsedBy(hops)
    requires hops[i].used <= Ids(t) && t.id !in hops[i].used
    modifies b`children
    ensures OnTrail(t, hops, b, i, g') && g'.picks == g.picks && g'.m == g.m
    ensures forall o | o in ObjectsOf(g'.made) :: o in ObjectsOf(g.made) || fresh(o)
  {
    ghost var made, failed := TakeFailedHop(b, hops, i, allUsedBubbles, t, g.picks, g.made, g.failed, g.m);
    g' := Trail(g.picks, made, failed, g.m);
  }

  /** The loop over the hops after the first: successful ones extend the swap until one has failed. */
  method RunHops(b: Bubble, hops: seq<Hop>, allUsedBubbles: set<Bubble>, start: SwapInfo, ghost t: Tree,
                 ghost first: seq<Tree>)
    returns (swapInfo: SwapInfo, hasFailed: bool, successUsedBubbles: set<Bubble>, ghost g: Trail,
             ghost objects: set<object>)
    requires Distinct(t) && Partitions(t, hops) && allUsedBubbles == UsedBy(hops)
    requires Gathered(t, b, first) && b.children == []
    requires Follows(t, hops, |hops| - 1, |hops| - 1, !start.success, first, hops[|hops| - 1].used - {b}, start)
    modifies b`accounts, b`transaction, b`children, t.cell
    ensures AtHop(t, hops, b, 0, g, hasFailed, successUsedBubbles, swapInfo, objects)
    ensures forall o | o in objects :: fresh(o)
  {
    swapInfo, hasFailed, successUsedBubbles := start, !start.success, hops[|hops| - 1].used - {b};
    g, objects := Trail(first, [], [], |hops| - 1), {};
    assert ObjectsOf(g.made) == {};
    for i := |hops| - 1 downto 0
      invariant AtHop(t, hops, b, i, g, hasFailed, successUsedBubbles, swapInfo, objects)
      invariant forall o | o in objects :: fresh(o)
    {
      assert allocated(Foot(t)) && allocated(Nodes(t)) && allocated(g.made);
      swapInfo, hasFailed, successUsedBubbles, g, objects :=
        NextHop(b, hops, i, allUsedBubbles, swapInfo, hasFailed, successUsedBubbles, t, g, objects);
    }
  }

  method BeginSwap(b: Bubble, hops: seq<Hop>, ghost t: Tree) returns (swapInfo: SwapInfo, ghost picks: seq<Tree>)
    requires Valid(t) && t.id == b && Partitions(t, hops)
    modifies b, t.cell
    ensures Gathered(t, b, picks) && b.children == []
    ensures Follows(t, hops, |hops| - 1, |hops| - 1, !swapInfo.success, picks, hops[|hops| - 1].used - {b}, swapInfo)
  {
    var firstHop := hops[|hops| - 1];
    swapInfo := SwapInfo(Stonfi, firstHop.sender, firstHop.router, firstHop.out, firstHop.in_, firstHop.success);
    RootInFirst(t, hops, |hops| - 1);
    assert Here(t) by { assert t in Nodes(t); }
    picks := StartSwap(b, firstHop.used, t);
    FollowsStart(t, hops, picks);
  }

  method EndSwap(b: Bubble, hops: seq<Hop>, swap: SwapInfo, hasFailed: bool, successUsedBubbles: set<Bubble>,
                 allUsedBubbles: set<Bubble>, ghost t: Tree, ghost g: Trail, ghost objects: set<object>)
    returns (ghost t': Tree, ghost main: Visit)
    requires Distinct(t) && NoMarks(t) && hops == Hops(t) && hops != [] && PaysTheUser(hops)
    requires allUsedBubbles == UsedBy(hops) && successUsedBubbles <= Ids(t)
    requires AtHop(t, hops, b, 0, g, hasFailed, successUsedBubbles, swap, objects)
    modifies b`children, b`info
    ensures IsStonfiMerge(t, t', main, g.failed) && Rep(t')
    ensures Distinct(t') && NoMarks(t') && Foot(t') <= Foot(t) + objects
  {
    assert allocated(Foot(t)) && allocated(Nodes(t)) && allocated(g.made);
    FollowsEnd(t, hops, g.m, hasFailed, g.picks, successUsedBubbles, swap);
    var swapInfo := swap;
    if hasFailed && |hops| > 1 {
      // a later hop failed, so the output jetton ends up back at the user
      swapInfo := swapInfo.(out := swapInfo.out.(jettonWallet := hops[|hops| - 1].sender));
    }
    var rescued, order := RescueOrphanedChildren(successUsedBubbles, allUsedBubbles, t);
    main := Visit(g.picks, order);
    t' := Finish(b, rescued, swapInfo, hops, t, main, g.made, g.failed);
  }

  method MergeHops(b: Bubble, hops: seq<Hop>, ghost t: Tree)
    returns (ghost t': Tree, ghost main: Visit, ghost failed: seq<Visit>)
    requires Valid(t) && NoMarks(t) && t.id == b && hops == Hops(t) && hops != [] && PaysTheUser(hops)
    modifies b, t.cell
    ensures IsStonfiMerge(t, t', main, failed) && Valid(t') && NoMarks(t')
    ensures forall o | o in Foot(t') && o !in Foot(t) :: fresh(o)
  {
    assert allocated(Foot(t)) && allocated(Nodes(t));
    RootUsed(t);
    var allUsedBubbles := AllUsedBubbles(hops);
    var swapInfo, picks := BeginSwap(b, hops, t);
    var hasFailed, successUsedBubbles;
    ghost var g, objects;
    swapInfo, hasFailed, successUsedBubbles, g, objects := RunHops(b, hops, allUsedBubbles, swapInfo, t, picks);
    FollowsUsed(t, hops, g.m, hasFailed, g.picks, successUsedBubbles, swapInfo);
    t', main := EndSwap(b, hops, swapInfo, hasFailed, successUsedBubbles, allUsedBubbles, t, g, objects);
    failed := g.failed;
  }

  method Merge(b: Bubble, ghost t: Tree) returns (ok: bool, ghost t': Tree, ghost main: Visit, ghost failed: seq<Visit>)
    requires Valid(t) && NoMarks(t) && t.id == b
    modifies b, t.cell
    ensures ok <==> Hops(t) != [] && PaysTheUser(Hops(t))
    ensures !ok ==> t' == t && Rep(t)
    ensures ok ==> IsStonfiMerge(t, t', main, failed) && Valid(t') && NoMarks(t')
    ensures forall o | o in Foot(t') && o !in Foot(t) :: fresh(o)
  {
    assert allocated(Foot(t)) && allocated(Nodes(t));
    var hops := ProcessMultipleRouterSwaps(b, t);
    if hops == [] || !PaysTheUser(hops) {
      return false, t, Visit([], []), [];
    }
    ok := true;
    t', main, failed := MergeHops(b, hops, t);
  }
}
