/** What a Dedust merge keeps, and the one branch in which it does not (pkg/bath/dedust.go). */
module DedustMerges {
  import opened Wrappers
  import opened Ledger
  import opened Bubbles
  import opened Clusters
  import opened Gathering
  import opened DedustRoutes

  /** What is counted a second time when the payout bubble is taken twice. */
  function SecondTime(t: Tree, w: Weight): int
    requires PlanOf(t).Some?
  {
    if !TakesPayoutTwice(t) then 0 else
    var ids := set i | 0 <= i < |PlanOf(t).value.toMerge| :: PlanOf(t).value.toMerge[i].id;
    Weigh(PayoutBubble(t), w) + SumAll(Outside(PayoutBubble(t).kids, ids), w)
  }

  lemma PickPush(a: seq<Tree>, x: Tree, ids: set<Bubble>, w: Weight)
    ensures PickWeights(a + [x], w) == PickWeights(a, w) + Weigh(x, w)
    ensures SumAll(Rescue(a + [x], ids), w) == SumAll(Rescue(a, ids), w) + SumAll(Outside(x.kids, ids), w)
  {
    assert (a + [x])[..|a|] == a;
    SumAllConcat(Rescue(a, ids), Outside(x.kids, ids), w);
  }

  lemma {:induction false} ExtraPick(a: seq<Tree>, p: Tree, b: seq<Tree>, ids: set<Bubble>, w: Weight)
    ensures PickWeights(a + [p] + b, w) == PickWeights(a + b, w) + Weigh(p, w)
    ensures SumAll(Rescue(a + [p] + b, ids), w) == SumAll(Rescue(a + b, ids), w) + SumAll(Outside(p.kids, ids), w)
  {
    if b == [] {
      assert a + [p] + b == a + [p] && a + b == a;
      PickPush(a, p, ids, w);
    } else {
      var init, x := b[..|b| - 1], b[|b| - 1];
      assert a + [p] + b == (a + [p] + init) + [x] && a + b == (a + init) + [x];
      ExtraPick(a, p, init, ids, w);
      PickPush(a + [p] + init, x, ids, w);
      PickPush(a + init, x, ids, w);
    }
  }

  lemma SamePickIds(a: seq<Tree>, p: Tree, b: seq<Tree>)
    requires p in b
    ensures PickIds(a + [p] + b) == PickIds(a + b)
  {
    var all, j := a + [p] + b, 0;
    forall i | 0 <= i < |all| ensures all[i].id in PickIds(a + b) {
      if i < |a| { assert all[i] == (a + b)[i]; }
      else if i > |a| { assert all[i] == (a + b)[i - 1]; }
      else {
        var k :| 0 <= k < |b| && b[k] == p;
        assert (a + b)[|a| + k] == p;
      }
    }
    forall i | 0 <= i < |a + b| ensures (a + b)[i].id in PickIds(all) {
      assert (a + b)[i] == all[if i < |a| then i else i + 1];
    }
  }

  /** The root, the merged bubbles and the children handed on make up the tree, but for what is counted twice. */
  lemma {:induction false} DedustSum(t: Tree, w: Weight)
    requires PlanOf(t).Some? && Distinct(t) && NoMarks(t)
    ensures SumAll(DedustTree(t).kids, w) + Weigh(t, w) + PickWeights(PlanOf(t).value.toMerge, w)
         == Sum(t, w) + SecondTime(t, w)
  {
    var swaps, once, all := ProcessSteps(t).value.swaps, OnceEach(t), PlanOf(t).value.toMerge;
    PlanShape(t);
    TailIs(t);
    RegionSum(t, once, w);
    if TakesPayoutTwice(t) {
      var p := PayoutBubble(t);
      SamePickIds(swaps, p, TailOf(t));
      ExtraPick(swaps, p, TailOf(t), PickIds(all), w);
      SumAllConcat(Outside(t.kids, PickIds(once)), Rescue(once, PickIds(once)), w);
      SumAllConcat(Outside(t.kids, PickIds(all)), Rescue(all, PickIds(all)), w);
    }
  }

  /** The flow is kept up to the payout bubble's second share. */
  lemma {:induction false} DedustFlow(t: Tree, x: Ledger.Asset)
    requires PlanOf(t).Some? && Distinct(t) && NoMarks(t)
    ensures Sum(DedustTree(t), Asset(x)) == Sum(t, Asset(x)) + SecondTime(t, Asset(x))
  {
    DedustSum(t, Asset(x));
    FlowIntoAmount(t.rec.flow, PlanOf(t).value.toMerge, x);
  }

  /** Every bubble is accounted for exactly once if and only if the payout's first child is a transaction bubble
      whenever a referral splits a jetton payout. */
  lemma {:induction false} DedustExactIff(t: Tree)
    requires PlanOf(t).Some? && Distinct(t) && NoMarks(t)
    ensures (forall w ::
              SumAll(DedustTree(t).kids, w) + Weigh(t, w) + PickWeights(PlanOf(t).value.toMerge, w) == Sum(t, w))
            <==> !TakesPayoutTwice(t)
  {
    forall w ensures SumAll(DedustTree(t).kids, w) + Weigh(t, w) + PickWeights(PlanOf(t).value.toMerge, w)
                  == Sum(t, w) + SecondTime(t, w) {
      DedustSum(t, w);
    }
    if TakesPayoutTwice(t) {
      var ids := PickIds(PlanOf(t).value.toMerge);
      SumAllNonNegative(Outside(PayoutBubble(t).kids, ids), Every);
      assert SecondTime(t, Every) >= 1;
      DedustSum(t, Every);
    }
  }

  lemma {:induction false} DedustKeepsHashes(t: Tree, h: Hash)
    requires PlanOf(t).Some? && !TakesPayoutTwice(t) && Distinct(t) && NoMarks(t)
    ensures Sum(DedustTree(t), Holding(h)) > 0 <==> Sum(t, Holding(h)) > 0
  {
    DedustSum(t, Holding(h));
    TransactionsIntoHas(t.rec.transaction, PlanOf(t).value.toMerge, h);
    SumAllNonNegative(DedustTree(t).kids, Holding(h));
  }

  /** The root turns into a swap, so the bubbles that are not swaps become fewer. */
  lemma {:induction false} DedustProgress(t: Tree)
    requires PlanOf(t).Some? && !TakesPayoutTwice(t) && Distinct(t) && NoMarks(t)
    ensures Sum(DedustTree(t), NotOf(SwapKind)) < Sum(t, NotOf(SwapKind))
  {
    DedustSum(t, NotOf(SwapKind));
    PickWeightsNonNegative(PlanOf(t).value.toMerge, NotOf(SwapKind));
  }

  lemma {:induction false} DedustValid(t: Tree)
    requires PlanOf(t).Some? && !TakesPayoutTwice(t) && Distinct(t) && NoMarks(t)
    ensures Distinct(DedustTree(t)) && NoMarks(DedustTree(t)) && Foot(DedustTree(t)) <= Foot(t)
  {
    forall w: Weight | w.At? || w.Marks? ensures Sum(DedustTree(t), w) <= Sum(t, w) {
      DedustSum(t, w);
      PickWeightsNonNegative(PlanOf(t).value.toMerge, w);
    }
    FewerObjects(t, DedustTree(t));
  }

  lemma FewerObjects(t: Tree, t': Tree)
    requires Distinct(t) && NoMarks(t) && forall w: Weight | w.At? || w.Marks? :: Sum(t', w) <= Sum(t, w)
    ensures Distinct(t') && NoMarks(t') && Foot(t') <= Foot(t)
  {
    DistinctBySums(t);
    forall o ensures Sum(t', At(o)) <= 1 { assert Sum(t', At(o)) <= Sum(t, At(o)); }
    DistinctBySums(t');
    forall o | o in Foot(t') ensures o in Foot(t) {
      assert Sum(t', At(o)) <= Sum(t, At(o));
      SumAt(t', o);
      SumAt(t, o);
    }
    MarksBySum(t);
    MarksBySum(t');
    SumNonNegative(t', Marks);
    assert Sum(t', Marks) <= Sum(t, Marks);
  }

  // ----- a tree in which the payout is taken twice -----

  const PLAIN_TX: BubbleTx := BubbleTx(true, 0, None, false, Account(NO_ACCOUNT, {}), None, None, map[], true)

  const SENDER: AccountID := AccountID(0, 1)

  /** An unmarked bubble with this info and nothing else. */
  function Bare(b: Bubble, c: ValueFlow, info: Info, kids: seq<Tree>): Tree {
    Node(b, c, Rec(info, [], map[], [], false), kids)
  }

  const NO_CALL: Info := ContractDeploy(NO_ACCOUNT)
  const REFERRAL: Info := Tx(PLAIN_TX.(opCode := Some(REFERRAL_OPCODE)))
  const PAYOUT: Info := JettonTransfer(
    JettonTransferInfo(None, Some(Account(SENDER, {OmnistonReferral})), NO_ACCOUNT, NO_ACCOUNT, NO_ACCOUNT, 5,
                       OtherPayload(""), false, true))
  const COMMAND: Info := Tx(PLAIN_TX.(decodedBody := Some(DedustPayoutFromPoolBody(5))))
  const POOL: Info := Tx(PLAIN_TX.(account := Account(NO_ACCOUNT, {DedustPool})))
  const SWAP: Info := Tx(PLAIN_TX.(decodedBody := Some(DedustSwapBody(DedustStep(None), 5)),
                                   inputFrom := Some(Account(SENDER, {}))))

  /** A swap in one pool, paid out in jettons to a referral account, whose children come in the second order. */
  function ReferralSwap(b: seq<Bubble>, c: seq<ValueFlow>): Tree
    requires |b| == |c| == 6
  {
    var payout := Bare(b[3], c[3], PAYOUT, [Bare(b[4], c[4], NO_CALL, []), Bare(b[5], c[5], REFERRAL, [])]);
    Bare(b[0], c[0], SWAP, [Bare(b[1], c[1], POOL, [Bare(b[2], c[2], COMMAND, [payout])])])
  }

  ghost predicate AllNew(b: seq<Bubble>, c: seq<ValueFlow>) {
    && |b| == |c| == 6
    && (forall i, j | 0 <= i < j < 6 :: b[i] != b[j]) && (forall i, j | 0 <= i < j < 6 :: c[i] != c[j])
  }

  /** The failing side is reached: this tree's payout is taken twice, so it is counted a second time. */
  lemma {:induction false} PayoutTakenTwice(b: seq<Bubble>, c: seq<ValueFlow>)
    requires AllNew(b, c)
    ensures var t := ReferralSwap(b, c);
            && Distinct(t) && NoMarks(t) && PlanOf(t).Some? && TakesPayoutTwice(t) && SecondTime(t, Every) >= 1
            && SumAll(DedustTree(t).kids, Every) + Weigh(t, Every) + PickWeights(PlanOf(t).value.toMerge, Every)
               > Sum(t, Every)
  {
    var t := ReferralSwap(b, c);
    ReferralSwapIsTree(b, c);
    ReferralSwapPlan(t, t.kids[0], t.kids[0].kids[0], t.kids[0].kids[0].kids[0]);
    var ids := PickIds(PlanOf(t).value.toMerge);
    SumAllNonNegative(Outside(PayoutBubble(t).kids, ids), Every);
    DedustSum(t, Every);
  }

  lemma ReferralSwapPlan(t: Tree, pool: Tree, command: Tree, payout: Tree)
    requires t.rec.info == SWAP && t.kids == [pool] && pool.rec.info == POOL && pool.kids == [command]
    requires command.rec.info == COMMAND && command.kids == [payout] && payout.rec.info == PAYOUT && |payout.kids| == 2
    requires payout.kids[0].rec.info == NO_CALL && payout.kids[1].rec.info == REFERRAL && payout.kids[1].kids == []
    ensures PlanOf(t).Some? && TakesPayoutTwice(t)
  {
    assert ProcessSteps(pool) == Some(Route(0, 0, [], command));
    assert [] + [pool] == [pool];
    assert ProcessSteps(t) == Some(Route(1, 0, [pool], command));
    assert CountSteps(DedustStep(None)) == 1;
  }

  lemma ReferralSwapIsTree(b: seq<Bubble>, c: seq<ValueFlow>)
    requires AllNew(b, c)
    ensures Distinct(ReferralSwap(b, c)) && NoMarks(ReferralSwap(b, c))
  {
    var x, y := Bare(b[4], c[4], NO_CALL, []), Bare(b[5], c[5], REFERRAL, []);
    var payout := Bare(b[3], c[3], PAYOUT, [x, y]);
    var command := Bare(b[2], c[2], COMMAND, [payout]);
    var pool := Bare(b[1], c[1], POOL, [command]);
    var t := ReferralSwap(b, c);
    forall o ensures Sum(t, At(o)) <= 1 {
      LeafSum(x, At(o));
      LeafSum(y, At(o));
      SumOfOne(t, pool, At(o));
      SumOfOne(pool, command, At(o));
      SumOfOne(command, payout, At(o));
      SumOfTwo(payout, x, y, At(o));
    }
    DistinctBySums(t);
    LeafSum(x, Marks);
    LeafSum(y, Marks);
    SumOfOne(t, pool, Marks);
    SumOfOne(pool, command, Marks);
    SumOfOne(command, payout, Marks);
    SumOfTwo(payout, x, y, Marks);
    MarksBySum(t);
  }

  lemma LeafSum(t: Tree, w: Weight)
    requires t.kids == []
    ensures Sum(t, w) == Weigh(t, w)
  {
  }

  lemma SumOfOne(t: Tree, k: Tree, w: Weight)
    requires t.kids == [k]
    ensures Sum(t, w) == Weigh(t, w) + Sum(k, w)
  {
    assert [k][1..] == [] && SumAll([], w) == 0;
    assert SumAll([k], w) == Sum(k, w) + SumAll([k][1..], w);
  }

  lemma SumOfTwo(t: Tree, k: Tree, l: Tree, w: Weight)
    requires t.kids == [k, l]
    ensures Sum(t, w) == Weigh(t, w) + Sum(k, w) + Sum(l, w)
  {
    assert [k, l][1..] == [l] && [l][1..] == [];
    assert SumAll([l], w) == Sum(l, w) + SumAll([], w);
  }
}
