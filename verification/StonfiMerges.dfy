/** What the Stonfi merger makes of a tree, and what it keeps (pkg/bath/stonfi.go). */
module StonfiMerges {
  import opened Wrappers
  import opened Ledger
  import opened Bubbles
  import opened Clusters
  import opened StonfiRoutes
  import opened Gathering

  /** The recipient of the last payout must be the sender of the first transfer. */
  predicate PaysTheUser(hops: seq<Hop>)
    requires hops != [] && hops[0].swaps != []
  {
    var final := hops[0].swaps[0].transfer;
    final.JettonTransfer? && final.transfer.recipient.Some?
    && final.transfer.recipient.value.address == hops[|hops| - 1].sender
  }

  /** How many hops, from the front of the list, stay out of the swap when hops[i..] are already in. */
  function LeftOut(hops: seq<Hop>, i: nat): (n: nat)
    requires i <= |hops|
    ensures n <= i
    ensures n > 0 ==> !hops[n - 1].success
    ensures forall j | n <= j < i :: hops[j].success
  {
    if i == 0 then 0 else if !hops[i - 1].success then i else LeftOut(hops, i - 1)
  }

  /** From the first failed hop on, every hop becomes a failed swap of its own. */
  function FailedHops(hops: seq<Hop>): (n: nat)
    requires hops != []
    ensures n < |hops|
  {
    var last := |hops| - 1;
    if !hops[last].success then last else LeftOut(hops, last)
  }

  function SwapOf(hops: seq<Hop>): SwapInfo
    requires hops != []
  {
    var first := hops[|hops| - 1];
    var n := FailedHops(hops);
    var failed := !first.success || n > 0;
    var out := hops[n].out;
    SwapInfo(Stonfi, first.sender, hops[n].router,
             if failed && |hops| > 1 then out.(jettonWallet := first.sender) else out, first.in_, first.success)
  }

  function FailedSwapOf(hops: seq<Hop>, i: nat): SwapInfo
    requires i < |hops|
  {
    SwapInfo(Stonfi, hops[|hops| - 1].sender, hops[i].router, hops[i].out, hops[i].in_, false)
  }

  /** The orders in which the used bubbles of one part are visited: once to gather, once to rescue. */
  datatype Visit = Visit(picks: seq<Tree>, order: seq<Tree>)

  const NO_FIELDS: Rec := Rec(OtherInfo("", 0), [], map[], [], false)

  ghost predicate IsVisit(t: Tree, v: Visit, some: set<Bubble>) {
    Enumerates(t, v.picks, some) && Enumerates(t, v.order, some)
  }

  /** The bubble made for failed hop i. */
  ghost predicate IsFailedHop(t: Tree, hops: seq<Hop>, n: Tree, i: nat, v: Visit)
    requires i < |hops|
  {
    && IsVisit(t, v, hops[i].used)
    && n.rec.info == JettonSwap(FailedSwapOf(hops, i)) && Gathers(n.rec, NO_FIELDS, v.picks) && !n.rec.merged
    && n.kids == Rescue(v.order, UsedBy(hops))
  }

  /** `t'` is `t` after a merge of these hops that visited the used bubbles as `main` and `failed` say. */
  ghost predicate IsSwapOf(t: Tree, hops: seq<Hop>, t': Tree, main: Visit, failed: seq<Visit>)
    requires hops != []
  {
    var n := FailedHops(hops);
    && IsVisit(t, main, UsedBy(hops[n..]) - {t.id})
    && t'.id == t.id && t'.cell == t.cell && t'.rec.merged == t.rec.merged
    && t'.rec.info == JettonSwap(SwapOf(hops)) && Gathers(t'.rec, t.rec, main.picks)
    && |failed| == n <= |t'.kids| && t'.kids[n..] == Rescue(main.order, UsedBy(hops))
    && forall j | 0 <= j < n :: IsFailedHop(t, hops, t'.kids[j], n - 1 - j, failed[j])
  }

  ghost predicate IsStonfiMerge(t: Tree, t': Tree, main: Visit, failed: seq<Visit>) {
    Hops(t) != [] && PaysTheUser(Hops(t)) && IsSwapOf(t, Hops(t), t', main, failed)
  }

  // ----- sums -----

  /** The records of the bubbles made for failed hops. */
  function MadeWeights(kids: seq<Tree>, n: nat, w: Weight): int
    requires n <= |kids|
  {
    if n == 0 then 0 else MadeWeights(kids, n - 1, w) + Weigh(kids[n - 1], w)
  }

  function VisitWeights(visits: seq<Visit>, w: Weight): int {
    if visits == [] then 0 else
    VisitWeights(visits[..|visits| - 1], w) + PickWeights(visits[|visits| - 1].picks, w)
  }

  lemma VisitTake(visits: seq<Visit>, m: nat, w: Weight)
    requires m < |visits|
    ensures VisitWeights(visits[..m + 1], w) == VisitWeights(visits[..m], w) + PickWeights(visits[m].picks, w)
  {
    assert visits[..m + 1][..m] == visits[..m];
  }

  /** The yields of the bubbles consumed by the m hops before hop n. */
  ghost function TailSum(t: Tree, hops: seq<Hop>, n: nat, m: nat, w: Weight): int
    requires m <= n <= |hops|
  {
    NodeSum(t, UsedBy(hops[n - m..n]), UsedBy(hops), w)
  }

  /** One failed hop: its subtree and what it consumed. */
  lemma {:induction false} FailedStep(t: Tree, hops: seq<Hop>, k: Tree, n: nat, m: nat, v: Visit, w: Weight)
    requires Distinct(t) && NoMarks(t) && Partitions(t, hops) && m < n <= |hops|
    requires IsVisit(t, v, hops[n - 1 - m].used) && k.kids == Rescue(v.order, UsedBy(hops))
    ensures TailSum(t, hops, n, m + 1, w) == TailSum(t, hops, n, m, w) + SumAll(k.kids, w) + PickWeights(v.picks, w)
  {
    TailParts(hops, n, m);
    VisitSum(t, hops[n - 1 - m].used, UsedBy(hops[n - m..n]), UsedBy(hops), v, w);
  }

  lemma TailParts(hops: seq<Hop>, n: nat, m: nat)
    requires HopsApart(hops) && m < n <= |hops|
    ensures var used, rest := hops[n - 1 - m].used, UsedBy(hops[n - m..n]);
            used <= UsedBy(hops) && used !! rest && UsedBy(hops[n - (m + 1)..n]) == used + rest
  {
    UsedByEach(hops, n - 1 - m);
    UsedByHead(hops, n - 1 - m, n);
  }

  /** One more part visited. */
  lemma VisitSum(t: Tree, used: set<Bubble>, rest: set<Bubble>, ids: set<Bubble>, v: Visit, w: Weight)
    requires Distinct(t) && NoMarks(t) && TopClosed(t, ids) && used <= ids && used !! rest && IsVisit(t, v, used)
    ensures NodeSum(t, used + rest, ids, w)
         == NodeSum(t, rest, ids, w) + SumAll(Rescue(v.order, ids), w) + PickWeights(v.picks, w)
  {
    PartSum(t, v.picks, v.order, used, ids, w);
    NodeSumSplit(t, used, rest, ids, w);
  }

  /** The first m failed hops and their subtrees, against the yields of what they consumed. */
  lemma {:induction false} FailedSum(t: Tree, hops: seq<Hop>, kids: seq<Tree>, n: nat, failed: seq<Visit>, m: nat,
                                     w: Weight)
    requires m <= n == |failed| <= |hops| && n <= |kids|
    requires forall j | 0 <= j < n ::
               TailSum(t, hops, n, j + 1, w)
               == TailSum(t, hops, n, j, w) + SumAll(kids[j].kids, w) + PickWeights(failed[j].picks, w)
    ensures SumAll(kids[..m], w) - MadeWeights(kids, m, w) + VisitWeights(failed[..m], w) == TailSum(t, hops, n, m, w)
  {
    if m == 0 {
      assert hops[n..n] == [];
      NodeSumNone(t, {}, UsedBy(hops), w);
    } else {
      FailedSum(t, hops, kids, n, failed, m - 1, w);
      assert TailSum(t, hops, n, (m - 1) + 1, w) == TailSum(t, hops, n, m, w);
      SumAllTake(kids, m - 1, w);
      VisitTake(failed, m - 1, w);
    }
  }

  lemma UsedByHead(hops: seq<Hop>, i: nat, n: nat)
    requires HopsApart(hops) && i < n <= |hops|
    ensures UsedBy(hops[i..n]) == hops[i].used + UsedBy(hops[i + 1..n])
    ensures hops[i].used !! UsedBy(hops[i + 1..n])
  {
    assert hops[i..n][1..] == hops[i + 1..n];
    RestApart(hops, i, n);
  }

  lemma RestApart(hops: seq<Hop>, i: nat, n: nat)
    requires HopsApart(hops) && i < n <= |hops|
    ensures hops[i].used !! UsedBy(hops[i + 1..n])
    decreases n
  {
    if i + 1 < n {
      RestApart(hops, i, n - 1);
      assert hops[i + 1..n] == hops[i + 1..n - 1] + [hops[n - 1]];
      UsedByConcat(hops[i + 1..n - 1], [hops[n - 1]]);
      UsedByOne(hops[n - 1]);
    }
  }

  lemma UsedByApart(hops: seq<Hop>, n: nat)
    requires HopsApart(hops) && n <= |hops|
    ensures UsedBy(hops[..n]) !! UsedBy(hops[n..])
    ensures UsedBy(hops) == UsedBy(hops[..n]) + UsedBy(hops[n..])
    decreases n
  {
    assert hops == hops[..n] + hops[n..];
    UsedByConcat(hops[..n], hops[n..]);
    if n > 0 {
      UsedByApart(hops, n - 1);
      assert hops[..n] == hops[..n - 1] + [hops[n - 1]];
      UsedByConcat(hops[..n - 1], [hops[n - 1]]);
      UsedByOne(hops[n - 1]);
      assert hops[n - 1..] == [hops[n - 1]] + hops[n..];
      UsedByConcat([hops[n - 1]], hops[n..]);
      assert hops[n..|hops|] == hops[n..];
      RestApart(hops, n - 1, |hops|);
    }
  }

  /** The successful hops: what was gathered and rescued, with the root, against their yields. */
  lemma {:induction false} MainSum(t: Tree, hops: seq<Hop>, n: nat, main: Visit, w: Weight)
    requires Distinct(t) && NoMarks(t) && Partitions(t, hops) && n < |hops|
    requires Outside(t.kids, UsedBy(hops)) == [] && IsVisit(t, main, UsedBy(hops[n..]) - {t.id})
    ensures PickWeights(main.picks, w) + SumAll(Rescue(main.order, UsedBy(hops)), w) + Weigh(t, w)
         == NodeSum(t, UsedBy(hops[n..]), UsedBy(hops), w)
  {
    UsedByTail(hops, n);
    RootSum(t, UsedBy(hops[n..]), UsedBy(hops), main, w);
  }

  lemma UsedByTail(hops: seq<Hop>, n: nat)
    requires n < |hops|
    ensures UsedBy(hops[n..]) <= UsedBy(hops) && hops[|hops| - 1].used <= UsedBy(hops[n..])
  {
    assert hops == hops[..n] + hops[n..];
    UsedByConcat(hops[..n], hops[n..]);
    UsedByEach(hops[n..], |hops| - 1 - n);
  }

  /** The part that the root belongs to. */
  lemma RootSum(t: Tree, mine: set<Bubble>, ids: set<Bubble>, main: Visit, w: Weight)
    requires Distinct(t) && NoMarks(t) && TopClosed(t, ids) && mine <= ids && t.id in mine
    requires Outside(t.kids, ids) == [] && IsVisit(t, main, mine - {t.id})
    ensures PickWeights(main.picks, w) + SumAll(Rescue(main.order, ids), w) + Weigh(t, w) == NodeSum(t, mine, ids, w)
  {
    PartSum(t, main.picks, main.order, mine - {t.id}, ids, w);
    NodeSumTop(t, mine - {t.id}, ids, w);
    assert mine - {t.id} + {t.id} == mine;
    assert StripAll([], ids) == [];
  }

  /** Everything below the new root and every consumed record make up the old tree. */
  lemma {:induction false} SwapSum(t: Tree, hops: seq<Hop>, t': Tree, main: Visit, failed: seq<Visit>, w: Weight)
    requires Distinct(t) && NoMarks(t) && Partitions(t, hops) && Outside(t.kids, UsedBy(hops)) == []
    requires IsSwapOf(t, hops, t', main, failed)
    ensures SumAll(t'.kids, w) - MadeWeights(t'.kids, |failed|, w) + VisitWeights(failed, w)
            + PickWeights(main.picks, w) + Weigh(t, w)
         == Sum(t, w)
  {
    var n := |failed|;
    AllFailedSum(t, hops, t'.kids, n, failed, w);
    SumAllCut(t'.kids, n, w);
    MainSum(t, hops, n, main, w);
    UsedSum(t, hops, n, w);
  }

  lemma AllFailedSum(t: Tree, hops: seq<Hop>, kids: seq<Tree>, n: nat, failed: seq<Visit>, w: Weight)
    requires Distinct(t) && NoMarks(t) && Partitions(t, hops) && n == |failed| <= |hops| && n <= |kids|
    requires forall j | 0 <= j < n :: IsFailedHop(t, hops, kids[j], n - 1 - j, failed[j])
    ensures SumAll(kids[..n], w) - MadeWeights(kids, n, w) + VisitWeights(failed, w) == TailSum(t, hops, n, n, w)
  {
    forall j | 0 <= j < n
      ensures TailSum(t, hops, n, j + 1, w)
           == TailSum(t, hops, n, j, w) + SumAll(kids[j].kids, w) + PickWeights(failed[j].picks, w)
    {
      FailedStep(t, hops, kids[j], n, j, failed[j], w);
    }
    FailedSum(t, hops, kids, n, failed, n, w);
    assert failed[..n] == failed;
  }

  lemma {:induction false} UsedSum(t: Tree, hops: seq<Hop>, n: nat, w: Weight)
    requires Distinct(t) && NoMarks(t) && Partitions(t, hops) && n <= |hops|
    ensures TailSum(t, hops, n, n, w) + NodeSum(t, UsedBy(hops[n..]), UsedBy(hops), w) == Sum(t, w)
  {
    UsedByApart(hops, n);
    NodeSumSplit(t, UsedBy(hops[..n]), UsedBy(hops[n..]), UsedBy(hops), w);
    TopClosedIsClustered(t, UsedBy(hops));
    ClusteredSum(t, UsedBy(hops), w);
  }

  /** The bubbles made for failed hops stand for what they consumed, the root for the rest. */
  ghost predicate SumsUp(t: Tree, t': Tree, main: Visit, failed: seq<Visit>, w: Weight) {
    && |failed| <= |t'.kids|
    && SumAll(t'.kids, w) - MadeWeights(t'.kids, |failed|, w) + VisitWeights(failed, w)
       + PickWeights(main.picks, w) + Weigh(t, w) == Sum(t, w)
  }

  lemma {:induction false} StonfiSum(t: Tree, t': Tree, main: Visit, failed: seq<Visit>, w: Weight)
    requires IsStonfiMerge(t, t', main, failed) && Distinct(t) && NoMarks(t)
    ensures SumsUp(t, t', main, failed, w)
  {
    RootUsed(t);
    SwapSum(t, Hops(t), t', main, failed, w);
  }

  lemma OnlyKidUsed(kids: seq<Tree>, ids: set<Bubble>)
    requires |kids| == 1 && kids[0].id in ids
    ensures Outside(kids, ids) == []
  {
    assert Outside(kids[1..], ids) == [];
  }

  lemma RootUsed(t: Tree)
    requires Distinct(t) && Hops(t) != []
    ensures Partitions(t, Hops(t)) && Outside(t.kids, UsedBy(Hops(t))) == []
  {
    var hops := Hops(t);
    HopsPartition(t);
    UsedByEach(hops, |hops| - 1);
    OnlyKidUsed(t.kids, UsedBy(hops));
  }

  // ----- what a Stonfi merge keeps -----

  lemma {:induction false} MadeNothing(kids: seq<Tree>, n: nat, w: Weight)
    requires n <= |kids| && forall j | 0 <= j < n :: Weigh(kids[j], w) == 0
    ensures MadeWeights(kids, n, w) == 0
  {
    if n > 0 { MadeNothing(kids, n - 1, w); }
  }

  lemma {:induction false} MadeFlow(kids: seq<Tree>, visits: seq<Visit>, m: nat, x: Ledger.Asset)
    requires m <= |visits| <= |kids|
    requires forall j | 0 <= j < |visits| :: kids[j].rec.flow == FlowInto(map[], visits[j].picks)
    ensures MadeWeights(kids, m, Asset(x)) == VisitWeights(visits[..m], Asset(x))
  {
    if m > 0 {
      MadeFlow(kids, visits, m - 1, x);
      VisitTake(visits, m - 1, Asset(x));
      FlowIntoAmount(map[], visits[m - 1].picks, x);
    }
  }

  /** No number of the flow changes, not even a jetton's. */
  lemma {:induction false} StonfiKeepsFlow(t: Tree, t': Tree, main: Visit, failed: seq<Visit>, x: Ledger.Asset)
    requires IsStonfiMerge(t, t', main, failed) && Distinct(t) && NoMarks(t)
    ensures Sum(t', Asset(x)) == Sum(t, Asset(x))
  {
    StonfiSum(t, t', main, failed, Asset(x));
    MadeFlow(t'.kids, failed, |failed|, x);
    assert failed[..|failed|] == failed;
    FlowIntoAmount(t.rec.flow, main.picks, x);
  }

  lemma {:induction false} MadeHash(kids: seq<Tree>, visits: seq<Visit>, m: nat, h: Hash)
    requires m <= |visits| <= |kids|
    requires forall j | 0 <= j < |visits| :: Gathers(kids[j].rec, NO_FIELDS, visits[j].picks)
    ensures MadeWeights(kids, m, Holding(h)) > 0 <==> VisitWeights(visits[..m], Holding(h)) > 0
    ensures MadeWeights(kids, m, Holding(h)) >= 0 && VisitWeights(visits[..m], Holding(h)) >= 0
  {
    if m > 0 {
      MadeHash(kids, visits, m - 1, h);
      VisitTake(visits, m - 1, Holding(h));
      PickedHash(visits[m - 1].picks, h);
      RootHash(NO_FIELDS, kids[m - 1].rec, visits[m - 1].picks, h);
    }
  }

  lemma {:induction false} StonfiKeepsHashes(t: Tree, t': Tree, main: Visit, failed: seq<Visit>, h: Hash)
    requires IsStonfiMerge(t, t', main, failed) && Distinct(t) && NoMarks(t)
    ensures Sum(t', Holding(h)) > 0 <==> Sum(t, Holding(h)) > 0
  {
    var n, w := |failed|, Holding(h);
    StonfiSum(t, t', main, failed, w);
    MadeHash(t'.kids, failed, n, h);
    assert failed[..n] == failed;
    RootHash(t.rec, t'.rec, main.picks, h);
    PickedHash(main.picks, h);
    HashesAddUp(t, t', main, failed, w);
  }

  lemma RootHash(r: Rec, r': Rec, picks: seq<Tree>, h: Hash)
    requires Gathers(r', r, picks)
    ensures h in r'.transaction <==> h in r.transaction || PickWeights(picks, Holding(h)) > 0
  {
    PickedHash(picks, h);
    assert h in HashSet(r'.transaction) <==> h in r'.transaction;
    assert h in HashSet(r.transaction) <==> h in r.transaction;
  }

  lemma HashesAddUp(t: Tree, t': Tree, main: Visit, failed: seq<Visit>, w: Weight)
    requires SumsUp(t, t', main, failed, w) && w.Holding? && VisitWeights(failed, w) >= 0
    requires MadeWeights(t'.kids, |failed|, w) > 0 <==> VisitWeights(failed, w) > 0
    requires PickWeights(main.picks, w) >= 0
    requires Weigh(t', w) > 0 <==> Weigh(t, w) > 0 || PickWeights(main.picks, w) > 0
    ensures Sum(t', w) > 0 <==> Sum(t, w) > 0
  {
    OthersNonNegative(t'.kids, |failed|, w);
  }

  lemma {:induction false} OthersNonNegative(kids: seq<Tree>, n: nat, w: Weight)
    requires n <= |kids| && !w.Asset?
    ensures SumAll(kids, w) >= MadeWeights(kids, n, w) >= 0
  {
    SumAllCut(kids, n, w);
    SumAllNonNegative(kids[n..], w);
    MadeBelow(kids, n, w);
  }

  lemma {:induction false} MadeBelow(kids: seq<Tree>, n: nat, w: Weight)
    requires n <= |kids| && !w.Asset?
    ensures SumAll(kids[..n], w) >= MadeWeights(kids, n, w) >= 0
  {
    if n > 0 {
      MadeBelow(kids, n - 1, w);
      SumAllTake(kids, n - 1, w);
      SumAllNonNegative(kids[n - 1].kids, w);
    }
  }

  lemma {:induction false} VisitsNonNegative(visits: seq<Visit>, w: Weight)
    requires !w.Asset?
    ensures VisitWeights(visits, w) >= 0
  {
    if visits != [] {
      VisitsNonNegative(visits[..|visits| - 1], w);
      PickWeightsNonNegative(visits[|visits| - 1].picks, w);
    }
  }

  /** Although a failed hop adds a bubble, the bubbles that are not swaps become fewer. */
  lemma {:induction false} StonfiProgress(t: Tree, t': Tree, main: Visit, failed: seq<Visit>)
    requires IsStonfiMerge(t, t', main, failed) && Distinct(t) && NoMarks(t)
    ensures Sum(t', NotOf(SwapKind)) < Sum(t, NotOf(SwapKind))
  {
    StonfiSum(t, t', main, failed, NotOf(SwapKind));
    RootIsTransfer(t);
    RootIsSwap(t, Hops(t), t', main, failed);
    KidsAreSwaps(t, Hops(t), t', main, failed);
    SwapWeights(t'.kids, |failed|);
    FewerThanBefore(t, t', main, failed, NotOf(SwapKind));
  }

  lemma RootIsTransfer(t: Tree)
    requires Hops(t) != []
    ensures KindOf(t.rec.info) == JettonTransferKind
  {
  }

  lemma RootIsSwap(t: Tree, hops: seq<Hop>, t': Tree, main: Visit, failed: seq<Visit>)
    requires hops != [] && IsSwapOf(t, hops, t', main, failed)
    ensures |failed| <= |t'.kids| && t'.rec.merged == t.rec.merged && KindOf(t'.rec.info) == SwapKind
  {
  }

  /** Every bubble made for a failed hop is an unmarked swap. */
  lemma KidsAreSwaps(t: Tree, hops: seq<Hop>, t': Tree, main: Visit, failed: seq<Visit>)
    requires hops != [] && IsSwapOf(t, hops, t', main, failed)
    ensures forall j | 0 <= j < |failed| :: IsUnmarkedSwap(t'.kids[j])
  {
    forall j | 0 <= j < |failed| ensures IsUnmarkedSwap(t'.kids[j]) {
      FailedHopKind(t, hops, t'.kids[j], |failed| - 1 - j, failed[j]);
    }
  }

  predicate IsUnmarkedSwap(n: Tree) {
    KindOf(n.rec.info) == SwapKind && !n.rec.merged
  }

  lemma FailedHopKind(t: Tree, hops: seq<Hop>, n: Tree, i: nat, v: Visit)
    requires i < |hops| && IsFailedHop(t, hops, n, i, v)
    ensures IsUnmarkedSwap(n)
  {
  }

  lemma SwapWeights(kids: seq<Tree>, n: nat)
    requires n <= |kids| && forall j | 0 <= j < n :: IsUnmarkedSwap(kids[j])
    ensures MadeWeights(kids, n, NotOf(SwapKind)) == 0 && MadeWeights(kids, n, Marks) == 0
  {
    MadeNothing(kids, n, NotOf(SwapKind));
    MadeNothing(kids, n, Marks);
  }

  lemma FewerThanBefore(t: Tree, t': Tree, main: Visit, failed: seq<Visit>, w: Weight)
    requires SumsUp(t, t', main, failed, w) && MadeWeights(t'.kids, |failed|, w) == 0 && !w.Asset?
    requires Weigh(t', w) == 0 && Weigh(t, w) == 1
    ensures Sum(t', w) < Sum(t, w)
  {
    VisitsNonNegative(failed, w);
    PickWeightsNonNegative(main.picks, w);
  }

  lemma {:induction false} StonfiNoMarks(t: Tree, t': Tree, main: Visit, failed: seq<Visit>)
    requires IsStonfiMerge(t, t', main, failed) && Distinct(t) && NoMarks(t)
    ensures NoMarks(t')
  {
    StonfiSum(t, t', main, failed, Marks);
    RootIsSwap(t, Hops(t), t', main, failed);
    KidsAreSwaps(t, Hops(t), t', main, failed);
    SwapWeights(t'.kids, |failed|);
    MarksBySum(t);
    MarksBySum(t');
    NoMarksLeft(t, t', main, failed);
  }

  lemma NoMarksLeft(t: Tree, t': Tree, main: Visit, failed: seq<Visit>)
    requires SumsUp(t, t', main, failed, Marks) && Sum(t, Marks) == 0
    requires MadeWeights(t'.kids, |failed|, Marks) == 0 && t'.rec.merged == t.rec.merged
    ensures Sum(t', Marks) == 0
  {
    VisitsNonNegative(failed, Marks);
    PickWeightsNonNegative(main.picks, Marks);
    SumAllNonNegative(t'.kids, Marks);
    SumAllNonNegative(t.kids, Marks);
  }

  // ----- the objects of the tree after a Stonfi merge -----

  lemma {:induction false} MadeAt(kids: seq<Tree>, n: nat, o: object)
    requires n <= |kids|
    requires forall i, j | 0 <= i < j < n :: kids[i].id != kids[j].id && kids[i].cell != kids[j].cell
    ensures MadeWeights(kids, n, At(o)) <= 1
  {
    if n > 0 {
      if Weigh(kids[n - 1], At(o)) == 1 {
        MadeNothing(kids, n - 1, At(o));
      } else {
        MadeAt(kids, n - 1, o);
      }
    }
  }

  /** The bubbles made for failed hops are new objects, each its own. */
  ghost predicate NewObjects(t: Tree, kids: seq<Tree>, n: nat)
    requires n <= |kids|
  {
    && (forall i | 0 <= i < n :: kids[i].id !in Foot(t) && kids[i].cell !in Foot(t))
    && (forall i, j | 0 <= i < j < n :: kids[i].id != kids[j].id && kids[i].cell != kids[j].cell)
  }

  lemma {:induction false} StonfiDistinct(t: Tree, t': Tree, main: Visit, failed: seq<Visit>)
    requires IsStonfiMerge(t, t', main, failed) && Distinct(t) && NoMarks(t)
    requires NewObjects(t, t'.kids, |failed|)
    ensures Distinct(t')
  {
    forall o ensures Sum(t', At(o)) <= 1 {
      StonfiSum(t, t', main, failed, At(o));
      ObjectsAddUp(t, t', main, failed, o);
    }
    DistinctBySums(t');
  }

  /** The objects of the new bubbles. */
  ghost function ObjectsOf(made: seq<Tree>): set<object> {
    (set n | n in made :: n.id) + (set n | n in made :: n.cell)
  }

  lemma {:induction false} StonfiFoot(t: Tree, t': Tree, main: Visit, failed: seq<Visit>)
    requires IsStonfiMerge(t, t', main, failed) && Distinct(t) && NoMarks(t)
    requires NewObjects(t, t'.kids, |failed|)
    ensures Foot(t') <= Foot(t) + ObjectsOf(t'.kids[..|failed|])
  {
    forall o | o in Foot(t') && o !in Foot(t) ensures o in ObjectsOf(t'.kids[..|failed|]) {
      StonfiSum(t, t', main, failed, At(o));
      ObjectsAddUp(t, t', main, failed, o);
      SumAt(t', o);
      MadeObject(t'.kids, |failed|, o);
    }
  }

  lemma {:induction false} MadeObject(kids: seq<Tree>, n: nat, o: object)
    requires n <= |kids| && MadeWeights(kids, n, At(o)) > 0
    ensures o in ObjectsOf(kids[..n])
  {
    if Weigh(kids[n - 1], At(o)) > 0 {
      assert kids[..n][n - 1] == kids[n - 1] && kids[n - 1] in kids[..n];
    } else {
      MadeObject(kids, n - 1, o);
      assert forall k | k in kids[..n - 1] :: k in kids[..n];
    }
  }

  lemma {:induction false} ObjectsAddUp(t: Tree, t': Tree, main: Visit, failed: seq<Visit>, o: object)
    requires SumsUp(t, t', main, failed, At(o)) && Distinct(t) && t'.id == t.id && t'.cell == t.cell
    requires NewObjects(t, t'.kids, |failed|)
    ensures Sum(t', At(o)) <= 1
    ensures o !in Foot(t) ==> Sum(t', At(o)) == MadeWeights(t'.kids, |failed|, At(o))
  {
    var n := |failed|;
    VisitsNonNegative(failed, At(o));
    PickWeightsNonNegative(main.picks, At(o));
    OthersNonNegative(t'.kids, n, At(o));
    SumAt(t, o);
    if o in Foot(t) {
      DistinctBySums(t);
      MadeNothing(t'.kids, n, At(o));
    } else {
      SumNonNegative(t, At(o));
      MadeAt(t'.kids, n, o);
    }
  }

  lemma {:induction false} RescueIn(t: Tree, picks: seq<Tree>, ids: set<Bubble>, k: Tree)
    requires k in Rescue(picks, ids) && Distinct(t) && forall n | n in picks :: n in Nodes(t)
    ensures k in Nodes(t) && k.id !in ids && t.id !in Ids(k)
  {
    var last := |picks| - 1;
    if k in Outside(picks[last].kids, ids) {
      OutsideOf(picks[last].kids, ids, k);
      LowerKid(t, picks[last], k);
    } else {
      RescueIn(t, picks[..last], ids, k);
    }
  }

  // ----- the loop over the hops -----

  /** What the merger knows once hops[i..] are dealt with and hops[m..] are in the swap. */
  ghost predicate Follows(t: Tree, hops: seq<Hop>, i: nat, m: nat, hasFailed: bool, picks: seq<Tree>, used: set<Bubble>,
                          swap: SwapInfo)
  {
    && i <= m < |hops|
    && (if hasFailed then FailedHops(hops) == m && (m > 0 || !hops[|hops| - 1].success)
        else m == i && hops[|hops| - 1].success && FailedHops(hops) == LeftOut(hops, i))
    && Enumerates(t, picks, used) && used == UsedBy(hops[m..]) - {t.id}
    && swap == SwapInfo(Stonfi, hops[|hops| - 1].sender, hops[m].router, hops[m].out, hops[|hops| - 1].in_,
                        hops[|hops| - 1].success)
  }

  lemma FollowsStart(t: Tree, hops: seq<Hop>, picks: seq<Tree>)
    requires hops != [] && Enumerates(t, picks, hops[|hops| - 1].used - {t.id})
    ensures var first := hops[|hops| - 1];
            Follows(t, hops, |hops| - 1, |hops| - 1, !first.success, picks, first.used - {t.id},
                    SwapInfo(Stonfi, first.sender, first.router, first.out, first.in_, first.success))
  {
    assert hops[|hops| - 1..] == [hops[|hops| - 1]];
    UsedByOne(hops[|hops| - 1]);
  }

  lemma FollowsMerge(t: Tree, hops: seq<Hop>, i: nat, picks: seq<Tree>, used: set<Bubble>, swap: SwapInfo,
                     more: seq<Tree>)
    requires Partitions(t, hops) && i + 1 < |hops| && Follows(t, hops, i + 1, i + 1, false, picks, used, swap)
    requires hops[i].success && Enumerates(t, more, hops[i].used) && t.id !in hops[i].used
    ensures Follows(t, hops, i, i, false, picks + more, used + hops[i].used,
                    swap.(router := hops[i].router, out := hops[i].out, success := true))
  {
    UsedByHead(hops, i, |hops|);
    assert hops[i + 1..|hops|] == hops[i + 1..] && hops[i..|hops|] == hops[i..];
    EnumeratesConcat(t, picks, more, used, hops[i].used);
    assert used + hops[i].used == UsedBy(hops[i..]) - {t.id};
  }

  lemma FollowsFail(t: Tree, hops: seq<Hop>, i: nat, m: nat, hasFailed: bool, picks: seq<Tree>, used: set<Bubble>,
                    swap: SwapInfo)
    requires Follows(t, hops, i + 1, m, hasFailed, picks, used, swap) && (hasFailed || !hops[i].success)
    ensures Follows(t, hops, i, m, true, picks, used, swap)
  {
  }

  lemma FollowsUsed(t: Tree, hops: seq<Hop>, m: nat, hasFailed: bool, picks: seq<Tree>, used: set<Bubble>,
                    swap: SwapInfo)
    requires Follows(t, hops, 0, m, hasFailed, picks, used, swap)
    ensures used <= Ids(t)
  {
    forall x | x in used ensures x in Ids(t) {
      var i :| 0 <= i < |picks| && picks[i].id == x;
      assert picks[i] in picks;
    }
  }

  /** After the last hop the swap is the one the specification names. */
  lemma FollowsEnd(t: Tree, hops: seq<Hop>, m: nat, hasFailed: bool, picks: seq<Tree>, used: set<Bubble>,
                   swap: SwapInfo)
    requires Follows(t, hops, 0, m, hasFailed, picks, used, swap)
    ensures m == FailedHops(hops)
    ensures SwapOf(hops) == if hasFailed && |hops| > 1
                            then swap.(out := swap.out.(jettonWallet := hops[|hops| - 1].sender))
                            else swap
  {
  }

  /** Only the first hop consumes the root. */
  lemma RootInFirst(t: Tree, hops: seq<Hop>, i: nat)
    requires Partitions(t, hops) && i < |hops|
    ensures hops[i].used <= Ids(t)
    ensures i < |hops| - 1 ==> t.id !in hops[i].used
  {
    UsedByEach(hops, i);
  }
}
