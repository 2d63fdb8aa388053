/** Who is listed where after a merge: the accounts of the bubbles, which decide whose actions are shown. */
module Listings {
  import opened Wrappers
  import opened Ledger
  import opened Bubbles
  import opened Patterns
  import opened Clusters
  import opened Merges
  import opened Gathering
  import opened StonfiRoutes
  import opened StonfiMerges
  import opened DedustRoutes
  import opened DedustMerges

  // ----- what the builders of a pattern say -----

  /** The new bubble's info once the builders of the mapped bubbles from `i` on were asked, the last one first. */
  function Known(hits: seq<Hit>, zero: Info, i: nat): Option<Info>
    requires i <= |hits|
    decreases |hits| - i
  {
    if i == |hits| then Some(zero) else
    match Known(hits, zero, i + 1)
    case None => None
    case Some(info) =>
      if hits[i].s.builder.None? then Some(info) else
      match hits[i].s.builder.value(info, ViewOf(hits[i].b))
      case BuildFailed => None
      case Built(next, _) => Some(next)
  }

  /** The accounts that the i-th builder appends to its bubble. */
  function Appends(hits: seq<Hit>, zero: Info, i: nat): seq<AccountID>
    requires i < |hits|
  {
    if hits[i].s.builder.None? || Known(hits, zero, i + 1).None? then [] else
    match hits[i].s.builder.value(Known(hits, zero, i + 1).value, ViewOf(hits[i].b))
    case BuildFailed => []
    case Built(_, extra) => extra
  }

  ghost predicate Appended(hits: seq<Hit>, zero: Info, a: AccountID) {
    exists i :: 0 <= i < |hits| && a in Appends(hits, zero, i)
  }

  lemma {:induction false} KnownCut(hits: seq<Hit>, zero: Info, i: nat)
    requires i < |hits|
    ensures var last := |hits| - 1;
            Known(hits, zero, i) ==
            match Known(hits, zero, last)
            case None => None
            case Some(info) => Known(hits[..last], info, i)
    decreases |hits| - i
  {
    if i < |hits| - 1 { KnownCut(hits, zero, i + 1); }
  }

  lemma {:induction false} TakenKnown(hits: seq<Hit>, d: Draft, ids: set<Bubble>)
    ensures Known(hits, d.info, 0).Some? <==> TakeAll(hits, d, ids).Some?
    ensures TakeAll(hits, d, ids).Some? ==> TakeAll(hits, d, ids).value.info == Known(hits, d.info, 0).value
  {
    if hits != [] {
      var last := |hits| - 1;
      KnownCut(hits, d.info, 0);
      if BuildHit(hits[last], d.info).Built? { TakenKnown(hits[..last], TakeHit(d, hits[last], ids), ids); }
    }
  }

  lemma {:induction false} AppendedCut(hits: seq<Hit>, d: Draft, ids: set<Bubble>, a: AccountID)
    requires hits != [] && BuildHit(hits[|hits| - 1], d.info).Built?
    ensures var last := |hits| - 1; var b := BuildHit(hits[last], d.info);
            Appended(hits, d.info, a) <==> a in b.extra || Appended(hits[..last], b.info, a)
  {
    var last := |hits| - 1;
    var b := BuildHit(hits[last], d.info);
    assert Known(hits, d.info, last) == Some(b.info) && Appends(hits, d.info, last) == b.extra;
    forall i | 0 <= i < last ensures Appends(hits, d.info, i) == Appends(hits[..last], b.info, i) {
      KnownCut(hits, d.info, i + 1);
    }
  }

  lemma {:induction false} TakenAccounts(hits: seq<Hit>, d: Draft, ids: set<Bubble>, a: AccountID)
    requires TakeAll(hits, d, ids).Some?
    ensures a in TakeAll(hits, d, ids).value.accounts
            <==> a in d.accounts || HitWeights(hits, Naming(a)) > 0 || Appended(hits, d.info, a)
    ensures HitWeights(hits, Naming(a)) >= 0
  {
    if hits != [] {
      var last := |hits| - 1;
      LastHit(hits, ids, Naming(a));
      TakenAccounts(hits[..last], TakeHit(d, hits[last], ids), ids, a);
      AppendedCut(hits, d, ids, a);
    }
  }

  /** A merge succeeds if and only if no builder fails, and the new bubble says what the builders said one after
      another. */
  lemma {:induction false} MergeAsksBuilders(p: Pattern, t: Tree)
    requires Match(p.straw, t).Some?
    ensures var known := Known(Match(p.straw, t).value, p.zero, 0);
            && (Collapse(p, t).Some? <==> known.Some?)
            && (known.Some? ==> Collapse(p, t).value.rec.info == known.value)
  {
    TakenKnown(Match(p.straw, t).value, Begin(p, t), HitIds(Match(p.straw, t).value));
  }

  // ----- accounts -----

  /** The new bubble lists the accounts and the transactions of the mapped bubbles and what their builders append, and
      nothing else: nothing of a root that stays in place. */
  lemma {:induction false} NewBubbleLists(p: Pattern, t: Tree, t': Tree, a: AccountID, h: Hash)
    requires IsMergeOf(p, t, t') && Distinct(t)
    ensures var hits := Match(p.straw, t).value;
            && (a in t'.rec.accounts <==> (exists i :: 0 <= i < |hits| && a in hits[i].b.rec.accounts)
                                          || Appended(hits, p.zero, a))
            && (h in t'.rec.transaction <==> exists i :: 0 <= i < |hits| && h in hits[i].b.rec.transaction)
  {
    var hits := Match(p.straw, t).value;
    TakenAccounts(hits, Begin(p, t), HitIds(hits), a);
    TakenHashes(hits, Begin(p, t), HitIds(hits), h);
    SomeHit(hits, Naming(a));
    SomeHit(hits, Holding(h));
    if !p.straw.notMerge { assert hits[|hits| - 1].b == t; }
  }

  lemma {:induction false} SomeHit(hits: seq<Hit>, w: Weight)
    requires !w.Asset?
    ensures HitWeights(hits, w) > 0 <==> exists i :: 0 <= i < |hits| && Weigh(hits[i].b, w) > 0
    ensures HitWeights(hits, w) >= 0
  {
    if hits != [] {
      var last := |hits| - 1;
      LastHit(hits, {}, w);
      SomeHit(hits[..last], w);
      if exists i :: 0 <= i < last && Weigh(hits[i].b, w) > 0 {
        var i :| 0 <= i < last && Weigh(hits[i].b, w) > 0;
        assert hits[..last][i] == hits[i];
      }
    }
  }

  lemma {:induction false} PickedBoth(picks: seq<Tree>, a: AccountID, h: Hash)
    requires PickWeights(picks, Listing(a, h)) > 0
    ensures PickWeights(picks, Naming(a)) > 0 && PickWeights(picks, Holding(h)) > 0
  {
    var last := |picks| - 1;
    PickWeightsNonNegative(picks[..last], Naming(a));
    PickWeightsNonNegative(picks[..last], Holding(h));
    if PickWeights(picks[..last], Listing(a, h)) > 0 { PickedBoth(picks[..last], a, h); }
  }

  /** A pattern's merge loses no account, and adds those that its builders append. */
  lemma {:induction false} MergeKeepsAccounts(p: Pattern, t: Tree, t': Tree, a: AccountID)
    requires IsMergeOf(p, t, t') && NoNested(p.straw) && Distinct(t) && NoMarks(t)
    ensures Sum(t', Naming(a)) > 0
            <==> Sum(t, Naming(a)) > 0 || Appended(Match(p.straw, t).value, p.zero, a)
  {
    var hits, w := Match(p.straw, t).value, Naming(a);
    MergeKeepsOthers(p, t, t', w);
    TakenAccounts(hits, Begin(p, t), HitIds(hits), a);
    SumAllNonNegative(t'.kids, w);
    RootCounted(p, t, w);
  }

  /** A root that is merged itself is one of the mapped bubbles. */
  lemma RootCounted(p: Pattern, t: Tree, w: Weight)
    requires Match(p.straw, t).Some? && !w.Asset?
    ensures !p.straw.notMerge ==> HitWeights(Match(p.straw, t).value, w) >= Weigh(t, w)
  {
    var hits := Match(p.straw, t).value;
    if !p.straw.notMerge {
      assert hits[|hits| - 1].b == t;
      LastHit(hits, {}, w);
      HitWeightsNonNegative(hits[..|hits| - 1], w);
    }
  }

  /** Where a bubble lists an account and a transaction, one bubble still lists both after the merge. */
  lemma {:induction false} MergeKeepsListings(p: Pattern, t: Tree, t': Tree, a: AccountID, h: Hash)
    requires IsMergeOf(p, t, t') && NoNested(p.straw) && Distinct(t) && NoMarks(t)
    ensures Sum(t, Listing(a, h)) > 0 ==> Sum(t', Listing(a, h)) > 0
  {
    var hits, w := Match(p.straw, t).value, Listing(a, h);
    MergeKeepsOthers(p, t, t', w);
    SumAllNonNegative(t'.kids, w);
    if HitWeights(hits, w) > 0 {
      PickedBoth(MappedNodes(hits), a, h);
      TakenAccounts(hits, Begin(p, t), HitIds(hits), a);
      TakenHashes(hits, Begin(p, t), HitIds(hits), h);
    }
  }

  // ----- the hand-written mergers -----

  lemma {:induction false} PickedAccount(picks: seq<Tree>, a: AccountID)
    ensures PickWeights(picks, Naming(a)) > 0 <==> a in AccountsOf(picks)
    ensures PickWeights(picks, Naming(a)) >= 0
  {
    if picks != [] {
      PickedAccount(picks[..|picks| - 1], a);
    }
  }

  lemma GatheredAccount(r: Rec, r': Rec, picks: seq<Tree>, a: AccountID)
    requires Gathers(r', r, picks)
    ensures a in r'.accounts <==> a in r.accounts || PickWeights(picks, Naming(a)) > 0
    ensures PickWeights(picks, Naming(a)) >= 0
  {
    PickedAccount(picks, a);
    assert a in AccountSet(r'.accounts) <==> a in r'.accounts;
    assert a in AccountSet(r.accounts) <==> a in r.accounts;
  }

  lemma GatheredBoth(r: Rec, r': Rec, picks: seq<Tree>, a: AccountID, h: Hash)
    requires Gathers(r', r, picks)
    requires (a in r.accounts && h in r.transaction) || PickWeights(picks, Listing(a, h)) > 0
    ensures a in r'.accounts && h in r'.transaction
  {
    GatheredAccount(r, r', picks, a);
    RootHash(r, r', picks, h);
    if PickWeights(picks, Listing(a, h)) > 0 { PickedBoth(picks, a, h); }
  }

  ghost predicate AllGather(kids: seq<Tree>, visits: seq<Visit>) {
    |visits| <= |kids| && forall j | 0 <= j < |visits| :: Gathers(kids[j].rec, NO_FIELDS, visits[j].picks)
  }

  lemma {:induction false} MadeAccount(kids: seq<Tree>, visits: seq<Visit>, m: nat, a: AccountID)
    requires AllGather(kids, visits) && m <= |visits|
    ensures MadeWeights(kids, m, Naming(a)) > 0 <==> VisitWeights(visits[..m], Naming(a)) > 0
    ensures MadeWeights(kids, m, Naming(a)) >= 0 && VisitWeights(visits[..m], Naming(a)) >= 0
  {
    if m > 0 {
      MadeAccount(kids, visits, m - 1, a);
      VisitTake(visits, m - 1, Naming(a));
      GatheredAccount(NO_FIELDS, kids[m - 1].rec, visits[m - 1].picks, a);
    }
  }

  lemma {:induction false} MadeBoth(kids: seq<Tree>, visits: seq<Visit>, m: nat, a: AccountID, h: Hash)
    requires AllGather(kids, visits) && m <= |visits|
    ensures VisitWeights(visits[..m], Listing(a, h)) > 0 ==> MadeWeights(kids, m, Listing(a, h)) > 0
    ensures MadeWeights(kids, m, Listing(a, h)) >= 0 && VisitWeights(visits[..m], Listing(a, h)) >= 0
  {
    if m > 0 {
      MadeBoth(kids, visits, m - 1, a, h);
      VisitTake(visits, m - 1, Listing(a, h));
      PickWeightsNonNegative(visits[m - 1].picks, Listing(a, h));
      if PickWeights(visits[m - 1].picks, Listing(a, h)) > 0 {
        GatheredBoth(NO_FIELDS, kids[m - 1].rec, visits[m - 1].picks, a, h);
      }
    }
  }

  lemma StonfiGathers(t: Tree, t': Tree, main: Visit, failed: seq<Visit>)
    requires IsStonfiMerge(t, t', main, failed)
    ensures Gathers(t'.rec, t.rec, main.picks) && AllGather(t'.kids, failed)
  {
    SwapGathers(t, Hops(t), t', main, failed);
  }

  lemma SwapGathers(t: Tree, hops: seq<Hop>, t': Tree, main: Visit, failed: seq<Visit>)
    requires hops != [] && IsSwapOf(t, hops, t', main, failed)
    ensures Gathers(t'.rec, t.rec, main.picks) && AllGather(t'.kids, failed)
  {
    forall j | 0 <= j < |failed| ensures Gathers(t'.kids[j].rec, NO_FIELDS, failed[j].picks) {
      assert t'.kids[j].rec.info == JettonSwap(FailedSwapOf(hops, |failed| - 1 - j));
    }
  }

  lemma ListedAddUp(t: Tree, t': Tree, main: Visit, failed: seq<Visit>, w: Weight)
    requires SumsUp(t, t', main, failed, w) && !w.Asset? && VisitWeights(failed, w) >= 0
    requires VisitWeights(failed, w) > 0 ==> MadeWeights(t'.kids, |failed|, w) > 0
    requires PickWeights(main.picks, w) >= 0
    requires Weigh(t, w) > 0 || PickWeights(main.picks, w) > 0 ==> Weigh(t', w) > 0
    ensures Sum(t, w) > 0 ==> Sum(t', w) > 0
    ensures (MadeWeights(t'.kids, |failed|, w) > 0 ==> VisitWeights(failed, w) > 0)
            && (Weigh(t', w) > 0 ==> Weigh(t, w) > 0 || PickWeights(main.picks, w) > 0)
            ==> (Sum(t', w) > 0 ==> Sum(t, w) > 0)
  {
    OthersNonNegative(t'.kids, |failed|, w);
  }

  lemma AccountsAddUp(t: Tree, t': Tree, main: Visit, failed: seq<Visit>, a: AccountID)
    requires SumsUp(t, t', main, failed, Naming(a))
    requires Gathers(t'.rec, t.rec, main.picks) && AllGather(t'.kids, failed)
    ensures Sum(t', Naming(a)) > 0 <==> Sum(t, Naming(a)) > 0
  {
    assert failed[..|failed|] == failed;
    MadeAccount(t'.kids, failed, |failed|, a);
    GatheredAccount(t.rec, t'.rec, main.picks, a);
    ListedAddUp(t, t', main, failed, Naming(a));
  }

  lemma ListingsAddUp(t: Tree, t': Tree, main: Visit, failed: seq<Visit>, a: AccountID, h: Hash)
    requires SumsUp(t, t', main, failed, Listing(a, h))
    requires Gathers(t'.rec, t.rec, main.picks) && AllGather(t'.kids, failed)
    ensures Sum(t, Listing(a, h)) > 0 ==> Sum(t', Listing(a, h)) > 0
  {
    var w := Listing(a, h);
    assert failed[..|failed|] == failed;
    MadeBoth(t'.kids, failed, |failed|, a, h);
    PickWeightsNonNegative(main.picks, w);
    if Weigh(t, w) > 0 || PickWeights(main.picks, w) > 0 { GatheredBoth(t.rec, t'.rec, main.picks, a, h); }
    ListedAddUp(t, t', main, failed, w);
  }

  /** A Stonfi merge lists exactly the accounts that were listed before. */
  lemma {:induction false} StonfiKeepsAccounts(t: Tree, t': Tree, main: Visit, failed: seq<Visit>, a: AccountID)
    requires IsStonfiMerge(t, t', main, failed) && Distinct(t) && NoMarks(t)
    ensures Sum(t', Naming(a)) > 0 <==> Sum(t, Naming(a)) > 0
  {
    StonfiSum(t, t', main, failed, Naming(a));
    StonfiGathers(t, t', main, failed);
    AccountsAddUp(t, t', main, failed, a);
  }

  lemma {:induction false} StonfiKeepsListings(t: Tree, t': Tree, main: Visit, failed: seq<Visit>, a: AccountID,
                                               h: Hash)
    requires IsStonfiMerge(t, t', main, failed) && Distinct(t) && NoMarks(t)
    ensures Sum(t, Listing(a, h)) > 0 ==> Sum(t', Listing(a, h)) > 0
  {
    StonfiSum(t, t', main, failed, Listing(a, h));
    StonfiGathers(t, t', main, failed);
    ListingsAddUp(t, t', main, failed, a, h);
  }

  lemma {:induction false} AccountsIntoHas(base: seq<AccountID>, picks: seq<Tree>, a: AccountID)
    ensures a in AccountsInto(base, picks) <==> a in base || PickWeights(picks, Naming(a)) > 0
    ensures PickWeights(picks, Naming(a)) >= 0
  {
    if picks != [] { AccountsIntoHas(base, picks[..|picks| - 1], a); }
  }

  /** A Dedust merge lists exactly the accounts that were listed before. */
  lemma {:induction false} DedustKeepsAccounts(t: Tree, a: AccountID)
    requires PlanOf(t).Some? && !TakesPayoutTwice(t) && Distinct(t) && NoMarks(t)
    ensures Sum(DedustTree(t), Naming(a)) > 0 <==> Sum(t, Naming(a)) > 0
  {
    DedustSum(t, Naming(a));
    AccountsIntoHas(t.rec.accounts, PlanOf(t).value.toMerge, a);
    SumAllNonNegative(DedustTree(t).kids, Naming(a));
  }

  lemma {:induction false} DedustKeepsListings(t: Tree, a: AccountID, h: Hash)
    requires PlanOf(t).Some? && !TakesPayoutTwice(t) && Distinct(t) && NoMarks(t)
    ensures Sum(t, Listing(a, h)) > 0 ==> Sum(DedustTree(t), Listing(a, h)) > 0
  {
    var picks := PlanOf(t).value.toMerge;
    DedustSum(t, Listing(a, h));
    AccountsIntoHas(t.rec.accounts, picks, a);
    TransactionsIntoHas(t.rec.transaction, picks, h);
    SumAllNonNegative(DedustTree(t).kids, Listing(a, h));
    if PickWeights(picks, Listing(a, h)) > 0 { PickedBoth(picks, a, h); }
  }
}
