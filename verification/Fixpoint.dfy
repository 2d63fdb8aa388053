/** Running mergers over a tree until none applies (pkg/bath/bath.go), on the tree a bubble represents. */
module Fixpoint {
  import opened Wrappers
  import opened Ledger
  import opened Bubbles
  import opened Patterns
  import opened Clusters
  import opened Merges
  import opened StonfiRoutes
  import opened StonfiMerges
  import opened DedustRoutes
  import opened DedustMerges
  import opened Listings

  datatype Merger = Generic(p: Pattern) | UniversalStonfi | UniversalDedust

  /** The merger takes the bubble at the root of `t`. */
  predicate Applies(m: Merger, t: Tree) {
    match m
    case Generic(p) => Match(p.straw, t).Some?
    case UniversalStonfi => Hops(t) != [] && PaysTheUser(Hops(t))
    case UniversalDedust => PlanOf(t).Some?
  }

  /** It takes it without a failing builder and without taking a bubble twice. */
  predicate Cleanly(m: Merger, t: Tree)
    requires Applies(m, t)
  {
    match m
    case Generic(p) => Collapse(p, t).Some?
    case UniversalStonfi => true
    case UniversalDedust => !TakesPayoutTwice(t)
  }

  /** The orders in which a Stonfi merge visits the bubbles it takes; other mergers have none to choose. */
  datatype Orders = Orders(main: Visit, failed: seq<Visit>)

  ghost predicate MergedAt(m: Merger, t: Tree, t': Tree, o: Orders) {
    Applies(m, t) && Cleanly(m, t) &&
    match m
    case Generic(p) => IsMergeOf(p, t, t')
    case UniversalStonfi => IsStonfiMerge(t, t', o.main, o.failed)
    case UniversalDedust => t' == DedustTree(t)
  }

  /** No bubble of the tree is taken. */
  ghost predicate Idle(m: Merger, t: Tree) {
    forall n | n in Nodes(t) :: !Applies(m, n)
  }

  /** One success: the first bubble in pre-order that the merger takes is merged, all else stays in place. */
  ghost predicate Rewrites(m: Merger, t: Tree, t': Tree, o: Orders) {
    if Applies(m, t) then MergedAt(m, t, t', o) else
    && t'.id == t.id && t'.cell == t.cell && t'.rec == t.rec
    && exists i | 0 <= i < |t.kids| && i < |t'.kids| ::
         && t'.kids == t.kids[i := t'.kids[i]] && Rewrites(m, t.kids[i], t'.kids[i], o)
         && forall j | 0 <= j < i :: Idle(m, t.kids[j])
  }

  /** The first bubble in pre-order that the merger takes is `at`, and it does not take it cleanly. */
  ghost predicate StraysAt(m: Merger, t: Tree, at: Tree) {
    if Applies(m, t) then at == t && !Cleanly(m, t) else
    exists i | 0 <= i < |t.kids| ::
      StraysAt(m, t.kids[i], at) && forall j | 0 <= j < i :: Idle(m, t.kids[j])
  }

  lemma {:induction false} StraysInside(m: Merger, t: Tree, at: Tree)
    requires StraysAt(m, t, at)
    ensures at in Nodes(t) && Applies(m, at) && !Cleanly(m, at)
  {
    if !Applies(m, t) {
      var i :| 0 <= i < |t.kids| && StraysAt(m, t.kids[i], at);
      StraysInside(m, t.kids[i], at);
      KidUnder(t, t.kids[i]);
    }
  }

  // ----- straws that make progress -----

  /** The least number of bubbles a match of `s` maps. */
  function MinHits(s: Straw): nat
    decreases s, |s.children| + 2
  {
    (if s.notMerge then 0 else 1) + MinHitsAll(s, KidStraws(s))
  }

  function MinHitsAll(s: Straw, ss: seq<Straw>): nat
    requires forall i | 0 <= i < |ss| :: ss[i] < s
    decreases s, |ss|
  {
    if ss == [] then 0 else (if ss[0].optional then 0 else MinHits(ss[0])) + MinHitsAll(s, ss[1..])
  }

  /** The straw and all straws below it have this property. */
  ghost predicate Throughout(s: Straw, has: Straw -> bool)
    decreases s
  {
    has(s) && var ss := KidStraws(s); forall i | 0 <= i < |ss| :: Throughout(ss[i], has)
  }

  /** The builder rewrites the fields of one type of info. */
  ghost predicate TypedAt(s: Straw, k: Kind) {
    s.builder.Some? ==> forall info, v | Passes(s, v) && KindOf(info) == k && s.builder.value(info, v).Built? ::
      KindOf(s.builder.value(info, v).info) == k
  }

  ghost predicate Typed(s: Straw, k: Kind) {
    Throughout(s, x => TypedAt(x, k))
  }

  /** The checks rule out a bubble that already has the type of info that is built. */
  ghost predicate ChangesKind(p: Pattern) {
    !p.straw.notMerge && forall v | Passes(p.straw, v) :: KindOf(v.info) != KindOf(p.zero)
  }

  /** The matcher can search for it, and no straw that leaves its bubble in place sits directly under another one. */
  ghost predicate InScope(m: Merger) {
    m.Generic? ==> WellFormed(m.p.straw) && NoNested(m.p.straw)
  }

  ghost predicate MakesProgress(m: Merger) {
    InScope(m) && (
    m.Generic? ==>
      (MinHits(m.p.straw) >= 2 || (ChangesKind(m.p) && Typed(m.p.straw, KindOf(m.p.zero)))))
  }

  /** What gets smaller with every success. */
  ghost function MeasureOf(m: Merger): Weight {
    match m
    case Generic(p) => if MinHits(p.straw) >= 2 then Every else NotOf(KindOf(p.zero))
    case UniversalStonfi => NotOf(SwapKind)
    case UniversalDedust => NotOf(SwapKind)
  }

  ghost function Measure(m: Merger, t: Tree): nat {
    SumNonNegative(t, MeasureOf(m));
    Sum(t, MeasureOf(m))
  }

  lemma {:induction false} EnoughHits(s: Straw, t: Tree)
    requires Match(s, t).Some?
    ensures |Match(s, t).value| >= MinHits(s)
    decreases t, 2, 0
  {
    EnoughKidHits(s, KidStraws(s), t, NoneTaken(t));
  }

  lemma {:induction false} EnoughKidHits(s: Straw, ss: seq<Straw>, t: Tree, taken: seq<bool>)
    requires |taken| == |t.kids| && MatchKids(ss, t, taken).Some?
    requires forall i | 0 <= i < |ss| :: ss[i] < s
    ensures |MatchKids(ss, t, taken).value| >= MinHitsAll(s, ss)
    decreases t, 1, |ss|
  {
    if ss != [] {
      var i := Find(ss[0], t, taken, 0);
      if i == |t.kids| {
        EnoughKidHits(s, ss[1..], t, taken);
      } else {
        EnoughKidHits(s, ss[1..], t, taken[i := true]);
        EnoughHits(ss[0], t.kids[i]);
      }
    }
  }

  lemma {:induction false} EveryHit(picks: seq<Tree>)
    ensures PickWeights(picks, Every) == |picks|
  {
    if picks != [] { EveryHit(picks[..|picks| - 1]); }
  }

  /** Every straw of a mapping is the root straw or one below it. */
  lemma {:induction false} ThroughoutHits(s: Straw, t: Tree, has: Straw -> bool, h: Hit)
    requires Match(s, t).Some? && Throughout(s, has) && h in Match(s, t).value
    ensures has(h.s)
    decreases t, 2, 0
  {
    if h in MatchKids(KidStraws(s), t, NoneTaken(t)).value {
      ThroughoutKidHits(KidStraws(s), t, NoneTaken(t), has, h);
    }
  }

  lemma {:induction false} ThroughoutKidHits(ss: seq<Straw>, t: Tree, taken: seq<bool>, has: Straw -> bool, h: Hit)
    requires |taken| == |t.kids| && MatchKids(ss, t, taken).Some? && h in MatchKids(ss, t, taken).value
    requires forall i | 0 <= i < |ss| :: Throughout(ss[i], has)
    ensures has(h.s)
    decreases t, 1, |ss|
  {
    var i := Find(ss[0], t, taken, 0);
    if i == |t.kids| {
      ThroughoutKidHits(ss[1..], t, taken, has, h);
    } else if h in Match(ss[0], t.kids[i]).value {
      ThroughoutHits(ss[0], t.kids[i], has, h);
    } else {
      ThroughoutKidHits(ss[1..], t, taken[i := true], has, h);
    }
  }

  lemma {:induction false} TakenKind(hits: seq<Hit>, d: Draft, ids: set<Bubble>, k: Kind)
    requires TakeAll(hits, d, ids).Some? && KindOf(d.info) == k
    requires forall h | h in hits :: TypedAt(h.s, k) && Passes(h.s, ViewOf(h.b))
    ensures KindOf(TakeAll(hits, d, ids).value.info) == k
  {
    if hits != [] {
      var last := |hits| - 1;
      TakenKind(hits[..last], TakeHit(d, hits[last], ids), ids, k);
    }
  }

  lemma {:induction false} GenericProgress(p: Pattern, t: Tree, t': Tree)
    requires MakesProgress(Generic(p)) && IsMergeOf(p, t, t') && Distinct(t) && NoMarks(t)
    ensures Measure(Generic(p), t') < Measure(Generic(p), t)
  {
    var w, hits := MeasureOf(Generic(p)), Match(p.straw, t).value;
    MergeKeepsOthers(p, t, t', w);
    if MinHits(p.straw) >= 2 {
      EnoughHits(p.straw, t);
      EveryHit(MappedNodes(hits));
    } else {
      var k := KindOf(p.zero);
      forall h | h in hits ensures TypedAt(h.s, k) && Passes(h.s, ViewOf(h.b)) {
        ThroughoutHits(p.straw, t, x => TypedAt(x, k), h);
        MatchHits(p.straw, t, h);
      }
      TakenKind(hits, Begin(p, t), HitIds(hits), k);
      assert Weigh(t', w) == 0;
      assert hits[|hits| - 1] == Hit(p.straw, t);
      assert MappedNodes(hits)[|hits| - 1] == t;
      LastPickCounted(MappedNodes(hits), w);
    }
  }

  lemma LastPickCounted(picks: seq<Tree>, w: Weight)
    requires picks != [] && !w.Asset?
    ensures PickWeights(picks, w) >= Weigh(picks[|picks| - 1], w)
  {
    PickWeightsNonNegative(picks[..|picks| - 1], w);
  }

  // ----- what one success keeps -----

  /** What every success keeps: all amounts but a pattern's own jetton change, the set of transactions, and for each
      account the transactions that are listed together with it. */
  ghost predicate Keeps(m: Merger, t: Tree, t': Tree) {
    && (forall x: Ledger.Asset | !x.Jettons? || !m.Generic? :: Sum(t', Asset(x)) == Sum(t, Asset(x)))
    && (forall h: Hash :: Sum(t', Holding(h)) > 0 <==> Sum(t, Holding(h)) > 0)
    && KeepsListings(t, t')
  }

  ghost predicate KeepsListings(t: Tree, t': Tree) {
    forall a, h :: Sum(t, Listing(a, h)) > 0 ==> Sum(t', Listing(a, h)) > 0
  }

  lemma MergedAtKeepsListings(m: Merger, t: Tree, t': Tree, o: Orders)
    requires MakesProgress(m) && MergedAt(m, t, t', o) && Distinct(t) && NoMarks(t)
    ensures KeepsListings(t, t')
  {
    forall a, h ensures Sum(t, Listing(a, h)) > 0 ==> Sum(t', Listing(a, h)) > 0 {
      match m
      case Generic(p) => MergeKeepsListings(p, t, t', a, h);
      case UniversalStonfi => StonfiKeepsListings(t, t', o.main, o.failed, a, h);
      case UniversalDedust => DedustKeepsListings(t, a, h);
    }
  }

  lemma SameListings(t: Tree, i: nat, k: Tree)
    requires i < |t.kids| && KeepsListings(t.kids[i], k)
    ensures KeepsListings(t, t.(kids := t.kids[i := k]))
  {
    var t' := t.(kids := t.kids[i := k]);
    forall a, h ensures Sum(t, Listing(a, h)) > 0 ==> Sum(t', Listing(a, h)) > 0 {
      var w := Listing(a, h);
      KidSum(t, i, k, w);
      SumNonNegative(k, w);
      SumNonNegative(t.kids[i], w);
      KidAtMost(t, i, w);
      KidAtMost(t', i, w);
    }
  }

  lemma {:induction false} MergedAtKeeps(m: Merger, t: Tree, t': Tree, o: Orders)
    requires MakesProgress(m) && MergedAt(m, t, t', o) && Distinct(t) && NoMarks(t)
    ensures Keeps(m, t, t') && Measure(m, t') < Measure(m, t)
  {
    MergedAtKeepsListings(m, t, t', o);
    match m
    case Generic(p) =>
      forall x: Ledger.Asset | !x.Jettons? ensures Sum(t', Asset(x)) == Sum(t, Asset(x)) {
        MergeKeepsFlow(p, t, t', x);
      }
      forall h: Hash ensures Sum(t', Holding(h)) > 0 <==> Sum(t, Holding(h)) > 0 { MergeKeepsHashes(p, t, t', h); }
      GenericProgress(p, t, t');
    case UniversalStonfi =>
      forall x ensures Sum(t', Asset(x)) == Sum(t, Asset(x)) { StonfiKeepsFlow(t, t', o.main, o.failed, x); }
      forall h ensures Sum(t', Holding(h)) > 0 <==> Sum(t, Holding(h)) > 0 {
        StonfiKeepsHashes(t, t', o.main, o.failed, h);
      }
      StonfiProgress(t, t', o.main, o.failed);
    case UniversalDedust =>
      forall x ensures Sum(t', Asset(x)) == Sum(t, Asset(x)) { DedustFlow(t, x); }
      forall h ensures Sum(t', Holding(h)) > 0 <==> Sum(t, Holding(h)) > 0 { DedustKeepsHashes(t, h); }
      DedustProgress(t);
  }

  /** One success in place of a child changes the sums of the whole tree as it changes those of the child. */
  lemma KidSum(t: Tree, i: nat, k: Tree, w: Weight)
    requires i < |t.kids|
    ensures Sum(t.(kids := t.kids[i := k]), w) == Sum(t, w) - Sum(t.kids[i], w) + Sum(k, w)
  {
    SumAllUpdate(t.kids, i, k, w);
  }

  lemma KidKept(m: Merger, t: Tree, i: nat, k: Tree)
    requires i < |t.kids| && Keeps(m, t.kids[i], k) && Measure(m, k) < Measure(m, t.kids[i])
    ensures var t' := t.(kids := t.kids[i := k]); Keeps(m, t, t') && Measure(m, t') < Measure(m, t)
  {
    var t' := t.(kids := t.kids[i := k]);
    forall x: Ledger.Asset | !x.Jettons? || !m.Generic? ensures Sum(t', Asset(x)) == Sum(t, Asset(x)) {
      KidSum(t, i, k, Asset(x));
    }
    forall h: Hash ensures Sum(t', Holding(h)) > 0 <==> Sum(t, Holding(h)) > 0 {
      SameHash(t, i, k, h);
    }
    SameListings(t, i, k);
    KidSum(t, i, k, MeasureOf(m));
  }

  lemma SameHash(t: Tree, i: nat, k: Tree, h: Hash)
    requires i < |t.kids| && (Sum(k, Holding(h)) > 0 <==> Sum(t.kids[i], Holding(h)) > 0)
    ensures Sum(t.(kids := t.kids[i := k]), Holding(h)) > 0 <==> Sum(t, Holding(h)) > 0
  {
    var w := Holding(h);
    KidSum(t, i, k, w);
    SumNonNegative(k, w);
    SumNonNegative(t.kids[i], w);
    KidAtMost(t, i, w);
    KidAtMost(t.(kids := t.kids[i := k]), i, w);
  }

  lemma KidAtMost(t: Tree, i: nat, w: Weight)
    requires i < |t.kids| && !w.Asset?
    ensures Sum(t.kids[i], w) <= Sum(t, w)
  {
    SumAllCut(t.kids, i, w);
    SumAllNonNegative(t.kids[..i], w);
    SumAllNonNegative(t.kids[i + 1..], w);
    assert t.kids[i..][0] == t.kids[i] && t.kids[i..][1..] == t.kids[i + 1..];
  }

  lemma {:induction false} RewritesKeeps(m: Merger, t: Tree, t': Tree, o: Orders)
    requires MakesProgress(m) && Rewrites(m, t, t', o) && Distinct(t) && NoMarks(t)
    ensures Keeps(m, t, t') && Measure(m, t') < Measure(m, t)
    decreases t
  {
    if Applies(m, t) {
      MergedAtKeeps(m, t, t', o);
    } else {
      var i :| 0 <= i < |t.kids| && i < |t'.kids|
        && t'.kids == t.kids[i := t'.kids[i]] && Rewrites(m, t.kids[i], t'.kids[i], o);
      KidUnder(t, t.kids[i]);
      RewritesKeeps(m, t.kids[i], t'.kids[i], o);
      KidKept(m, t, i, t'.kids[i]);
      assert t' == t.(kids := t.kids[i := t'.kids[i]]);
    }
  }

  // ----- whole runs -----

  /** The trees one merger makes, from the first to the last. */
  datatype Run = Run(trees: seq<Tree>, orders: seq<Orders>) {
    function First(): Tree requires trees != [] { trees[0] }
    function Last(): Tree requires trees != [] { trees[|trees| - 1] }
  }

  /** Each tree leads to the next one, and has one property. */
  ghost predicate Chain(run: Run, leads: (Tree, Tree, Orders) -> bool, has: Tree -> bool) {
    && |run.trees| == |run.orders| + 1
    && (forall i | 0 <= i < |run.trees| :: has(run.trees[i]))
    && forall i | 0 <= i < |run.orders| :: leads(run.trees[i], run.trees[i + 1], run.orders[i])
  }

  ghost function Success(m: Merger): (Tree, Tree, Orders) -> bool {
    (t: Tree, t': Tree, o: Orders) => Rewrites(m, t, t', o)
  }

  ghost predicate IsTree(t: Tree) {
    Distinct(t) && NoMarks(t)
  }

  ghost predicate IsRun(m: Merger, run: Run) {
    Chain(run, Success(m), IsTree)
  }

  lemma ChainOn(run: Run, leads: (Tree, Tree, Orders) -> bool, has: Tree -> bool, t': Tree, o: Orders)
    requires Chain(run, leads, has) && leads(run.Last(), t', o) && has(t')
    ensures Chain(Run(run.trees + [t'], run.orders + [o]), leads, has)
  {
  }

  lemma RunInit(m: Merger, run: Run)
    requires IsRun(m, run) && run.orders != []
    ensures var last := |run.orders| - 1;
            var before := Run(run.trees[..last + 1], run.orders[..last]);
            IsRun(m, before) && before.First() == run.First() && before.Last() == run.trees[last]
  {
    var last := |run.orders| - 1;
    var before := Run(run.trees[..last + 1], run.orders[..last]);
    assert forall i | 0 <= i < |before.trees| :: before.trees[i] == run.trees[i];
    assert forall i | 0 <= i < |before.orders| :: before.orders[i] == run.orders[i];
  }

  lemma KeepsOn(m: Merger, a: Tree, b: Tree, c: Tree)
    requires Keeps(m, a, b) && Keeps(m, b, c)
    ensures Keeps(m, a, c)
  {
    forall x: Ledger.Asset | !x.Jettons? || !m.Generic? ensures Sum(c, Asset(x)) == Sum(a, Asset(x)) {
      assert Sum(b, Asset(x)) == Sum(a, Asset(x));
    }
  }

  lemma KeepsSelf(m: Merger, t: Tree)
    ensures Keeps(m, t, t)
  {
  }

  lemma SuccessKeeps(m: Merger, t: Tree, t': Tree, o: Orders)
    requires MakesProgress(m) && Success(m)(t, t', o) && IsTree(t)
    ensures Keeps(m, t, t') && Measure(m, t') < Measure(m, t)
  {
    RewritesKeeps(m, t, t', o);
  }

  /** A merger succeeds at most as often as its measure of the first tree says. */
  lemma {:induction false} RunIsShort(m: Merger, run: Run)
    requires MakesProgress(m) && IsRun(m, run)
    ensures Keeps(m, run.First(), run.Last())
    ensures |run.orders| <= Measure(m, run.First()) - Measure(m, run.Last())
    decreases |run.orders|
  {
    if run.orders != [] {
      var last := |run.orders| - 1;
      RunInit(m, run);
      RunIsShort(m, Run(run.trees[..last + 1], run.orders[..last]));
      SuccessKeeps(m, run.trees[last], run.trees[last + 1], run.orders[last]);
      KeepsOn(m, run.First(), run.trees[last], run.Last());
    } else {
      KeepsSelf(m, run.First());
    }
  }

  /** Every merger of the list has run to its end, one after the other. */
  ghost predicate Settles(straws: seq<Merger>, t: Tree, runs: seq<Run>, t': Tree) {
    |straws| == |runs| &&
    if straws == [] then t' == t else
    var last := |straws| - 1;
    && IsRun(straws[last], runs[last]) && runs[last].Last() == t' && Idle(straws[last], t')
    && Settles(straws[..last], t, runs[..last], runs[last].First())
  }

  /** The mergers before the last run have run to their ends, and the last one strays on the tree it has reached. */
  ghost predicate Strays(straws: seq<Merger>, t: Tree, runs: seq<Run>, at: Tree) {
    0 < |runs| <= |straws| &&
    var i := |runs| - 1;
    && IsRun(straws[i], runs[i]) && Settles(straws[..i], t, runs[..i], runs[i].First())
    && StraysAt(straws[i], runs[i].Last(), at)
  }

  /** Wherever the merger applies in this tree, it does so without a failing builder and without a duplicate. */
  ghost predicate CleanIn(m: Merger, t: Tree) {
    forall n | n in Nodes(t) && Applies(m, n) :: Cleanly(m, n)
  }

  /** A run strays only where a tree it has reached breaks the premises. */
  lemma {:induction false} StraysOnlyIfUnclean(straws: seq<Merger>, t: Tree, runs: seq<Run>, at: Tree)
    requires Strays(straws, t, runs, at)
    ensures var i := |runs| - 1; at in Nodes(runs[i].Last()) && !CleanIn(straws[i], runs[i].Last())
  {
    StraysInside(straws[|runs| - 1], runs[|runs| - 1].Last(), at);
  }

  /** Whatever the straws, only jetton amounts may differ at the end, no transaction is lost or made up, and each is
      still listed with every account it was listed with. */
  lemma {:induction false} SettledKeeps(straws: seq<Merger>, t: Tree, runs: seq<Run>, t': Tree)
    requires Settles(straws, t, runs, t') && forall m | m in straws :: MakesProgress(m)
    ensures forall x: Ledger.Asset | !x.Jettons? || forall m | m in straws :: !m.Generic? ::
              Sum(t', Asset(x)) == Sum(t, Asset(x))
    ensures forall h: Hash :: Sum(t', Holding(h)) > 0 <==> Sum(t, Holding(h)) > 0
    ensures KeepsListings(t, t')
  {
    if straws != [] {
      var last := |straws| - 1;
      SettledKeeps(straws[..last], t, runs[..last], runs[last].First());
      RunIsShort(straws[last], runs[last]);
    }
  }

  // ----- when nothing can go wrong -----

  ghost predicate SucceedsAt(s: Straw) {
    s.builder.Some? ==> forall info, v | Passes(s, v) :: s.builder.value(info, v).Built?
  }

  ghost predicate BuildersSucceed(s: Straw) {
    Throughout(s, SucceedsAt)
  }

  lemma {:induction false} AllTaken(hits: seq<Hit>, d: Draft, ids: set<Bubble>)
    requires forall h | h in hits :: SucceedsAt(h.s) && Passes(h.s, ViewOf(h.b))
    ensures TakeAll(hits, d, ids).Some?
  {
    if hits != [] {
      var last := |hits| - 1;
      AllTaken(hits[..last], TakeHit(d, hits[last], ids), ids);
    }
  }

  /** If every builder accepts what its checks let through, no match is abandoned half way. */
  lemma {:induction false} NeverStuck(p: Pattern, t: Tree)
    requires BuildersSucceed(p.straw) && Match(p.straw, t).Some?
    ensures Collapse(p, t).Some?
  {
    var hits := Match(p.straw, t).value;
    forall h | h in hits ensures SucceedsAt(h.s) && Passes(h.s, ViewOf(h.b)) {
      ThroughoutHits(p.straw, t, SucceedsAt, h);
      MatchHits(p.straw, t, h);
    }
    AllTaken(hits, Begin(p, t), HitIds(hits));
  }

  /** A straw that takes every bubble and keeps its info. */
  ghost predicate TakesAnything(p: Pattern) {
    && p.straw.checks == [] && p.straw.single.None? && p.straw.children == [] && !p.straw.notMerge
    && p.straw.builder.Some? && forall info, v :: p.straw.builder.value(info, v) == Built(v.info, [])
  }

  lemma AnythingMatches(p: Pattern, t: Tree)
    requires p.straw.checks == [] && p.straw.single.None? && p.straw.children == [] && !p.straw.notMerge
             && !t.rec.merged
    ensures Match(p.straw, t) == Some([Hit(p.straw, t)])
  {
    assert KidStraws(p.straw) == [];
    assert [] + [Hit(p.straw, t)] == [Hit(p.straw, t)];
  }

  /** Without progress there is no end: it succeeds on every tree it leaves, and leaves the root's info as it was. */
  lemma NoProgressNoEnd(p: Pattern, t: Tree, t': Tree, o: Orders)
    requires TakesAnything(p) && NoMarks(t) && Rewrites(Generic(p), t, t', o)
    ensures Applies(Generic(p), t') && t'.rec.info == t.rec.info
  {
    assert t in Nodes(t);
    AnythingMatches(p, t);
    assert IsMergeOf(p, t, t');
    var d := Begin(p, t);
    var hits := [Hit(p.straw, t)];
    assert BuildHit(hits[0], d.info) == Built(t.rec.info, []);
    var taken := TakeHit(d, hits[0], HitIds(hits));
    assert TakeAll(hits, d, HitIds(hits)) == TakeAll(hits[..0], taken, HitIds(hits)) == Some(taken);
    assert !t'.rec.merged;
    AnythingMatches(p, t');
  }
}
