/** No stored zeros and no dependence on orders: the flows of the engine from the trace to the collected flow
    (pkg/bath/value_flow.go). */
module NoZeros {
  import opened Ledger
  import opened Bubbles
  import opened Patterns
  import opened Clusters
  import opened Merges
  import opened Gathering
  import opened StonfiRoutes
  import opened StonfiMerges
  import opened DedustRoutes
  import opened Fixpoint
  import opened Traces
  import opened TraceTrees
  import opened Collecting
  import opened Wrappers
  import DedustMerger

  /** No bubble of the tree stores a zero jetton change. */
  ghost predicate NoZeros(t: Tree) {
    forall n | n in Nodes(t) :: NoZeroJettons(n.rec.flow)
  }

  lemma {:induction false} FlowIntoNoZero(flow: Accounts, picks: seq<Tree>)
    requires NoZeroJettons(flow) && forall n | n in picks :: NoZeroJettons(n.rec.flow)
    ensures NoZeroJettons(FlowInto(flow, picks))
  {
    if picks != [] {
      var last := |picks| - 1;
      FlowIntoNoZero(flow, picks[..last]);
      MergedNoZero(FlowInto(flow, picks[..last]), picks[last].rec.flow);
    }
  }

  // ----- the tree of a trace -----

  lemma {:induction false} DepictsNoZeros(t: Tree, trace: Trace, parent: Option<Trace>)
    requires Depicts(t, trace, parent)
    ensures NoZeros(t)
    decreases trace
  {
    var order :| InOrder(order, trace.children) && DepictsKids(t.kids, order, trace);
    forall i | 0 <= i < |t.kids| ensures NoZeros(t.kids[i]) {
      if i < |order| {
        InChildren(order, i, trace);
        DepictsNoZeros(t.kids[i], order[i], Some(trace));
      } else {
        BareNoZeros(t.kids[|order|..], trace, i - |order|);
      }
    }
    KidsNoZeros(t);
  }

  lemma KidsNoZeros(t: Tree)
    requires NoZeroJettons(t.rec.flow) && forall i | 0 <= i < |t.kids| :: NoZeros(t.kids[i])
    ensures NoZeros(t)
  {
    assert forall k | k in t.kids :: NoZeros(k);
  }

  lemma BareNoZeros(ks: seq<Tree>, trace: Trace, i: nat)
    requires AreLeaves(ks, BareRecs(trace)) && i < |ks|
    ensures NoZeros(ks[i])
  {
    BareRecsAre(trace);
    assert BareRecs(trace)[i] in BareRecs(trace);
    assert Nodes(ks[i]) == {ks[i]};
  }

  // ----- one success of a merger -----

  lemma {:induction false} TakenNoZero(hits: seq<Hit>, d: Draft, ids: set<Bubble>)
    requires TakeAll(hits, d, ids).Some? && NoZeroJettons(d.flow)
    requires forall h | h in hits :: NoZeroJettons(h.b.rec.flow)
    ensures NoZeroJettons(TakeAll(hits, d, ids).value.flow)
  {
    if hits != [] {
      var last := |hits| - 1;
      MergedNoZero(d.flow, hits[last].b.rec.flow);
      TakenNoZero(hits[..last], TakeHit(d, hits[last], ids), ids);
    }
  }

  lemma {:induction false} ChangedNoZero(flow: Accounts, changes: seq<JettonChange>)
    requires NoZeroJettons(flow)
    ensures NoZeroJettons(Changed(flow, changes))
    decreases |changes|
  {
    if changes != [] {
      var c := changes[0];
      AddedJettonsNoZero(flow, c.account, c.master, c.amount);
      ChangedNoZero(AddedJettons(flow, c.account, c.master, c.amount), changes[1..]);
    }
  }

  lemma {:induction false} GenericNoZeros(p: Pattern, t: Tree, t': Tree)
    requires IsMergeOf(p, t, t') && Distinct(t) && NoZeros(t)
    ensures NoZeros(t')
  {
    var hits := Match(p.straw, t).value;
    ProductNoZeros(p, t);
    PotentialIn(p, t);
    forall i | 0 <= i < |t'.kids| ensures NoZeros(t'.kids[i]) {
      var q := Potential(p, t)[i];
      assert q in Potential(p, t);
      CopyNoZeros(t, q, HitIds(hits), t'.kids[i]);
    }
  }

  lemma ProductNoZeros(p: Pattern, t: Tree)
    requires Match(p.straw, t).Some? && Collapse(p, t).Some? && NoZeros(t)
    ensures NoZeroJettons(Collapse(p, t).value.rec.flow)
  {
    var hits := Match(p.straw, t).value;
    forall h | h in hits ensures NoZeroJettons(h.b.rec.flow) { MatchHits(p.straw, t, h); }
    assert t in Nodes(t);
    TakenNoZero(hits, Begin(p, t), HitIds(hits));
    ChangedNoZero(TakeAll(hits, Begin(p, t), HitIds(hits)).value.flow, Collapse(p, t).value.changes);
  }

  lemma CopyNoZeros(t: Tree, q: Tree, ids: set<Bubble>, copy: Tree)
    requires NoZeros(t) && q in Nodes(t) && copy.rec == q.rec && copy.kids == Strip(q, ids).kids
    ensures NoZeros(copy)
  {
    forall k | k in copy.kids ensures NoZeros(k) {
      UnmarkedIn(q.kids, ids, k);
      KidUnder(q, k);
      NodesUnder(t, q);
    }
  }

  lemma SubtreeNoZeros(t: Tree, k: Tree)
    requires NoZeros(t) && k in Nodes(t)
    ensures NoZeros(k)
  {
    NodesUnder(t, k);
  }

  lemma RescuedNoZeros(t: Tree, order: seq<Tree>, ids: set<Bubble>)
    requires NoZeros(t) && Distinct(t) && forall n | n in order :: n in Nodes(t)
    ensures forall k | k in Rescue(order, ids) :: NoZeros(k)
  {
    forall k | k in Rescue(order, ids) ensures NoZeros(k) {
      RescueIn(t, order, ids, k);
      SubtreeNoZeros(t, k);
    }
  }

  lemma FailedHopNoZeros(t: Tree, hops: seq<Hop>, n: Tree, i: nat, v: Visit)
    requires i < |hops| && IsFailedHop(t, hops, n, i, v) && NoZeros(t) && Distinct(t)
    ensures NoZeros(n)
  {
    FlowIntoNoZero(map[], v.picks);
    RescuedNoZeros(t, v.order, UsedBy(hops));
    assert forall k | k in n.kids :: NoZeros(k);
  }

  lemma {:induction false} SwapNoZeros(t: Tree, hops: seq<Hop>, t': Tree, main: Visit, failed: seq<Visit>)
    requires hops != [] && IsSwapOf(t, hops, t', main, failed) && NoZeros(t) && Distinct(t)
    ensures NoZeros(t')
  {
    assert t in Nodes(t);
    FlowIntoNoZero(t.rec.flow, main.picks);
    RescuedNoZeros(t, main.order, UsedBy(hops));
    var n := |failed|;
    forall j | 0 <= j < |t'.kids| ensures NoZeros(t'.kids[j]) {
      if j < n {
        FailedHopNoZeros(t, hops, t'.kids[j], n - 1 - j, failed[j]);
      } else {
        assert t'.kids[j] == t'.kids[n..][j - n] && t'.kids[n..][j - n] in t'.kids[n..];
      }
    }
    assert forall k | k in t'.kids :: NoZeros(k);
  }

  lemma {:induction false} DedustNoZeros(t: Tree)
    requires PlanOf(t).Some? && NoZeros(t) && Distinct(t)
    ensures NoZeros(DedustTree(t))
  {
    assert t in Nodes(t);
    forall n | n in PlanOf(t).value.toMerge ensures NoZeroJettons(n.rec.flow) { DedustMerger.MergedBelow(t, n); }
    FlowIntoNoZero(t.rec.flow, PlanOf(t).value.toMerge);
    forall n | n in Nodes(DedustTree(t)) ensures NoZeroJettons(n.rec.flow) {
      if n != DedustTree(t) { DedustMerger.OldNodes(t, n); }
    }
  }

  lemma {:induction false} MergedAtNoZeros(m: Merger, t: Tree, t': Tree, o: Orders)
    requires MergedAt(m, t, t', o) && Distinct(t) && NoZeros(t)
    ensures NoZeros(t')
  {
    match m
    case Generic(p) => GenericNoZeros(p, t, t');
    case UniversalStonfi => SwapNoZeros(t, Hops(t), t', o.main, o.failed);
    case UniversalDedust => DedustNoZeros(t);
  }

  lemma {:induction false} RewritesNoZeros(m: Merger, t: Tree, t': Tree, o: Orders)
    requires Rewrites(m, t, t', o) && Distinct(t) && NoZeros(t)
    ensures NoZeros(t')
    decreases t
  {
    if Applies(m, t) {
      MergedAtNoZeros(m, t, t', o);
    } else {
      var i :| 0 <= i < |t.kids| && i < |t'.kids|
        && t'.kids == t.kids[i := t'.kids[i]] && Rewrites(m, t.kids[i], t'.kids[i], o);
      KidUnder(t, t.kids[i]);
      RewritesNoZeros(m, t.kids[i], t'.kids[i], o);
      KidReplacedNoZeros(t, t', i);
    }
  }

  lemma KidReplacedNoZeros(t: Tree, t': Tree, i: nat)
    requires i < |t.kids| && i < |t'.kids| && t'.kids == t.kids[i := t'.kids[i]] && t'.rec == t.rec
    requires NoZeros(t) && NoZeros(t'.kids[i])
    ensures NoZeros(t')
  {
    assert t in Nodes(t);
    forall j | 0 <= j < |t'.kids| ensures NoZeros(t'.kids[j]) {
      if j != i { KidUnder(t, t.kids[j]); }
    }
    assert forall k | k in t'.kids :: NoZeros(k);
  }

  // ----- whole runs, and what is collected -----

  lemma SuccessNoZeros(m: Merger, t: Tree, t': Tree, o: Orders)
    requires Success(m)(t, t', o) && IsTree(t) && NoZeros(t)
    ensures NoZeros(t')
  {
    RewritesNoZeros(m, t, t', o);
  }

  lemma {:induction false} RunNoZeros(m: Merger, run: Run)
    requires IsRun(m, run) && NoZeros(run.First())
    ensures NoZeros(run.Last())
    decreases |run.orders|
  {
    if run.orders != [] {
      var last := |run.orders| - 1;
      RunInit(m, run);
      RunNoZeros(m, Run(run.trees[..last + 1], run.orders[..last]));
      SuccessNoZeros(m, run.trees[last], run.trees[last + 1], run.orders[last]);
    }
  }

  /** No flow of the engine ever stores a zero. */
  lemma {:induction false} SettledNoZeros(straws: seq<Merger>, t: Tree, runs: seq<Run>, t': Tree)
    requires Settles(straws, t, runs, t') && NoZeros(t)
    ensures NoZeros(t')
  {
    if straws != [] {
      var last := |straws| - 1;
      SettledNoZeros(straws[..last], t, runs[..last], runs[last].First());
      RunNoZeros(straws[last], runs[last]);
    }
  }

  lemma {:induction false} FlowOfNoZero(t: Tree)
    requires NoZeros(t)
    ensures NoZeroJettons(FlowOf(t))
  {
    assert t in Nodes(t);
    forall k | k in t.kids ensures NoZeros(k) { KidUnder(t, k); }
    FlowOfAllNoZero(t.kids);
    MergedNoZero(FlowOfAll(t.kids), t.rec.flow);
  }

  lemma {:induction false} FlowOfAllNoZero(ts: seq<Tree>)
    requires forall k | k in ts :: NoZeros(k)
    ensures NoZeroJettons(FlowOfAll(ts))
  {
    if ts != [] {
      var last := |ts| - 1;
      FlowOfAllNoZero(ts[..last]);
      FlowOfNoZero(ts[last]);
      MergedNoZero(FlowOfAll(ts[..last]), FlowOf(ts[last]));
    }
  }

  // ----- no dependence on orders -----

  /** The flows of all bubbles, in the order in which they are collected. */
  function FlowsOf(t: Tree): seq<Accounts> {
    FlowsOfAll(t.kids) + [t.rec.flow]
  }

  function FlowsOfAll(ts: seq<Tree>): seq<Accounts> {
    if ts == [] then [] else
    var last := |ts| - 1;
    FlowsOfAll(ts[..last]) + FlowsOf(ts[last])
  }

  ghost predicate AllNoZero(flows: seq<Accounts>) {
    forall m | m in flows :: NoZeroJettons(m)
  }

  lemma {:induction false} FoldedConcat(a: seq<Accounts>, b: seq<Accounts>)
    requires AllNoZero(a) && AllNoZero(b)
    ensures Folded(a + b) == Merged(Folded(a), Folded(b)) && AllNoZero(a + b) && NoZeroJettons(Folded(a + b))
  {
    FoldedNoZero(a);
    FoldedNoZero(b);
    FoldedNoZero(a + b);
    if a == [] {
      assert a + b == b;
      MergedWithNothing(Folded(b));
    } else {
      assert (a + b)[1..] == a[1..] + b;
      FoldedConcat(a[1..], b);
      FoldedNoZero(a[1..]);
      MergedAssociates(a[0], Folded(a[1..]), Folded(b));
    }
  }

  lemma MergedWithNothing(m: Accounts)
    requires NoZeroJettons(m)
    ensures Merged(map[], m) == m
  {
    MergedNoZero(map[], m);
    forall x ensures Amount(Merged(map[], m), x) == Amount(m, x) { MergedAmount(map[], m, x); }
    SameAmounts(Merged(map[], m), m);
  }

  lemma FoldedOne(m: Accounts)
    requires NoZeroJettons(m)
    ensures Folded([m]) == m && AllNoZero([m])
  {
    assert [m][1..] == [];
    MergedCommutes(m, map[]);
    MergedWithNothing(m);
  }

  lemma {:induction false} FlowIsFolded(t: Tree)
    requires NoZeros(t)
    ensures FlowOf(t) == Folded(FlowsOf(t)) && AllNoZero(FlowsOf(t))
  {
    assert t in Nodes(t);
    forall k | k in t.kids ensures NoZeros(k) { KidUnder(t, k); }
    FlowOfAllIsFolded(t.kids);
    FoldedOne(t.rec.flow);
    FoldedConcat(FlowsOfAll(t.kids), [t.rec.flow]);
  }

  lemma {:induction false} FlowOfAllIsFolded(ts: seq<Tree>)
    requires forall k | k in ts :: NoZeros(k)
    ensures FlowOfAll(ts) == Folded(FlowsOfAll(ts)) && AllNoZero(FlowsOfAll(ts))
  {
    if ts != [] {
      var last := |ts| - 1;
      FlowOfAllIsFolded(ts[..last]);
      FlowIsFolded(ts[last]);
      FoldedConcat(FlowsOfAll(ts[..last]), FlowsOf(ts[last]));
    }
  }

  /** The collected flow is that of the bubbles merged in any order. */
  lemma {:induction false} CollectedInAnyOrder(t: Tree, flows: seq<Accounts>)
    requires NoZeros(t) && multiset(flows) == multiset(FlowsOf(t))
    ensures FlowOf(t) == Folded(flows)
  {
    FlowIsFolded(t);
    FoldedInAnyOrder(FlowsOf(t), flows);
  }

  lemma {:induction false} FlowIntoKeys(flow: Accounts, picks: seq<Tree>, a: AccountID)
    ensures a in FlowInto(flow, picks) <==> a in flow || exists n :: n in picks && a in n.rec.flow
  {
    if picks != [] {
      var last := |picks| - 1;
      FlowIntoKeys(flow, picks[..last], a);
      assert picks == picks[..last] + [picks[last]];
    }
  }

  lemma SameMembers(t: Tree, picks: seq<Tree>, order: seq<Tree>, some: set<Bubble>, n: Tree)
    requires Distinct(t) && Enumerates(t, picks, some) && Enumerates(t, order, some) && n in picks
    ensures n in order
  {
    var i :| 0 <= i < |picks| && picks[i] == n;
    assert n.id in PickIds(picks);
    var j :| 0 <= j < |order| && order[j].id == n.id;
    OneNode(t, order[j], n);
  }

  /** Gathering the same bubbles in another order gives the same flow. */
  lemma {:induction false} GatheredInAnyOrder(t: Tree, flow: Accounts, picks: seq<Tree>, order: seq<Tree>,
                                              some: set<Bubble>)
    requires Distinct(t) && NoZeros(t) && NoZeroJettons(flow)
    requires Enumerates(t, picks, some) && Enumerates(t, order, some)
    ensures FlowInto(flow, picks) == FlowInto(flow, order)
  {
    FlowIntoNoZero(flow, picks);
    FlowIntoNoZero(flow, order);
    forall x ensures Amount(FlowInto(flow, picks), x) == Amount(FlowInto(flow, order), x) {
      FlowIntoAmount(flow, picks, x);
      FlowIntoAmount(flow, order, x);
      WeightsInAnyOrder(t, picks, order, some, Asset(x));
    }
    forall a ensures a in FlowInto(flow, picks) <==> a in FlowInto(flow, order) {
      FlowIntoKeys(flow, picks, a);
      FlowIntoKeys(flow, order, a);
      forall n | n in picks ensures n in order { SameMembers(t, picks, order, some, n); }
      forall n | n in order ensures n in picks { SameMembers(t, order, picks, some, n); }
    }
    SameAmounts(FlowInto(flow, picks), FlowInto(flow, order));
  }
}
