/** What a successful merge makes of a matched tree, and what it keeps (pkg/bath/matcher.go). */
module Merges {
  import opened Wrappers
  import opened Ledger
  import opened Bubbles
  import opened Patterns
  import opened Clusters

  /** The new bubble while the mapping is walked from its last element to its first. */
  datatype Draft = Draft(
    info: Info, accounts: seq<AccountID>, transaction: seq<Hash>, flow: Accounts,
    updater: Option<Info -> seq<JettonChange>>, potential: seq<Tree>)

  function Begin(p: Pattern, t: Tree): Draft {
    if p.straw.notMerge then Draft(p.zero, [], [], map[], None, [])
    else Draft(p.zero, t.rec.accounts, t.rec.transaction, map[], None, [])
  }

  function BuildHit(h: Hit, info: Info): Built {
    if h.s.builder.Some? then h.s.builder.value(info, ViewOf(h.b)) else Built(info, [])
  }

  function TakeHit(d: Draft, h: Hit, ids: set<Bubble>): Draft
    requires BuildHit(h, d.info).Built?
  {
    var b := BuildHit(h, d.info);
    Draft(b.info, d.accounts + (h.b.rec.accounts + b.extra), d.transaction + h.b.rec.transaction,
          Merged(d.flow, h.b.rec.flow), if h.s.updater.Some? then h.s.updater else d.updater,
          d.potential + Outside(h.b.kids, ids))
  }

  function TakeAll(hits: seq<Hit>, d: Draft, ids: set<Bubble>): Option<Draft> {
    if hits == [] then Some(d) else
    var last := |hits| - 1;
    if BuildHit(hits[last], d.info).BuildFailed? then None
    else TakeAll(hits[..last], TakeHit(d, hits[last], ids), ids)
  }

  function Changed(flow: Accounts, changes: seq<JettonChange>): Accounts
    decreases |changes|
  {
    if changes == [] then flow else
    var c := changes[0];
    Changed(AddedJettons(flow, c.account, c.master, c.amount), changes[1..])
  }

  function ChangeOf(changes: seq<JettonChange>, x: Ledger.Asset): int {
    if changes == [] then 0 else
    var c := changes[0];
    (if x == Jettons(c.account, c.master) then c.amount else 0) + ChangeOf(changes[1..], x)
  }

  /** The fields of the merged bubble and what hangs below it; `changes` is what the updater did. */
  datatype Product = Product(rec: Rec, kids: seq<Tree>, changes: seq<JettonChange>)

  /** None when a builder fails. */
  function Collapse(p: Pattern, t: Tree): Option<Product>
    requires Match(p.straw, t).Some?
  {
    var hits := Match(p.straw, t).value;
    var ids := set i | 0 <= i < |hits| :: hits[i].b.id;
    match TakeAll(hits, Begin(p, t), ids)
    case None => None
    case Some(d) =>
      var changes := if d.updater.Some? then d.updater.value(d.info) else [];
      Some(Product(
        Rec(d.info, d.accounts, Changed(d.flow, changes), d.transaction, false),
        StripAll(d.potential + (if p.straw.notMerge then [t] else []), ids),
        changes))
  }

  /** `t'` is `t` after a merge: the children are copies, so only their objects are new. */
  ghost predicate IsMergeOf(p: Pattern, t: Tree, t': Tree) {
    && Match(p.straw, t).Some? && Collapse(p, t).Some?
    && var product := Collapse(p, t).value;
    && t'.id == t.id && t'.rec == product.rec
    && |t'.kids| == |product.kids|
    && forall i | 0 <= i < |t'.kids| :: t'.kids[i] == product.kids[i].(id := t'.kids[i].id)
  }

  function HitWeights(hits: seq<Hit>, w: Weight): int {
    PickWeights(MappedNodes(hits), w)
  }

  lemma LastHit(hits: seq<Hit>, ids: set<Bubble>, w: Weight)
    requires hits != []
    ensures var last := |hits| - 1;
            && HitWeights(hits, w) == HitWeights(hits[..last], w) + Weigh(hits[last].b, w)
            && PickSum(MappedNodes(hits), ids, w)
               == PickSum(MappedNodes(hits[..last]), ids, w) + Yield(hits[last].b, ids, w)
  {
    assert MappedNodes(hits)[..|hits| - 1] == MappedNodes(hits[..|hits| - 1]);
  }

  /** The updater that counts: the earliest one of the mapping. */
  function FirstUpdater(hits: seq<Hit>): Option<Info -> seq<JettonChange>> {
    if hits == [] then None
    else if hits[0].s.updater.Some? then hits[0].s.updater
    else FirstUpdater(hits[1..])
  }

  lemma StripAllConcat(a: seq<Tree>, b: seq<Tree>, ids: set<Bubble>)
    ensures StripAll(a + b, ids) == StripAll(a, ids) + StripAll(b, ids)
  {
  }

  lemma {:induction false} TakenSum(hits: seq<Hit>, d: Draft, ids: set<Bubble>, w: Weight)
    requires TakeAll(hits, d, ids).Some?
    ensures SumAll(StripAll(TakeAll(hits, d, ids).value.potential, ids), w) + HitWeights(hits, w)
         == SumAll(StripAll(d.potential, ids), w) + PickSum(MappedNodes(hits), ids, w)
  {
    if hits != [] {
      var last := |hits| - 1;
      LastHit(hits, ids, w);
      var more := Outside(hits[last].b.kids, ids);
      TakenSum(hits[..last], TakeHit(d, hits[last], ids), ids, w);
      StripAllConcat(d.potential, more, ids);
      SumAllConcat(StripAll(d.potential, ids), StripAll(more, ids), w);
    }
  }

  lemma {:induction false} TakenFlow(hits: seq<Hit>, d: Draft, ids: set<Bubble>, x: Ledger.Asset)
    requires TakeAll(hits, d, ids).Some?
    ensures Amount(TakeAll(hits, d, ids).value.flow, x) == Amount(d.flow, x) + HitWeights(hits, Asset(x))
  {
    if hits != [] {
      var last := |hits| - 1;
      LastHit(hits, ids, Asset(x));
      TakenFlow(hits[..last], TakeHit(d, hits[last], ids), ids, x);
      MergedAmount(d.flow, hits[last].b.rec.flow, x);
    }
  }

  lemma {:induction false} TakenHashes(hits: seq<Hit>, d: Draft, ids: set<Bubble>, h: Hash)
    requires TakeAll(hits, d, ids).Some?
    ensures h in TakeAll(hits, d, ids).value.transaction
            <==> h in d.transaction || HitWeights(hits, Holding(h)) > 0
    ensures HitWeights(hits, Holding(h)) >= 0
  {
    if hits != [] {
      var last := |hits| - 1;
      LastHit(hits, ids, Holding(h));
      TakenHashes(hits[..last], TakeHit(d, hits[last], ids), ids, h);
    }
  }

  lemma {:induction false} TakenUpdater(hits: seq<Hit>, d: Draft, ids: set<Bubble>)
    requires TakeAll(hits, d, ids).Some?
    ensures TakeAll(hits, d, ids).value.updater
         == if FirstUpdater(hits).Some? then FirstUpdater(hits) else d.updater
  {
    if hits != [] {
      var last := |hits| - 1;
      TakenUpdater(hits[..last], TakeHit(d, hits[last], ids), ids);
      FirstUpdaterSplit(hits);
    }
  }

  lemma {:induction false} FirstUpdaterSplit(hits: seq<Hit>)
    requires hits != []
    ensures var last := |hits| - 1;
            FirstUpdater(hits) ==
            if FirstUpdater(hits[..last]).Some? then FirstUpdater(hits[..last]) else hits[last].s.updater
  {
    if |hits| > 1 {
      FirstUpdaterSplit(hits[1..]);
      assert hits[1..][..|hits| - 2] == hits[..|hits| - 1][1..];
    }
  }

  lemma {:induction false} ChangedAmount(flow: Accounts, changes: seq<JettonChange>, x: Ledger.Asset)
    ensures Amount(Changed(flow, changes), x) == Amount(flow, x) + ChangeOf(changes, x)
    decreases |changes|
  {
    if changes != [] {
      var c := changes[0];
      AddedJettonsAmount(flow, c.account, c.master, c.amount, x);
      ChangedAmount(AddedJettons(flow, c.account, c.master, c.amount), changes[1..], x);
    }
  }

  /** Only jetton entries are ever changed by an updater. */
  lemma {:induction false} ChangeOnlyJettons(changes: seq<JettonChange>, x: Ledger.Asset)
    requires !x.Jettons?
    ensures ChangeOf(changes, x) == 0
  {
    if changes != [] {
      ChangeOnlyJettons(changes[1..], x);
    }
  }

  lemma {:induction false} CopiesSum(ts: seq<Tree>, us: seq<Tree>, w: Weight)
    requires |ts| == |us| && !w.At?
    requires forall i | 0 <= i < |ts| :: ts[i] == us[i].(id := ts[i].id)
    ensures SumAll(ts, w) == SumAll(us, w)
  {
    if ts != [] {
      CopiesSum(ts[1..], us[1..], w);
      assert ts[0].kids == us[0].kids;
    }
  }

  /** The subtrees below the merged bubble and the mapped bubbles themselves make up the old tree. */
  lemma {:induction false} CollapseConserves(p: Pattern, t: Tree, w: Weight)
    requires Match(p.straw, t).Some? && Collapse(p, t).Some?
    requires NoNested(p.straw) && Distinct(t) && NoMarks(t)
    ensures SumAll(Collapse(p, t).value.kids, w) + HitWeights(Match(p.straw, t).value, w) == Sum(t, w)
  {
    var hits := Match(p.straw, t).value;
    var ids := HitIds(hits);
    TakenSum(hits, Begin(p, t), ids, w);
    ConservesIffHolds(p.straw, t);
    assert Handed(p.straw, t, w) == Sum(t, w);
    var d := TakeAll(hits, Begin(p, t), ids).value;
    assert StripAll([], ids) == [];
    if p.straw.notMerge {
      StripAllConcat(d.potential, [t], ids);
      SumAllConcat(StripAll(d.potential, ids), StripAll([t], ids), w);
      assert StripAll([t], ids) == [Strip(t, ids)];
      assert SumAll([Strip(t, ids)], w) == Sum(Strip(t, ids), w);
    } else {
      assert d.potential + [] == d.potential;
    }
  }

  /** Everything but the merged bubble itself is what was not mapped; no mark is left. */
  lemma {:induction false} MergeKeepsOthers(p: Pattern, t: Tree, t': Tree, w: Weight)
    requires IsMergeOf(p, t, t') && NoNested(p.straw) && Distinct(t) && NoMarks(t)
    requires !w.At?
    ensures Sum(t', w) - Weigh(t', w) == Sum(t, w) - HitWeights(Match(p.straw, t).value, w)
    ensures w.Marks? ==> Sum(t', w) == 0
  {
    CollapseConserves(p, t, w);
    CopiesSum(t'.kids, Collapse(p, t).value.kids, w);
    if w.Marks? {
      MarksBySum(t);
      HitWeightsNonNegative(Match(p.straw, t).value, w);
      SumAllNonNegative(t'.kids, w);
    }
  }

  /** The flow of the whole tree changes by what the updater did, and the updater only touches jettons. */
  lemma {:induction false} MergeKeepsFlow(p: Pattern, t: Tree, t': Tree, x: Ledger.Asset)
    requires IsMergeOf(p, t, t') && NoNested(p.straw) && Distinct(t) && NoMarks(t)
    ensures Sum(t', Asset(x)) == Sum(t, Asset(x)) + ChangeOf(Collapse(p, t).value.changes, x)
    ensures !x.Jettons? ==> Sum(t', Asset(x)) == Sum(t, Asset(x))
  {
    var hits, product := Match(p.straw, t).value, Collapse(p, t).value;
    MergeKeepsOthers(p, t, t', Asset(x));
    var d := TakeAll(hits, Begin(p, t), HitIds(hits)).value;
    TakenFlow(hits, Begin(p, t), HitIds(hits), x);
    ChangedAmount(d.flow, product.changes, x);
    if !x.Jettons? { ChangeOnlyJettons(product.changes, x); }
  }

  /** No transaction is lost and none appears. */
  lemma {:induction false} MergeKeepsHashes(p: Pattern, t: Tree, t': Tree, h: Hash)
    requires IsMergeOf(p, t, t') && NoNested(p.straw) && Distinct(t) && NoMarks(t)
    ensures Sum(t', Holding(h)) > 0 <==> Sum(t, Holding(h)) > 0
  {
    var hits, w := Match(p.straw, t).value, Holding(h);
    MergeKeepsOthers(p, t, t', w);
    TakenHashes(hits, Begin(p, t), HitIds(hits), h);
    SumAllNonNegative(t'.kids, w);
    if !p.straw.notMerge {
      assert hits[|hits| - 1].b == t;
      LastHit(hits, {}, w);
      HitWeightsNonNegative(hits[..|hits| - 1], w);
    }
  }

  lemma HitWeightsNonNegative(hits: seq<Hit>, w: Weight)
    requires !w.Asset?
    ensures HitWeights(hits, w) >= 0
  {
    PickWeightsNonNegative(MappedNodes(hits), w);
  }

  /** Exactly one updater is applied, the earliest of the mapping, to the info all builders made. */
  lemma {:induction false} OneUpdater(p: Pattern, t: Tree)
    requires Match(p.straw, t).Some? && Collapse(p, t).Some?
    ensures var first := FirstUpdater(Match(p.straw, t).value); var product := Collapse(p, t).value;
            product.changes == if first.Some? then first.value(product.rec.info) else []
  {
    var hits := Match(p.straw, t).value;
    TakenUpdater(hits, Begin(p, t), HitIds(hits));
  }

  // ----- the objects of the merged tree -----

  /** Everything the merged bubble's children are made of comes from unmapped bubbles of the tree. */
  lemma {:induction false} TakenPotential(p: Pattern, t: Tree, hits: seq<Hit>, d: Draft, ids: set<Bubble>)
    requires TakeAll(hits, d, ids).Some?
    requires forall h | h in hits :: h.b in Nodes(t)
    requires forall q | q in d.potential :: q in Nodes(t) && q.id !in ids
    ensures forall q | q in TakeAll(hits, d, ids).value.potential :: q in Nodes(t) && q.id !in ids
  {
    if hits != [] {
      var last := |hits| - 1;
      var h := hits[last];
      forall q | q in Outside(h.b.kids, ids) ensures q in Nodes(t) && q.id !in ids {
        OutsideIn(h.b.kids, ids, q);
        NodesUnder(t, h.b);
        KidUnder(h.b, q);
      }
      TakenPotential(p, t, hits[..last], TakeHit(d, h, ids), ids);
    }
  }

  lemma OutsideIn(ts: seq<Tree>, ids: set<Bubble>, q: Tree)
    requires q in Outside(ts, ids)
    ensures q in ts && q.id !in ids
  {
  }

  lemma UnmarkedIn(ts: seq<Tree>, ids: set<Bubble>, q: Tree)
    requires q in Unmarked(ts, ids)
    ensures q in ts && q.id !in ids && !q.rec.merged
  {
  }

  /** The potential children, before their own mapped children are dropped. */
  ghost function Potential(p: Pattern, t: Tree): seq<Tree>
    requires Match(p.straw, t).Some? && Collapse(p, t).Some?
  {
    var hits := Match(p.straw, t).value;
    TakeAll(hits, Begin(p, t), HitIds(hits)).value.potential + (if p.straw.notMerge then [t] else [])
  }

  lemma PotentialIn(p: Pattern, t: Tree)
    requires Match(p.straw, t).Some? && Collapse(p, t).Some? && Distinct(t)
    ensures var ids := HitIds(Match(p.straw, t).value);
            && Collapse(p, t).value.kids == StripAll(Potential(p, t), ids)
            && forall q | q in Potential(p, t) :: q in Nodes(t) && q.id !in ids
  {
    var hits := Match(p.straw, t).value;
    forall h | h in hits ensures h.b in Nodes(t) { MatchHits(p.straw, t, h); }
    TakenPotential(p, t, hits, Begin(p, t), HitIds(hits));
    MatchTop(p.straw, t);
    assert t in Nodes(t);
  }

  function RootsAt(ts: seq<Tree>, o: object): int {
    if ts == [] then 0 else (if ts[0].id == o then 1 else 0) + RootsAt(ts[1..], o)
  }

  lemma {:induction false} RenamedAt(ts: seq<Tree>, us: seq<Tree>, o: object)
    requires |ts| == |us|
    requires forall i | 0 <= i < |ts| :: ts[i] == us[i].(id := ts[i].id) && ts[i].id != o
    ensures SumAll(ts, At(o)) == SumAll(us, At(o)) - RootsAt(us, o)
  {
    if ts != [] {
      RenamedAt(ts[1..], us[1..], o);
      assert ts[0].kids == us[0].kids;
    }
  }

  lemma {:induction false} RootsAtOne(us: seq<Tree>, i: nat, o: object)
    requires i < |us| && us[i].id == o
    ensures RootsAt(us, o) >= 1
  {
    RootsAtNonNegative(us[1..], o);
    if i > 0 {
      RootsAtOne(us[1..], i - 1, o);
    }
  }

  lemma {:induction false} RootsAtNonNegative(us: seq<Tree>, o: object)
    ensures RootsAt(us, o) >= 0
  {
    if us != [] {
      RootsAtNonNegative(us[1..], o);
    }
  }

  /** The merged bubble's children share no object with each other, with the root or with a mapped bubble. */
  lemma {:induction false} ProductDistinct(p: Pattern, t: Tree)
    requires Match(p.straw, t).Some? && Collapse(p, t).Some? && NoNested(p.straw) && Distinct(t) && NoMarks(t)
    ensures var kids := Collapse(p, t).value.kids;
            && DistinctAll(kids)
            && (forall i | 0 <= i < |kids| :: Foot(kids[i]) <= Foot(t))
            && (forall h, i | h in Match(p.straw, t).value && 0 <= i < |kids| :: h.b.id !in Foot(kids[i]))
  {
    var kids, hits := Collapse(p, t).value.kids, Match(p.straw, t).value;
    forall o ensures SumAll(kids, At(o)) <= 1 { ObjectOnce(p, t, o); }
    DistinctAllBySums(kids);
    forall i, o | 0 <= i < |kids| && o in Foot(kids[i]) ensures o in Foot(t) { ObjectOnce(p, t, o); }
    forall h, i | h in hits && 0 <= i < |kids| ensures h.b.id !in Foot(kids[i]) {
      HitCounted(hits, h);
      ObjectOnce(p, t, h.b.id);
    }
  }

  lemma {:induction false} ObjectOnce(p: Pattern, t: Tree, o: object)
    requires Match(p.straw, t).Some? && Collapse(p, t).Some? && NoNested(p.straw) && Distinct(t) && NoMarks(t)
    ensures var kids := Collapse(p, t).value.kids;
            && SumAll(kids, At(o)) <= 1
            && forall k | k in kids && o in Foot(k) :: o in Foot(t) && HitWeights(Match(p.straw, t).value, At(o)) == 0
  {
    var kids, hits := Collapse(p, t).value.kids, Match(p.straw, t).value;
    DistinctBySums(t);
    CollapseConserves(p, t, At(o));
    HitWeightsNonNegative(hits, At(o));
    SumAllAt(kids, o);
    SumAllNonNegative(kids, At(o));
    SumAt(t, o);
  }

  lemma HitCounted(hits: seq<Hit>, h: Hit)
    requires h in hits
    ensures HitWeights(hits, At(h.b.id)) >= 1
  {
    var i :| 0 <= i < |hits| && hits[i] == h;
    PickCounted(MappedNodes(hits), i, At(h.b.id));
  }

  lemma RenamedFoot(u: Tree, x: Bubble)
    ensures Foot(u.(id := x)) <= Foot(u) + {x}
    ensures forall k | k in u.kids :: Foot(k) <= Foot(u)
  {
    forall k | k in u.kids ensures Foot(k) <= Foot(u) { KidUnder(u, k); }
    var v := u.(id := x);
    forall n | n in Nodes(v) ensures n == v || n in Nodes(u) { }
    assert u in Nodes(u);
  }

  lemma RenamedDistinct(u: Tree, x: Bubble)
    requires Distinct(u) && x !in Foot(u)
    ensures Distinct(u.(id := x))
  {
    forall k | k in u.kids ensures x !in Foot(k) { RenamedFoot(u, x); }
  }

  /** With new objects for the copies and for the merged flow, the merged tree is a tree again. */
  lemma {:induction false} MergeDistinct(p: Pattern, t: Tree, t': Tree)
    requires IsMergeOf(p, t, t') && NoNested(p.straw) && Distinct(t) && NoMarks(t)
    requires t'.cell !in Foot(t)
    requires forall i | 0 <= i < |t'.kids| :: t'.kids[i].id !in Foot(t)
    requires forall i, j | 0 <= i < j < |t'.kids| :: t'.kids[i].id != t'.kids[j].id
    ensures Distinct(t') && NoMarks(t')
  {
    var us, ts := Collapse(p, t).value.kids, t'.kids;
    MergeKeepsOthers(p, t, t', Marks);
    MarksBySum(t');
    ProductDistinct(p, t);
    forall i | 0 <= i < |ts|
      ensures Distinct(ts[i]) && t'.id !in Foot(ts[i]) && t'.cell !in Foot(ts[i])
    {
      RenamedDistinct(us[i], ts[i].id);
      RenamedFoot(us[i], ts[i].id);
      RootGone(p, t, t', i);
    }
    forall i, j | 0 <= i < j < |ts| ensures Foot(ts[i]) !! Foot(ts[j]) {
      KidsApart(us[i], us[j], ts[i].id, ts[j].id, Foot(t));
    }
  }

  lemma KidsApart(u: Tree, v: Tree, x: Bubble, y: Bubble, old_: set<object>)
    requires Foot(u) !! Foot(v) && Foot(u) <= old_ && Foot(v) <= old_
    requires x !in old_ && y !in old_ && x != y
    ensures Foot(u.(id := x)) !! Foot(v.(id := y))
  {
    RenamedFoot(u, x);
    RenamedFoot(v, y);
  }

  lemma {:induction false} RootGone(p: Pattern, t: Tree, t': Tree, i: nat)
    requires IsMergeOf(p, t, t') && NoNested(p.straw) && Distinct(t) && NoMarks(t) && i < |t'.kids|
    requires forall i | 0 <= i < |t'.kids| :: t'.kids[i].id !in Foot(t)
    ensures t.id !in Foot(t'.kids[i])
  {
    var hits, us := Match(p.straw, t).value, Collapse(p, t).value.kids;
    assert t in Nodes(t) && t.id in Foot(t);
    DistinctBySums(t);
    CollapseConserves(p, t, At(t.id));
    HitWeightsNonNegative(hits, At(t.id));
    RenamedAt(t'.kids, us, t.id);
    RootsAtNonNegative(us, t.id);
    if p.straw.notMerge {
      PotentialIn(p, t);
      RootsAtOne(us, |us| - 1, t.id);
    } else {
      HitCounted(hits, hits[|hits| - 1]);
    }
    SumAllAt(t'.kids, t.id);
    SumAllNonNegative(t'.kids, At(t.id));
  }

  lemma {:induction false} MergedFoot(p: Pattern, t: Tree, t': Tree, o: object)
    requires IsMergeOf(p, t, t') && NoNested(p.straw) && Distinct(t) && NoMarks(t)
    requires o in Foot(t') && o !in Foot(t)
    ensures o == t'.cell || o in Roots(t'.kids)
  {
    var us := Collapse(p, t).value.kids;
    FootSplit(t', o);
    assert t in Nodes(t);
    if o != t'.id && o != t'.cell {
      var i :| 0 <= i < |t'.kids| && o in Foot(t'.kids[i]);
      ProductDistinct(p, t);
      RenamedFoot(us[i], t'.kids[i].id);
      assert Roots(t'.kids)[i] == t'.kids[i].id;
    }
  }
}
