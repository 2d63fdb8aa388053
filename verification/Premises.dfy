/** Why the premises of the merging engine are there: concrete trees for which a merge does not conserve
    (pkg/bath/matcher.go). */
module Premises {
  import opened Wrappers
  import opened Bubbles
  import opened Patterns
  import opened Clusters

  /** Takes any bubble that has a child, and leaves it in place. */
  function Keeper(child: Straw): Straw {
    Straw([], None, None, None, [child], true, false)
  }

  const TAKER: Straw := Straw([], None, None, None, [], false, false)

  lemma TakerHits(t: Tree)
    requires !t.rec.merged
    ensures Match(TAKER, t) == Some([Hit(TAKER, t)])
  {
    assert KidStraws(TAKER) == [];
    assert [] + [Hit(TAKER, t)] == [Hit(TAKER, t)];
  }

  lemma KeeperHits(child: Straw, t: Tree)
    requires !t.rec.merged && |t.kids| == 1 && Match(child, t.kids[0]).Some?
    ensures Match(Keeper(child), t) == Match(child, t.kids[0])
  {
    var s, taken := Keeper(child), NoneTaken(t);
    assert KidStraws(s) == [child] && [child][1..] == [];
    assert Find(child, t, taken, 0) == 0;
    assert MatchKids([], t, taken[0 := true]) == Some([]);
    assert Match(child, t.kids[0]).value + [] == Match(child, t.kids[0]).value;
  }

  lemma NestedKeepersMatch(t: Tree, k: Tree, g: Tree)
    requires t.kids == [k] && k.kids == [g] && !t.rec.merged && !k.rec.merged && !g.rec.merged
    ensures Match(Keeper(Keeper(TAKER)), t) == Some([Hit(TAKER, g)])
  {
    TakerHits(g);
    KeeperHits(TAKER, k);
    KeeperHits(Keeper(TAKER), t);
  }

  lemma NestedKeepersAreNested()
    ensures WellFormed(Keeper(Keeper(TAKER))) && !NoNested(Keeper(Keeper(TAKER)))
  {
    var inner := Keeper(TAKER);
    assert KidStraws(TAKER) == [] && KidStraws(inner) == [TAKER] && KidStraws(Keeper(inner)) == [inner];
    assert WellFormed(TAKER) && WellFormed(inner);
    assert inner.notMerge && Keeper(inner).notMerge && KidStraws(Keeper(inner))[0] == inner;
  }

  lemma HandedOne(s: Straw, t: Tree, g: Tree, w: Weight)
    requires s.notMerge && Match(s, t) == Some([Hit(TAKER, g)])
    ensures Handed(s, t, w) == PickSum([g], {g.id}, w) + Sum(Strip(t, {g.id}), w)
  {
    var hits := [Hit(TAKER, g)];
    HitIdsOne(hits[0]);
    assert MappedNodes(hits) == [g];
  }

  /** Two straws in a row that leave their bubbles in place: the bubble taken below them is counted twice. */
  lemma {:induction false} NestedKeepersDuplicate(t: Tree, k: Tree, g: Tree)
    requires t.kids == [k] && k.kids == [g] && g.kids == [] && Distinct(t) && NoMarks(t)
    ensures var s := Keeper(Keeper(TAKER));
            WellFormed(s) && !NoNested(s) && Match(s, t).Some? && forall w :: Handed(s, t, w) == Sum(t, w) + Weigh(g, w)
  {
    var s := Keeper(Keeper(TAKER));
    NestedKeepersAreNested();
    KidUnder(t, k);
    KidUnder(k, g);
    assert t in Nodes(t) && g in Nodes(t) by { NodesUnder(t, k); }
    NestedKeepersMatch(t, k, g);
    assert k.id != g.id && !k.rec.merged;
    forall w ensures Handed(s, t, w) == Sum(t, w) + Weigh(g, w) {
      HandedOne(s, t, g, w);
      OnePickSum(g, {g.id}, w);
      KeptWhole(t, k, g, w);
    }
  }

  lemma KeptWhole(t: Tree, k: Tree, g: Tree, w: Weight)
    requires t.kids == [k] && k.id != g.id && !k.rec.merged && g.kids == []
    ensures Sum(Strip(t, {g.id}), w) == Sum(t, w) && Yield(g, {g.id}, w) == Weigh(g, w)
  {
    UnmarkedOne(k, {g.id});
    assert Strip(t, {g.id}).kids == t.kids;
    assert Outside(g.kids, {g.id}) == [];
  }

  lemma UnmarkedOne(k: Tree, ids: set<Bubble>)
    ensures Unmarked([k], ids) == if k.rec.merged || k.id in ids then [] else [k]
  {
    var none: seq<Tree> := [];
    assert [k][1..] == none && Unmarked(none, ids) == none;
  }

  lemma OnePickSum(n: Tree, ids: set<Bubble>, w: Weight)
    ensures PickSum([n], ids, w) == Yield(n, ids, w)
  {
    var none: seq<Tree> := [];
    assert [n][..0] == none && PickSum(none, ids, w) == 0;
  }

  /** A mark left by a merge that failed: the next merge above it drops the marked bubble
      and all that hangs below it. */
  lemma {:induction false} StaleMarkLosesSubtree(t: Tree, k: Tree, m: Tree)
    requires t.kids == [k] && k.kids == [m] && Distinct(t) && !t.rec.merged && !k.rec.merged && m.rec.merged
    ensures NoNested(TAKER) && Match(TAKER, t).Some? && forall w :: Handed(TAKER, t, w) == Sum(t, w) - Sum(m, w)
  {
    TakerHits(t);
    assert KidStraws(TAKER) == [];
    var hits := [Hit(TAKER, t)];
    HitIdsOne(hits[0]);
    assert MappedNodes(hits) == [t];
    KidUnder(t, k);
    IdsInFoot(k);
    assert k.id != t.id;
    forall w ensures Handed(TAKER, t, w) == Sum(t, w) - Sum(m, w) {
      OnePickSum(t, {t.id}, w);
      StaleYield(t, k, m, w);
    }
  }

  lemma StaleYield(t: Tree, k: Tree, m: Tree, w: Weight)
    requires t.kids == [k] && k.kids == [m] && k.id != t.id && m.rec.merged
    ensures Yield(t, {t.id}, w) == Sum(t, w) - Sum(m, w)
  {
    assert [k][1..] == [] && [m][1..] == [];
    assert Outside(t.kids, {t.id}) == [k];
    UnmarkedOne(m, {t.id});
    assert Strip(k, {t.id}).kids == [];
    assert StripAll([k], {t.id}) == [Strip(k, {t.id})];
    assert SumAll([Strip(k, {t.id})], w) == Weigh(k, w);
    assert SumAll([m], w) == Sum(m, w) && SumAll([k], w) == Sum(k, w);
  }
}
