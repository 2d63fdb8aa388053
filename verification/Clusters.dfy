/** Where the bubbles of a mapping lie in the tree, and what collapsing them does to any sum over it. */
module Clusters {
  import opened Wrappers
  import opened Ledger
  import opened Bubbles
  import opened Patterns

  /** From the mapped bubble `t` down, mapped bubbles are reached through at most one unmapped one in a row. */
  ghost predicate Clustered(t: Tree, ids: set<Bubble>)
    decreases t, 1
  {
    forall k | k in t.kids :: if k.id in ids then Clustered(k, ids) else Bridge(k, ids)
  }

  /** The unmapped bubble `t` has mapped children at most; below its unmapped ones nothing is mapped. */
  ghost predicate Bridge(t: Tree, ids: set<Bubble>)
    decreases t, 0
  {
    forall k | k in t.kids :: if k.id in ids then Clustered(k, ids) else ids !! Ids(k)
  }

  ghost predicate Holds(t: Tree, ids: set<Bubble>, top: bool) {
    if top then t.id in ids && Clustered(t, ids) else t.id !in ids && Bridge(t, ids)
  }

  /** What one child contributes to a mapping: nothing, or the match of exactly one straw. */
  lemma {:induction false} KidMatch(ss: seq<Straw>, t: Tree, taken: seq<bool>, i: nat) returns (j: Option<nat>)
    requires |taken| == |t.kids| && MatchKids(ss, t, taken).Some? && Distinct(t) && i < |t.kids|
    ensures j.None? ==> HitIds(MatchKids(ss, t, taken).value) !! Ids(t.kids[i])
    ensures j.Some? ==>
      && !taken[i] && j.value < |ss| && Match(ss[j.value], t.kids[i]).Some?
      && HitIds(MatchKids(ss, t, taken).value) * Ids(t.kids[i]) == HitIds(Match(ss[j.value], t.kids[i]).value)
    decreases |ss|
  {
    if ss == [] {
      return None;
    }
    var f := Find(ss[0], t, taken, 0);
    if f == |t.kids| {
      j := KidMatch(ss[1..], t, taken, i);
      j := if j.None? then None else Some(j.value + 1);
      return;
    }
    var now, rest := Match(ss[0], t.kids[f]).value, MatchKids(ss[1..], t, taken[f := true]).value;
    HitIdsConcat(now, rest);
    MatchUnder(ss[0], t.kids[f]);
    if f == i {
      TakenUntouched(ss[1..], t, taken[f := true], f);
      j := Some(0);
    } else {
      Apart(t, f, i);
      j := KidMatch(ss[1..], t, taken[f := true], i);
      j := if j.None? then None else Some(j.value + 1);
    }
  }

  lemma {:induction false} MatchClustered(s: Straw, t: Tree, ids: set<Bubble>)
    requires Match(s, t).Some? && NoNested(s) && Distinct(t)
    requires ids * Ids(t) == HitIds(Match(s, t).value)
    ensures Holds(t, ids, !s.notMerge)
    decreases t, 1
  {
    MatchTop(s, t);
    assert t in Nodes(t) && t.id in Ids(t);
    assert t.id in ids <==> t.id in ids * Ids(t);
    forall k | k in t.kids
      ensures if k.id in ids then Clustered(k, ids) else if s.notMerge then ids !! Ids(k) else Bridge(k, ids)
    {
      var i :| 0 <= i < |t.kids| && t.kids[i] == k;
      KidClustered(s, t, ids, i);
    }
  }

  lemma {:induction false} KidClustered(s: Straw, t: Tree, ids: set<Bubble>, i: nat)
    requires Match(s, t).Some? && NoNested(s) && Distinct(t) && i < |t.kids|
    requires ids * Ids(t) == HitIds(Match(s, t).value)
    ensures var k := t.kids[i];
            if k.id in ids then Clustered(k, ids) else if s.notMerge then ids !! Ids(k) else Bridge(k, ids)
    decreases t, 0
  {
    var k := t.kids[i];
    KidUnder(t, k);
    var j := KidHits(s, t, ids, i);
    if j.Some? {
      MatchClustered(KidStraws(s)[j.value], k, ids);
    } else {
      NothingBelow(k, ids);
    }
  }

  lemma KidHits(s: Straw, t: Tree, ids: set<Bubble>, i: nat) returns (j: Option<nat>)
    requires Match(s, t).Some? && Distinct(t) && i < |t.kids|
    requires ids * Ids(t) == HitIds(Match(s, t).value)
    ensures j.None? ==> ids !! Ids(t.kids[i])
    ensures j.Some? ==>
      && j.value < |KidStraws(s)| && Match(KidStraws(s)[j.value], t.kids[i]).Some?
      && ids * Ids(t.kids[i]) == HitIds(Match(KidStraws(s)[j.value], t.kids[i]).value)
  {
    KidsOwnIds(s, t, ids, i);
    j := KidMatch(KidStraws(s), t, NoneTaken(t), i);
    forall x | x in ids && x in Ids(t.kids[i]) ensures j.Some? {
      assert x in ids * Ids(t.kids[i]);
    }
  }

  lemma MatchTop(s: Straw, t: Tree)
    requires Match(s, t).Some? && Distinct(t)
    ensures t.id in HitIds(Match(s, t).value) <==> !s.notMerge
  {
    var m := MatchKids(KidStraws(s), t, NoneTaken(t)).value;
    HitIdsConcat(m, [Hit(s, t)]);
    HitIdsOne(Hit(s, t));
    forall h | h in m ensures h.b.id != t.id {
      var i := MatchKidsHits(KidStraws(s), t, NoneTaken(t), h);
      assert t.kids[i] in t.kids;
    }
  }

  lemma KidsOwnIds(s: Straw, t: Tree, ids: set<Bubble>, i: nat)
    requires Match(s, t).Some? && Distinct(t) && i < |t.kids|
    requires ids * Ids(t) == HitIds(Match(s, t).value)
    ensures ids * Ids(t.kids[i]) == HitIds(MatchKids(KidStraws(s), t, NoneTaken(t)).value) * Ids(t.kids[i])
  {
    var m := MatchKids(KidStraws(s), t, NoneTaken(t)).value;
    var k := t.kids[i];
    KidUnder(t, k);
    HitIdsConcat(m, [Hit(s, t)]);
    HitIdsOne(Hit(s, t));
    assert HitIds(Match(s, t).value) * Ids(k) == HitIds(m) * Ids(k);
    assert ids * Ids(k) == ids * Ids(t) * Ids(k);
  }

  lemma NothingBelow(t: Tree, ids: set<Bubble>)
    requires ids !! Ids(t)
    ensures t.id !in ids && Bridge(t, ids)
  {
    assert t in Nodes(t) && t.id in Ids(t);
    forall k | k in t.kids ensures k.id !in ids && ids !! Ids(k) {
      KidUnder(t, k);
    }
  }

  // ----- sums -----

  /** The children that are not mapped. */
  function Outside(ts: seq<Tree>, ids: set<Bubble>): seq<Tree> {
    if ts == [] then [] else (if ts[0].id in ids then [] else [ts[0]]) + Outside(ts[1..], ids)
  }

  /** The children that carry no mark once the bubbles `ids` are marked. */
  function Unmarked(ts: seq<Tree>, ids: set<Bubble>): seq<Tree> {
    if ts == [] then []
    else (if ts[0].rec.merged || ts[0].id in ids then [] else [ts[0]]) + Unmarked(ts[1..], ids)
  }

  function Strip(t: Tree, ids: set<Bubble>): Tree {
    t.(kids := Unmarked(t.kids, ids))
  }

  function StripAll(ts: seq<Tree>, ids: set<Bubble>): (r: seq<Tree>)
    ensures |r| == |ts| && forall i | 0 <= i < |r| :: r[i] == Strip(ts[i], ids)
  {
    seq(|ts|, i requires 0 <= i < |ts| => Strip(ts[i], ids))
  }

  /** What mapping `n` hands over: its own record and its unmapped children, stripped. */
  function Yield(n: Tree, ids: set<Bubble>, w: Weight): int {
    Weigh(n, w) + SumAll(StripAll(Outside(n.kids, ids), ids), w)
  }

  function PickSum(picks: seq<Tree>, ids: set<Bubble>, w: Weight): int {
    if picks == [] then 0 else
    var last := |picks| - 1;
    PickSum(picks[..last], ids, w) + Yield(picks[last], ids, w)
  }

  function PickWeights(picks: seq<Tree>, w: Weight): int {
    if picks == [] then 0 else
    var last := |picks| - 1;
    PickWeights(picks[..last], w) + Weigh(picks[last], w)
  }

  /** The yields of the bubbles in `some`. */
  function NodeSum(t: Tree, some: set<Bubble>, ids: set<Bubble>, w: Weight): int {
    (if t.id in some then Yield(t, ids, w) else 0) + NodeSumAll(t.kids, some, ids, w)
  }

  function NodeSumAll(ts: seq<Tree>, some: set<Bubble>, ids: set<Bubble>, w: Weight): int {
    if ts == [] then 0 else NodeSum(ts[0], some, ids, w) + NodeSumAll(ts[1..], some, ids, w)
  }

  lemma StripAllSum(k: Tree, ts: seq<Tree>, ids: set<Bubble>, w: Weight)
    ensures SumAll(StripAll([k] + ts, ids), w) == Sum(Strip(k, ids), w) + SumAll(StripAll(ts, ids), w)
  {
    var all := StripAll([k] + ts, ids);
    assert all[1..] == StripAll(ts, ids);
    assert all[0] == Strip(k, ids);
  }

  lemma {:induction false} ClusteredSum(t: Tree, ids: set<Bubble>, w: Weight)
    requires NoMarks(t) && t.id in ids && Clustered(t, ids)
    ensures NodeSum(t, ids, ids, w) == Sum(t, w)
    decreases t, 1
  {
    forall k | k in t.kids ensures NoMarks(k) { KidUnder(t, k); }
    ClusteredKidsSum(t.kids, ids, w);
  }

  lemma {:induction false} ClusteredKidsSum(ts: seq<Tree>, ids: set<Bubble>, w: Weight)
    requires forall k | k in ts :: NoMarks(k) && if k.id in ids then Clustered(k, ids) else Bridge(k, ids)
    ensures NodeSumAll(ts, ids, ids, w) + SumAll(StripAll(Outside(ts, ids), ids), w) == SumAll(ts, w)
    decreases ts, 0
  {
    if ts != [] {
      var k := ts[0];
      ClusteredKidsSum(ts[1..], ids, w);
      if k.id in ids {
        ClusteredSum(k, ids, w);
        assert Outside(ts, ids) == Outside(ts[1..], ids);
      } else {
        BridgeSum(k, ids, w);
        StripAllSum(k, Outside(ts[1..], ids), ids, w);
      }
    }
  }

  lemma {:induction false} BridgeSum(t: Tree, ids: set<Bubble>, w: Weight)
    requires NoMarks(t) && t.id !in ids && Bridge(t, ids)
    ensures NodeSum(t, ids, ids, w) + Sum(Strip(t, ids), w) == Sum(t, w)
    decreases t, 1
  {
    forall k | k in t.kids ensures NoMarks(k) { KidUnder(t, k); }
    BridgeKidsSum(t.kids, ids, w);
  }

  lemma {:induction false} BridgeKidsSum(ts: seq<Tree>, ids: set<Bubble>, w: Weight)
    requires forall k | k in ts :: NoMarks(k) && if k.id in ids then Clustered(k, ids) else ids !! Ids(k)
    ensures NodeSumAll(ts, ids, ids, w) + SumAll(Unmarked(ts, ids), w) == SumAll(ts, w)
    decreases ts, 0
  {
    if ts != [] {
      var k := ts[0];
      assert k in Nodes(k);
      BridgeKidsSum(ts[1..], ids, w);
      if k.id in ids {
        ClusteredSum(k, ids, w);
        assert Unmarked(ts, ids) == Unmarked(ts[1..], ids);
      } else {
        assert Unmarked(ts, ids) == [k] + Unmarked(ts[1..], ids);
        NodeSumNone(k, ids, ids, w);
      }
    }
  }

  lemma {:induction false} NodeSumNone(t: Tree, some: set<Bubble>, ids: set<Bubble>, w: Weight)
    requires some !! Ids(t)
    ensures NodeSum(t, some, ids, w) == 0
    decreases t, 1
  {
    assert t in Nodes(t) && t.id in Ids(t);
    forall k | k in t.kids ensures some !! Ids(k) { KidUnder(t, k); }
    NodeSumAllNone(t.kids, some, ids, w);
  }

  lemma {:induction false} NodeSumAllNone(ts: seq<Tree>, some: set<Bubble>, ids: set<Bubble>, w: Weight)
    requires forall k | k in ts :: some !! Ids(k)
    ensures NodeSumAll(ts, some, ids, w) == 0
    decreases ts, 0
  {
    if ts != [] {
      NodeSumNone(ts[0], some, ids, w);
      NodeSumAllNone(ts[1..], some, ids, w);
    }
  }

  lemma {:induction false} NodeSumTop(t: Tree, some: set<Bubble>, ids: set<Bubble>, w: Weight)
    requires Distinct(t) && t.id !in some
    ensures NodeSum(t, some + {t.id}, ids, w) == NodeSum(t, some, ids, w) + Yield(t, ids, w)
  {
    forall k | k in t.kids ensures t.id !in Ids(k) { KidUnder(t, k); }
    NodeSumAllSame(t.kids, t.id, some, ids, w);
  }

  /** Adding one bubble of the tree to the counted ones adds its yield, once. */
  lemma {:induction false} NodeSumAdd(t: Tree, n: Tree, some: set<Bubble>, ids: set<Bubble>, w: Weight)
    requires Distinct(t) && n in Nodes(t) && n.id !in some
    ensures NodeSum(t, some + {n.id}, ids, w) == NodeSum(t, some, ids, w) + Yield(n, ids, w)
    decreases t, 1
  {
    if n == t {
      NodeSumTop(t, some, ids, w);
    } else {
      var i :| 0 <= i < |t.kids| && n in Nodes(t.kids[i]);
      KidUnder(t, t.kids[i]);
      assert n.id in Ids(t.kids[i]);
      NodeSumAllAdd(t.kids, i, n, some, ids, w);
    }
  }

  lemma {:induction false} NodeSumAllAdd(ts: seq<Tree>, i: nat, n: Tree, some: set<Bubble>, ids: set<Bubble>, w: Weight)
    requires i < |ts| && n in Nodes(ts[i]) && n.id !in some
    requires forall k | k in ts :: Distinct(k)
    requires forall a, b | 0 <= a < b < |ts| :: Foot(ts[a]) !! Foot(ts[b])
    ensures NodeSumAll(ts, some + {n.id}, ids, w) == NodeSumAll(ts, some, ids, w) + Yield(n, ids, w)
    decreases ts, 0
  {
    assert n.id in Foot(ts[i]);
    if i == 0 {
      NodeSumAdd(ts[0], n, some, ids, w);
      forall k | k in ts[1..] ensures n.id !in Ids(k) {
        IdsInFoot(k);
      }
      NodeSumAllSame(ts[1..], n.id, some, ids, w);
    } else {
      IdsInFoot(ts[0]);
      NodeSumSame(ts[0], n.id, some, ids, w);
      NodeSumAllAdd(ts[1..], i - 1, n, some, ids, w);
    }
  }

  lemma {:induction false} NodeSumSame(t: Tree, x: Bubble, some: set<Bubble>, ids: set<Bubble>, w: Weight)
    requires x !in Ids(t)
    ensures NodeSum(t, some + {x}, ids, w) == NodeSum(t, some, ids, w)
    decreases t, 1
  {
    assert t in Nodes(t) && t.id in Ids(t);
    forall k | k in t.kids ensures x !in Ids(k) { KidUnder(t, k); }
    NodeSumAllSame(t.kids, x, some, ids, w);
  }

  lemma {:induction false} NodeSumAllSame(ts: seq<Tree>, x: Bubble, some: set<Bubble>, ids: set<Bubble>, w: Weight)
    requires forall k | k in ts :: x !in Ids(k)
    ensures NodeSumAll(ts, some + {x}, ids, w) == NodeSumAll(ts, some, ids, w)
    decreases ts, 0
  {
    if ts != [] {
      NodeSumSame(ts[0], x, some, ids, w);
      NodeSumAllSame(ts[1..], x, some, ids, w);
    }
  }

  lemma {:induction false} PickWeightsNonNegative(picks: seq<Tree>, w: Weight)
    requires !w.Asset?
    ensures PickWeights(picks, w) >= 0
  {
    if picks != [] {
      PickWeightsNonNegative(picks[..|picks| - 1], w);
    }
  }

  lemma {:induction false} PickCounted(picks: seq<Tree>, i: nat, w: Weight)
    requires i < |picks| && !w.Asset? && Weigh(picks[i], w) >= 1
    ensures PickWeights(picks, w) >= 1
  {
    var rest := picks[..|picks| - 1];
    PickWeightsNonNegative(rest, w);
    if i < |rest| {
      PickCounted(rest, i, w);
    }
  }

  ghost function PickIds(picks: seq<Tree>): set<Bubble> {
    set i | 0 <= i < |picks| :: picks[i].id
  }

  ghost predicate NoRepeats(picks: seq<Tree>) {
    forall i, j | 0 <= i < j < |picks| :: picks[i].id != picks[j].id
  }

  /** Picks without repetitions count each of their bubbles once. */
  lemma {:induction false} PickSumIsNodeSum(t: Tree, picks: seq<Tree>, ids: set<Bubble>, w: Weight)
    requires Distinct(t) && NoRepeats(picks) && forall n | n in picks :: n in Nodes(t)
    ensures PickSum(picks, ids, w) == NodeSum(t, PickIds(picks), ids, w)
  {
    if picks == [] {
      NodeSumNone(t, {}, ids, w);
      assert PickIds(picks) == {};
    } else {
      var rest, last := picks[..|picks| - 1], picks[|picks| - 1];
      PickSumIsNodeSum(t, rest, ids, w);
      assert PickIds(picks) == PickIds(rest) + {last.id} by {
        assert forall i | 0 <= i < |rest| :: rest[i] == picks[i];
      }
      NodeSumAdd(t, last, PickIds(rest), ids, w);
    }
  }

  // ----- the exact condition, whatever the straw -----

  lemma {:induction false} ClusteredCount(t: Tree, ids: set<Bubble>)
    requires NoMarks(t) && t.id in ids
    ensures NodeSum(t, ids, ids, Every) >= Sum(t, Every)
    ensures NodeSum(t, ids, ids, Every) == Sum(t, Every) ==> Clustered(t, ids)
    decreases t, 1
  {
    forall k | k in t.kids ensures NoMarks(k) { KidUnder(t, k); }
    ClusteredKidsCount(t.kids, ids);
  }

  lemma {:induction false} ClusteredKidsCount(ts: seq<Tree>, ids: set<Bubble>)
    requires forall k | k in ts :: NoMarks(k)
    ensures var sum := NodeSumAll(ts, ids, ids, Every) + SumAll(StripAll(Outside(ts, ids), ids), Every);
            && sum >= SumAll(ts, Every)
            && (sum == SumAll(ts, Every) ==>
                forall k | k in ts :: if k.id in ids then Clustered(k, ids) else Bridge(k, ids))
    decreases ts, 0
  {
    if ts != [] {
      var k := ts[0];
      ClusteredKidsCount(ts[1..], ids);
      if k.id in ids {
        ClusteredCount(k, ids);
        assert Outside(ts, ids) == Outside(ts[1..], ids);
      } else {
        BridgeCount(k, ids);
        StripAllSum(k, Outside(ts[1..], ids), ids, Every);
      }
    }
  }

  lemma {:induction false} BridgeCount(t: Tree, ids: set<Bubble>)
    requires NoMarks(t) && t.id !in ids
    ensures NodeSum(t, ids, ids, Every) + Sum(Strip(t, ids), Every) >= Sum(t, Every)
    ensures NodeSum(t, ids, ids, Every) + Sum(Strip(t, ids), Every) == Sum(t, Every) ==> Bridge(t, ids)
    decreases t, 1
  {
    forall k | k in t.kids ensures NoMarks(k) { KidUnder(t, k); }
    BridgeKidsCount(t.kids, ids);
  }

  lemma {:induction false} BridgeKidsCount(ts: seq<Tree>, ids: set<Bubble>)
    requires forall k | k in ts :: NoMarks(k)
    ensures var sum := NodeSumAll(ts, ids, ids, Every) + SumAll(Unmarked(ts, ids), Every);
            && sum >= SumAll(ts, Every)
            && (sum == SumAll(ts, Every) ==>
                forall k | k in ts :: if k.id in ids then Clustered(k, ids) else ids !! Ids(k))
    decreases ts, 0
  {
    if ts != [] {
      var k := ts[0];
      assert k in Nodes(k);
      BridgeKidsCount(ts[1..], ids);
      if k.id in ids {
        ClusteredCount(k, ids);
        assert Unmarked(ts, ids) == Unmarked(ts[1..], ids);
      } else {
        assert Unmarked(ts, ids) == [k] + Unmarked(ts[1..], ids);
        SomeCount(k, ids, ids);
      }
    }
  }

  lemma {:induction false} SomeCount(t: Tree, some: set<Bubble>, ids: set<Bubble>)
    ensures NodeSum(t, some, ids, Every) >= 0
    ensures NodeSum(t, some, ids, Every) == 0 ==> some !! Ids(t)
    decreases t, 1
  {
    SumAllNonNegative(StripAll(Outside(t.kids, ids), ids), Every);
    SomeKidsCount(t.kids, some, ids);
    if NodeSum(t, some, ids, Every) == 0 {
      forall n | n in Nodes(t) ensures n.id !in some {
        if n != t {
          var k :| k in t.kids && n in Nodes(k);
          assert n.id in Ids(k);
        }
      }
    }
  }

  lemma {:induction false} SomeKidsCount(ts: seq<Tree>, some: set<Bubble>, ids: set<Bubble>)
    ensures NodeSumAll(ts, some, ids, Every) >= 0
    ensures NodeSumAll(ts, some, ids, Every) == 0 ==> forall k | k in ts :: some !! Ids(k)
    decreases ts, 0
  {
    if ts != [] {
      SomeCount(ts[0], some, ids);
      SomeKidsCount(ts[1..], some, ids);
    }
  }

  lemma MappedIds(hits: seq<Hit>)
    ensures PickIds(MappedNodes(hits)) == HitIds(hits)
  {
    forall x | x in HitIds(hits) ensures x in PickIds(MappedNodes(hits)) {
      var i :| 0 <= i < |hits| && hits[i].b.id == x;
      assert MappedNodes(hits)[i].id == x;
    }
  }

  /** What a collapse of this match leaves in the tree, next to the merged bubble itself. */
  ghost function Handed(s: Straw, t: Tree, w: Weight): int
    requires Match(s, t).Some?
  {
    var hits := Match(s, t).value;
    PickSum(MappedNodes(hits), HitIds(hits), w) + (if s.notMerge then Sum(Strip(t, HitIds(hits)), w) else 0)
  }

  /** Every sum over the bubbles is kept if and only if no two unmapped bubbles in a row lead to a mapped one. */
  lemma {:induction false} ConservesIffHolds(s: Straw, t: Tree)
    requires Match(s, t).Some? && Distinct(t) && NoMarks(t)
    ensures (forall w :: Handed(s, t, w) == Sum(t, w)) <==> Holds(t, HitIds(Match(s, t).value), !s.notMerge)
    ensures NoNested(s) ==> Holds(t, HitIds(Match(s, t).value), !s.notMerge)
  {
    var hits := Match(s, t).value;
    var ids := HitIds(hits);
    MatchUnder(s, t);
    MatchTop(s, t);
    MatchDistinct(s, t);
    forall n | n in MappedNodes(hits) ensures n in Nodes(t) {
      var i :| 0 <= i < |hits| && MappedNodes(hits)[i] == n;
      MatchHits(s, t, hits[i]);
    }
    MappedIds(hits);
    forall w ensures Handed(s, t, w) == NodeSum(t, ids, ids, w) + if s.notMerge then Sum(Strip(t, ids), w) else 0 {
      PickSumIsNodeSum(t, MappedNodes(hits), ids, w);
    }
    if forall w :: Handed(s, t, w) == Sum(t, w) {
      assert Handed(s, t, Every) == Sum(t, Every);
      if s.notMerge { BridgeCount(t, ids); } else { ClusteredCount(t, ids); }
    }
    if Holds(t, ids, !s.notMerge) {
      forall w ensures Handed(s, t, w) == Sum(t, w) {
        if s.notMerge { BridgeSum(t, ids, w); } else { ClusteredSum(t, ids, w); }
      }
    }
    if NoNested(s) {
      assert ids * Ids(t) == ids;
      MatchClustered(s, t, ids);
    }
  }
}
