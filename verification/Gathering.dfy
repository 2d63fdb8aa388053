/** Gathering a connected region of bubbles into one and handing on the children left over. */
module Gathering {
  import opened Ledger
  import opened Bubbles
  import opened Clusters
  import opened StonfiRoutes

  /** The flows of the picked bubbles merged into `flow`, one after another. */
  function FlowInto(flow: Accounts, picks: seq<Tree>): Accounts {
    if picks == [] then flow else
    var last := |picks| - 1;
    Merged(FlowInto(flow, picks[..last]), picks[last].rec.flow)
  }

  lemma {:induction false} FlowIntoAmount(flow: Accounts, picks: seq<Tree>, x: Ledger.Asset)
    ensures Amount(FlowInto(flow, picks), x) == Amount(flow, x) + PickWeights(picks, Asset(x))
  {
    if picks != [] {
      var last := |picks| - 1;
      FlowIntoAmount(flow, picks[..last], x);
      MergedAmount(FlowInto(flow, picks[..last]), picks[last].rec.flow, x);
    }
  }

  /** The children of the picked bubbles that are not consumed themselves. */
  function Rescue(picks: seq<Tree>, ids: set<Bubble>): seq<Tree> {
    if picks == [] then [] else
    var last := |picks| - 1;
    Rescue(picks[..last], ids) + Outside(picks[last].kids, ids)
  }

  function HashSet(s: seq<Hash>): set<Hash> {
    set h | h in s
  }

  function AccountSet(s: seq<AccountID>): set<AccountID> {
    set a | a in s
  }

  function HashesOf(picks: seq<Tree>): set<Hash> {
    if picks == [] then {} else
    var last := |picks| - 1;
    HashesOf(picks[..last]) + HashSet(picks[last].rec.transaction)
  }

  function AccountsOf(picks: seq<Tree>): set<AccountID> {
    if picks == [] then {} else
    var last := |picks| - 1;
    AccountsOf(picks[..last]) + AccountSet(picks[last].rec.accounts)
  }

  /** `r` is `base` with the picked bubbles gathered into it. */
  ghost predicate Gathers(r: Rec, base: Rec, picks: seq<Tree>) {
    && r.flow == FlowInto(base.flow, picks)
    && HashSet(r.transaction) == HashSet(base.transaction) + HashesOf(picks)
    && AccountSet(r.accounts) == AccountSet(base.accounts) + AccountsOf(picks)
  }

  lemma {:induction false} PickedHash(picks: seq<Tree>, h: Hash)
    ensures PickWeights(picks, Holding(h)) > 0 <==> h in HashesOf(picks)
    ensures PickWeights(picks, Holding(h)) >= 0
  {
    if picks != [] {
      PickedHash(picks[..|picks| - 1], h);
    }
  }

  ghost predicate Enumerates(t: Tree, picks: seq<Tree>, some: set<Bubble>) {
    && NoRepeats(picks) && PickIds(picks) == some && forall n | n in picks :: n in Nodes(t)
  }

  lemma {:induction false} TopClosedAt(t: Tree, ids: set<Bubble>, n: Tree)
    requires TopClosed(t, ids) && n in Nodes(t) && n.id in ids
    ensures TopClosed(n, ids)
  {
    if n != t {
      var k :| k in t.kids && n in Nodes(k);
      assert n.id in Ids(k);
      TopClosedAt(k, ids, n);
    }
  }

  lemma {:induction false} StripNothing(ts: seq<Tree>, ids: set<Bubble>)
    requires forall k | k in ts :: NoMarks(k) && (k.id in ids || ids !! Ids(k))
    ensures StripAll(Outside(ts, ids), ids) == Outside(ts, ids)
  {
    var out := Outside(ts, ids);
    forall i | 0 <= i < |out| ensures Strip(out[i], ids) == out[i] {
      var k := out[i];
      OutsideOf(ts, ids, k);
      forall c | c in k.kids ensures !c.rec.merged && c.id !in ids { KidUnder(k, c); }
      AllUnmarked(k.kids, ids);
    }
  }

  lemma OutsideOf(ts: seq<Tree>, ids: set<Bubble>, k: Tree)
    ensures k in Outside(ts, ids) <==> k in ts && k.id !in ids
  {
  }

  lemma AllUnmarked(ts: seq<Tree>, ids: set<Bubble>)
    requires forall k | k in ts :: !k.rec.merged && k.id !in ids
    ensures Unmarked(ts, ids) == ts
  {
  }

  /** Gathered weights and rescued children make up the yields. */
  lemma {:induction false} RescueSum(t: Tree, picks: seq<Tree>, ids: set<Bubble>, w: Weight)
    requires TopClosed(t, ids) && NoMarks(t)
    requires forall n | n in picks :: n in Nodes(t) && n.id in ids
    ensures PickWeights(picks, w) + SumAll(Rescue(picks, ids), w) == PickSum(picks, ids, w)
  {
    if picks != [] {
      var last := |picks| - 1;
      var n := picks[last];
      RescueSum(t, picks[..last], ids, w);
      TopClosedAt(t, ids, n);
      NodesUnder(t, n);
      forall k | k in n.kids ensures NoMarks(k) && (k.id in ids || ids !! Ids(k)) {
        KidUnder(n, k);
      }
      StripNothing(n.kids, ids);
      SumAllConcat(Rescue(picks[..last], ids), Outside(n.kids, ids), w);
    }
  }

  /** In whatever orders a set of consumed bubbles is visited, its weights and rescued children add up to its yields. */
  lemma {:induction false} PartSum(t: Tree, picks: seq<Tree>, order: seq<Tree>, some: set<Bubble>, ids: set<Bubble>,
                                   w: Weight)
    requires Distinct(t) && NoMarks(t) && TopClosed(t, ids) && some <= ids
    requires Enumerates(t, picks, some) && Enumerates(t, order, some)
    ensures PickWeights(picks, w) + SumAll(Rescue(order, ids), w) == NodeSum(t, some, ids, w)
  {
    forall n | n in picks ensures n.id in ids { assert n.id in PickIds(picks); }
    forall n | n in order ensures n.id in ids { assert n.id in PickIds(order); }
    RescueSum(t, order, ids, w);
    PickSumIsNodeSum(t, order, ids, w);
    WeightsInAnyOrder(t, picks, order, some, w);
  }

  lemma {:induction false} WeightsInAnyOrder(t: Tree, picks: seq<Tree>, order: seq<Tree>, some: set<Bubble>, w: Weight)
    requires Distinct(t) && Enumerates(t, picks, some) && Enumerates(t, order, some)
    ensures PickWeights(picks, w) == PickWeights(order, w)
  {
    if picks == [] {
      assert forall n | n in order :: n.id in PickIds(order);
    } else {
      var last := |picks| - 1;
      var n := picks[last];
      assert n.id in PickIds(picks);
      var j :| 0 <= j < |order| && order[j].id == n.id;
      OneNode(t, order[j], n);
      var fewer := order[..j] + order[j + 1..];
      WithoutOne(t, picks, last, some);
      WithoutOne(t, order, j, some);
      assert picks[..last] + picks[last + 1..] == picks[..last];
      WeightsInAnyOrder(t, picks[..last], fewer, some - {n.id}, w);
      PullWeight(order, j, w);
    }
  }

  lemma WithoutOne(t: Tree, picks: seq<Tree>, j: nat, some: set<Bubble>)
    requires Enumerates(t, picks, some) && j < |picks|
    ensures Enumerates(t, picks[..j] + picks[j + 1..], some - {picks[j].id})
  {
    var fewer := picks[..j] + picks[j + 1..];
    forall x | x in some - {picks[j].id} ensures x in PickIds(fewer) {
      var i :| 0 <= i < |picks| && picks[i].id == x;
      assert fewer[if i < j then i else i - 1] == picks[i];
    }
    forall i | 0 <= i < |fewer| ensures fewer[i].id in some - {picks[j].id} && fewer[i] in picks {
      assert fewer[i] == picks[if i < j then i else i + 1];
      assert picks[if i < j then i else i + 1].id in PickIds(picks);
    }
  }

  lemma {:induction false} PullWeight(picks: seq<Tree>, j: nat, w: Weight)
    requires j < |picks|
    ensures PickWeights(picks, w) == PickWeights(picks[..j] + picks[j + 1..], w) + Weigh(picks[j], w)
  {
    var last := |picks| - 1;
    var fewer := picks[..j] + picks[j + 1..];
    if j == last {
      assert fewer == picks[..last];
    } else {
      PullWeight(picks[..last], j, w);
      assert fewer[..|fewer| - 1] == picks[..last][..j] + picks[..last][j + 1..];
      assert fewer[|fewer| - 1] == picks[last];
    }
  }

  lemma {:induction false} NodeSumSplit(t: Tree, a: set<Bubble>, b: set<Bubble>, ids: set<Bubble>, w: Weight)
    requires a !! b
    ensures NodeSum(t, a + b, ids, w) == NodeSum(t, a, ids, w) + NodeSum(t, b, ids, w)
    decreases t, 1
  {
    NodeSumAllSplit(t.kids, a, b, ids, w);
  }

  lemma {:induction false} NodeSumAllSplit(ts: seq<Tree>, a: set<Bubble>, b: set<Bubble>, ids: set<Bubble>, w: Weight)
    requires a !! b
    ensures NodeSumAll(ts, a + b, ids, w) == NodeSumAll(ts, a, ids, w) + NodeSumAll(ts, b, ids, w)
    decreases ts, 0
  {
    if ts != [] {
      NodeSumSplit(ts[0], a, b, ids, w);
      NodeSumAllSplit(ts[1..], a, b, ids, w);
    }
  }

  /** Picking one more bubble. */
  lemma PickMore(t: Tree, picks: seq<Tree>, some: set<Bubble>, n: Tree, flow: Accounts)
    requires Enumerates(t, picks, some) && n in Nodes(t) && n.id !in some
    ensures Enumerates(t, picks + [n], some + {n.id})
    ensures FlowInto(flow, picks + [n]) == Merged(FlowInto(flow, picks), n.rec.flow)
    ensures HashesOf(picks + [n]) == HashesOf(picks) + HashSet(n.rec.transaction)
    ensures AccountsOf(picks + [n]) == AccountsOf(picks) + AccountSet(n.rec.accounts)
    ensures forall ids :: Rescue(picks + [n], ids) == Rescue(picks, ids) + Outside(n.kids, ids)
  {
    var more := picks + [n];
    assert more[..|more| - 1] == picks && more[|more| - 1] == n;
    forall i | 0 <= i < |picks| ensures more[i].id in some { assert picks[i].id in PickIds(picks); }
    forall x | x in some ensures x in PickIds(more) {
      var i :| 0 <= i < |picks| && picks[i].id == x;
      assert more[i].id == x;
    }
    assert more[|picks|].id in PickIds(more);
  }

  ghost function NodeOf(t: Tree, x: Bubble): (n: Tree)
    requires x in Ids(t)
    ensures n in Nodes(t) && n.id == x
  {
    var n :| n in Nodes(t) && n.id == x;
    n
  }

  lemma PicksMore(flow: Accounts, picks: seq<Tree>, n: Tree)
    ensures FlowInto(flow, picks + [n]) == Merged(FlowInto(flow, picks), n.rec.flow)
    ensures HashesOf(picks + [n]) == HashesOf(picks) + HashSet(n.rec.transaction)
    ensures AccountsOf(picks + [n]) == AccountsOf(picks) + AccountSet(n.rec.accounts)
  {
    assert (picks + [n])[..|picks|] == picks;
  }

  ghost predicate Concats(flow: Accounts, a: seq<Tree>, b: seq<Tree>) {
    && FlowInto(flow, a + b) == FlowInto(FlowInto(flow, a), b)
    && HashesOf(a + b) == HashesOf(a) + HashesOf(b)
    && AccountsOf(a + b) == AccountsOf(a) + AccountsOf(b)
  }

  lemma ConcatsMore(flow: Accounts, a: seq<Tree>, b: seq<Tree>, n: Tree)
    requires Concats(flow, a, b)
    ensures Concats(flow, a, b + [n])
  {
    PicksMore(flow, a + b, n);
    PicksMore(FlowInto(flow, a), b, n);
    assert a + (b + [n]) == a + b + [n];
  }

  lemma {:induction false} PicksConcat(flow: Accounts, a: seq<Tree>, b: seq<Tree>)
    ensures Concats(flow, a, b)
  {
    if b == [] {
      assert a + b == a;
    } else {
      var last := |b| - 1;
      PicksConcat(flow, a, b[..last]);
      ConcatsMore(flow, a, b[..last], b[last]);
      assert b[..last] + [b[last]] == b;
    }
  }

  lemma EnumeratesConcat(t: Tree, a: seq<Tree>, b: seq<Tree>, some: set<Bubble>, more: set<Bubble>)
    requires Enumerates(t, a, some) && Enumerates(t, b, more) && some !! more
    ensures Enumerates(t, a + b, some + more)
  {
    forall i | 0 <= i < |a| ensures a[i].id in some { assert a[i].id in PickIds(a); }
    forall i | 0 <= i < |b| ensures b[i].id in more { assert b[i].id in PickIds(b); }
    forall x | x in some + more ensures x in PickIds(a + b) {
      if x in some {
        var i :| 0 <= i < |a| && a[i].id == x;
        assert (a + b)[i].id == x;
      } else {
        var i :| 0 <= i < |b| && b[i].id == x;
        assert (a + b)[|a| + i].id == x;
      }
    }
  }

  // ----- a root that gathers a region below it -----

  lemma {:induction false} OutsideSame(ts: seq<Tree>, ids: set<Bubble>, x: Bubble)
    requires forall k | k in ts :: k.id != x
    ensures Outside(ts, {x} + ids) == Outside(ts, ids)
  {
    if ts != [] { OutsideSame(ts[1..], ids, x); }
  }

  lemma {:induction false} RescueSame(t: Tree, picks: seq<Tree>, ids: set<Bubble>)
    requires Distinct(t) && forall n | n in picks :: n in Nodes(t)
    ensures Rescue(picks, {t.id} + ids) == Rescue(picks, ids)
  {
    if picks != [] {
      var last := |picks| - 1;
      var n := picks[last];
      RescueSame(t, picks[..last], ids);
      forall k | k in n.kids ensures k.id != t.id { LowerKid(t, n, k); }
      OutsideSame(n.kids, ids, t.id);
    }
  }

  lemma LowerKid(t: Tree, n: Tree, k: Tree)
    requires Distinct(t) && n in Nodes(t) && k in n.kids
    ensures k in Nodes(t) && t.id !in Ids(k) && k.id != t.id
  {
    KidUnder(n, k);
    NodesUnder(t, n);
    if n != t { AboveIsElsewhere(t, n); }
  }

  /** The root, the region gathered into it and the children handed on make up the tree. */
  lemma {:induction false} RegionSum(t: Tree, picks: seq<Tree>, w: Weight)
    requires Distinct(t) && NoMarks(t) && Enumerates(t, picks, PickIds(picks))
    requires t.id !in PickIds(picks) && TopClosed(t, {t.id} + PickIds(picks))
    ensures Weigh(t, w) + SumAll(Outside(t.kids, PickIds(picks)) + Rescue(picks, PickIds(picks)), w)
            + PickWeights(picks, w)
         == Sum(t, w)
  {
    var some := PickIds(picks);
    var ids := {t.id} + some;
    PartSum(t, picks, picks, some, ids, w);
    RescueSame(t, picks, some);
    assert some + {t.id} == ids;
    NodeSumTop(t, some, ids, w);
    forall k | k in t.kids ensures k.id != t.id && NoMarks(k) && (k.id in ids || ids !! Ids(k)) {
      KidUnder(t, k);
    }
    OutsideSame(t.kids, some, t.id);
    StripNothing(t.kids, ids);
    SumAllConcat(Outside(t.kids, some), Rescue(picks, some), w);
    TopClosedIsClustered(t, ids);
    ClusteredSum(t, ids, w);
  }

  function TransactionsInto(base: seq<Hash>, picks: seq<Tree>): seq<Hash> {
    if picks == [] then base else
    var last := |picks| - 1;
    TransactionsInto(base, picks[..last]) + picks[last].rec.transaction
  }

  function AccountsInto(base: seq<AccountID>, picks: seq<Tree>): seq<AccountID> {
    if picks == [] then base else
    var last := |picks| - 1;
    AccountsInto(base, picks[..last]) + picks[last].rec.accounts
  }

  lemma {:induction false} TransactionsIntoHas(base: seq<Hash>, picks: seq<Tree>, h: Hash)
    ensures h in TransactionsInto(base, picks) <==> h in base || PickWeights(picks, Holding(h)) > 0
    ensures PickWeights(picks, Holding(h)) >= 0
  {
    if picks != [] {
      TransactionsIntoHas(base, picks[..|picks| - 1], h);
    }
  }
}
