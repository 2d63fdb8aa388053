/** Running mergers over the mutable tree until none applies (pkg/bath/bath.go). */
module MergeAll {
  import opened Bubbles
  import opened Patterns
  import opened StonfiMerges
  import opened DedustRoutes
  import opened Fixpoint
  import Matcher
  import StonfiMerger
  import DedustMerger

  /** A merger strays when a builder fails on a match or a bubble would be taken twice. */
  datatype Result = Nothing | Done | Strayed

  const NO_ORDERS: Orders := Orders(Visit([], []), [])

  /** Merge of the one merger at the root. */
  method MergeAt(m: Merger, b: Bubble, ghost t: Tree) returns (r: Result, ghost t': Tree, ghost o: Orders)
    requires Valid(t) && NoMarks(t) && t.id == b && InScope(m)
    modifies Foot(t)
    ensures r == Nothing <==> !Applies(m, t)
    ensures r == Nothing ==> t' == t && Rep(t)
    ensures r == Strayed ==> Applies(m, t) && !Cleanly(m, t)
    ensures r == Done ==> MergedAt(m, t, t', o) && t'.id == t.id && Valid(t') && NoMarks(t')
    ensures r == Done ==> forall x | x in Foot(t') && x !in Foot(t) :: fresh(x)
  {
    assert allocated(Foot(t)) && allocated(Nodes(t));
    assert t in Nodes(t) && t.id in Foot(t) && t.cell in Foot(t);
    IdsInFoot(t);
    o := NO_ORDERS;
    match m
    case Generic(p) =>
      var outcome;
      outcome, t' := Matcher.Merge(p, b, t);
      r := if outcome.NotMatched? then Nothing else if outcome.Rewritten? then Done else Strayed;
    case UniversalStonfi =>
      var ok;
      ghost var main, failed;
      ok, t', main, failed := StonfiMerger.Merge(b, t);
      o := Orders(main, failed);
      r := if ok then Done else Nothing;
    case UniversalDedust =>
      var ok, twice;
      ok, twice, t' := DedustMerger.Merge(b, t);
      r := if !ok then Nothing else if twice then Strayed else Done;
  }

  // ----- a merge somewhere below -----

  /** The objects of the nodes that are not below child i. */
  ghost function FootBeside(t: Tree, i: nat): set<object>
    requires i < |t.kids|
  {
    (set n | n in Nodes(t) && n !in Nodes(t.kids[i]) :: n.id as object)
    + (set n | n in Nodes(t) && n !in Nodes(t.kids[i]) :: n.cell as object)
  }

  lemma {:induction false} BesideKid(t: Tree, i: nat, n: Tree)
    requires Distinct(t) && i < |t.kids| && n in Nodes(t) && n !in Nodes(t.kids[i])
    ensures n.id !in Foot(t.kids[i]) && n.cell !in Foot(t.kids[i])
  {
    RootApart(t, i);
    if n != t {
      var j :| 0 <= j < |t.kids| && n in Nodes(t.kids[j]);
      NodeInFoot(t.kids[j], n);
      FeetApart(t, i, j);
    }
  }

  lemma RootApart(t: Tree, i: nat)
    requires Distinct(t) && i < |t.kids|
    ensures t.id !in Foot(t.kids[i]) && t.cell !in Foot(t.kids[i])
  {
    assert t.kids[i] in t.kids;
  }

  lemma FeetApart(t: Tree, i: nat, j: nat)
    requires Distinct(t) && i < |t.kids| && j < |t.kids| && i != j
    ensures Foot(t.kids[i]) !! Foot(t.kids[j])
  {
  }

  lemma NodeInFoot(t: Tree, n: Tree)
    requires n in Nodes(t)
    ensures n.id in Foot(t) && n.cell in Foot(t)
  {
  }

  /** They are none of the child's objects. */
  lemma BesideIsApart(t: Tree, i: nat)
    requires Distinct(t) && i < |t.kids|
    ensures FootBeside(t, i) !! Foot(t.kids[i]) && FootBeside(t, i) <= Foot(t)
  {
    forall n | n in Nodes(t) && n !in Nodes(t.kids[i])
      ensures n.id !in Foot(t.kids[i]) && n.cell !in Foot(t.kids[i]) && n.id in Foot(t) && n.cell in Foot(t)
    {
      BesideKid(t, i, n);
      NodeInFoot(t, n);
    }
  }

  /** The heap holds all of `t` that is not below child i. */
  ghost predicate HereBeside(t: Tree, i: nat)
    requires i < |t.kids|
    reads FootBeside(t, i)
  {
    forall n | n in Nodes(t) && n !in Nodes(t.kids[i]) :: Here(n)
  }

  lemma RepSplits(t: Tree, i: nat)
    requires i < |t.kids|
    ensures Rep(t) <==> HereBeside(t, i) && Rep(t.kids[i])
  {
    KidUnder(t, t.kids[i]);
  }

  /** A child may be replaced by a tree made of its own and of new objects. */
  lemma {:induction false} KidReplaced(t: Tree, i: nat, k: Tree)
    requires Distinct(t) && NoMarks(t) && i < |t.kids| && Distinct(k) && NoMarks(k)
    requires forall x | x in Foot(k) && x in Foot(t) :: x in Foot(t.kids[i])
    ensures var t' := t.(kids := t.kids[i := k]); Distinct(t') && NoMarks(t') && Foot(t') <= Foot(t) + Foot(k)
  {
    var t' := t.(kids := t.kids[i := k]);
    DistinctBySums(t);
    DistinctBySums(k);
    forall o ensures Sum(t', At(o)) <= 1 { ObjectReplaced(t, i, k, o); }
    DistinctBySums(t');
    MarksReplaced(t, i, k);
    forall o | o in Foot(t') ensures o in Foot(t) + Foot(k) {
      assert Sum(t, At(o)) <= 1 && Sum(k, At(o)) <= 1;
      ObjectReplaced(t, i, k, o);
    }
  }

  lemma ObjectReplaced(t: Tree, i: nat, k: Tree, o: object)
    requires i < |t.kids| && Sum(t, At(o)) <= 1 && Sum(k, At(o)) <= 1
    requires o in Foot(k) && o in Foot(t) ==> o in Foot(t.kids[i])
    ensures var t' := t.(kids := t.kids[i := k]); Sum(t', At(o)) <= 1 && (o in Foot(t') ==> o in Foot(t) + Foot(k))
  {
    KidSum(t, i, k, At(o));
    SumAt(t, o);
    SumAt(k, o);
    SumAt(t.kids[i], o);
    SumAt(t.(kids := t.kids[i := k]), o);
    SumNonNegative(t.kids[i], At(o));
    SumNonNegative(k, At(o));
  }

  lemma MarksReplaced(t: Tree, i: nat, k: Tree)
    requires i < |t.kids| && NoMarks(t) && NoMarks(k)
    ensures NoMarks(t.(kids := t.kids[i := k]))
  {
    var t' := t.(kids := t.kids[i := k]);
    MarksBySum(t);
    MarksBySum(k);
    MarksBySum(t');
    KidSum(t, i, k, Marks);
    SumNonNegative(t.kids[i], Marks);
    SumNonNegative(t', Marks);
  }

  lemma NodesReplaced(t: Tree, i: nat, k: Tree, n: Tree)
    requires i < |t.kids| && n in Nodes(t.(kids := t.kids[i := k])) && n != t.(kids := t.kids[i := k])
    requires Distinct(t)
    ensures n in Nodes(k) || (n in Nodes(t) && n != t && n !in Nodes(t.kids[i]))
  {
    var t' := t.(kids := t.kids[i := k]);
    var j :| 0 <= j < |t'.kids| && n in Nodes(t'.kids[j]);
    if j != i {
      KidUnder(t, t.kids[j]);
      Smaller(t.kids[j], n);
      Apart(t, i, j);
      assert n.id in Ids(t.kids[j]);
      NotIn(t.kids[i], n);
    }
  }

  lemma NotIn(t: Tree, n: Tree)
    requires n.id !in Ids(t)
    ensures n !in Nodes(t)
  {
  }

  /** If the heap holds the new child and everything beside the old one, it holds the new tree. */
  lemma RepReplaced(t: Tree, i: nat, k: Tree)
    requires Distinct(t) && i < |t.kids| && Rep(k) && k.id == t.kids[i].id
    requires HereBeside(t, i) && t !in Nodes(t.kids[i])
    ensures Rep(t.(kids := t.kids[i := k]))
  {
    var t' := t.(kids := t.kids[i := k]);
    assert t in Nodes(t) && Here(t);
    assert Roots(t'.kids) == Roots(t.kids);
    forall n | n in Nodes(t') ensures Here(n) {
      if n != t' { NodesReplaced(t, i, k, n); }
    }
  }

  /** recursiveMerge: the first bubble in pre-order that the merger takes. */
  method RecursiveMerge(m: Merger, b: Bubble, ghost t: Tree)
    returns (r: Result, ghost t': Tree, ghost o: Orders, ghost at: Tree)
    requires Valid(t) && NoMarks(t) && t.id == b && InScope(m)
    modifies Foot(t)
    ensures r == Nothing ==> Idle(m, t) && t' == t && Rep(t)
    ensures r == Strayed ==> StraysAt(m, t, at)
    ensures r == Done ==> Rewrites(m, t, t', o) && t'.id == t.id && Valid(t') && NoMarks(t')
    ensures r == Done ==> forall x | x in Foot(t') && x !in Foot(t) :: fresh(x)
    decreases t, 2
  {
    assert allocated(Foot(t)) && allocated(Nodes(t));
    at := t;
    r, t', o := MergeAt(m, b, t);
    if r == Nothing {
      r, t', o, at := MergeKids(m, b, t);
    }
  }

  /** The children in order, until the merger takes something below one of them. */
  method MergeKids(m: Merger, b: Bubble, ghost t: Tree)
    returns (r: Result, ghost t': Tree, ghost o: Orders, ghost at: Tree)
    requires Valid(t) && NoMarks(t) && t.id == b && InScope(m) && !Applies(m, t)
    modifies Foot(t)
    ensures r == Nothing ==> Idle(m, t) && t' == t && Rep(t)
    ensures r == Strayed ==> StraysAt(m, t, at)
    ensures r == Done ==> Rewrites(m, t, t', o) && t'.id == t.id && Valid(t') && NoMarks(t')
    ensures r == Done ==> forall x | x in Foot(t') && x !in Foot(t) :: fresh(x)
    decreases t, 1
  {
    r, t', o, at := Nothing, t, NO_ORDERS, t;
    assert Here(t) by { assert t in Nodes(t); }
    for i := 0 to |b.children|
      invariant r == Nothing && t' == t && Rep(t) && |b.children| == |t.kids|
      invariant IdleBefore(m, t, i)
    {
      assert allocated(Foot(t)) && allocated(Nodes(t));
      ghost var k;
      KidUnder(t, t.kids[i]);
      r, k, o, at := MergeKid(m, b, i, t);
      if r == Done {
        t' := t.(kids := t.kids[i := k]);
        RewritesKid(m, t, i, k, o);
      } else if r == Strayed {
        StraysKid(m, t, i, at);
      }
      if r != Nothing {
        return;
      }
      IdleMore(m, t, i);
      assert Here(t) by { assert t in Nodes(t); }
    }
    IdleAll(m, t);
  }

  method MergeKid(m: Merger, b: Bubble, i: nat, ghost t: Tree)
    returns (r: Result, ghost k: Tree, ghost o: Orders, ghost at: Tree)
    requires Valid(t) && NoMarks(t) && t.id == b && InScope(m) && i < |t.kids|
    modifies Foot(t.kids[i])
    ensures r == Nothing ==> Idle(m, t.kids[i]) && Rep(t)
    ensures r == Strayed ==> StraysAt(m, t.kids[i], at)
    ensures r == Done ==> Rewrites(m, t.kids[i], k, o)
    ensures r == Done ==> var t' := t.(kids := t.kids[i := k]); Valid(t') && NoMarks(t')
    ensures r == Done ==> forall x | x in Foot(t.(kids := t.kids[i := k])) && x !in Foot(t) :: fresh(x)
    decreases t, 0
  {
    assert allocated(Foot(t)) && allocated(Nodes(t));
    StonfiMerger.KidHere(t, i);
    KidUnder(t, t.kids[i]);
    RepSplits(t, i);
    BesideIsApart(t, i);
    ghost var beside := FootBeside(t, i);
    assert allocated(beside) && HereBeside(t, i);
    r, k, o, at := RecursiveMerge(m, b.children[i], t.kids[i]);
    assert HereBeside(t, i);
    RepSplits(t, i);
    if r == Done { KidMerged(t, i, k); }
  }

  lemma RewritesKid(m: Merger, t: Tree, i: nat, k: Tree, o: Orders)
    requires !Applies(m, t) && i < |t.kids| && IdleBefore(m, t, i) && Rewrites(m, t.kids[i], k, o)
    ensures Rewrites(m, t, t.(kids := t.kids[i := k]), o)
  {
    var t' := t.(kids := t.kids[i := k]);
    assert t'.kids[i] == k;
    assert Rewrites(m, t.kids[i], t'.kids[i], o);
  }

  lemma StraysKid(m: Merger, t: Tree, i: nat, at: Tree)
    requires !Applies(m, t) && i < |t.kids| && IdleBefore(m, t, i) && StraysAt(m, t.kids[i], at)
    ensures StraysAt(m, t, at)
  {
  }

  lemma IdleMore(m: Merger, t: Tree, i: nat)
    requires i < |t.kids| && IdleBefore(m, t, i) && Idle(m, t.kids[i])
    ensures IdleBefore(m, t, i + 1)
  {
  }

  lemma IdleAll(m: Merger, t: Tree)
    requires !Applies(m, t) && IdleBefore(m, t, |t.kids|)
    ensures Idle(m, t)
  {
  }

  ghost predicate IdleBefore(m: Merger, t: Tree, i: nat)
    requires i <= |t.kids|
  {
    forall j | 0 <= j < i :: Idle(m, t.kids[j])
  }

  lemma KidMerged(t: Tree, i: nat, k: Tree)
    requires Distinct(t) && NoMarks(t) && i < |t.kids| && HereBeside(t, i) && k.id == t.kids[i].id
    requires Valid(k) && NoMarks(k) && forall x | x in Foot(k) && x in Foot(t) :: x in Foot(t.kids[i])
    ensures var t' := t.(kids := t.kids[i := k]); Valid(t') && NoMarks(t') && Foot(t') <= Foot(t) + Foot(k)
  {
    KidIsLower(t, i);
    KidReplaced(t, i, k);
    RepReplaced(t, i, k);
  }

  lemma KidIsLower(t: Tree, i: nat)
    requires i < |t.kids|
    ensures t !in Nodes(t.kids[i])
  {
    if t in Nodes(t.kids[i]) { Smaller(t.kids[i], t); }
  }

  // ----- whole runs -----

  ghost predicate RunsTo(m: Merger, run: Run, t: Tree, t': Tree) {
    IsRun(m, run) && run.First() == t && run.Last() == t'
  }

  lemma RunOn(m: Merger, run: Run, t: Tree, t': Tree, next: Tree, o: Orders) returns (run': Run)
    requires MakesProgress(m) && RunsTo(m, run, t, t') && Rewrites(m, t', next, o) && IsTree(t') && IsTree(next)
    ensures RunsTo(m, run', t, next) && Measure(m, next) < Measure(m, t')
  {
    ChainOn(run, Success(m), IsTree, next, o);
    RewritesKeeps(m, t', next, o);
    run' := Run(run.trees + [next], run.orders + [o]);
  }

  /** One merger, until it finds nothing more to merge. */
  method RunToEnd(m: Merger, b: Bubble, ghost t: Tree)
    returns (strayed: bool, ghost t': Tree, ghost run: Run, ghost at: Tree)
    requires Valid(t) && NoMarks(t) && t.id == b && MakesProgress(m)
    modifies Foot(t)
    ensures RunsTo(m, run, t, t')
    ensures if strayed then StraysAt(m, t', at) else Idle(m, t')
    ensures !strayed ==> t'.id == t.id && Valid(t') && NoMarks(t')
    ensures !strayed ==> forall x | x in Foot(t') && x !in Foot(t) :: fresh(x)
  {
    assert allocated(Foot(t)) && allocated(Nodes(t));
    var r := Done;
    t', run, at := t, Run([t], []), t;
    while r == Done
      invariant r != Strayed ==> Valid(t') && NoMarks(t') && t'.id == t.id
      invariant r != Strayed ==> forall x | x in Foot(t') && x !in Foot(t) :: fresh(x)
      invariant RunsTo(m, run, t, t')
      invariant r == Nothing ==> Idle(m, t')
      invariant r == Strayed ==> StraysAt(m, t', at)
      decreases Measure(m, t'), r == Done
    {
      assert allocated(Foot(t')) && allocated(Nodes(t'));
      ghost var next, o;
      r, next, o, at := RecursiveMerge(m, b, t');
      if r == Done {
        run := RunOn(m, run, t, t', next, o);
        t' := next;
      }
    }
    strayed := r == Strayed;
  }

  /** All mergers of the list in turn, each to its end. */
  method MergeAllBubbles(b: Bubble, straws: seq<Merger>, ghost t: Tree)
    returns (strayed: bool, ghost t': Tree, ghost runs: seq<Run>, ghost at: Tree)
    requires Valid(t) && NoMarks(t) && t.id == b && forall m | m in straws :: MakesProgress(m)
    modifies Foot(t)
    ensures strayed ==> Strays(straws, t, runs, at)
    ensures !strayed ==> Settles(straws, t, runs, t') && t'.id == t.id && Valid(t') && NoMarks(t')
    ensures !strayed ==> forall x | x in Foot(t') && x !in Foot(t) :: fresh(x)
  {
    assert allocated(Foot(t)) && allocated(Nodes(t));
    strayed, t', runs, at := false, t, [], t;
    for i := 0 to |straws|
      invariant !strayed && Settles(straws[..i], t, runs, t') && t'.id == t.id && Valid(t') && NoMarks(t')
      invariant forall x | x in Foot(t') && x !in Foot(t) :: fresh(x)
    {
      assert allocated(Foot(t')) && allocated(Nodes(t'));
      ghost var run;
      assert straws[i] in straws;
      strayed, t', run, at := RunToEnd(straws[i], b, t');
      assert straws[..i + 1][..i] == straws[..i] && (runs + [run])[..i] == runs;
      runs := runs + [run];
      if strayed {
        return;
      }
    }
    assert straws[..|straws|] == straws;
  }

  /** With builders that accept what their checks let through, only the Dedust merger strays, on a tree it has reached
      in which a payout is taken twice. */
  lemma {:induction false} StraysOnlyOnDuplicates(straws: seq<Merger>, t: Tree, runs: seq<Run>, at: Tree)
    requires forall m | m in straws && m.Generic? :: BuildersSucceed(m.p.straw)
    requires Strays(straws, t, runs, at)
    ensures var i := |runs| - 1;
            straws[i] == UniversalDedust && at in Nodes(runs[i].Last()) && TakesPayoutTwice(at)
  {
    var i := |runs| - 1;
    assert straws[i] in straws;
    StraysInside(straws[i], runs[i].Last(), at);
    if straws[i].Generic? { NeverStuck(straws[i].p, at); }
  }
}
