/** Collecting the actions and the flow of a merged tree (pkg/bath/actions.go). */
module Collecting {
  import opened Wrappers
  import opened Ledger
  import opened Bubbles
  import opened Sorting
  import opened Actions
  import Patterns

  // ----- an action's transactions -----

  /** The first eight bytes decide the order. */
  function Key(h: Hash): nat { h % 0x1_0000_0000_0000_0000 }

  predicate KeyBefore(a: Hash, b: Hash) { Key(a) < Key(b) }

  /** Drops every hash that equals the one before it. */
  function Compacted(s: seq<Hash>): seq<Hash> {
    if |s| <= 1 then s
    else if s[|s| - 2] == s[|s| - 1] then Compacted(s[..|s| - 1])
    else Compacted(s[..|s| - 1]) + [s[|s| - 1]]
  }

  lemma {:induction false} CompactedKeeps(s: seq<Hash>)
    ensures |Compacted(s)| <= |s| && forall h :: h in Compacted(s) <==> h in s
    ensures s != [] ==> Compacted(s) != [] && Compacted(s)[|Compacted(s)| - 1] == s[|s| - 1]
    ensures forall i | 0 < i < |Compacted(s)| :: Compacted(s)[i - 1] != Compacted(s)[i]
  {
    if |s| > 1 {
      var init := s[..|s| - 1];
      CompactedKeeps(init);
      assert s == init + [s[|s| - 1]];
    }
  }

  method Compact(s: seq<Hash>) returns (r: seq<Hash>)
    ensures r == Compacted(s)
  {
    r := if s == [] then [] else [s[0]];
    assert s == [] || s[..1] == [s[0]];
    for i := 1 to |s| + if s == [] then 1 else 0
      invariant s != [] ==> r == Compacted(s[..i])
      invariant s == [] ==> r == []
    {
      assert s[..i + 1][..i] == s[..i];
      if s[i - 1] != s[i] {
        r := r + [s[i]];
      }
    }
    assert s[..|s|] == s;
  }

  /** The transactions listed by an action: those of its bubble, in order, neighbours never equal. */
  ghost predicate Tidies(base: seq<Hash>, transaction: seq<Hash>) {
    && (forall h :: h in base <==> h in transaction)
    && Sorted(base, KeyBefore)
    && forall i | 0 < i < |base| :: base[i - 1] != base[i]
  }

  lemma {:induction false} CompactedSorted(s: seq<Hash>)
    requires Sorted(s, KeyBefore)
    ensures Sorted(Compacted(s), KeyBefore)
  {
    if |s| > 1 {
      CompactedSorted(s[..|s| - 1]);
      CompactedKeeps(s[..|s| - 1]);
    }
  }

  method Tidy(transaction: seq<Hash>) returns (base: seq<Hash>)
    ensures Tidies(base, transaction) && |base| <= |transaction|
  {
    var sorted := Sort(transaction, KeyBefore);
    Members(sorted, transaction);
    base := Compact(sorted);
    CompactedKeeps(sorted);
    CompactedSorted(sorted);
  }

  /** If different transactions differ in their first eight bytes, none is listed twice. */
  lemma TidyIsUnique(base: seq<Hash>, transaction: seq<Hash>)
    requires Tidies(base, transaction)
    requires forall g, h | g in transaction && h in transaction && Key(g) == Key(h) :: g == h
    ensures forall i, j | 0 <= i < j < |base| :: base[i] != base[j]
  {
    forall i, j | 0 <= i < j < |base| ensures base[i] != base[j] {
      assert Key(base[i]) <= Key(base[i + 1]) && (i + 1 < j ==> Key(base[i + 1]) <= Key(base[j]));
      assert base[i] in transaction && base[i + 1] in transaction;
    }
  }

  // ----- the flow of a tree -----

  function FlowOf(t: Tree): Accounts {
    Merged(FlowOfAll(t.kids), t.rec.flow)
  }

  function FlowOfAll(ts: seq<Tree>): Accounts {
    if ts == [] then map[] else
    var last := |ts| - 1;
    Merged(FlowOfAll(ts[..last]), FlowOf(ts[last]))
  }

  /** The collected flow is the sum over all bubbles, one number at a time. */
  lemma {:induction false} FlowOfAmount(t: Tree, x: Ledger.Asset)
    ensures Amount(FlowOf(t), x) == Sum(t, Asset(x))
  {
    FlowOfAllAmount(t.kids, x);
    MergedAmount(FlowOfAll(t.kids), t.rec.flow, x);
  }

  lemma {:induction false} FlowOfAllAmount(ts: seq<Tree>, x: Ledger.Asset)
    ensures Amount(FlowOfAll(ts), x) == SumAll(ts, Asset(x))
  {
    if ts != [] {
      var last := |ts| - 1;
      FlowOfAllAmount(ts[..last], x);
      FlowOfAmount(ts[last], x);
      MergedAmount(FlowOfAll(ts[..last]), FlowOf(ts[last]), x);
      SumAllTake(ts, last, Asset(x));
      assert ts[..last + 1] == ts;
    }
  }

  // ----- which bubbles become actions -----

  type ToAction = Info -> Option<Action>

  predicate IsShown(r: Rec, forAccount: Option<AccountID>, toAction: ToAction) {
    (forAccount.None? || forAccount.value in r.accounts) && toAction(r.info).Some?
  }

  /** The bubbles that become actions, in pre-order. */
  function Shown(t: Tree, forAccount: Option<AccountID>, toAction: ToAction): seq<Tree> {
    (if IsShown(t.rec, forAccount, toAction) then [t] else []) + ShownAll(t.kids, forAccount, toAction)
  }

  function ShownAll(ts: seq<Tree>, forAccount: Option<AccountID>, toAction: ToAction): seq<Tree> {
    if ts == [] then [] else
    var last := |ts| - 1;
    ShownAll(ts[..last], forAccount, toAction) + Shown(ts[last], forAccount, toAction)
  }

  lemma {:induction false} ShownWhenShown(t: Tree, n: Tree, forAccount: Option<AccountID>, toAction: ToAction)
    requires n in Nodes(t) && IsShown(n.rec, forAccount, toAction)
    ensures n in Shown(t, forAccount, toAction)
  {
    if n != t {
      var i :| 0 <= i < |t.kids| && n in Nodes(t.kids[i]);
      ShownWhenShown(t.kids[i], n, forAccount, toAction);
      ShownPrefix(t.kids, i, n, forAccount, toAction);
    }
  }

  lemma {:induction false} ShownPrefix(ts: seq<Tree>, i: nat, n: Tree, forAccount: Option<AccountID>,
                                       toAction: ToAction)
    requires i < |ts| && n in Shown(ts[i], forAccount, toAction)
    ensures n in ShownAll(ts, forAccount, toAction)
  {
    var last := |ts| - 1;
    if i < last { ShownPrefix(ts[..last], i, n, forAccount, toAction); }
  }

  lemma {:induction false} ShownIsNode(t: Tree, n: Tree, forAccount: Option<AccountID>, toAction: ToAction)
    requires n in Shown(t, forAccount, toAction)
    ensures n in Nodes(t) && IsShown(n.rec, forAccount, toAction)
    decreases t, 1
  {
    if !(IsShown(t.rec, forAccount, toAction) && n == t) {
      var k := ShownAllIsNode(t.kids, n, forAccount, toAction);
      KidUnder(t, k);
    }
  }

  lemma {:induction false} ShownAllIsNode(ts: seq<Tree>, n: Tree, forAccount: Option<AccountID>, toAction: ToAction)
    returns (k: Tree)
    requires n in ShownAll(ts, forAccount, toAction)
    ensures k in ts && n in Nodes(k) && IsShown(n.rec, forAccount, toAction)
    decreases ts, 0
  {
    var last := |ts| - 1;
    if n in ShownAll(ts[..last], forAccount, toAction) {
      k := ShownAllIsNode(ts[..last], n, forAccount, toAction);
    } else {
      k := ts[last];
      ShownIsNode(k, n, forAccount, toAction);
    }
  }

  /** A bubble is shown if and only if its info makes an action and it lists the account that is asked for. */
  lemma {:induction false} ShownExactly(t: Tree, n: Tree, forAccount: Option<AccountID>, toAction: ToAction)
    ensures n in Shown(t, forAccount, toAction)
            <==> n in Nodes(t) && toAction(n.rec.info) != None
                 && (forAccount == None
                     || exists i :: 0 <= i < |n.rec.accounts| && Some(n.rec.accounts[i]) == forAccount)
  {
    if n in Shown(t, forAccount, toAction) { ShownIsNode(t, n, forAccount, toAction); }
    if n in Nodes(t) && IsShown(n.rec, forAccount, toAction) { ShownWhenShown(t, n, forAccount, toAction); }
  }

  ghost predicate Once(ts: seq<Tree>) {
    forall i, j | 0 <= i < j < |ts| :: ts[i] != ts[j]
  }

  lemma OnceConcat(a: seq<Tree>, b: seq<Tree>)
    requires Once(a) && Once(b) && forall n | n in a :: n !in b
    ensures Once(a + b)
  {
    forall i, j | 0 <= i < j < |a + b| ensures (a + b)[i] != (a + b)[j] {
      if i < |a| && j >= |a| { assert a[i] in a && b[j - |a|] in b; }
    }
  }

  /** No bubble is shown twice. */
  lemma {:induction false} ShownOnce(t: Tree, forAccount: Option<AccountID>, toAction: ToAction)
    requires Distinct(t)
    ensures Once(Shown(t, forAccount, toAction))
    decreases t, 1
  {
    var own, rest := if IsShown(t.rec, forAccount, toAction) then [t] else [], ShownAll(t.kids, forAccount, toAction);
    ShownAllOnce(t, |t.kids|, forAccount, toAction);
    assert t.kids[..|t.kids|] == t.kids;
    forall n | n in rest ensures n != t {
      var k := ShownAllIsNode(t.kids, n, forAccount, toAction);
      KidUnder(t, k);
      assert t.id !in Ids(k) && n.id in Ids(k);
    }
    OnceConcat(own, rest);
  }

  lemma {:induction false} ShownAllOnce(t: Tree, m: nat, forAccount: Option<AccountID>, toAction: ToAction)
    requires Distinct(t) && m <= |t.kids|
    ensures Once(ShownAll(t.kids[..m], forAccount, toAction))
    decreases t, 0, m
  {
    if m > 0 {
      var last := m - 1;
      var before, now := ShownAll(t.kids[..last], forAccount, toAction), Shown(t.kids[last], forAccount, toAction);
      ShownAllOnce(t, last, forAccount, toAction);
      ShownOnce(t.kids[last], forAccount, toAction);
      assert t.kids[..m][..last] == t.kids[..last];
      forall n | n in before ensures n !in now {
        var k := ShownAllIsNode(t.kids[..last], n, forAccount, toAction);
        var i :| 0 <= i < last && t.kids[i] == k;
        Patterns.Apart(t, i, last);
        assert n.id in Ids(k) && n.id !in Ids(t.kids[last]);
        if n in now { ShownIsNode(t.kids[last], n, forAccount, toAction); }
      }
      OnceConcat(before, now);
    }
  }

  /** These are the actions of these bubbles, one each, in order. */
  ghost predicate ActionsFor(actions: seq<Action>, shown: seq<Tree>, toAction: ToAction) {
    |actions| == |shown| && forall i | 0 <= i < |shown| ::
      && toAction(shown[i].rec.info).Some?
      && Tidies(actions[i].base, shown[i].rec.transaction)
      && actions[i] == toAction(shown[i].rec.info).value.(base := actions[i].base)
  }

  lemma ActionsConcat(a: seq<Action>, s: seq<Tree>, b: seq<Action>, u: seq<Tree>, toAction: ToAction)
    requires ActionsFor(a, s, toAction) && ActionsFor(b, u, toAction)
    ensures ActionsFor(a + b, s + u, toAction)
  {
  }

  ghost function FeetFrom(t: Tree, i: nat): set<object> {
    set j, o | i <= j < |t.kids| && o in Foot(t.kids[j]) :: o
  }

  /** The children from `i` on are as they were. */
  ghost predicate Ahead(t: Tree, i: nat)
    reads FeetFrom(t, i)
  {
    forall j | i <= j < |t.kids| :: Rep(t.kids[j])
  }

  method Show(bubble: Bubble, forAccount: Option<AccountID>, toAction: ToAction, ghost t: Tree)
    returns (actions: seq<Action>)
    requires Rep(t) && Distinct(t) && t.id == bubble
    modifies bubble`transaction
    ensures ActionsFor(actions, if IsShown(t.rec, forAccount, toAction) then [t] else [], toAction)
    ensures |bubble.transaction| == |t.rec.transaction|
  {
    assert Here(t) by { assert t in Nodes(t); }
    actions := [];
    if forAccount.None? || forAccount.value in bubble.accounts {
      var a := toAction(bubble.info);
      if a.Some? {
        var base := Tidy(bubble.transaction);
        // compacting clears the rest of the array
        bubble.transaction := base + seq(|bubble.transaction| - |base|, _ => 0);
        actions := [a.value.(base := base)];
      }
    }
  }

  lemma AheadAll(t: Tree)
    requires Rep(t) && Distinct(t)
    ensures Ahead(t, 0) && t.id !in FeetFrom(t, 0) && FeetFrom(t, 0) <= Foot(t)
  {
    forall k | k in t.kids ensures Rep(k) && Foot(k) <= Foot(t) { KidUnder(t, k); }
  }

  lemma FeetIn(t: Tree, i: nat)
    ensures FeetFrom(t, i) <= Foot(t)
  {
    forall k | k in t.kids ensures Foot(k) <= Foot(t) { KidUnder(t, k); }
  }

  lemma ShownTake(t: Tree, i: nat, first: seq<Tree>, forAccount: Option<AccountID>, toAction: ToAction)
    requires i < |t.kids|
    ensures FlowOfAll(t.kids[..i + 1]) == Merged(FlowOfAll(t.kids[..i]), FlowOf(t.kids[i]))
    ensures first + ShownAll(t.kids[..i + 1], forAccount, toAction)
         == first + ShownAll(t.kids[..i], forAccount, toAction) + Shown(t.kids[i], forAccount, toAction)
  {
    assert t.kids[..i + 1][..i] == t.kids[..i];
  }

  /** The actions of the bubble itself and of its first `i` children. */
  ghost predicate Collected(actions: seq<Action>, t: Tree, i: nat, forAccount: Option<AccountID>, toAction: ToAction)
    requires i <= |t.kids|
  {
    var first := if IsShown(t.rec, forAccount, toAction) then [t] else [];
    ActionsFor(actions, first + ShownAll(t.kids[..i], forAccount, toAction), toAction)
  }

  lemma CollectedNone(actions: seq<Action>, t: Tree, forAccount: Option<AccountID>, toAction: ToAction)
    requires ActionsFor(actions, if IsShown(t.rec, forAccount, toAction) then [t] else [], toAction)
    ensures Collected(actions, t, 0, forAccount, toAction)
  {
    var first := if IsShown(t.rec, forAccount, toAction) then [t] else [];
    assert first + ShownAll(t.kids[..0], forAccount, toAction) == first;
  }

  lemma CollectedTake(actions: seq<Action>, more: seq<Action>, t: Tree, i: nat, forAccount: Option<AccountID>,
                      toAction: ToAction)
    requires i < |t.kids| && Collected(actions, t, i, forAccount, toAction)
    requires ActionsFor(more, Shown(t.kids[i], forAccount, toAction), toAction)
    ensures Collected(actions + more, t, i + 1, forAccount, toAction)
    ensures FlowOfAll(t.kids[..i + 1]) == Merged(FlowOfAll(t.kids[..i]), FlowOf(t.kids[i]))
  {
    var first := if IsShown(t.rec, forAccount, toAction) then [t] else [];
    ShownTake(t, i, first, forAccount, toAction);
    ActionsConcat(actions, first + ShownAll(t.kids[..i], forAccount, toAction),
                  more, Shown(t.kids[i], forAccount, toAction), toAction);
  }

  lemma CollectedEvery(actions: seq<Action>, t: Tree, forAccount: Option<AccountID>, toAction: ToAction)
    requires Collected(actions, t, |t.kids|, forAccount, toAction)
    ensures ActionsFor(actions, Shown(t, forAccount, toAction), toAction)
    ensures FlowOf(t) == Merged(FlowOfAll(t.kids[..|t.kids|]), t.rec.flow)
  {
    assert t.kids[..|t.kids|] == t.kids;
  }

  method CollectKid(bubble: Bubble, i: nat, forAccount: Option<AccountID>, toAction: ToAction, ghost t: Tree)
    returns (actions: seq<Action>, valueFlow: ValueFlow)
    requires Distinct(t) && i < |t.kids| && bubble == t.kids[i].id && Ahead(t, i)
    modifies Ids(t.kids[i])`transaction
    ensures ActionsFor(actions, Shown(t.kids[i], forAccount, toAction), toAction) && Ahead(t, i + 1)
    ensures fresh(valueFlow) && valueFlow.accounts == FlowOf(t.kids[i])
    decreases t, 0
  {
    assert allocated(Foot(t)) && allocated(Nodes(t));
    ghost var k := t.kids[i];
    KidUnder(t, k);
    IdsInFoot(k);
    ghost var feet := FeetFrom(t, i + 1);
    assert feet !! Ids(k) && allocated(feet);
    assert Rep(k) && Distinct(k) && Ahead(t, i + 1);
    actions, valueFlow := CollectActionsAndValueFlow(bubble, forAccount, toAction, k);
    assert Ahead(t, i + 1);
  }

  method CollectActionsAndValueFlow(bubble: Bubble, forAccount: Option<AccountID>, toAction: ToAction, ghost t: Tree)
    returns (actions: seq<Action>, valueFlow: ValueFlow)
    requires Valid(t) && t.id == bubble
    modifies Ids(t)`transaction
    ensures ActionsFor(actions, Shown(t, forAccount, toAction), toAction)
    ensures fresh(valueFlow) && valueFlow.accounts == FlowOf(t)
    decreases t, 1
  {
    assert allocated(Foot(t)) && allocated(Nodes(t));
    valueFlow := new ValueFlow();
    assert Here(t) by { assert t in Nodes(t); }
    assert t.id in Ids(t);
    AheadAll(t);
    actions := Show(bubble, forAccount, toAction, t);
    CollectedNone(actions, t, forAccount, toAction);
    for i := 0 to |bubble.children|
      invariant Ahead(t, i) && Top(t) && valueFlow !in Foot(t)
      invariant valueFlow.accounts == FlowOfAll(t.kids[..i])
      invariant Collected(actions, t, i, forAccount, toAction)
    {
      assert allocated(Foot(t)) && allocated(Nodes(t));
      KidUnder(t, t.kids[i]);
      var childActions, childValueFlow := CollectKid(bubble.children[i], i, forAccount, toAction, t);
      AddKid(valueFlow, childValueFlow, i + 1, t);
      CollectedTake(actions, childActions, t, i, forAccount, toAction);
      actions := actions + childActions;
    }
    CollectedEvery(actions, t, forAccount, toAction);
    valueFlow.Merge(bubble.valueFlow);
  }

  /** What the loop reads of the bubble itself. */
  ghost predicate Top(t: Tree)
    reads t.id, t.cell
  {
    t.id.children == Roots(t.kids) && t.id.valueFlow == t.cell && t.cell.accounts == t.rec.flow
  }

  method AddKid(valueFlow: ValueFlow, more: ValueFlow, i: nat, ghost t: Tree)
    requires Ahead(t, i) && Top(t) && valueFlow !in Foot(t) && valueFlow != more && t.cell in Foot(t)
    modifies valueFlow
    ensures Ahead(t, i) && Top(t) && valueFlow.accounts == Merged(old(valueFlow.accounts), more.accounts)
  {
    assert allocated(Foot(t)) && allocated(Nodes(t));
    FeetIn(t, i);
    ghost var feet := FeetFrom(t, i);
    assert allocated(feet) && valueFlow !in feet;
    valueFlow.Merge(more);
    assert Ahead(t, i);
  }
}
