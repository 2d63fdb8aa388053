/** Turning a trace into a tree of bubbles (pkg/bath/bubble.go). */
module FromTrace {
  import opened Wrappers
  import opened Ledger
  import opened Bubbles
  import opened Traces
  import opened Sorting
  import opened TraceTrees

  method SortByCreatedLt(children: seq<Trace>) returns (s: seq<Trace>)
    ensures InOrder(s, children)
  {
    s := Sort(children, Before);
  }

  // ----- bubbles and what is below them -----

  /** The heap holds these trees, which share nothing. */
  ghost predicate Grown(kids: seq<Tree>)
    reads AllFeet(kids)
  {
    (forall k | k in kids :: Rep(k) && NoMarks(k)) && DistinctAll(kids)
  }

  ghost function AllFeet(kids: seq<Tree>): set<object> {
    set k, o | k in kids && o in Foot(k) :: o
  }

  lemma GrowMore(kids: seq<Tree>, k: Tree)
    requires Grown(kids) && Valid(k) && NoMarks(k) && AllFeet(kids) !! Foot(k)
    ensures Grown(kids + [k]) && AllFeet(kids + [k]) == AllFeet(kids) + Foot(k)
    ensures Roots(kids + [k]) == Roots(kids) + [k.id]
  {
    forall j | 0 <= j < |kids| ensures Foot(kids[j]) !! Foot(k) {
      assert kids[j] in kids;
    }
  }

  method Leaf(info: Info, accounts: seq<AccountID>, hash: Hash) returns (b: Bubble, ghost k: Tree)
    ensures Valid(k) && NoMarks(k) && k.id == b && fresh(Foot(k)) && AreLeaves([k], [BareRec(info, accounts, hash)])
  {
    var flow := new ValueFlow();
    b := new Bubble(info, accounts, [], flow, [hash]);
    k := Node(b, flow, BareRec(info, accounts, hash), []);
  }

  method AddLeaf(children: seq<Bubble>, info: Info, accounts: seq<AccountID>, hash: Hash, ghost ks: seq<Tree>)
    returns (children': seq<Bubble>, ghost k: Tree)
    requires Grown(ks) && children == Roots(ks)
    ensures Grown(ks + [k]) && children' == Roots(ks + [k]) && AreLeaves([k], [BareRec(info, accounts, hash)])
    ensures forall o | o in AllFeet(ks + [k]) && o !in AllFeet(ks) :: fresh(o)
  {
    ghost var feet := AllFeet(ks);
    assert allocated(feet) && allocated(ks);
    var b;
    b, k := Leaf(info, accounts, hash);
    assert feet !! Foot(k);
    assert Grown(ks);
    GrowMore(ks, k);
    children' := children + [b];
  }

  lemma MoreLeaves(a: seq<Tree>, r: seq<Rec>, b: seq<Tree>, q: seq<Rec>)
    requires AreLeaves(a, r) && AreLeaves(b, q)
    ensures AreLeaves(a + b, r + q)
  {
  }

  /** The bubbles for a deployment and for the wallet's extended actions. */
  method AppendBare(children: seq<Bubble>, trace: Trace, ghost kids: seq<Tree>)
    returns (bs: seq<Bubble>, ghost bare: seq<Tree>)
    requires Grown(kids) && children == Roots(kids)
    ensures Grown(kids + bare) && bs == Roots(kids + bare) && AreLeaves(bare, BareRecs(trace))
    ensures forall o | o in AllFeet(kids + bare) && o !in AllFeet(kids) :: fresh(o)
  {
    bs, bare := children, [];
    assert kids + bare == kids;
    if trace.deployed {
      ghost var k;
      bs, k := AddLeaf(bs, ContractDeploy(trace.account), [trace.account], trace.hash, kids + bare);
      bare := [k];
    }
    for i := 0 to |trace.extensions|
      invariant Grown(kids + bare) && bs == Roots(kids + bare)
      invariant AreLeaves(bare, DeployRecs(trace) + ExtensionRecs(trace, i))
      invariant forall o | o in AllFeet(kids + bare) && o !in AllFeet(kids) :: fresh(o)
    {
      ghost var k, before := *, AllFeet(kids + bare);
      bs, k := AddExtensionLeaf(bs, trace, i, kids + bare);
      MoreLeaves(bare, DeployRecs(trace) + ExtensionRecs(trace, i), [k], [ExtensionRec(trace, i)]);
      ExtensionMore(trace, i);
      assert kids + bare + [k] == kids + (bare + [k]);
      bare := bare + [k];
      forall o | o in AllFeet(kids + bare) && o !in AllFeet(kids) ensures fresh(o) {
        assert o in before || o !in before;
      }
    }
  }

  method AddExtensionLeaf(children: seq<Bubble>, trace: Trace, i: nat, ghost ks: seq<Tree>)
    returns (children': seq<Bubble>, ghost k: Tree)
    requires Grown(ks) && children == Roots(ks) && i < |trace.extensions|
    ensures Grown(ks + [k]) && children' == Roots(ks + [k]) && AreLeaves([k], [ExtensionRec(trace, i)])
    ensures forall o | o in AllFeet(ks + [k]) && o !in AllFeet(ks) :: fresh(o)
  {
    var e := trace.extensions[i];
    children', k := AddLeaf(children, ExtensionInfo(trace, e), ExtensionAccounts(trace, e), trace.hash, ks);
  }

  lemma ExtensionMore(trace: Trace, i: nat)
    requires i < |trace.extensions|
    ensures DeployRecs(trace) + ExtensionRecs(trace, i) + [ExtensionRec(trace, i)]
         == DeployRecs(trace) + ExtensionRecs(trace, i + 1)
  {
  }

  method Plant(info: Info, accounts: seq<AccountID>, bs: seq<Bubble>, flow: ValueFlow, hash: Hash, ghost ks: seq<Tree>)
    returns (b: Bubble, ghost t: Tree)
    requires Grown(ks) && bs == Roots(ks) && flow !in AllFeet(ks)
    ensures Valid(t) && NoMarks(t) && t.id == b && fresh(b) && Foot(t) <= {b, flow} + AllFeet(ks)
    ensures t.rec == Rec(info, accounts, flow.accounts, [hash], false) && t.kids == ks
  {
    ghost var feet := AllFeet(ks);
    assert allocated(feet) && allocated(ks);
    b := new Bubble(info, accounts, bs, flow, [hash]);
    assert Grown(ks);
    t := Node(b, flow, Rec(info, accounts, flow.accounts, [hash], false), ks);
    Planted(t);
  }

  lemma Planted(t: Tree)
    requires Here(t) && !t.rec.merged && Grown(t.kids) && t.id !in AllFeet(t.kids) && t.cell !in AllFeet(t.kids)
    ensures Valid(t) && NoMarks(t) && Foot(t) <= {t.id, t.cell} + AllFeet(t.kids)
  {
    forall k, o | k in t.kids && o in Foot(k) ensures o in AllFeet(t.kids) { }
    forall o | o in Foot(t) ensures o in {t.id, t.cell} + AllFeet(t.kids) { FootSplit(t, o); }
  }

  // ----- what the transaction sent and paid -----

  function OnlyGram(a: AccountID, gram: int): Accounts {
    map[a := NOTHING.(gram := gram)]
  }

  /** Takes from the flow what was sent with a delivered message, and its IHR fee from the fees as well. */
  method Deliver(flow: ValueFlow, trace: Trace, c: Trace, aggregatedFee: int, ghost gram: int) returns (fee: int)
    requires flow.accounts == OnlyGram(trace.account, gram)
    modifies flow
    ensures fee == aggregatedFee - InIhr(c) && flow.accounts == OnlyGram(trace.account, gram - InValue(c) - InIhr(c))
  {
    fee := aggregatedFee;
    if c.inMsg.Some? {
      flow.AddTons(trace.account, -c.inMsg.value.value);
      if !c.inMsg.value.ihrDisabled {
        fee := fee - c.inMsg.value.ihrFee;
        flow.AddTons(trace.account, -c.inMsg.value.ihrFee);
      }
    }
  }

  method Start(trace: Trace) returns (flow: ValueFlow)
    ensures fresh(flow) && flow.accounts == OnlyGram(trace.account, Credited(trace) - Total(trace.outMsgs, OutValue))
  {
    flow := new ValueFlow();
    flow.AddTons(trace.account, Credited(trace));
    for i := 0 to |trace.outMsgs|
      invariant flow.accounts == OnlyGram(trace.account, Credited(trace) - Total(trace.outMsgs[..i], OutValue))
    {
      TotalTake(trace.outMsgs, i, OutValue);
      flow.AddTons(trace.account, -trace.outMsgs[i].value);
    }
    assert trace.outMsgs[..|trace.outMsgs|] == trace.outMsgs;
  }

  lemma Charged(trace: Trace, children: seq<Trace>, aggregatedFee: int)
    requires multiset(children) == multiset(trace.children) && aggregatedFee == ChainFee(trace) - Total(children, InIhr)
    ensures aggregatedFee == AggregatedFee(trace)
    ensures Left(Credited(trace) - Total(trace.outMsgs, OutValue), children) - aggregatedFee == OwnGram(trace)
  {
    TotalPermuted(children, trace.children, InValue);
    TotalPermuted(children, trace.children, InIhr);
  }

  /** What is left of `gram` after these messages. */
  function Left(gram: int, sent: seq<Trace>): int {
    gram - Total(sent, InValue) - Total(sent, InIhr)
  }

  lemma LeftTake(gram: int, sent: seq<Trace>, i: nat)
    requires i < |sent|
    ensures Left(gram, sent[..i + 1]) == Left(gram, sent[..i]) - InValue(sent[i]) - InIhr(sent[i])
    ensures Total(sent[..i + 1], InIhr) == Total(sent[..i], InIhr) + InIhr(sent[i])
  {
    TotalTake(sent, i, InValue);
    TotalTake(sent, i, InIhr);
  }

  method DeliverNext(flow: ValueFlow, trace: Trace, order: seq<Trace>, i: nat, aggregatedFee: int, ghost gram: int)
    returns (fee: int)
    requires i < |order| && aggregatedFee == trace.totalFee - Total(order[..i], InIhr)
    requires flow.accounts == OnlyGram(trace.account, Left(gram, order[..i]))
    modifies flow
    ensures fee == trace.totalFee - Total(order[..i + 1], InIhr)
    ensures flow.accounts == OnlyGram(trace.account, Left(gram, order[..i + 1]))
  {
    LeftTake(gram, order, i);
    fee := Deliver(flow, trace, order[i], aggregatedFee, Left(gram, order[..i]));
  }

  // ----- the whole tree -----

  method FromTrace(trace: Trace, parent: Option<Trace>) returns (b: Bubble, ghost t: Tree)
    ensures Valid(t) && NoMarks(t) && t.id == b && fresh(Foot(t)) && Depicts(t, trace, parent)
    decreases trace, 2
  {
    var flow, aggregatedFee, bs;
    ghost var kids;
    flow, aggregatedFee, bs, kids := Below(trace);
    ghost var objects := {flow} + AllFeet(kids);
    assert fresh(objects);
    b, t := Root(trace, parent, bs, flow, aggregatedFee, kids);
    assert Foot(t) <= {b} + objects;
  }

  /** The transaction's own bubble, above these. */
  method Root(trace: Trace, parent: Option<Trace>, bs: seq<Bubble>, flow: ValueFlow, aggregatedFee: int,
              ghost ks: seq<Tree>)
    returns (b: Bubble, ghost t: Tree)
    requires Grown(ks) && bs == Roots(ks) && flow !in AllFeet(ks) && aggregatedFee == AggregatedFee(trace)
    requires flow.accounts == OnlyGram(trace.account, OwnGram(trace) + aggregatedFee)
    modifies flow
    ensures Valid(t) && NoMarks(t) && t.id == b && fresh(b) && Foot(t) <= {b, flow} + AllFeet(ks) && t.kids == ks
    ensures t.rec == RootRec(trace, parent)
  {
    ghost var feet := AllFeet(ks);
    assert allocated(feet) && allocated(ks);
    flow.AddFee(trace.account, aggregatedFee);
    assert Grown(ks);
    b, t := Plant(Tx(BubbleTxOf(trace, parent)), AccountsOfTrace(trace, parent), bs, flow, trace.hash, ks);
  }

  /** These are the trees of the transactions below `parent`. */
  ghost predicate AllDepict(kids: seq<Tree>, order: seq<Trace>, parent: Trace) {
    |kids| == |order| && forall i | 0 <= i < |order| :: Depicts(kids[i], order[i], Some(parent))
  }

  lemma IsForest(kids: seq<Tree>, order: seq<Trace>, bare: seq<Tree>, trace: Trace)
    requires AllDepict(kids, order, trace) && AreLeaves(bare, BareRecs(trace)) && InOrder(order, trace.children)
    ensures DepictsKids(kids + bare, order, trace)
  {
    assert (kids + bare)[|order|..] == bare;
    forall i | 0 <= i < |order| ensures order[i] in trace.children { InChildren(order, i, trace); }
  }

  /** What the transaction sent and paid, and all the bubbles below its own. */
  method Below(trace: Trace) returns (flow: ValueFlow, aggregatedFee: int, bs: seq<Bubble>, ghost kids: seq<Tree>)
    ensures Grown(kids) && bs == Roots(kids) && fresh(AllFeet(kids))
    ensures fresh(flow) && flow !in AllFeet(kids) && aggregatedFee == AggregatedFee(trace)
    ensures flow.accounts == OnlyGram(trace.account, OwnGram(trace) + aggregatedFee)
    ensures exists order :: InOrder(order, trace.children) && DepictsKids(kids, order, trace)
    decreases trace, 1
  {
    flow := Start(trace);
    var children := SortByCreatedLt(trace.children);
    ghost var grown;
    aggregatedFee, bs, grown := Grow(flow, trace, children);
    ghost var feet := AllFeet(grown);
    assert allocated(feet) && allocated(grown) && flow !in feet;
    ghost var bare;
    bs, bare := AppendBare(bs, trace, grown);
    kids := grown + bare;
    if trace.action.Some? {
      // the full forward fees in place of the part that the action phase collects
      aggregatedFee := aggregatedFee + trace.action.value.fwdFees;
      aggregatedFee := aggregatedFee - trace.action.value.totalFees;
    }
    Charged(trace, children, aggregatedFee);
    IsForest(grown, children, bare, trace);
    forall o | o in AllFeet(kids) ensures fresh(o) { assert o in feet || o !in feet; }
  }

  method GrowOne(trace: Trace, parent: Trace, order: seq<Trace>, i: nat, bs: seq<Bubble>, ghost kids: seq<Tree>)
    returns (bs': seq<Bubble>, ghost kids': seq<Tree>)
    requires i < |order| && order[i] == trace && trace < parent
    requires Grown(kids) && bs == Roots(kids) && AllDepict(kids, order[..i], parent)
    ensures Grown(kids') && bs' == Roots(kids') && AllDepict(kids', order[..i + 1], parent)
    ensures forall o | o in AllFeet(kids') && o !in AllFeet(kids) :: fresh(o)
    decreases trace, 3
  {
    ghost var k, feet := *, AllFeet(kids);
    assert allocated(feet) && allocated(kids);
    var c;
    c, k := FromTrace(trace, Some(parent));
    assert feet !! Foot(k);
    assert Grown(kids);
    GrowMore(kids, k);
    bs', kids' := bs + [c], kids + [k];
  }

  /** The children's trees, in order. */
  method Grow(flow: ValueFlow, trace: Trace, children: seq<Trace>)
    returns (aggregatedFee: int, bs: seq<Bubble>, ghost kids: seq<Tree>)
    requires InOrder(children, trace.children)
    requires flow.accounts == OnlyGram(trace.account, Credited(trace) - Total(trace.outMsgs, OutValue))
    modifies flow
    ensures aggregatedFee == trace.totalFee - Total(children, InIhr)
    ensures flow.accounts
         == OnlyGram(trace.account, Left(Credited(trace) - Total(trace.outMsgs, OutValue), children))
    ensures Grown(kids) && bs == Roots(kids) && fresh(AllFeet(kids)) && AllDepict(kids, children, trace)
    decreases trace, 0
  {
    ghost var gram := Credited(trace) - Total(trace.outMsgs, OutValue);
    aggregatedFee, bs, kids := trace.totalFee, [], [];
    for i := 0 to |children|
      invariant aggregatedFee == trace.totalFee - Total(children[..i], InIhr)
      invariant flow.accounts == OnlyGram(trace.account, Left(gram, children[..i]))
      invariant Grown(kids) && bs == Roots(kids) && fresh(AllFeet(kids)) && AllDepict(kids, children[..i], trace)
    {
      ghost var feet := AllFeet(kids);
      assert allocated(feet) && allocated(kids);
      InChildren(children, i, trace);
      aggregatedFee := DeliverNext(flow, trace, children, i, aggregatedFee, gram);
      assert Grown(kids);
      bs, kids := GrowOne(children[i], trace, children, i, bs, kids);
    }
    assert children[..|children|] == children;
  }
}
