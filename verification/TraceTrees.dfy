/** The tree that a trace is turned into (pkg/bath/bubble.go), and what it carries. */
module TraceTrees {
  import opened Wrappers
  import opened Ledger
  import opened Bubbles
  import opened Traces
  import opened Sorting

  // ----- the order of the children -----

  /** A child without an inbound message is before nothing and after nothing. */
  predicate Before(a: Trace, b: Trace) {
    a.inMsg.Some? && b.inMsg.Some? && a.inMsg.value.createdLt < b.inMsg.value.createdLt
  }

  predicate AllDelivered(s: seq<Trace>) {
    forall i | 0 <= i < |s| :: s[i].inMsg.Some?
  }

  /** The children in the order in which their bubbles appear: by creation, if all were delivered. */
  ghost predicate InOrder(order: seq<Trace>, children: seq<Trace>) {
    multiset(order) == multiset(children) && (AllDelivered(children) ==> Sorted(order, Before))
  }

  lemma InChildren(order: seq<Trace>, i: nat, trace: Trace)
    requires multiset(order) == multiset(trace.children) && i < |order|
    ensures order[i] in trace.children && order[i] < trace
  {
    assert order[i] in multiset(order);
  }

  // ----- the bubbles of one transaction -----

  function SourceOf(trace: Trace, parent: Option<Trace>): Option<Account> {
    if trace.inMsg.None? || trace.inMsg.value.source.None? then None else
    Some(Account(trace.inMsg.value.source.value, if parent.Some? then parent.value.interfaces else {}))
  }

  function BubbleTxOf(trace: Trace, parent: Option<Trace>): BubbleTx {
    var msg := trace.inMsg;
    BubbleTx(
      trace.success,
      InValue(trace) + InIhr(trace),
      SourceOf(trace, parent),
      msg.None? || msg.value.external,
      Account(trace.account, trace.interfaces),
      if msg.Some? then msg.value.opCode else None,
      if msg.Some? then msg.value.decodedBody else None,
      trace.jettonMasters,
      exists i :: 0 <= i < |trace.outMsgs| && trace.outMsgs[i].external && trace.outMsgs[i].dedustSwap)
  }

  function AccountsOfTrace(trace: Trace, parent: Option<Trace>): seq<AccountID> {
    var source := SourceOf(trace, parent);
    if source.Some? then [trace.account, source.value.address] else [trace.account]
  }

  function ExtensionInfo(trace: Trace, e: Extension): Info {
    match e
    case Added(a) => AddExtension(trace.account, a, trace.success)
    case Removed(a) => RemoveExtension(trace.account, a, trace.success)
    case SignatureAllowed(allowed) => SetSignatureAllowed(trace.account, allowed, trace.success)
  }

  function ExtensionAccounts(trace: Trace, e: Extension): seq<AccountID> {
    if e.SignatureAllowed? then [trace.account] else [trace.account, e.address]
  }

  /** The bubble of the transaction itself. */
  function RootRec(trace: Trace, parent: Option<Trace>): Rec {
    Rec(Tx(BubbleTxOf(trace, parent)), AccountsOfTrace(trace, parent),
        map[trace.account := NOTHING.(gram := OwnGram(trace), fees := AggregatedFee(trace))], [trace.hash], false)
  }

  /** A bubble without a flow that lists only the transaction. */
  function BareRec(info: Info, accounts: seq<AccountID>, hash: Hash): Rec {
    Rec(info, accounts, map[], [hash], false)
  }

  function DeployRecs(trace: Trace): seq<Rec> {
    if trace.deployed then [BareRec(ContractDeploy(trace.account), [trace.account], trace.hash)] else []
  }

  function ExtensionRecs(trace: Trace, n: nat): seq<Rec>
    requires n <= |trace.extensions|
  {
    seq(n, i requires 0 <= i < n => ExtensionRec(trace, i))
  }

  function ExtensionRec(trace: Trace, i: nat): Rec
    requires i < |trace.extensions|
  {
    var e := trace.extensions[i];
    BareRec(ExtensionInfo(trace, e), ExtensionAccounts(trace, e), trace.hash)
  }

  /** The bubbles after the children's: the deployment, then the wallet's extended actions. */
  function BareRecs(trace: Trace): seq<Rec> {
    DeployRecs(trace) + ExtensionRecs(trace, |trace.extensions|)
  }

  /** Bubbles with these fields and no children. */
  ghost predicate AreLeaves(ks: seq<Tree>, recs: seq<Rec>) {
    |ks| == |recs| && forall i | 0 <= i < |ks| :: ks[i].kids == [] && ks[i].rec == recs[i]
  }

  // ----- the tree of a trace -----

  /** `t` is the tree of `trace`: its own bubble, below it the trees of the children in order, then the bare bubbles. */
  ghost predicate Depicts(t: Tree, trace: Trace, parent: Option<Trace>)
    decreases trace, 1
  {
    && t.rec == RootRec(trace, parent)
    && exists order :: InOrder(order, trace.children) && DepictsKids(t.kids, order, trace)
  }

  ghost predicate DepictsKids(kids: seq<Tree>, order: seq<Trace>, trace: Trace)
    decreases trace, 0
  {
    && |kids| == |order| + |BareRecs(trace)| && AreLeaves(kids[|order|..], BareRecs(trace))
    && (forall i | 0 <= i < |order| :: order[i] in trace.children && Depicts(kids[i], order[i], Some(trace)))
  }

  // ----- what the tree carries -----

  function Expected(t: Trace, x: Ledger.Asset): int {
    match x
    case Grams(a) => TraceSum(t, GramAt(a))
    case Fees(a) => TraceSum(t, FeeAt(a))
    case _ => 0
  }

  function ExpectedAll(ts: seq<Trace>, x: Ledger.Asset): int {
    match x
    case Grams(a) => TraceSumAll(ts, GramAt(a))
    case Fees(a) => TraceSumAll(ts, FeeAt(a))
    case _ => 0
  }

  /** The flows of the tree say what the transactions of the trace did, and its bubbles list these transactions. */
  ghost predicate Carries(t: Tree, trace: Trace) {
    && (forall x: Ledger.Asset :: Sum(t, Asset(x)) == Expected(trace, x))
    && (forall h: Hash :: Sum(t, Holding(h)) > 0 <==> TraceSum(trace, Having(h)) > 0)
  }

  ghost predicate CarriesAll(kids: seq<Tree>, ts: seq<Trace>) {
    && (forall x: Ledger.Asset :: SumAll(kids, Asset(x)) == ExpectedAll(ts, x))
    && (forall h: Hash :: SumAll(kids, Holding(h)) > 0 <==> TraceSumAll(ts, Having(h)) > 0)
  }

  lemma {:induction false} HavingNonNegative(ts: seq<Trace>, h: Hash)
    ensures TraceSumAll(ts, Having(h)) >= 0
  {
    if ts != [] {
      HavingNonNegative(ts[0].children, h);
      HavingNonNegative(ts[1..], h);
    }
  }

  lemma CarriesMore(kids: seq<Tree>, ts: seq<Trace>, i: nat, k: Tree)
    requires i < |ts| && CarriesAll(kids, ts[..i]) && Carries(k, ts[i])
    ensures CarriesAll(kids + [k], ts[..i + 1])
  {
    forall x: Ledger.Asset ensures SumAll(kids + [k], Asset(x)) == ExpectedAll(ts[..i + 1], x) {
      OneMore(kids, k, Asset(x));
      match x
      case Grams(a) => TraceSumTake(ts, i, GramAt(a));
      case Fees(a) => TraceSumTake(ts, i, FeeAt(a));
      case _ =>
    }
    forall h: Hash ensures SumAll(kids + [k], Holding(h)) > 0 <==> TraceSumAll(ts[..i + 1], Having(h)) > 0 {
      OneMore(kids, k, Holding(h));
      TraceSumTake(ts, i, Having(h));
      SumAllNonNegative(kids, Holding(h));
      SumNonNegative(k, Holding(h));
      HavingNonNegative(ts[..i], h);
      HavingNonNegative(ts[i].children, h);
    }
  }

  lemma OneMore(kids: seq<Tree>, k: Tree, w: Weight)
    ensures SumAll(kids + [k], w) == SumAll(kids, w) + Sum(k, w)
  {
    SumAllConcat(kids, [k], w);
    assert SumAll([k], w) == Sum(k, w);
  }

  /** Bubbles without children and without a flow add only the transaction itself. */
  lemma {:induction false} BareSums(ks: seq<Tree>, recs: seq<Rec>, hash: Hash, x: Ledger.Asset, h: Hash)
    requires AreLeaves(ks, recs) && forall r | r in recs :: r.flow == map[] && r.transaction == [hash]
    ensures SumAll(ks, Asset(x)) == 0
    ensures h != hash ==> SumAll(ks, Holding(h)) == 0
  {
    if ks != [] {
      assert recs[0] in recs && SumAll(ks[0].kids, Asset(x)) == 0 && SumAll(ks[0].kids, Holding(h)) == 0;
      BareSums(ks[1..], recs[1..], hash, x, h);
    }
  }

  lemma BareRecsAre(trace: Trace)
    ensures forall r | r in BareRecs(trace) :: r.flow == map[] && r.transaction == [trace.hash]
  {
  }

  /** The root's own flow, its children's trees in any order of delivery, and bare bubbles carry the trace. */
  lemma CarriesTrace(t: Tree, trace: Trace, children: seq<Trace>, kids: seq<Tree>, bare: seq<Tree>)
    requires multiset(children) == multiset(trace.children) && CarriesAll(kids, children)
    requires AreLeaves(bare, BareRecs(trace)) && t.kids == kids + bare && t.rec.transaction == [trace.hash]
    requires t.rec.flow == map[trace.account := NOTHING.(gram := OwnGram(trace), fees := AggregatedFee(trace))]
    ensures Carries(t, trace)
  {
    BareRecsAre(trace);
    forall x: Ledger.Asset ensures Sum(t, Asset(x)) == Expected(trace, x) {
      SumAllConcat(kids, bare, Asset(x));
      BareSums(bare, BareRecs(trace), trace.hash, x, 0);
      assert SumAll(kids, Asset(x)) == ExpectedAll(children, x);
      OwnAmount(trace, children, x);
    }
    forall h: Hash ensures Sum(t, Holding(h)) > 0 <==> TraceSum(trace, Having(h)) > 0 {
      SumAllConcat(kids, bare, Holding(h));
      BareSums(bare, BareRecs(trace), trace.hash, Grams(trace.account), h);
      SumAllNonNegative(kids, Holding(h));
      SumAllNonNegative(bare, Holding(h));
      assert SumAll(kids, Holding(h)) > 0 <==> TraceSumAll(children, Having(h)) > 0;
      TraceSumPermuted(children, trace.children, Having(h));
      HavingNonNegative(trace.children, h);
    }
  }

  lemma OwnAmount(trace: Trace, children: seq<Trace>, x: Ledger.Asset)
    requires multiset(children) == multiset(trace.children)
    ensures Expected(trace, x)
         == Amount(map[trace.account := NOTHING.(gram := OwnGram(trace), fees := AggregatedFee(trace))], x)
          + ExpectedAll(children, x)
  {
    match x
    case Grams(a) => TraceSumPermuted(children, trace.children, GramAt(a));
    case Fees(a) => TraceSumPermuted(children, trace.children, FeeAt(a));
    case _ =>
  }

  /** The tree of a trace carries it. */
  lemma {:induction false} DepictsCarries(t: Tree, trace: Trace, parent: Option<Trace>)
    requires Depicts(t, trace, parent)
    ensures Carries(t, trace)
    decreases trace
  {
    var order :| InOrder(order, trace.children) && DepictsKids(t.kids, order, trace);
    var n := |order|;
    forall i | 0 <= i < n ensures Carries(t.kids[i], order[i]) {
      InChildren(order, i, trace);
      DepictsCarries(t.kids[i], order[i], Some(trace));
    }
    KidsCarry(t.kids, order);
    assert t.kids == t.kids[..n] + t.kids[n..];
    CarriesTrace(t, trace, order, t.kids[..n], t.kids[n..]);
  }

  lemma KidsCarry(kids: seq<Tree>, ts: seq<Trace>)
    requires |ts| <= |kids| && forall i | 0 <= i < |ts| :: Carries(kids[i], ts[i])
    ensures CarriesAll(kids[..|ts|], ts)
  {
    AllCarry(kids[..|ts|], ts, |ts|);
    assert ts[..|ts|] == ts && kids[..|ts|][..|ts|] == kids[..|ts|];
  }

  lemma {:induction false} AllCarry(kids: seq<Tree>, ts: seq<Trace>, n: nat)
    requires n <= |kids| == |ts| && forall i | 0 <= i < n :: Carries(kids[i], ts[i])
    ensures CarriesAll(kids[..n], ts[..n])
  {
    if n > 0 {
      AllCarry(kids, ts, n - 1);
      CarriesMore(kids[..n - 1], ts, n - 1, kids[n - 1]);
      assert kids[..n - 1] + [kids[n - 1]] == kids[..n];
    }
  }

  // ----- which accounts its bubbles list -----

  lemma InvolvingNonNegative(t: Trace, a: AccountID, h: Hash)
    ensures TraceSum(t, Involving(a, h)) >= 0
  {
    InvolvingAllNonNegative(t.children, a, h);
  }

  lemma {:induction false} InvolvingAllNonNegative(ts: seq<Trace>, a: AccountID, h: Hash)
    ensures TraceSumAll(ts, Involving(a, h)) >= 0
  {
    if ts != [] {
      InvolvingAllNonNegative(ts[0].children, a, h);
      InvolvingAllNonNegative(ts[1..], a, h);
    }
  }

  lemma {:induction false} SomeInvolves(ts: seq<Trace>, a: AccountID, h: Hash) returns (i: nat)
    requires TraceSumAll(ts, Involving(a, h)) > 0
    ensures i < |ts| && TraceSum(ts[i], Involving(a, h)) > 0
  {
    i := 0;
    if TraceSum(ts[0], Involving(a, h)) <= 0 {
      i := SomeInvolves(ts[1..], a, h);
      i := i + 1;
    }
  }

  /** The bubbles made of one transaction list every account that it involves. */
  lemma OwnListing(t: Tree, trace: Trace, parent: Option<Trace>, order: seq<Trace>, a: AccountID)
    requires t.rec == RootRec(trace, parent) && DepictsKids(t.kids, order, trace) && Involves(trace, a)
    ensures Sum(t, Listing(a, trace.hash)) > 0
  {
    var w := Listing(a, trace.hash);
    SumAllNonNegative(t.kids, w);
    if a !in t.rec.accounts {
      var i :| 0 <= i < |trace.extensions| && !trace.extensions[i].SignatureAllowed?
        && trace.extensions[i].address == a;
      BareListing(t.kids[|order|..], trace, i);
      SumAllConcat(t.kids[..|order|], t.kids[|order|..], w);
      SumAllNonNegative(t.kids[..|order|], w);
      assert t.kids == t.kids[..|order|] + t.kids[|order|..];
    }
  }

  lemma BareListing(bare: seq<Tree>, trace: Trace, i: nat)
    requires AreLeaves(bare, BareRecs(trace)) && i < |trace.extensions| && !trace.extensions[i].SignatureAllowed?
    ensures SumAll(bare, Listing(trace.extensions[i].address, trace.hash)) > 0
  {
    var n := |DeployRecs(trace)| + i;
    assert bare[n].rec == BareRecs(trace)[n] == ExtensionRec(trace, i);
    SumAllNonNegative(bare[n].kids, Listing(trace.extensions[i].address, trace.hash));
    KidSumBelow(bare, n, Listing(trace.extensions[i].address, trace.hash));
  }

  lemma ChildInvolves(order: seq<Trace>, trace: Trace, a: AccountID, h: Hash) returns (i: nat)
    requires multiset(order) == multiset(trace.children)
    requires TraceSum(trace, Involving(a, h)) > 0 && !(trace.hash == h && Involves(trace, a))
    ensures i < |order| && order[i] < trace && TraceSum(order[i], Involving(a, h)) > 0
  {
    TraceSumPermuted(order, trace.children, Involving(a, h));
    i := SomeInvolves(order, a, h);
    InChildren(order, i, trace);
  }

  /** Every transaction is listed together with every account that it involves. */
  lemma {:induction false} DepictsListings(t: Tree, trace: Trace, parent: Option<Trace>, a: AccountID, h: Hash)
    requires Depicts(t, trace, parent) && TraceSum(trace, Involving(a, h)) > 0
    ensures Sum(t, Listing(a, h)) > 0
    decreases trace
  {
    var w := Listing(a, h);
    var order :| InOrder(order, trace.children) && DepictsKids(t.kids, order, trace);
    SumAllNonNegative(t.kids, w);
    if trace.hash == h && Involves(trace, a) {
      OwnListing(t, trace, parent, order, a);
    } else {
      var i := ChildInvolves(order, trace, a, h);
      DepictsListings(t.kids[i], order[i], Some(trace), a, h);
      KidSumBelow(t.kids, i, w);
    }
  }

  lemma {:induction false} KidSumBelow(ks: seq<Tree>, i: nat, w: Weight)
    requires i < |ks| && !w.Asset?
    ensures SumAll(ks, w) >= Sum(ks[i], w)
  {
    SumAllNonNegative(ks[1..], w);
    SumNonNegative(ks[0], w);
    if i > 0 { KidSumBelow(ks[1..], i - 1, w); }
  }

  // ----- what can be read back -----

  /** The wallet's action that a bubble stands for. */
  function ExtensionRead(info: Info): seq<Extension> {
    match info
    case AddExtension(_, a, _) => [Added(a)]
    case RemoveExtension(_, a, _) => [Removed(a)]
    case SetSignatureAllowed(_, allowed, _) => [SignatureAllowed(allowed)]
    case _ => []
  }

  function ExtensionsRead(infos: seq<Info>): seq<Extension> {
    if infos == [] then [] else ExtensionRead(infos[0]) + ExtensionsRead(infos[1..])
  }

  function InfosOf(ks: seq<Tree>): seq<Info> {
    seq(|ks|, i requires 0 <= i < |ks| => ks[i].rec.info)
  }

  /** The bubble of a transaction says what the transaction was and what message it received. */
  ghost predicate TellsTransaction(tx: BubbleTx, trace: Trace) {
    && tx.account == Account(trace.account, trace.interfaces) && tx.success == trace.success
    && tx.jettonMasters == trace.jettonMasters
    && (tx.swapReported <==> exists m :: m in trace.outMsgs && m.external && m.dedustSwap)
    && match trace.inMsg
       case None =>
         tx.external && tx.inputAmount == 0 && tx.inputFrom == None && tx.opCode == None && tx.decodedBody == None
       case Some(m) =>
         && tx.external == m.external && tx.opCode == m.opCode && tx.decodedBody == m.decodedBody
         && tx.inputAmount == m.value + (if m.ihrDisabled then 0 else m.ihrFee)
         && (tx.inputFrom.Some? <==> m.source.Some?)
         && (m.source.Some? ==> tx.inputFrom.value.address == m.source.value)
  }

  lemma TransactionTold(trace: Trace, parent: Option<Trace>)
    ensures TellsTransaction(BubbleTxOf(trace, parent), trace)
  {
    assert BubbleTxOf(trace, parent).swapReported ==>
        exists i :: 0 <= i < |trace.outMsgs| && trace.outMsgs[i].external && trace.outMsgs[i].dedustSwap;
  }

  /** The tree of a trace tells back what the transaction was and what its wallet was asked to do, in order. */
  lemma {:induction false} DepictsReadsBack(t: Tree, trace: Trace, parent: Option<Trace>)
    requires Depicts(t, trace, parent)
    ensures t.rec.info.Tx? && TellsTransaction(t.rec.info.tx, trace) && t.rec.transaction == [trace.hash]
    ensures ExtensionsRead(InfosOf(t.kids)) == trace.extensions
    ensures trace.deployed <==> ContractDeploy(trace.account) in InfosOf(t.kids)
  {
    TransactionTold(trace, parent);
    var order :| InOrder(order, trace.children) && DepictsKids(t.kids, order, trace);
    KidsReadBack(t.kids, order, trace);
  }

  lemma KidsReadBack(kids: seq<Tree>, order: seq<Trace>, trace: Trace)
    requires multiset(order) == multiset(trace.children) && DepictsKids(kids, order, trace)
    ensures ExtensionsRead(InfosOf(kids)) == trace.extensions
    ensures trace.deployed <==> ContractDeploy(trace.account) in InfosOf(kids)
  {
    assert kids == kids[..|order|] + kids[|order|..];
    KidsAreTransactions(kids[..|order|], order, trace);
    BareReadsBack(kids[|order|..], trace);
    KidsThenBare(kids[..|order|], kids[|order|..]);
  }

  lemma KidsAreTransactions(kids: seq<Tree>, order: seq<Trace>, trace: Trace)
    requires |kids| == |order| && forall i | 0 <= i < |order| ::
             order[i] < trace && Depicts(kids[i], order[i], Some(trace))
    ensures forall i | 0 <= i < |kids| :: kids[i].rec.info.Tx?
  {
  }

  lemma KidsThenBare(kids: seq<Tree>, bare: seq<Tree>)
    requires forall i | 0 <= i < |kids| :: kids[i].rec.info.Tx?
    ensures ExtensionsRead(InfosOf(kids + bare)) == ExtensionsRead(InfosOf(bare))
    ensures forall a :: ContractDeploy(a) in InfosOf(kids + bare) <==> ContractDeploy(a) in InfosOf(bare)
  {
    assert InfosOf(kids + bare) == InfosOf(kids) + InfosOf(bare);
    ReadConcat(InfosOf(kids), InfosOf(bare));
    NoneRead(InfosOf(kids));
  }

  lemma BareReadsBack(bare: seq<Tree>, trace: Trace)
    requires AreLeaves(bare, BareRecs(trace))
    ensures ExtensionsRead(InfosOf(bare)) == trace.extensions
    ensures trace.deployed <==> ContractDeploy(trace.account) in InfosOf(bare)
  {
    var deploys := if trace.deployed then [ContractDeploy(trace.account)] else [];
    var asked := Asked(trace, trace.extensions);
    assert InfosOf(bare) == deploys + asked;
    if trace.deployed { assert InfosOf(bare)[0] == ContractDeploy(trace.account); }
    ReadConcat(deploys, asked);
    NoneRead(deploys);
    AskedRead(trace, trace.extensions);
  }

  function Asked(trace: Trace, es: seq<Extension>): seq<Info> {
    seq(|es|, i requires 0 <= i < |es| => ExtensionInfo(trace, es[i]))
  }

  lemma {:induction false} AskedRead(trace: Trace, es: seq<Extension>)
    ensures ExtensionsRead(Asked(trace, es)) == es
  {
    if es != [] {
      AskedRead(trace, es[1..]);
      assert Asked(trace, es)[1..] == Asked(trace, es[1..]);
    }
  }

  lemma {:induction false} NoneRead(infos: seq<Info>)
    requires forall i | 0 <= i < |infos| :: ExtensionRead(infos[i]) == []
    ensures ExtensionsRead(infos) == []
  {
    if infos != [] { NoneRead(infos[1..]); }
  }

  lemma {:induction false} ReadConcat(a: seq<Info>, b: seq<Info>)
    ensures ExtensionsRead(a + b) == ExtensionsRead(a) + ExtensionsRead(b)
  {
    if a == [] {
      assert a + b == b;
    } else {
      assert (a + b)[1..] == a[1..] + b;
      ReadConcat(a[1..], b);
    }
  }
}
