/** From a trace to actions and the flow of funds (pkg/bath/bath.go). */
module FindActions {
  import opened Wrappers
  import opened Ledger
  import opened Bubbles
  import opened Fixpoint
  import opened Traces
  import opened Actions
  import opened Collecting
  import opened DedustRoutes
  import MergeAll
  import opened TraceTrees
  import FromTrace
  import NoZeros

  /** The flow says for every account what the transactions of the trace did to it. */
  ghost predicate Reports(flow: Accounts, trace: Trace) {
    forall a :: && Amount(flow, Grams(a)) == TraceSum(trace, GramAt(a))
                && Amount(flow, Fees(a)) == TraceSum(trace, FeeAt(a))
  }

  /** Every transaction that involves the account is listed by an action. */
  ghost predicate ListsAll(actions: seq<Action>, trace: Trace, account: AccountID) {
    forall h | TraceSum(trace, Involving(account, h)) > 0 :: exists i :: 0 <= i < |actions| && h in actions[i].base
  }

  /** The actions list only transactions of the trace, and all of them if every bubble becomes an action. */
  ghost predicate Lists(actions: seq<Action>, trace: Trace, all: bool) {
    && (forall i, h | 0 <= i < |actions| && h in actions[i].base :: TraceSum(trace, Having(h)) > 0)
    && (all ==> forall h | TraceSum(trace, Having(h)) > 0 :: exists i :: 0 <= i < |actions| && h in actions[i].base)
  }

  /** `at` is the tree that is left when all mergers have run to their ends, or the bubble at which one strayed. */
  method FindActions(trace: Trace, straws: seq<Merger>, account: Option<AccountID>, toAction: ToAction)
    returns (strayed: bool, actions: seq<Action>, flow: ValueFlow, ghost t: Tree, ghost runs: seq<Run>, ghost at: Tree)
    requires forall m | m in straws :: MakesProgress(m)
    ensures Depicts(t, trace, None) && IsTree(t)
    ensures strayed ==> Strays(straws, t, runs, at)
    ensures !strayed ==> Settles(straws, t, runs, at) && flow.accounts == FlowOf(at)
    ensures !strayed ==> ActionsFor(actions, Shown(at, account, toAction), toAction)
    ensures !strayed ==> Reports(flow.accounts, trace)
    ensures !strayed ==> Lists(actions, trace, account.None? && forall i :: toAction(i).Some?)
    ensures !strayed && account.Some? && (forall i :: toAction(i).Some?) ==> ListsAll(actions, trace, account.value)
    ensures !strayed ==> NoZeroJettons(flow.accounts)
    ensures |runs| <= |straws|
    ensures BuildersNeverFail(straws) && NoDuplicateReached(straws, runs) ==> !strayed
  {
    var bubble;
    ghost var t';
    bubble, t := FromTrace.FromTrace(trace, None);
    DepictsCarries(t, trace, None);
    strayed, t', runs, at := MergeAll.MergeAllBubbles(bubble, straws, t);
    if strayed {
      StraysMeans(straws, t, runs, at);
      flow := new ValueFlow();
      return true, [], flow, t, runs, at;
    }
    assert allocated(Foot(t')) && allocated(Nodes(t'));
    actions, flow := CollectActionsAndValueFlow(bubble, account, toAction, t');
    SettledKeeps(straws, t, runs, t');
    NoZeros.DepictsNoZeros(t, trace, None);
    NoZeros.SettledNoZeros(straws, t, runs, t');
    NoZeros.FlowOfNoZero(t');
    Reported(trace, t, t');
    Listed(trace, t, t', account, toAction, actions);
    at := t';
    if account.Some? && forall i :: toAction(i).Some? {
      ListedFor(trace, t, t', account.value, toAction, actions);
    }
  }

  ghost predicate BuildersNeverFail(straws: seq<Merger>) {
    forall m | m in straws && m.Generic? :: BuildersSucceed(m.p.straw)
  }

  /** No tree that the Dedust merger has reached has a bubble whose payout it would take twice. */
  ghost predicate NoDuplicateReached(straws: seq<Merger>, runs: seq<Run>)
    requires |runs| <= |straws|
  {
    forall i, n | 0 <= i < |runs| && straws[i].UniversalDedust? && runs[i].trees != [] && n in Nodes(runs[i].Last()) ::
      !TakesPayoutTwice(n)
  }

  lemma StraysMeans(straws: seq<Merger>, t: Tree, runs: seq<Run>, at: Tree)
    requires Strays(straws, t, runs, at)
    ensures BuildersNeverFail(straws) ==> !NoDuplicateReached(straws, runs)
  {
    if BuildersNeverFail(straws) {
      MergeAll.StraysOnlyOnDuplicates(straws, t, runs, at);
      assert straws[|runs| - 1].UniversalDedust? && runs[|runs| - 1].trees != []
             && at in Nodes(runs[|runs| - 1].Last());
    }
  }

  lemma Reported(trace: Trace, t: Tree, t': Tree)
    requires Carries(t, trace)
    requires forall x: Ledger.Asset | !x.Jettons? :: Sum(t', Asset(x)) == Sum(t, Asset(x))
    ensures Reports(FlowOf(t'), trace)
  {
    forall a ensures Amount(FlowOf(t'), Grams(a)) == TraceSum(trace, GramAt(a))
                  && Amount(FlowOf(t'), Fees(a)) == TraceSum(trace, FeeAt(a)) {
      FlowOfAmount(t', Grams(a));
      FlowOfAmount(t', Fees(a));
      assert Sum(t, Asset(Grams(a))) == Expected(trace, Grams(a));
      assert Sum(t, Asset(Fees(a))) == Expected(trace, Fees(a));
    }
  }

  lemma {:induction false} HoldingSum(t: Tree, h: Hash)
    ensures Sum(t, Holding(h)) > 0 <==> exists n :: n in Nodes(t) && h in n.rec.transaction
  {
    HoldingSumAll(t.kids, h);
    SumAllNonNegative(t.kids, Holding(h));
    assert t in Nodes(t);
    if SumAll(t.kids, Holding(h)) > 0 {
      var k, n :| k in t.kids && n in Nodes(k) && h in n.rec.transaction;
      KidUnder(t, k);
    }
  }

  lemma {:induction false} HoldingSumAll(ts: seq<Tree>, h: Hash)
    ensures SumAll(ts, Holding(h)) > 0 <==> exists k, n :: k in ts && n in Nodes(k) && h in n.rec.transaction
  {
    if ts != [] {
      HoldingSum(ts[0], h);
      HoldingSumAll(ts[1..], h);
      SumNonNegative(ts[0], Holding(h));
      SumAllNonNegative(ts[1..], Holding(h));
    }
  }

  lemma Listed(trace: Trace, t: Tree, t': Tree, account: Option<AccountID>, toAction: ToAction, actions: seq<Action>)
    requires Carries(t, trace) && ActionsFor(actions, Shown(t', account, toAction), toAction)
    requires forall h: Hash :: Sum(t', Holding(h)) > 0 <==> Sum(t, Holding(h)) > 0
    ensures Lists(actions, trace, account.None? && forall i :: toAction(i).Some?)
  {
    var shown := Shown(t', account, toAction);
    forall i, h | 0 <= i < |actions| && h in actions[i].base ensures TraceSum(trace, Having(h)) > 0 {
      ShownIsNode(t', shown[i], account, toAction);
      HoldingSum(t', h);
      assert Sum(t, Holding(h)) > 0;
    }
    if account.None? && forall i :: toAction(i).Some? {
      forall h | TraceSum(trace, Having(h)) > 0 ensures exists i :: 0 <= i < |actions| && h in actions[i].base {
        assert Sum(t, Holding(h)) > 0;
        HoldingSum(t', h);
        var n :| n in Nodes(t') && h in n.rec.transaction;
        ShownWhenShown(t', n, None, toAction);
        var i :| 0 <= i < |shown| && shown[i] == n;
      }
    }
  }

  lemma {:induction false} ListingSum(t: Tree, a: AccountID, h: Hash) returns (n: Tree)
    requires Sum(t, Listing(a, h)) > 0
    ensures n in Nodes(t) && a in n.rec.accounts && h in n.rec.transaction
  {
    n := t;
    if Weigh(t, Listing(a, h)) == 0 {
      var k;
      k, n := ListingSumAll(t.kids, a, h);
      KidUnder(t, k);
    }
  }

  lemma {:induction false} ListingSumAll(ts: seq<Tree>, a: AccountID, h: Hash) returns (k: Tree, n: Tree)
    requires SumAll(ts, Listing(a, h)) > 0
    ensures k in ts && n in Nodes(k) && a in n.rec.accounts && h in n.rec.transaction
  {
    if Sum(ts[0], Listing(a, h)) > 0 {
      k := ts[0];
      n := ListingSum(k, a, h);
    } else {
      k, n := ListingSumAll(ts[1..], a, h);
    }
  }

  /** Whatever was merged, an account is shown every transaction that involves it. */
  lemma ListedFor(trace: Trace, t: Tree, t': Tree, account: AccountID, toAction: ToAction, actions: seq<Action>)
    requires Depicts(t, trace, None) && KeepsListings(t, t') && forall i :: toAction(i).Some?
    requires ActionsFor(actions, Shown(t', Some(account), toAction), toAction)
    ensures ListsAll(actions, trace, account)
  {
    var shown := Shown(t', Some(account), toAction);
    forall h | TraceSum(trace, Involving(account, h)) > 0
      ensures exists i :: 0 <= i < |actions| && h in actions[i].base
    {
      DepictsListings(t, trace, None, account, h);
      var n := ListingSum(t', account, h);
      ShownWhenShown(t', n, Some(account), toAction);
      var i :| 0 <= i < |shown| && shown[i] == n;
    }
  }

  // ----- what the reported flow adds up to -----

  lemma {:induction false} ReportedSums(flow: Accounts, trace: Trace, accounts: seq<AccountID>)
    requires Reports(flow, trace)
    ensures SumOver(accounts, a => Amount(flow, Grams(a))) == OverAccounts(accounts, trace, true)
    ensures SumOver(accounts, a => Amount(flow, Fees(a))) == OverAccounts(accounts, trace, false)
  {
    if accounts != [] { ReportedSums(flow, trace, accounts[1..]); }
  }

  /** Whatever was merged: the Gram of all accounts is what came in, less what left the trace and all fees,
      if and only if the credits inside the trace add up to the deliveries. */
  lemma {:induction false} ReportedGramBalances(flow: Accounts, trace: Trace, accounts: seq<AccountID>)
    requires Reports(flow, trace) && Unique(accounts) && Covers(accounts, trace)
    ensures var gram := SumOver(accounts, a => Amount(flow, Grams(a)));
            var fees := SumOver(accounts, a => Amount(flow, Fees(a)));
            gram == Credited(trace) - TraceSum(trace, Undelivered) - fees <==> TraceSumAll(trace.children, Gap) == 0
    ensures CreditsMatch(trace) ==> TraceSumAll(trace.children, Gap) == 0
  {
    ReportedSums(flow, trace, accounts);
    AccountsAddUp(accounts, trace, true);
    AccountsAddUp(accounts, trace, false);
    Balances(trace);
  }

  /** The fees of all accounts are the fees the planner reads off the trace, if and only if no message pays an IHR
      fee. */
  lemma {:induction false} ReportedFeesAgree(flow: Accounts, trace: Trace, accounts: seq<AccountID>)
    requires Reports(flow, trace) && Unique(accounts) && Covers(accounts, trace) && IhrFeesNonNegative(trace)
    ensures SumOver(accounts, a => Amount(flow, Fees(a))) == TraceFees(trace) <==> NoIhr(trace)
  {
    ReportedSums(flow, trace, accounts);
    AccountsAddUp(accounts, trace, false);
    FeesAgreeIffNoIhr(trace);
  }

  /** What is left unexplained over all accounts: with matching credits, the balance of the trace less the one-sided
      actions. */
  lemma {:induction false} ExtrasOfATrace(actions: seq<Action>, flow: Accounts, trace: Trace, accounts: seq<AccountID>)
    requires Reports(flow, trace) && Unique(accounts) && Covers(accounts, trace) && CreditsMatch(trace)
    requires forall i | 0 <= i < |actions| :: Names(actions[i], accounts)
    ensures SumOver(accounts, a => Amount(flow, Grams(a)) - Contributions(actions, a))
         == Credited(trace) - TraceSum(trace, Undelivered) - TraceSum(trace, AllFee) - OneSidedAll(actions)
  {
    ReportedSums(flow, trace, accounts);
    AccountsAddUp(accounts, trace, true);
    Balances(trace);
    ExtrasAddUp(actions, flow, accounts);
  }
}
