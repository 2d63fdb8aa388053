/** Traces and the sums over them that a tree of bubbles must carry (pkg/bath/bubble.go). */
module Traces {
  import opened Wrappers
  import opened Ledger
  import opened Bubbles

  /** An inbound message. */
  datatype Message = Message(
    source: Option<AccountID>, external: bool, value: int, ihrFee: int, ihrDisabled: bool, createdLt: nat,
    opCode: Option<nat>, decodedBody: Option<Body>)

  /** An out message that no transaction of the trace has received. */
  datatype OutMessage = OutMessage(value: int, external: bool, dedustSwap: bool)

  datatype ActionPhase = ActionPhase(fwdFees: int, totalFees: int)

  /** What a wallet's extended action asks for. */
  datatype Extension = Added(address: AccountID) | Removed(address: AccountID) | SignatureAllowed(allowed: bool)

  datatype Trace = Trace(
    account: AccountID,
    interfaces: set<Interface>,
    success: bool,
    hash: Hash,
    inMsg: Option<Message>,
    outMsgs: seq<OutMessage>,
    credit: Option<int>,
    totalFee: int,
    action: Option<ActionPhase>,
    deployed: bool,
    jettonMasters: map<AccountID, AccountID>,
    extensions: seq<Extension>,
    children: seq<Trace>)

  function Total<T>(s: seq<T>, f: T -> int): int {
    if s == [] then 0 else f(s[0]) + Total(s[1..], f)
  }

  function Credited(t: Trace): int {
    if t.credit.Some? then t.credit.value else 0
  }

  function InValue(t: Trace): int {
    if t.inMsg.Some? then t.inMsg.value.value else 0
  }

  /** The IHR fee of the inbound message, if IHR is enabled for it. */
  function InIhr(t: Trace): int {
    if t.inMsg.Some? && !t.inMsg.value.ihrDisabled then t.inMsg.value.ihrFee else 0
  }

  function OutValue(m: OutMessage): int { m.value }

  /** The validators' fees, with the full forward fees in place of the part that the action phase collects. */
  function ChainFee(t: Trace): int {
    t.totalFee + if t.action.Some? then t.action.value.fwdFees - t.action.value.totalFees else 0
  }

  function AggregatedFee(t: Trace): int {
    ChainFee(t) - Total(t.children, InIhr)
  }

  /** What a transaction does to its account's balance. */
  function OwnGram(t: Trace): int {
    Credited(t) - Total(t.outMsgs, OutValue) - Total(t.children, InValue) - Total(t.children, InIhr) - AggregatedFee(t)
  }

  /** What may be added up over the transactions of a trace. */
  datatype Tally =
    | GramAt(account: AccountID)
    | FeeAt(account: AccountID)
    | AllGram
    | AllFee
    | Undelivered      // value of out messages that nobody received
    | Gap              // credit that is not the inbound value and its IHR fee
    | Ihr              // enabled IHR fees
    | Having(hash: Hash)
    | Involving(holder: AccountID, listed: Hash)   // this transaction, if it involves this account

  /** The account of a transaction, the sender of its message, and the extensions that its wallet is asked to change. */
  predicate Involves(t: Trace, a: AccountID) {
    || t.account == a
    || (t.inMsg.Some? && t.inMsg.value.source == Some(a))
    || exists i :: 0 <= i < |t.extensions| && !t.extensions[i].SignatureAllowed? && t.extensions[i].address == a
  }

  function Worth(t: Trace, q: Tally): int {
    match q
    case GramAt(a) => if t.account == a then OwnGram(t) else 0
    case FeeAt(a) => if t.account == a then AggregatedFee(t) else 0
    case AllGram => OwnGram(t)
    case AllFee => AggregatedFee(t)
    case Undelivered => Total(t.outMsgs, OutValue)
    case Gap => Credited(t) - InValue(t) - InIhr(t)
    case Ihr => InIhr(t)
    case Having(h) => if t.hash == h then 1 else 0
    case Involving(a, h) => if Involves(t, a) && t.hash == h then 1 else 0
  }

  function TraceSum(t: Trace, q: Tally): int {
    Worth(t, q) + TraceSumAll(t.children, q)
  }

  function TraceSumAll(ts: seq<Trace>, q: Tally): int {
    if ts == [] then 0 else TraceSum(ts[0], q) + TraceSumAll(ts[1..], q)
  }

  // ----- sums do not depend on the order -----

  lemma {:induction false} TotalTake<T>(s: seq<T>, n: nat, f: T -> int)
    requires n < |s|
    ensures Total(s[..n + 1], f) == Total(s[..n], f) + f(s[n])
  {
    if n > 0 {
      assert s[..n + 1][1..] == s[1..][..n] && s[..n][1..] == s[1..][..n - 1];
      TotalTake(s[1..], n - 1, f);
    } else {
      assert s[..1][1..] == [];
    }
  }

  lemma {:induction false} TotalWithout<T>(s: seq<T>, i: nat, f: T -> int)
    requires i < |s|
    ensures Total(s, f) == f(s[i]) + Total(s[..i] + s[i + 1..], f)
    ensures multiset(s) == multiset(s[..i] + s[i + 1..]) + multiset{s[i]}
  {
    var rest := s[..i] + s[i + 1..];
    assert s == s[..i] + [s[i]] + s[i + 1..];
    if i > 0 {
      TotalWithout(s[1..], i - 1, f);
      assert rest[1..] == s[1..][..i - 1] + s[1..][i..];
    } else {
      assert rest == s[1..];
    }
  }

  lemma {:induction false} TotalPermuted<T>(a: seq<T>, b: seq<T>, f: T -> int)
    requires multiset(a) == multiset(b)
    ensures Total(a, f) == Total(b, f)
  {
    if a == [] {
      assert |b| == |multiset(b)| == 0;
    } else {
      assert a[0] in multiset(b);
      var i :| 0 <= i < |b| && b[i] == a[0];
      TotalWithout(b, i, f);
      TotalWithout(a, 0, f);
      assert a[..0] + a[1..] == a[1..];
      assert multiset(a[1..]) == multiset(a) - multiset{a[0]};
      TotalPermuted(a[1..], b[..i] + b[i + 1..], f);
    }
  }

  lemma {:induction false} TraceSumAllTotal(ts: seq<Trace>, q: Tally)
    ensures TraceSumAll(ts, q) == Total(ts, (t: Trace) => TraceSum(t, q))
  {
    if ts != [] { TraceSumAllTotal(ts[1..], q); }
  }

  lemma TraceSumPermuted(a: seq<Trace>, b: seq<Trace>, q: Tally)
    requires multiset(a) == multiset(b)
    ensures TraceSumAll(a, q) == TraceSumAll(b, q)
  {
    TraceSumAllTotal(a, q);
    TraceSumAllTotal(b, q);
    TotalPermuted(a, b, (t: Trace) => TraceSum(t, q));
  }

  lemma TraceSumTake(ts: seq<Trace>, n: nat, q: Tally)
    requires n < |ts|
    ensures TraceSumAll(ts[..n + 1], q) == TraceSumAll(ts[..n], q) + TraceSum(ts[n], q)
  {
    TraceSumAllTotal(ts[..n + 1], q);
    TraceSumAllTotal(ts[..n], q);
    TotalTake(ts, n, (t: Trace) => TraceSum(t, q));
  }

  // ----- the balance of a whole trace -----

  /** Every transaction below this one was credited its inbound value and IHR fee. */
  predicate CreditsMatch(t: Trace) {
    forall i | 0 <= i < |t.children| :: Worth(t.children[i], Gap) == 0 && CreditsMatch(t.children[i])
  }

  /** Deliveries cancel out: what is left is what came in, went out or was burnt, and the gaps. */
  lemma {:induction false} Telescopes(t: Trace)
    ensures TraceSum(t, AllGram)
         == Credited(t) - TraceSum(t, Undelivered) - TraceSum(t, AllFee) + TraceSumAll(t.children, Gap)
  {
    TelescopesAll(t.children);
  }

  lemma {:induction false} TelescopesAll(ts: seq<Trace>)
    ensures TraceSumAll(ts, AllGram)
         == Total(ts, InValue) + Total(ts, InIhr) - TraceSumAll(ts, Undelivered) - TraceSumAll(ts, AllFee)
            + TraceSumAll(ts, Gap)
  {
    if ts != [] {
      Telescopes(ts[0]);
      TelescopesAll(ts[1..]);
    }
  }

  lemma {:induction false} NoGaps(t: Trace)
    requires CreditsMatch(t)
    ensures TraceSumAll(t.children, Gap) == 0
  {
    NoGapsAll(t.children);
  }

  lemma {:induction false} NoGapsAll(ts: seq<Trace>)
    requires forall i | 0 <= i < |ts| :: Worth(ts[i], Gap) == 0 && CreditsMatch(ts[i])
    ensures TraceSumAll(ts, Gap) == 0
  {
    if ts != [] {
      NoGaps(ts[0]);
      NoGapsAll(ts[1..]);
    }
  }

  /** The money of a trace is accounted for if and only if the credits add up to the deliveries; they do if each
      matches. */
  lemma {:induction false} Balances(t: Trace)
    ensures TraceSum(t, AllGram) == Credited(t) - TraceSum(t, Undelivered) - TraceSum(t, AllFee)
            <==> TraceSumAll(t.children, Gap) == 0
    ensures CreditsMatch(t) ==> TraceSumAll(t.children, Gap) == 0
  {
    Telescopes(t);
    if CreditsMatch(t) { NoGaps(t); }
  }

  /** traceFees of the migration planner (pkg/api/migration_handlers.go). */
  function TraceFees(t: Trace): int {
    t.totalFee + (if t.action.Some? then t.action.value.fwdFees - t.action.value.totalFees else 0)
    + TraceFeesAll(t.children)
  }

  function TraceFeesAll(ts: seq<Trace>): int {
    if ts == [] then 0 else TraceFees(ts[0]) + TraceFeesAll(ts[1..])
  }

  lemma {:induction false} FeesDifferByIhr(t: Trace)
    ensures TraceSum(t, AllFee) == TraceFees(t) - TraceSumAll(t.children, Ihr)
  {
    FeesDifferByIhrAll(t.children);
  }

  lemma {:induction false} FeesDifferByIhrAll(ts: seq<Trace>)
    ensures TraceSumAll(ts, AllFee) == TraceFeesAll(ts) - TraceSumAll(ts, Ihr) + Total(ts, InIhr)
  {
    if ts != [] {
      FeesDifferByIhr(ts[0]);
      FeesDifferByIhrAll(ts[1..]);
    }
  }

  predicate IhrFeesNonNegative(t: Trace) {
    forall i | 0 <= i < |t.children| :: InIhr(t.children[i]) >= 0 && IhrFeesNonNegative(t.children[i])
  }

  predicate NoIhr(t: Trace) {
    forall i | 0 <= i < |t.children| :: InIhr(t.children[i]) == 0 && NoIhr(t.children[i])
  }

  /** The two ways to add up fees agree if and only if no delivered message pays an IHR fee. */
  lemma {:induction false} FeesAgreeIffNoIhr(t: Trace)
    requires IhrFeesNonNegative(t)
    ensures TraceSum(t, AllFee) == TraceFees(t) <==> NoIhr(t)
  {
    FeesDifferByIhr(t);
    IhrSum(t.children);
  }

  lemma {:induction false} IhrSum(ts: seq<Trace>)
    requires forall i | 0 <= i < |ts| :: InIhr(ts[i]) >= 0 && IhrFeesNonNegative(ts[i])
    ensures TraceSumAll(ts, Ihr) >= 0
    ensures TraceSumAll(ts, Ihr) == 0 <==> forall i | 0 <= i < |ts| :: InIhr(ts[i]) == 0 && NoIhr(ts[i])
  {
    if ts != [] {
      IhrSum(ts[0].children);
      IhrSum(ts[1..]);
    }
  }

  // ----- summing over accounts -----

  /** Every account of the trace is among these. */
  predicate Covers(accounts: seq<AccountID>, t: Trace) {
    t.account in accounts && forall i | 0 <= i < |t.children| :: Covers(accounts, t.children[i])
  }

  function PerAccount(gram: bool, a: AccountID): Tally {
    if gram then GramAt(a) else FeeAt(a)
  }

  function OverAccounts(accounts: seq<AccountID>, t: Trace, gram: bool): int {
    if accounts == [] then 0 else TraceSum(t, PerAccount(gram, accounts[0])) + OverAccounts(accounts[1..], t, gram)
  }

  function OverAccountsAll(accounts: seq<AccountID>, ts: seq<Trace>, gram: bool): int {
    if accounts == [] then 0
    else TraceSumAll(ts, PerAccount(gram, accounts[0])) + OverAccountsAll(accounts[1..], ts, gram)
  }

  /** The sums per account add up to the sum over all transactions. */
  lemma {:induction false} AccountsAddUp(accounts: seq<AccountID>, t: Trace, gram: bool)
    requires Unique(accounts) && Covers(accounts, t)
    ensures OverAccounts(accounts, t, gram) == TraceSum(t, if gram then AllGram else AllFee)
    decreases t, 1
  {
    OneAccount(accounts, t, gram);
    AccountsAddUpAll(accounts, t.children, gram);
  }

  lemma {:induction false} OneAccount(accounts: seq<AccountID>, t: Trace, gram: bool)
    requires Unique(accounts)
    ensures OverAccounts(accounts, t, gram)
         == (if t.account in accounts then Worth(t, if gram then AllGram else AllFee) else 0)
          + OverAccountsAll(accounts, t.children, gram)
    decreases |accounts|
  {
    if accounts != [] { OneAccount(accounts[1..], t, gram); }
  }

  lemma {:induction false} AccountsAddUpAll(accounts: seq<AccountID>, ts: seq<Trace>, gram: bool)
    requires Unique(accounts) && forall i | 0 <= i < |ts| :: Covers(accounts, ts[i])
    ensures OverAccountsAll(accounts, ts, gram) == TraceSumAll(ts, if gram then AllGram else AllFee)
    decreases ts, 0
  {
    OverAccountsCons(accounts, ts, gram);
    if ts != [] {
      AccountsAddUp(accounts, ts[0], gram);
      AccountsAddUpAll(accounts, ts[1..], gram);
    }
  }

  lemma {:induction false} OverAccountsCons(accounts: seq<AccountID>, ts: seq<Trace>, gram: bool)
    ensures OverAccountsAll(accounts, ts, gram)
         == if ts == [] then 0 else OverAccounts(accounts, ts[0], gram) + OverAccountsAll(accounts, ts[1..], gram)
    decreases |accounts|
  {
    if accounts != [] { OverAccountsCons(accounts[1..], ts, gram); }
  }
}
