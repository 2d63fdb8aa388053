/** The ledger of asset changes per account (pkg/bath/value_flow.go). */
module Ledger {

  datatype AccountID = AccountID(workchain: int, address: nat) {
    predicate IsZero() { workchain == 0 && address == 0 }
  }

  predicate Unique(accounts: seq<AccountID>) {
    forall i, j | 0 <= i < j < |accounts| :: accounts[i] != accounts[j]
  }

  /** The change of one account's assets; `jettons` is keyed by jetton master. */
  datatype AccountValueFlow = AccountValueFlow(
    gram: int, fees: int, jettons: map<AccountID, int>, nftsIn: int, nftsOut: int)

  type Accounts = map<AccountID, AccountValueFlow>

  const NOTHING: AccountValueFlow := AccountValueFlow(0, 0, map[], 0, 0)

  function Entry(m: Accounts, a: AccountID): AccountValueFlow {
    if a in m then m[a] else NOTHING
  }

  function Held(jettons: map<AccountID, int>, master: AccountID): int {
    if master in jettons then jettons[master] else 0
  }

  /** The jetton map after adding `value` of `master`: a balance that comes out at zero is not stored. */
  function WithJetton(jettons: map<AccountID, int>, master: AccountID, value: int): map<AccountID, int> {
    var sum := Held(jettons, master) + value;
    if sum == 0 then jettons - {master} else jettons[master := sum]
  }

  function AddedJettons(m: Accounts, a: AccountID, master: AccountID, value: int): Accounts {
    var e := Entry(m, a);
    m[a := e.(jettons := WithJetton(e.jettons, master, value))]
  }

  function MergedJettons(j1: map<AccountID, int>, j2: map<AccountID, int>): map<AccountID, int> {
    map k | k in j1.Keys + j2.Keys && (k !in j2 || Held(j1, k) + Held(j2, k) != 0) ::
      Held(j1, k) + Held(j2, k)
  }

  function MergedEntry(e1: AccountValueFlow, e2: AccountValueFlow): AccountValueFlow {
    AccountValueFlow(e1.gram + e2.gram, e1.fees + e2.fees, MergedJettons(e1.jettons, e2.jettons),
                     e1.nftsIn + e2.nftsIn, e1.nftsOut + e2.nftsOut)
  }

  function Merged(m1: Accounts, m2: Accounts): Accounts {
    map a | a in m1.Keys + m2.Keys :: MergedEntry(Entry(m1, a), Entry(m2, a))
  }

  /** Everything a flow says, one number at a time. */
  datatype Asset =
    | Grams(account: AccountID)
    | Fees(account: AccountID)
    | NftsIn(account: AccountID)
    | NftsOut(account: AccountID)
    | Jettons(account: AccountID, master: AccountID)

  function Amount(m: Accounts, x: Asset): int {
    var e := Entry(m, x.account);
    match x
    case Grams(_) => e.gram
    case Fees(_) => e.fees
    case NftsIn(_) => e.nftsIn
    case NftsOut(_) => e.nftsOut
    case Jettons(_, master) => Held(e.jettons, master)
  }

  /** No stored jetton change is zero. */
  ghost predicate NoZeroJettons(m: Accounts) {
    forall a, k | a in m && k in m[a].jettons :: m[a].jettons[k] != 0
  }

  lemma MergedAmount(m1: Accounts, m2: Accounts, x: Asset)
    ensures Amount(Merged(m1, m2), x) == Amount(m1, x) + Amount(m2, x)
  {
    assert x.account !in m1.Keys + m2.Keys ==> Entry(m1, x.account) == NOTHING == Entry(m2, x.account);
  }

  lemma AddedJettonsAmount(m: Accounts, a: AccountID, master: AccountID, value: int, x: Asset)
    ensures Amount(AddedJettons(m, a, master, value), x)
         == Amount(m, x) + (if x == Jettons(a, master) then value else 0)
  {
  }

  lemma AddedJettonsNoZero(m: Accounts, a: AccountID, master: AccountID, value: int)
    requires NoZeroJettons(m)
    ensures NoZeroJettons(AddedJettons(m, a, master, value))
  {
  }

  lemma MergedNoZero(m1: Accounts, m2: Accounts)
    requires NoZeroJettons(m1) && NoZeroJettons(m2)
    ensures NoZeroJettons(Merged(m1, m2))
  {
  }

  /** Flows without zero entries are told apart by their accounts and amounts. */
  lemma SameAmounts(m1: Accounts, m2: Accounts)
    requires NoZeroJettons(m1) && NoZeroJettons(m2)
    requires m1.Keys == m2.Keys
    requires forall x :: Amount(m1, x) == Amount(m2, x)
    ensures m1 == m2
  {
    forall a | a in m1
      ensures m1[a] == m2[a]
    {
      assert Amount(m1, Grams(a)) == Amount(m2, Grams(a));
      assert Amount(m1, Fees(a)) == Amount(m2, Fees(a));
      assert Amount(m1, NftsIn(a)) == Amount(m2, NftsIn(a));
      assert Amount(m1, NftsOut(a)) == Amount(m2, NftsOut(a));
      forall k
        ensures k in m1[a].jettons <==> k in m2[a].jettons
        ensures k in m1[a].jettons ==> m1[a].jettons[k] == m2[a].jettons[k]
      {
        assert Amount(m1, Jettons(a, k)) == Amount(m2, Jettons(a, k));
      }
      assert m1[a].jettons == m2[a].jettons;
    }
  }

  lemma MergedCommutes(m1: Accounts, m2: Accounts)
    requires NoZeroJettons(m1) && NoZeroJettons(m2)
    ensures Merged(m1, m2) == Merged(m2, m1)
  {
    MergedNoZero(m1, m2);
    MergedNoZero(m2, m1);
    forall x ensures Amount(Merged(m1, m2), x) == Amount(Merged(m2, m1), x) {
      MergedAmount(m1, m2, x);
      MergedAmount(m2, m1, x);
    }
    SameAmounts(Merged(m1, m2), Merged(m2, m1));
  }

  lemma MergedAssociates(m1: Accounts, m2: Accounts, m3: Accounts)
    requires NoZeroJettons(m1) && NoZeroJettons(m2) && NoZeroJettons(m3)
    ensures Merged(Merged(m1, m2), m3) == Merged(m1, Merged(m2, m3))
  {
    MergedNoZero(m1, m2);
    MergedNoZero(m2, m3);
    var l, r := Merged(Merged(m1, m2), m3), Merged(m1, Merged(m2, m3));
    MergedNoZero(Merged(m1, m2), m3);
    MergedNoZero(m1, Merged(m2, m3));
    forall x ensures Amount(l, x) == Amount(r, x) {
      MergedAmount(m1, m2, x);
      MergedAmount(m2, m3, x);
      MergedAmount(Merged(m1, m2), m3, x);
      MergedAmount(m1, Merged(m2, m3), x);
    }
    SameAmounts(l, r);
  }

  lemma MergedSwap(m1: Accounts, m2: Accounts, m3: Accounts)
    requires NoZeroJettons(m1) && NoZeroJettons(m2) && NoZeroJettons(m3)
    ensures Merged(m1, Merged(m2, m3)) == Merged(m2, Merged(m1, m3))
  {
    MergedAssociates(m1, m2, m3);
    MergedCommutes(m1, m2);
    MergedAssociates(m2, m1, m3);
  }

  /** The flows merged one after another into an empty one. */
  function Folded(flows: seq<Accounts>): Accounts {
    if flows == [] then map[] else Merged(flows[0], Folded(flows[1..]))
  }

  lemma FoldedNoZero(flows: seq<Accounts>)
    requires forall m | m in flows :: NoZeroJettons(m)
    ensures NoZeroJettons(Folded(flows))
  {
    if flows != [] {
      FoldedNoZero(flows[1..]);
      MergedNoZero(flows[0], Folded(flows[1..]));
    }
  }

  /** Any one flow may be merged first. */
  lemma {:induction false} FoldedPull(before: seq<Accounts>, m: Accounts, after: seq<Accounts>)
    requires NoZeroJettons(m) && forall n | n in before + after :: NoZeroJettons(n)
    ensures Folded(before + [m] + after) == Merged(m, Folded(before + after))
  {
    if before == [] {
      assert ([] + [m] + after)[1..] == after && [] + after == after;
    } else {
      var rest := before[1..];
      assert (before + [m] + after)[1..] == rest + [m] + after;
      assert (before + after)[1..] == rest + after;
      FoldedPull(rest, m, after);
      FoldedNoZero(rest + after);
      MergedSwap(before[0], m, Folded(rest + after));
    }
  }

  /** The folded flow does not depend on the order in which the flows are visited. */
  lemma {:induction false} FoldedInAnyOrder(flows: seq<Accounts>, again: seq<Accounts>)
    requires multiset(flows) == multiset(again)
    requires forall m | m in flows :: NoZeroJettons(m)
    ensures Folded(flows) == Folded(again)
  {
    if flows == [] {
      assert |multiset(again)| == 0;
    } else {
      assert flows[0] in multiset(again);
      var i :| 0 <= i < |again| && again[i] == flows[0];
      var rest := again[..i] + again[i + 1..];
      assert flows == [flows[0]] + flows[1..];
      assert again == again[..i] + [again[i]] + again[i + 1..];
      calc {
        multiset(again);
        multiset(again[..i] + [again[i]] + again[i + 1..]);
        multiset(rest) + multiset{again[i]};
      }
      assert multiset(flows) == multiset{flows[0]} + multiset(flows[1..]);
      assert multiset(flows[1..]) == multiset(flows) - multiset{flows[0]};
      assert multiset(rest) == multiset(again) - multiset{again[i]};
      forall m | m in again ensures NoZeroJettons(m) {
        assert m in multiset(flows);
      }
      FoldedPull(again[..i], again[i], again[i + 1..]);
      FoldedInAnyOrder(flows[1..], rest);
    }
  }

  function Only(m: Accounts, keys: set<AccountID>): Accounts {
    map a | a in m && a in keys :: m[a]
  }

  lemma MergeStart(m1: Accounts, m2: Accounts)
    ensures Merged(m1, Only(m2, {})) == m1
  {
    forall a | a in m1 ensures MergedEntry(m1[a], NOTHING) == m1[a] {
      assert MergedJettons(m1[a].jettons, map[]) == m1[a].jettons;
    }
  }

  lemma MergeStep(m1: Accounts, m2: Accounts, done: set<AccountID>, a: AccountID)
    requires a in m2 && a !in done
    ensures var m := Merged(m1, Only(m2, done));
            Merged(m1, Only(m2, done + {a})) == m[a := MergedEntry(Entry(m, a), m2[a])]
  {
    OnlyMore(m2, done, a);
    MergedPut(m1, Only(m2, done), a, m2[a]);
    MergedElsewhere(m1, Only(m2, done), a);
  }

  lemma OnlyMore(m: Accounts, done: set<AccountID>, a: AccountID)
    requires a in m
    ensures Only(m, done + {a}) == Only(m, done)[a := m[a]]
  {
  }

  lemma MergedPut(m1: Accounts, m2: Accounts, a: AccountID, e: AccountValueFlow)
    ensures Merged(m1, m2[a := e]) == Merged(m1, m2)[a := MergedEntry(Entry(m1, a), e)]
  {
    var l, r := Merged(m1, m2[a := e]), Merged(m1, m2)[a := MergedEntry(Entry(m1, a), e)];
    assert l.Keys == r.Keys;
    forall x | x in l ensures l[x] == r[x] {
      assert Entry(m2[a := e], x) == if x == a then e else Entry(m2, x);
    }
  }

  lemma MergedElsewhere(m1: Accounts, m2: Accounts, a: AccountID)
    requires a !in m2
    ensures Entry(Merged(m1, m2), a) == Entry(m1, a)
  {
    MergeNoJettons(Entry(m1, a).jettons);
  }

  lemma MergeJettonStep(j1: map<AccountID, int>, done: map<AccountID, int>, k: AccountID, value: int)
    requires k !in done
    ensures MergedJettons(j1, done[k := value]) == WithJetton(MergedJettons(j1, done), k, value)
  {
    var l, r := MergedJettons(j1, done[k := value]), WithJetton(MergedJettons(j1, done), k, value);
    assert Held(MergedJettons(j1, done), k) == Held(j1, k);
    forall x ensures (x in l <==> x in r) && (x in l ==> l[x] == r[x]) {
      assert x != k ==> (x in l <==> x in MergedJettons(j1, done)) && Held(done[k := value], x) == Held(done, x);
    }
  }

  class ValueFlow {
    var accounts: Accounts

    constructor ()
      ensures accounts == map[]
    {
      accounts := map[];
    }

    method AddTons(account: AccountID, amount: int)
      modifies this
      ensures accounts == var e := Entry(old(accounts), account); old(accounts)[account := e.(gram := e.gram + amount)]
    {
      if account in accounts {
        accounts := accounts[account := accounts[account].(gram := accounts[account].gram + amount)];
        return;
      }
      accounts := accounts[account := NOTHING.(gram := amount)];
    }

    method AddFee(account: AccountID, amount: int)
      modifies this
      ensures accounts == var e := Entry(old(accounts), account);
                          old(accounts)[account := e.(fees := e.fees + amount, gram := e.gram - amount)]
    {
      if account in accounts {
        var e := accounts[account];
        accounts := accounts[account := e.(fees := e.fees + amount, gram := e.gram - amount)];
        return;
      }
      accounts := accounts[account := NOTHING.(fees := amount, gram := -amount)];
    }

    method SubJettons(account: AccountID, master: AccountID, value: int)
      modifies this
      ensures accounts == AddedJettons(old(accounts), account, master, -value)
    {
      AddJettons(account, master, -value);
    }

    method AddJettons(account: AccountID, master: AccountID, value: int)
      modifies this
      ensures accounts == AddedJettons(old(accounts), account, master, value)
    {
      if account !in accounts {
        accounts := accounts[account := NOTHING];
      }
      var e := accounts[account];
      var newValue := Held(e.jettons, master) + value;
      var jettons := e.jettons[master := newValue];
      if newValue == 0 {
        jettons := jettons - {master};
        assert jettons == e.jettons - {master};
      }
      accounts := accounts[account := e.(jettons := jettons)];
    }

    /** Adds `other` account by account, in whatever order the map yields them. */
    method Merge(other: ValueFlow)
      requires other != this
      modifies this
      ensures accounts == Merged(old(accounts), other.accounts)
    {
      var todo := other.accounts.Keys;
      ghost var done := {};
      MergeStart(accounts, other.accounts);
      while todo != {}
        invariant other.accounts == old(other.accounts)
        invariant done + todo == other.accounts.Keys && done !! todo
        invariant accounts == Merged(old(accounts), Only(other.accounts, done))
        decreases todo
      {
        var account :| account in todo;
        MergeStep(old(accounts), other.accounts, done, account);
        MergeEntry(account, other.accounts[account]);
        todo, done := todo - {account}, done + {account};
      }
      assert Only(other.accounts, done) == other.accounts;
    }

    method MergeEntry(account: AccountID, af: AccountValueFlow)
      modifies this
      ensures accounts == old(accounts)[account := MergedEntry(Entry(old(accounts), account), af)]
    {
      if account !in accounts {
        accounts := accounts[account := NOTHING];
      }
      var e := accounts[account];
      accounts := accounts[account := e.(gram := e.gram + af.gram, fees := e.fees + af.fees,
                                         nftsIn := e.nftsIn + af.nftsIn, nftsOut := e.nftsOut + af.nftsOut)];
      MergeJettons(account, af.jettons);
    }

    method MergeJettons(account: AccountID, jettons: map<AccountID, int>)
      requires account in accounts
      modifies this
      ensures accounts == old(accounts)[account :=
                            old(accounts)[account].(jettons := MergedJettons(old(accounts)[account].jettons, jettons))]
    {
      ghost var base, e := accounts, accounts[account];
      MergeNoJettons(e.jettons);
      var todo := jettons.Keys;
      ghost var done: map<AccountID, int> := map[];
      while todo != {}
        invariant done.Keys + todo == jettons.Keys && done.Keys !! todo
        invariant forall k | k in done :: done[k] == jettons[k]
        invariant accounts == base[account := e.(jettons := MergedJettons(e.jettons, done))]
        decreases todo
      {
        var jetton :| jetton in todo;
        MergeJettonStep(e.jettons, done, jetton, jettons[jetton]);
        AddJettons(account, jetton, jettons[jetton]);
        todo, done := todo - {jetton}, done[jetton := jettons[jetton]];
      }
      assert done == jettons;
    }
  }

  lemma MergeNoJettons(j: map<AccountID, int>)
    ensures MergedJettons(j, map[]) == j
  {
  }
}
