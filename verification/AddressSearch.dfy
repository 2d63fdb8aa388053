/** Searching the address book by prefix (pkg/addressbook/attached_accounts.go, pkg/addressbook/addressbook.go). */
module AddressSearch {
  import opened Sorting

  /** The bytes of a string. */
  type Text = seq<nat>

  /** The order of strings, byte by byte. */
  predicate Less(a: Text, b: Text) {
    if b == [] then false
    else if a == [] then true
    else a[0] < b[0] || (a[0] == b[0] && Less(a[1..], b[1..]))
  }

  predicate HasPrefix(s: Text, prefix: Text) {
    prefix <= s
  }

  datatype AttachedAccount = AttachedAccount(
    wallet: nat, normalized: Text, name: Text, weight: int, whitelisted: bool)

  predicate ByName(a: AttachedAccount, b: AttachedAccount) {
    Less(a.normalized, b.normalized)
  }

  lemma {:induction false} LessAsymmetric(a: Text, b: Text)
    ensures Less(a, b) ==> !Less(b, a)
  {
    if a != [] && b != [] { LessAsymmetric(a[1..], b[1..]); }
  }

  lemma {:induction false} LessSplits(a: Text, b: Text, c: Text)
    ensures Less(a, c) ==> Less(a, b) || Less(b, c)
  {
    if a != [] && b != [] && c != [] { LessSplits(a[1..], b[1..], c[1..]); }
  }

  lemma ByNameOrders(s: seq<AttachedAccount>)
    ensures Orders(s, ByName)
  {
    forall a, b | ByName(a, b) ensures !ByName(b, a) { LessAsymmetric(a.normalized, b.normalized); }
    forall a, b, c | ByName(a, c) ensures ByName(a, b) || ByName(b, c) {
      LessSplits(a.normalized, b.normalized, c.normalized);
    }
  }

  /** A string before the prefix has nothing with the prefix before it. */
  lemma {:induction false} NothingBefore(x: Text, y: Text, prefix: Text)
    requires Less(x, prefix) && HasPrefix(y, prefix)
    ensures Less(x, y)
  {
    if x != [] && x[0] == prefix[0] { NothingBefore(x[1..], y[1..], prefix[1..]); }
  }

  /** A string without the prefix that is not before it has nothing with the prefix after it. */
  lemma {:induction false} NothingAfter(x: Text, y: Text, prefix: Text)
    requires !HasPrefix(x, prefix) && !Less(x, prefix) && HasPrefix(y, prefix)
    ensures Less(y, x)
  {
    if x[0] == prefix[0] { NothingAfter(x[1..], y[1..], prefix[1..]); }
  }

  predicate Matches(a: AttachedAccount, prefix: Text) {
    HasPrefix(a.normalized, prefix)
  }

  /** Where a probe that does not match sends the search. */
  lemma Probe(list: seq<AttachedAccount>, prefix: Text, m: nat)
    requires Sorted(list, ByName) && m < |list| && !Matches(list[m], prefix)
    ensures if Less(list[m].normalized, prefix) then forall i | 0 <= i <= m :: !Matches(list[i], prefix)
            else forall i | m <= i < |list| :: !Matches(list[i], prefix)
  {
    var x := list[m].normalized;
    if Less(x, prefix) {
      forall i | 0 <= i <= m ensures !Matches(list[i], prefix) {
        if Matches(list[i], prefix) { NothingBefore(x, list[i].normalized, prefix); }
      }
    } else {
      forall i | m <= i < |list| ensures !Matches(list[i], prefix) {
        if Matches(list[i], prefix) { NothingAfter(x, list[i].normalized, prefix); }
      }
    }
  }

  /** What lies between two matches matches. */
  lemma Between(list: seq<AttachedAccount>, prefix: Text, i: nat, m: nat, j: nat)
    requires Sorted(list, ByName) && i <= m <= j < |list| && Matches(list[i], prefix) && Matches(list[j], prefix)
    ensures Matches(list[m], prefix)
  {
    if !Matches(list[m], prefix) { Probe(list, prefix, m); }
  }

  /** The first and the last index of the matches, which are all that lies between; -1 and -1 if there is none. */
  method FindIndexes(list: seq<AttachedAccount>, prefix: Text) returns (startIdx: int, endIdx: int)
    requires Sorted(list, ByName)
    ensures startIdx == -1 <==> forall i | 0 <= i < |list| :: !Matches(list[i], prefix)
    ensures endIdx == -1 <==> startIdx == -1
    ensures startIdx != -1 ==>
      0 <= startIdx <= endIdx < |list| && forall i | 0 <= i < |list| ::
        Matches(list[i], prefix) <==> startIdx <= i <= endIdx
  {
    startIdx := -1;
    var low, high := 0, |list| - 1;
    while low <= high
      invariant 0 <= low <= high + 1 <= |list|
      invariant forall i | 0 <= i < low :: !Matches(list[i], prefix)
      invariant startIdx == -1 ==> forall i | high < i < |list| :: !Matches(list[i], prefix)
      invariant startIdx != -1 ==> startIdx == high + 1 < |list| && Matches(list[startIdx], prefix)
    {
      var med := (low + high) / 2;
      if Matches(list[med], prefix) {
        startIdx := med;
        high := med - 1;
      } else {
        Probe(list, prefix, med);
        if Less(list[med].normalized, prefix) {
          low := med + 1;
        } else {
          NotAfterMatch(list, prefix, med, startIdx);
          high := med - 1;
        }
      }
    }
    if startIdx == -1 {
      return -1, -1;
    }
    low, high := startIdx, |list| - 1;
    endIdx := -1;
    while low <= high
      invariant startIdx <= low <= high + 1 <= |list|
      invariant forall i | high < i < |list| :: !Matches(list[i], prefix)
      invariant if endIdx == -1 then low == startIdx else endIdx == low - 1 >= startIdx && Matches(list[endIdx], prefix)
    {
      var med := (low + high) / 2;
      if Matches(list[med], prefix) {
        endIdx := med;
        low := med + 1;
      } else {
        AfterMatch(list, prefix, startIdx, med);
        high := med - 1;
      }
    }
    forall i | startIdx <= i <= endIdx ensures Matches(list[i], prefix) { Between(list, prefix, startIdx, i, endIdx); }
  }

  /** A probe after the prefix lies after every match found so far, or there is none. */
  lemma NotAfterMatch(list: seq<AttachedAccount>, prefix: Text, med: nat, start: int)
    requires med < |list| && forall i | med <= i < |list| :: !Matches(list[i], prefix)
    ensures start == -1 || start < med || start >= |list| || !Matches(list[start], prefix)
  {
  }

  lemma AfterMatch(list: seq<AttachedAccount>, prefix: Text, start: nat, med: nat)
    requires Sorted(list, ByName) && start <= med < |list| && Matches(list[start], prefix)
             && !Matches(list[med], prefix)
    ensures forall i | med <= i < |list| :: !Matches(list[i], prefix)
  {
    forall i | med <= i < |list| ensures !Matches(list[i], prefix) {
      if Matches(list[i], prefix) { Between(list, prefix, start, med, i); }
    }
  }

  // ----- one source of addresses -----

  /** The linear search: every match, in order. */
  function Filter(list: seq<AttachedAccount>, prefix: Text): seq<AttachedAccount> {
    if list == [] then [] else (if Matches(list[0], prefix) then [list[0]] else []) + Filter(list[1..], prefix)
  }

  lemma FilterRange(list: seq<AttachedAccount>, prefix: Text, start: nat, end: nat)
    requires start <= end < |list|
    requires forall i | 0 <= i < |list| :: Matches(list[i], prefix) <==> start <= i <= end
    ensures Filter(list, prefix) == list[start..end + 1]
  {
    var before, matches, after := list[..start], list[start..end + 1], list[end + 1..];
    assert list == before + (matches + after);
    FilterConcat(before, matches + after, prefix);
    FilterConcat(matches, after, prefix);
    FilterNone(before, prefix);
    FilterAll(matches, prefix);
    FilterNone(after, prefix);
  }

  lemma {:induction false} FilterConcat(a: seq<AttachedAccount>, b: seq<AttachedAccount>, prefix: Text)
    ensures Filter(a + b, prefix) == Filter(a, prefix) + Filter(b, prefix)
  {
    if a == [] {
      assert a + b == b;
    } else {
      assert (a + b)[1..] == a[1..] + b;
      FilterConcat(a[1..], b, prefix);
    }
  }

  lemma {:induction false} FilterAll(list: seq<AttachedAccount>, prefix: Text)
    requires forall i | 0 <= i < |list| :: Matches(list[i], prefix)
    ensures Filter(list, prefix) == list
  {
    if list != [] { FilterAll(list[1..], prefix); }
  }

  lemma {:induction false} FilterNone(list: seq<AttachedAccount>, prefix: Text)
    requires forall i | 0 <= i < |list| :: !Matches(list[i], prefix)
    ensures Filter(list, prefix) == []
  {
    if list != [] { FilterNone(list[1..], prefix); }
  }

  /** The binary search finds what the linear one does, in the same order. */
  method SearchAttachedAccounts(list: seq<AttachedAccount>, prefix: Text, normalize: Text -> Text)
    returns (r: seq<AttachedAccount>)
    requires Sorted(list, ByName)
    ensures r == Filter(list, normalize(prefix))
  {
    if list == [] {
      return [];
    }
    var p := normalize(prefix);
    var startIdx, endIdx := FindIndexes(list, p);
    if startIdx == -1 || endIdx == -1 {
      FilterNone(list, p);
      return [];
    }
    FilterRange(list, p, startIdx, endIdx);
    r := list[startIdx..endIdx + 1];
  }

  /** What refreshing leaves behind: the same accounts, sorted. */
  method RefreshAddresses(attachedAccounts: seq<AttachedAccount>) returns (sorted: seq<AttachedAccount>)
    ensures multiset(sorted) == multiset(attachedAccounts) && Sorted(sorted, ByName)
  {
    ByNameOrders(attachedAccounts);
    sorted := Sort(attachedAccounts, ByName);
  }

  // ----- all sources together -----

  const BOOST_FOR_FULL_MATCH: int := 100
  const BOOST_FOR_VERIFIED: int := 50
  const LIMIT: nat := 70
  const TON: Text := [116, 111, 110]
  const TME: Text := [116, 109, 101]

  /** Accounts with the same key are versions of one another. */
  datatype Key = Key(wallet: nat, normalized: Text)

  function KeyOf(a: AttachedAccount): Key { Key(a.wallet, a.normalized) }

  predicate IsFullMatch(a: AttachedAccount, prefix: Text) {
    a.normalized == prefix || a.normalized == prefix + TON || a.normalized == prefix + TME
  }

  function Boosted(a: AttachedAccount, prefix: Text): AttachedAccount {
    var w := if IsFullMatch(a, prefix) then a.weight * BOOST_FOR_FULL_MATCH else a.weight;
    a.(weight := if a.whitelisted then w * BOOST_FOR_VERIFIED else w)
  }

  predicate Better(a: AttachedAccount, b: AttachedAccount) {
    if a.weight == b.weight then |a.name| < |b.name| else a.weight > b.weight
  }

  /** What the boosts do to the order: against an account of the same trust a full match counts a hundredfold, against
      one that matches as well a verified account counts fiftyfold, and between equals nothing changes. */
  lemma BoostRanks(a: AttachedAccount, b: AttachedAccount, prefix: Text)
    ensures Boosted(a, prefix).(weight := a.weight) == a
    ensures IsFullMatch(a, prefix) <==>
      a.normalized in {prefix, prefix + ['t' as int, 'o' as int, 'n' as int], prefix
        + ['t' as int, 'm' as int, 'e' as int]}
    ensures IsFullMatch(a, prefix) && !IsFullMatch(b, prefix) && a.whitelisted == b.whitelisted ==>
      (Better(Boosted(a, prefix), Boosted(b, prefix))
       <==> 100 * a.weight > b.weight || (100 * a.weight == b.weight && |a.name| < |b.name|))
    ensures a.whitelisted && !b.whitelisted && IsFullMatch(a, prefix) == IsFullMatch(b, prefix) ==>
      (Better(Boosted(a, prefix), Boosted(b, prefix))
       <==> 50 * a.weight > b.weight || (50 * a.weight == b.weight && |a.name| < |b.name|))
    ensures a.whitelisted == b.whitelisted && IsFullMatch(a, prefix) == IsFullMatch(b, prefix) ==>
      (Better(Boosted(a, prefix), Boosted(b, prefix))
       <==> a.weight > b.weight || (a.weight == b.weight && |a.name| < |b.name|))
  {
  }

  /** One account per key: the first whitelisted one, or else the first. */
  ghost predicate Exclusive(m: map<Key, AttachedAccount>, found: seq<AttachedAccount>) {
    && (forall a | a in found ::
          && KeyOf(a) in m && (a.whitelisted ==> m[KeyOf(a)].whitelisted)
          && m[KeyOf(a)].wallet == a.wallet && m[KeyOf(a)].normalized == a.normalized)
    && (forall k | k in m :: KeyOf(m[k]) == k && IsFirst(m[k], found))
  }

  /** Every version found earlier is one that is not whitelisted, while this one is. */
  ghost predicate IsFirst(a: AttachedAccount, found: seq<AttachedAccount>) {
    exists i :: 0 <= i < |found| && found[i] == a
      && forall j | 0 <= j < i && found[j].wallet == a.wallet && found[j].normalized == a.normalized ::
           a.whitelisted && !found[j].whitelisted
  }

  lemma StillFirst(a: AttachedAccount, found: seq<AttachedAccount>, b: AttachedAccount)
    requires IsFirst(a, found)
    ensures IsFirst(a, found + [b])
  {
    var i :| 0 <= i < |found| && found[i] == a
      && forall j | 0 <= j < i && found[j].wallet == a.wallet && found[j].normalized == a.normalized ::
           a.whitelisted && !found[j].whitelisted;
    assert (found + [b])[i] == a;
  }

  /** A new account takes its key's place if there is none, or if it alone is whitelisted. */
  lemma OneMoreFound(m: map<Key, AttachedAccount>, found: seq<AttachedAccount>, b: AttachedAccount)
    requires Exclusive(m, found)
    ensures var key := KeyOf(b);
            var takes := key !in m || (!m[key].whitelisted && b.whitelisted);
            Exclusive(if takes then m[key := b] else m, found + [b])
  {
    var key, more := KeyOf(b), found + [b];
    forall k | k in m ensures IsFirst(m[k], more) { StillFirst(m[k], found, b); }
    if key !in m || (!m[key].whitelisted && b.whitelisted) {
      assert more[|found|] == b;
      forall j | 0 <= j < |found| && more[j].wallet == b.wallet && more[j].normalized == b.normalized
        ensures b.whitelisted && !more[j].whitelisted
      {
        assert more[j] == found[j] && found[j] in found;
      }
    }
  }

  method AddFound(m: map<Key, AttachedAccount>, more: seq<AttachedAccount>, ghost found: seq<AttachedAccount>)
    returns (m': map<Key, AttachedAccount>)
    requires Exclusive(m, found)
    ensures Exclusive(m', found + more)
  {
    m' := m;
    assert found + more[..0] == found;
    for i := 0 to |more|
      invariant Exclusive(m', found + more[..i])
    {
      var account := more[i];
      ghost var so := found + more[..i];
      assert found + more[..i + 1] == so + [account];
      OneMoreFound(m', so, account);
      var key := KeyOf(account);
      if key !in m' || (!m'[key].whitelisted && account.whitelisted) {
        m' := m'[key := account];
      }
    }
    assert more[..|more|] == more;
  }

  /** The accounts of all sources, each searched on its own. */
  function Found(lists: seq<seq<AttachedAccount>>, prefix: Text, normalize: Text -> Text): seq<AttachedAccount> {
    if lists == [] then [] else
    var last := |lists| - 1;
    Found(lists[..last], prefix, normalize) + Filter(lists[last], normalize(prefix))
  }

  method CollectExclusive(lists: seq<seq<AttachedAccount>>, prefix: Text, normalize: Text -> Text)
    returns (m: map<Key, AttachedAccount>)
    requires forall i | 0 <= i < |lists| :: Sorted(lists[i], ByName)
    ensures Exclusive(m, Found(lists, prefix, normalize))
  {
    m := map[];
    for i := 0 to |lists|
      invariant Exclusive(m, Found(lists[..i], prefix, normalize))
    {
      assert lists[..i + 1][..i] == lists[..i];
      var foundAccounts := SearchAttachedAccounts(lists[i], prefix, normalize);
      m := AddFound(m, foundAccounts, Found(lists[..i], prefix, normalize));
    }
    assert lists[..|lists|] == lists;
  }

  /** Every account of the map once, boosted, in whatever order the map yields them. */
  ghost predicate Candidates(c: seq<AttachedAccount>, m: map<Key, AttachedAccount>, prefix: Text) {
    && (forall k | k in m :: Boosted(m[k], prefix) in c)
    && (forall a | a in c :: KeyOf(a) in m && a == Boosted(m[KeyOf(a)], prefix))
  }

  method Boost(m: map<Key, AttachedAccount>, prefix: Text) returns (accounts: seq<AttachedAccount>)
    requires forall k | k in m :: KeyOf(m[k]) == k
    ensures Candidates(accounts, m, prefix)
  {
    accounts := [];
    var todo := m.Keys;
    while todo != {}
      invariant todo <= m.Keys
      invariant forall k | k in m && k !in todo :: Boosted(m[k], prefix) in accounts
      invariant forall a | a in accounts :: KeyOf(a) in m && a == Boosted(m[KeyOf(a)], prefix)
      decreases todo
    {
      var k :| k in todo;
      accounts, todo := accounts + [Boosted(m[k], prefix)], todo - {k};
    }
  }

  /** No two accounts share a wallet, each is one of `from`, and each of `from` has its wallet here with one at least
      as good. */
  ghost predicate BestPerWallet(r: seq<AttachedAccount>, from: seq<AttachedAccount>) {
    && (forall i, j | 0 <= i < j < |r| :: r[i].wallet != r[j].wallet)
    && (forall a | a in r :: a in from)
    && (forall c | c in from :: exists i :: 0 <= i < |r| && r[i].wallet == c.wallet && !Better(c, r[i]))
  }

  /** The account of this wallet that was kept comes no later than account j. */
  ghost predicate Kept(result: seq<AttachedAccount>, from: seq<nat>, wallet: nat, j: nat) {
    |from| == |result| && exists k :: 0 <= k < |result| && from[k] <= j && result[k].wallet == wallet
  }

  lemma KeptMore(result: seq<AttachedAccount>, from: seq<nat>, a: AttachedAccount, n: nat, wallet: nat, j: nat)
    requires Kept(result, from, wallet, j)
    ensures Kept(result + [a], from + [n], wallet, j)
  {
    var k :| 0 <= k < |result| && from[k] <= j && result[k].wallet == wallet;
    assert (result + [a])[k] == result[k] && (from + [n])[k] == from[k];
  }

  /** The kept accounts and where they come from. */
  ghost predicate KeepsFirst(result: seq<AttachedAccount>, from: seq<nat>, accounts: seq<AttachedAccount>, i: nat) {
    && |from| == |result|
    && (forall k | 0 <= k < |result| :: from[k] < i <= |accounts| && result[k] == accounts[from[k]])
    && (forall k, l | 0 <= k < l < |result| :: from[k] < from[l])
    && (forall k, l | 0 <= k < l < |result| :: result[k].wallet != result[l].wallet)
    && (forall j | 0 <= j < i <= |accounts| :: Kept(result, from, accounts[j].wallet, j))
  }

  lemma KeepOne(result: seq<AttachedAccount>, from: seq<nat>, accounts: seq<AttachedAccount>, i: nat)
    requires i < |accounts| && KeepsFirst(result, from, accounts, i)
    requires accounts[i].wallet !in Wallets(result)
    ensures KeepsFirst(result + [accounts[i]], from + [i], accounts, i + 1)
  {
    var r, f := result + [accounts[i]], from + [i];
    forall k | 0 <= k < |result| ensures result[k].wallet != accounts[i].wallet {
      assert result[k].wallet in Wallets(result);
    }
    assert r[|result|] == accounts[i] && f[|result|] == i;
    forall j | 0 <= j < i + 1 ensures Kept(r, f, accounts[j].wallet, j) {
      if j < i { KeptMore(result, from, accounts[i], i, accounts[j].wallet, j); }
    }
  }

  lemma KeptBest(result: seq<AttachedAccount>, from: seq<nat>, accounts: seq<AttachedAccount>, j: nat) returns (k: nat)
    requires Sorted(accounts, Better) && j < |accounts| && Kept(result, from, accounts[j].wallet, j)
    requires forall k | 0 <= k < |result| :: from[k] < |accounts| && result[k] == accounts[from[k]]
    ensures k < |result| && result[k].wallet == accounts[j].wallet && !Better(accounts[j], result[k])
  {
    k :| 0 <= k < |result| && from[k] <= j && result[k].wallet == accounts[j].wallet;
  }

  lemma KeptSorted(result: seq<AttachedAccount>, from: seq<nat>, accounts: seq<AttachedAccount>)
    requires KeepsFirst(result, from, accounts, |accounts|) && Sorted(accounts, Better)
    ensures Sorted(result, Better)
  {
    forall k, l | 0 <= k < l < |result| ensures !Better(result[l], result[k]) {
      assert from[k] < from[l];
    }
  }

  lemma KeptIsBest(result: seq<AttachedAccount>, from: seq<nat>, accounts: seq<AttachedAccount>)
    requires KeepsFirst(result, from, accounts, |accounts|) && Sorted(accounts, Better)
    ensures BestPerWallet(result, accounts) && Sorted(result, Better)
  {
    KeptSorted(result, from, accounts);
    forall c | c in accounts
      ensures exists k :: 0 <= k < |result| && result[k].wallet == c.wallet && !Better(c, result[k])
    {
      var j :| 0 <= j < |accounts| && accounts[j] == c;
      var k := KeptBest(result, from, accounts, j);
    }
    forall a | a in result ensures a in accounts {
      var k :| 0 <= k < |result| && result[k] == a;
      assert accounts[from[k]] == a;
    }
  }

  /** Keeps the first account of every wallet. */
  method Deduplicate(accounts: seq<AttachedAccount>) returns (result: seq<AttachedAccount>)
    requires Sorted(accounts, Better)
    ensures BestPerWallet(result, accounts) && Sorted(result, Better)
  {
    result := [];
    var seen: set<nat> := {};
    ghost var from: seq<nat> := [];
    for i := 0 to |accounts|
      invariant seen == Wallets(result) && KeepsFirst(result, from, accounts, i)
    {
      var account := accounts[i];
      WalletsMore(result, account);
      if account.wallet !in seen {
        KeepOne(result, from, accounts, i);
        seen := seen + {account.wallet};
        result, from := result + [account], from + [i];
      } else {
        KeepNone(result, from, accounts, i);
      }
    }
    KeptIsBest(result, from, accounts);
  }

  function Wallets(accounts: seq<AttachedAccount>): set<nat> {
    set k | 0 <= k < |accounts| :: accounts[k].wallet
  }

  lemma WalletsMore(result: seq<AttachedAccount>, a: AttachedAccount)
    ensures Wallets(result + [a]) == Wallets(result) + {a.wallet}
  {
    var more := result + [a];
    forall w | w in Wallets(result) ensures w in Wallets(more) {
      var k :| 0 <= k < |result| && result[k].wallet == w;
      assert more[k] == result[k];
    }
    assert more[|result|].wallet == a.wallet;
  }

  lemma KeepNone(result: seq<AttachedAccount>, from: seq<nat>, accounts: seq<AttachedAccount>, i: nat)
    requires i < |accounts| && KeepsFirst(result, from, accounts, i) && accounts[i].wallet in Wallets(result)
    ensures KeepsFirst(result, from, accounts, i + 1)
  {
    var k :| 0 <= k < |result| && result[k].wallet == accounts[i].wallet;
    assert Kept(result, from, accounts[i].wallet, i);
  }

  /** What the search returns for these candidates: at most one account per wallet, best first, cut at the limit; what
      is missing is no better than anything returned, and nothing is missing below the limit. */
  ghost predicate Ranked(r: seq<AttachedAccount>, from: seq<AttachedAccount>) {
    && |r| <= LIMIT && Sorted(r, Better)
    && (forall i, j | 0 <= i < j < |r| :: r[i].wallet != r[j].wallet)
    && (forall a | a in r :: a in from)
    && (forall c | c in from :: Represented(c, r))
  }

  ghost predicate Represented(c: AttachedAccount, r: seq<AttachedAccount>) {
    || (exists i :: 0 <= i < |r| && r[i].wallet == c.wallet && !Better(c, r[i]))
    || (|r| == LIMIT && forall i | 0 <= i < |r| :: !Better(c, r[i]))
  }

  lemma BetterOrders(s: seq<AttachedAccount>)
    ensures Orders(s, Better)
  {
  }

  lemma CutRanks(best: seq<AttachedAccount>, from: seq<AttachedAccount>)
    requires BestPerWallet(best, from) && Sorted(best, Better)
    ensures Ranked(if |best| > LIMIT then best[..LIMIT] else best, from)
  {
    forall c | c in from ensures Represented(c, if |best| > LIMIT then best[..LIMIT] else best) {
      var i :| 0 <= i < |best| && best[i].wallet == c.wallet && !Better(c, best[i]);
      CutOne(best, c, i);
    }
  }

  lemma CutOne(best: seq<AttachedAccount>, c: AttachedAccount, i: nat)
    requires Sorted(best, Better) && i < |best| && best[i].wallet == c.wallet && !Better(c, best[i])
    ensures Represented(c, if |best| > LIMIT then best[..LIMIT] else best)
  {
    var r := if |best| > LIMIT then best[..LIMIT] else best;
    if i < |r| {
      assert r[i] == best[i];
    } else {
      forall k | 0 <= k < |r| ensures !Better(c, r[k]) {
        assert r[k] == best[k] && !Better(best[i], best[k]);
      }
    }
  }

  /** `c` is the candidate list, in some order; an empty prefix finds nothing. */
  method SearchAttachedAccountsByPrefix(lists: seq<seq<AttachedAccount>>, prefix: Text, normalize: Text -> Text)
    returns (result: seq<AttachedAccount>, ghost m: map<Key, AttachedAccount>, ghost c: seq<AttachedAccount>)
    requires forall i | 0 <= i < |lists| :: Sorted(lists[i], ByName)
    ensures prefix == [] ==> result == []
    ensures forall i, j | 0 <= i < j < |result| ::
              result[i].weight > result[j].weight
              || (result[i].weight == result[j].weight && |result[i].name| <= |result[j].name|)
    ensures prefix != [] ==>
      && Exclusive(m, Found(lists, normalize(prefix), normalize))
      && Candidates(c, m, normalize(prefix)) && Ranked(result, c)
  {
    if prefix == [] {
      return [], map[], [];
    }
    var p := normalize(prefix);
    var exclusive := CollectExclusive(lists, p, normalize);
    var accounts := Boost(exclusive, p);
    m, c := exclusive, accounts;
    BetterOrders(accounts);
    var sorted := Sort(accounts, Better);
    Members(sorted, accounts);
    result := Deduplicate(sorted);
    CutRanks(result, sorted);
    if |result| > LIMIT {
      result := result[..LIMIT];
    }
  }

  /** Every account found in any source is answered by one of the same wallet, unless the limit is full of accounts
      that are no worse than the version of it that was kept. */
  lemma FoundIsRepresented(a: AttachedAccount, found: seq<AttachedAccount>, m: map<Key, AttachedAccount>,
                           c: seq<AttachedAccount>, prefix: Text, r: seq<AttachedAccount>)
    requires a in found && Exclusive(m, found) && Candidates(c, m, prefix) && Ranked(r, c)
    ensures (exists b :: b in r && b.wallet == a.wallet) || |r| == LIMIT
    ensures Represented(Boosted(m[KeyOf(a)], prefix), r) && (a.whitelisted ==> m[KeyOf(a)].whitelisted)
  {
    var kept := Boosted(m[KeyOf(a)], prefix);
    assert kept in c && kept.wallet == a.wallet;
    if exists i :: 0 <= i < |r| && r[i].wallet == kept.wallet && !Better(kept, r[i]) {
      var i :| 0 <= i < |r| && r[i].wallet == kept.wallet;
      assert r[i] in r;
    }
  }
}
