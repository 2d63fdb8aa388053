/** What a merged transfer says, told by the bubbles it is made of (pkg/bath/straws.go, pkg/bath/staking.go). */
module Transfers {
  import opened Wrappers
  import opened Ledger
  import opened Bubbles
  import opened Patterns
  import opened Merges
  import opened Jettons
  import opened Listings

  /** The info after this hit, if there is one. */
  function After(hits: seq<Hit>, info: Info): Info {
    if hits == [] || BuildHit(hits[0], info).BuildFailed? then info else BuildHit(hits[0], info).info
  }

  /** The transfer is read first, then what the recipient's wallet received, then the notification. */
  lemma {:induction false} InfoInSteps(p: Pattern, internal: Straw, notify: Straw, t: Tree)
    returns (n: seq<Hit>, e: seq<Hit>, i: seq<Hit>)
    requires Honest(p, internal, notify) && Match(p.straw, t).Some? && Collapse(p, t).Some?
    ensures AtMostOne(n, notify) && AtMostOne(i, internal) && (i == [] ==> n == []) && Passes(p.straw, ViewOf(t))
    ensures Below(i, internal, t) && (i != [] ==> Below(n, notify, i[0].b))
    ensures Collapse(p, t).value.rec.info == After(n, After(i, After([Hit(p.straw, t)], p.zero)))
  {
    var ids := HitIds(Match(p.straw, t).value);
    n, e, i := TransferHits(p.straw, internal, notify, t);
    var root := Hit(p.straw, t);
    var d0 := Begin(p, t);
    assert root in Match(p.straw, t).value;
    OneBuilt(p, internal, notify, t, root, d0.info);
    TakeOne(n + e + i, root, d0, ids);
    var d1 := TakeHit(d0, root, ids);
    var d2 := Taken(p, internal, notify, t, n + e, i, d1, ids);
    var d3 := Taken(p, internal, notify, t, n, e, d2, ids);
    assert [] + n == n;
    var d4 := Taken(p, internal, notify, t, [], n, d3, ids);
    assert d3.info == d2.info;
  }

  // ----- the bubbles of a transfer -----

  /** The first child that passes, if any does. */
  ghost predicate Among(o: Option<Tree>, s: Straw, t: Tree) {
    match o
    case Some(k) => k in t.kids && Passes(s, ViewOf(k))
    case None => forall i | 0 <= i < |t.kids| :: Match(s, t.kids[i]).None?
  }

  /** The wallet that received, and the notification below it. */
  ghost predicate Received(t: Tree, internal: Straw, notify: Straw, i: Option<Tree>, n: Option<Tree>) {
    Among(i, internal, t) && if i.None? then n.None? else Among(n, notify, i.value)
  }

  function TxOf(t: Tree): BubbleTx
    requires t.rec.info.Tx?
  {
    t.rec.info.tx
  }

  predicate HasBody(t: Tree, has: Body -> bool) {
    t.rec.info.Tx? && t.rec.info.tx.decodedBody.Some? && has(t.rec.info.tx.decodedBody.value)
  }

  predicate IsTransfer(t: Tree) { HasBody(t, (b: Body) => b.JettonTransferBody?) }
  predicate IsInternal(t: Tree) { HasBody(t, (b: Body) => b.JettonInternalTransferBody?) }
  predicate IsNotify(t: Tree) { HasBody(t, (b: Body) => b.JettonNotifyBody?) }

  /** The master that the sender's wallet names, or else that the recipient's wallet names. */
  ghost predicate MasterIs(master: AccountID, t: Tree, i: Option<Tree>)
    requires t.rec.info.Tx? && (i.Some? ==> i.value.rec.info.Tx?)
  {
    var own, masters := TxOf(t).account.address, TxOf(t).jettonMasters;
    if own in masters && masters[own] != NO_ACCOUNT then master == masters[own]
    else if i.None? then master == NO_ACCOUNT
    else
      var other, others := TxOf(i.value).account.address, TxOf(i.value).jettonMasters;
      master == if other in others then others[other] else NO_ACCOUNT
  }

  /** Who sent and who received: the notified account knows better than the transfer who it is, the transfer knows
      better than the notification who sent. */
  ghost predicate EndsAre(sender: Option<Account>, recipient: Option<Account>, t: Tree, n: Option<Tree>)
    requires IsTransfer(t) && (n.Some? ==> IsNotify(n.value))
  {
    var to := TxOf(t).decodedBody.value.destination;
    && recipient == (if n.Some? then Some(TxOf(n.value).account)
                     else if to.Some? then Some(Account(to.value, {})) else None)
    && sender == (if TxOf(t).inputFrom.Some? then TxOf(t).inputFrom
                  else if n.Some? && TxOf(n.value).decodedBody.value.sender.Some?
                  then Some(Account(TxOf(n.value).decodedBody.value.sender.value, {}))
                  else None)
  }

  /** It succeeded if the recipient was notified, or at least the recipient's wallet succeeded. */
  ghost predicate SuccessIs(success: bool, i: Option<Tree>, n: Option<Tree>)
    requires i.Some? ==> i.value.rec.info.Tx?
  {
    success <==> n.Some? || (i.Some? && TxOf(i.value).success)
  }

  ghost predicate SaysTransfer(j: JettonTransferInfo, t: Tree, i: Option<Tree>, n: Option<Tree>)
    requires IsTransfer(t) && (i.Some? ==> i.value.rec.info.Tx?) && (n.Some? ==> IsNotify(n.value))
  {
    var told := (if n.Some? then TxOf(n.value) else TxOf(t)).decodedBody.value;
    && MasterIs(j.master, t, i) && EndsAre(j.sender, j.recipient, t, n) && SuccessIs(j.success, i, n)
    && j.amount == told.amount && j.payload == told.forwardPayload && !j.isWrappedTon
    && j.senderWallet == TxOf(t).account.address
    && j.recipientWallet == if i.Some? then TxOf(i.value).account.address else NO_ACCOUNT
  }

  ghost predicate SaysFlawed(j: FlawedTransferInfo, t: Tree, i: Option<Tree>, n: Option<Tree>)
    requires IsTransfer(t) && (i.Some? ==> IsInternal(i.value)) && (n.Some? ==> IsNotify(n.value))
  {
    && MasterIs(j.master, t, i) && EndsAre(j.sender, j.recipient, t, n) && SuccessIs(j.success, i, n)
    && j.sentAmount == TxOf(t).decodedBody.value.amount
    && j.receivedAmount == (if n.Some? then TxOf(n.value).decodedBody.value.amount
                            else if i.Some? then TxOf(i.value).decodedBody.value.amount else 0)
    && j.payload == (if n.Some? then TxOf(n.value) else TxOf(t)).decodedBody.value.forwardPayload
    && j.senderWallet == TxOf(t).account.address
    && j.recipientWallet == if i.Some? then TxOf(i.value).account.address else NO_ACCOUNT
  }

  function Step(o: Option<Tree>, build: (Info, View) -> Built, info: Info): Info {
    if o.None? || build(info, ViewOf(o.value)).BuildFailed? then info else build(info, ViewOf(o.value)).info
  }

  lemma ClassicSays(t: Tree, i: Option<Tree>, n: Option<Tree>)
    requires IsTransfer(t) && (i.Some? ==> i.value.rec.info.Tx?) && (n.Some? ==> IsNotify(n.value))
    ensures var info := Step(n, BuildNotify, Step(i, BuildInternal, Step(Some(t), BuildTransfer, CLASSIC.zero)));
            info.JettonTransfer? && SaysTransfer(info.transfer, t, i, n)
  {
    assert HasTransfer(ViewOf(t)) && (n.Some? ==> HasNotify(ViewOf(n.value)));
  }

  lemma FlawedSays(t: Tree, i: Option<Tree>, n: Option<Tree>)
    requires IsTransfer(t) && (i.Some? ==> IsInternal(i.value)) && (n.Some? ==> IsNotify(n.value))
    ensures var info := Step(n, BuildFlawedNotify,
                             Step(i, BuildFlawedInternal, Step(Some(t), BuildFlawed, FLAWED.zero)));
            info.FlawedJettonTransfer? && SaysFlawed(info.flawed, t, i, n)
  {
    assert HasTransfer(ViewOf(t)) && (n.Some? ==> HasNotify(ViewOf(n.value)));
    assert i.Some? ==> HasInternal(ViewOf(i.value));
  }

  function NodeOf(hits: seq<Hit>): Option<Tree> {
    if hits == [] then None else Some(hits[0].b)
  }

  /** What a classic transfer says is what its bubbles say. */
  lemma {:induction false} ClassicTells(t: Tree, t': Tree) returns (i: Option<Tree>, n: Option<Tree>)
    requires IsMergeOf(CLASSIC, t, t')
    ensures Received(t, INTERNAL, NOTIFY, i, n) && IsTransfer(t) && t'.rec.info.JettonTransfer?
    ensures (i.Some? ==> i.value.rec.info.Tx?) && (n.Some? ==> IsNotify(n.value))
    ensures SaysTransfer(t'.rec.info.transfer, t, i, n)
  {
    ClassicIsHonest();
    var ns, es, ins := InfoInSteps(CLASSIC, INTERNAL, NOTIFY, t);
    i, n := NodeOf(ins), NodeOf(ns);
    assert TRANSFER.checks[0](ViewOf(t)) && TRANSFER.checks[2](ViewOf(t));
    if i.Some? { assert INTERNAL.checks[0](ViewOf(i.value)); }
    if n.Some? { assert NOTIFY.checks[0](ViewOf(n.value)) && NOTIFY.checks[1](ViewOf(n.value)); }
    ClassicSays(t, i, n);
  }

  /** What a flawed transfer says is what its bubbles say, with both amounts. */
  lemma {:induction false} FlawedTells(t: Tree, t': Tree) returns (i: Option<Tree>, n: Option<Tree>)
    requires IsMergeOf(FLAWED, t, t')
    ensures Received(t, FLAWED_INTERNAL, FLAWED_NOTIFY, i, n) && IsTransfer(t) && t'.rec.info.FlawedJettonTransfer?
    ensures (i.Some? ==> IsInternal(i.value)) && (n.Some? ==> IsNotify(n.value))
    ensures SaysFlawed(t'.rec.info.flawed, t, i, n)
  {
    FlawedIsHonest();
    var ns, es, ins := InfoInSteps(FLAWED, FLAWED_INTERNAL, FLAWED_NOTIFY, t);
    i, n := NodeOf(ins), NodeOf(ns);
    assert FLAWED_TRANSFER.checks[0](ViewOf(t)) && FLAWED_TRANSFER.checks[2](ViewOf(t));
    if i.Some? {
      assert FLAWED_INTERNAL.checks[0](ViewOf(i.value)) && FLAWED_INTERNAL.checks[2](ViewOf(i.value));
    }
    if n.Some? {
      assert FLAWED_NOTIFY.checks[0](ViewOf(n.value)) && FLAWED_NOTIFY.checks[1](ViewOf(n.value));
    }
    FlawedSays(t, i, n);
  }

  /** The merged bubble lists the account the transfer goes to, even if no bubble of it was merged. */
  lemma {:induction false} DestinationIsListed(p: Pattern, t: Tree, t': Tree)
    requires (p == CLASSIC || p == FLAWED) && IsMergeOf(p, t, t') && Distinct(t)
    ensures IsTransfer(t)
    ensures var to := TxOf(t).decodedBody.value.destination; to.Some? ==> to.value in t'.rec.accounts
  {
    var hits := Match(p.straw, t).value;
    MatchHits(p.straw, t, hits[|hits| - 1]);
    assert hits[|hits| - 1] == Hit(p.straw, t);
    assert p.straw.checks[0](ViewOf(t)) && p.straw.checks[2](ViewOf(t));
    var to := TxOf(t).decodedBody.value.destination;
    if to.Some? {
      assert HasTransfer(ViewOf(t)) && to.value in Appends(hits, p.zero, |hits| - 1);
      NewBubbleLists(p, t, t', to.value, 0);
    }
  }

  predicate On(t: Tree, i: Interface) {
    t.rec.info.Tx? && i in t.rec.info.tx.account.interfaces
  }

  /** Some child carries an internal transfer of another amount. */
  ghost predicate LosesOnTheWay(t: Tree)
    requires IsTransfer(t)
  {
    exists i :: 0 <= i < |t.kids| && IsInternal(t.kids[i])
                && TxOf(t.kids[i]).decodedBody.value.amount != TxOf(t).decodedBody.value.amount
  }

  lemma {:induction false} OptionalKidMatches(s: Straw, k: Straw, t: Tree)
    requires KidStraws(s) == [k] && k.optional
    ensures Match(s, t).Some? <==> !t.rec.merged && Passes(s, ViewOf(t))
  {
    var taken := NoneTaken(t);
    var f := Find(k, t, taken, 0);
    assert [k][1..] == [] && MatchKids([], t, taken) == Some([]);
    if f < |t.kids| { assert MatchKids([], t, taken[f := true]) == Some([]); }
  }

  /** The classic pattern takes every unmarked transfer on a jetton wallet, and nothing else. */
  lemma {:induction false} ClassicTakesTransfers(t: Tree)
    ensures Match(CLASSIC.straw, t).Some? <==> !t.rec.merged && IsTransfer(t) && On(t, Interface.JettonWallet)
  {
    OptionalKidMatches(TRANSFER, INTERNAL, t);
    var v := ViewOf(t);
    assert TRANSFER.checks == [Jettons.IsTx, IsWallet, HasTransfer];
    assert Passes(TRANSFER, v) <==> TRANSFER.checks[0](v) && TRANSFER.checks[1](v) && TRANSFER.checks[2](v);
  }

  /** The flawed pattern takes those of them that lose something on the way. */
  lemma {:induction false} FlawedTakesLosses(t: Tree)
    ensures Match(FLAWED.straw, t).Some?
            <==> !t.rec.merged && IsTransfer(t) && On(t, Interface.JettonWallet) && LosesOnTheWay(t)
  {
    OptionalKidMatches(FLAWED_TRANSFER, FLAWED_INTERNAL, t);
    var v := ViewOf(t);
    assert FLAWED_TRANSFER.checks == [Jettons.IsTx, IsWallet, HasTransfer, AmountsDiffer];
    assert Passes(FLAWED_TRANSFER, v) <==>
        && FLAWED_TRANSFER.checks[0](v) && FLAWED_TRANSFER.checks[1](v) && FLAWED_TRANSFER.checks[2](v)
        && FLAWED_TRANSFER.checks[3](v);
    if IsTransfer(t) { Losses(t); }
  }

  lemma Losses(t: Tree)
    requires IsTransfer(t)
    ensures AmountsDiffer(ViewOf(t)) <==> LosesOnTheWay(t)
  {
    assert HasTransfer(ViewOf(t));
    forall i | 0 <= i < |t.kids| ensures ViewOf(t).below[i] == t.kids[i].rec.info { }
    if LosesOnTheWay(t) {
      var i :| 0 <= i < |t.kids| && IsInternal(t.kids[i])
               && TxOf(t.kids[i]).decodedBody.value.amount != TxOf(t).decodedBody.value.amount;
      assert ViewOf(t).below[i] == t.kids[i].rec.info;
    }
    if AmountsDiffer(ViewOf(t)) {
      var i :| 0 <= i < |t.kids| && BodyIs(ViewOf(t).below[i], (b: Body) => b.JettonInternalTransferBody?)
               && ViewOf(t).below[i].tx.decodedBody.value.amount != t.rec.info.tx.decodedBody.value.amount;
      assert IsInternal(t.kids[i]);
    }
  }

  // ----- a deposit -----

  lemma {:induction false} OnlyKidHits(s: Straw, k: Straw, t: Tree) returns (c: Tree)
    requires KidStraws(s) == [k] && !k.optional && Match(s, t).Some?
    ensures c in t.kids && Match(k, c).Some? && Passes(s, ViewOf(t))
    ensures Match(s, t).value == Match(k, c).value + if s.notMerge then [] else [Hit(s, t)]
  {
    var taken := NoneTaken(t);
    var f := Find(k, t, taken, 0);
    c := t.kids[f];
    assert [k][1..] == [] && MatchKids([], t, taken[f := true]) == Some([]);
    assert Match(k, c).value + [] == Match(k, c).value;
  }

  lemma {:induction false} PositionHits(t: Tree) returns (e: seq<Hit>)
    requires Match(POSITION, t).Some?
    ensures Match(POSITION, t).value == e + [Hit(POSITION, t)] && AtMostOne(e, POSITION_EXCESS)
  {
    var taken;
    assert KidStraws(POSITION) == [POSITION_EXCESS] + [];
    e, taken := OptionalLeaf(POSITION_EXCESS, [], t, NoneTaken(t));
    assert e + [] == e;
  }

  lemma {:induction false} DepositHits(t: Tree) returns (oracle: Tree, position: Tree, e: seq<Hit>)
    requires Match(DEPOSIT.straw, t).Some?
    ensures oracle in t.kids && position in oracle.kids && AtMostOne(e, POSITION_EXCESS)
    ensures Match(DEPOSIT.straw, t).value == e + [Hit(POSITION, position), Hit(DEPOSIT.straw, t)]
  {
    assert KidStraws(DEPOSIT.straw) == [ORACLE] && KidStraws(ORACLE) == [POSITION];
    oracle := OnlyKidHits(DEPOSIT.straw, ORACLE, t);
    position := OnlyKidHits(ORACLE, POSITION, oracle);
    e := PositionHits(position);
    assert e + [Hit(POSITION, position)] + [] + [Hit(DEPOSIT.straw, t)]
        == e + [Hit(POSITION, position), Hit(DEPOSIT.straw, t)];
  }

  lemma KnownDeposit(hits: seq<Hit>, e: seq<Hit>, position: Hit, root: Hit, zero: Info)
    requires hits == e + [position, root] && AtMostOne(e, POSITION_EXCESS)
    requires position.s == POSITION && root.s == DEPOSIT.straw && Known(hits, zero, 0).Some?
    ensures var first := BuildDeposit(zero, ViewOf(root.b));
            first.Built? && var second := BuildPosition(first.info, ViewOf(position.b));
            second.Built? && Known(hits, zero, 0) == Some(second.info)
  {
    var n := |e|;
    assert hits[n] == position && hits[n + 1] == root && |hits| == n + 2;
    assert Known(hits, zero, n + 2) == Some(zero);
    assert n == 1 ==> hits[0] == e[0] && hits[0].s.builder.None?;
    assert Known(hits, zero, n).Some?;
    assert Known(hits, zero, n + 1).Some?;
  }

  /** A deposit says who sent how much of what to which vault, and whether the vault's position took it. */
  lemma {:induction false} DepositTells(t: Tree, t': Tree) returns (oracle: Tree, position: Tree)
    requires IsMergeOf(DEPOSIT, t, t')
    ensures oracle in t.kids && position in oracle.kids && t.rec.info.JettonTransfer? && position.rec.info.Tx?
    ensures var j := t.rec.info.transfer;
            && j.sender.Some? && j.recipient.Some? && j.payload.FfVaultAssetDepositPayload?
            && Interface.FfVault in j.recipient.value.interfaces
            && t'.rec.info == DepositStake(j.sender.value.address, j.recipient.value.address, j.master, j.amount,
                                           position.rec.info.tx.success)
  {
    var e;
    oracle, position, e := DepositHits(t);
    assert DEPOSIT.straw.checks[0](ViewOf(t)) && DEPOSIT.straw.checks[2](ViewOf(t)) by {
      assert Passes(DEPOSIT.straw, ViewOf(t));
    }
    MergeAsksBuilders(DEPOSIT, t);
    KnownDeposit(Match(DEPOSIT.straw, t).value, e, Hit(POSITION, position), Hit(DEPOSIT.straw, t), DEPOSIT.zero);
  }
}
