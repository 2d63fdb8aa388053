/** The jetton transfer patterns and the one user of a straw that leaves its bubble in place
    (pkg/bath/straws.go, pkg/bath/staking.go). */
module Jettons {
  import opened Wrappers
  import opened Ledger
  import opened Bubbles
  import opened Patterns
  import opened Merges
  import opened Fixpoint
  import opened Actions

  const NO_ACCOUNT: AccountID := AccountID(0, 0)

  // ----- checks -----

  predicate IsTx(v: View) { v.info.Tx? }

  predicate BodyIs(info: Info, has: Body -> bool) {
    info.Tx? && info.tx.decodedBody.Some? && has(info.tx.decodedBody.value)
  }

  predicate HasInterface(info: Info, i: Interface) {
    match info
    case Tx(tx) => tx.account.Is(i)
    case JettonTransfer(j) => j.recipient.Some? && j.recipient.value.Is(i)
    case _ => false
  }

  predicate IsWallet(v: View) { HasInterface(v.info, JettonWallet) }
  predicate HasTransfer(v: View) { BodyIs(v.info, (b: Body) => b.JettonTransferBody?) }
  predicate HasInternal(v: View) { BodyIs(v.info, (b: Body) => b.JettonInternalTransferBody?) }
  predicate HasNotify(v: View) { BodyIs(v.info, (b: Body) => b.JettonNotifyBody?) }
  predicate HasExcess(v: View) { BodyIs(v.info, (b: Body) => b.ExcessBody?) }
  predicate WalletOrInternal(v: View) { IsWallet(v) || HasInternal(v) }

  /** Some internal transfer below carries another amount than the transfer. */
  predicate AmountsDiffer(v: View) {
    && HasTransfer(v)
    && exists i ::
         && 0 <= i < |v.below| && BodyIs(v.below[i], (b: Body) => b.JettonInternalTransferBody?)
         && v.below[i].tx.decodedBody.value.amount != v.info.tx.decodedBody.value.amount
  }

  // ----- builders -----

  function MasterOf(tx: BubbleTx): AccountID {
    if tx.account.address in tx.jettonMasters then tx.jettonMasters[tx.account.address] else NO_ACCOUNT
  }

  function Plain(a: AccountID): Account { Account(a, {}) }

  function BuildTransfer(info: Info, v: View): Built {
    if !info.JettonTransfer? || !HasTransfer(v) then Built(info, []) else
    var tx := v.info.tx;
    var body := tx.decodedBody.value;
    var to := body.destination;
    Built(JettonTransfer(info.transfer.(master := MasterOf(tx), senderWallet := tx.account.address,
                                        sender := tx.inputFrom, amount := body.amount, payload := body.forwardPayload,
                                        recipient := if to.Some? then Some(Plain(to.value))
                                                     else info.transfer.recipient)),
          if to.Some? then [to.value] else [])
  }

  function BuildInternal(info: Info, v: View): Built {
    if !info.JettonTransfer? || !v.info.Tx? then Built(info, []) else
    var tx := v.info.tx;
    var j := info.transfer.(recipientWallet := tx.account.address, success := tx.success);
    Built(JettonTransfer(if j.master.IsZero() then j.(master := MasterOf(tx)) else j), [])
  }

  function BuildNotify(info: Info, v: View): Built {
    if !info.JettonTransfer? || !HasNotify(v) then Built(info, []) else
    var tx := v.info.tx;
    var body := tx.decodedBody.value;
    var j := info.transfer.(success := true, amount := body.amount, payload := body.forwardPayload,
                            recipient := Some(tx.account));
    var known := j.sender.None? && body.sender.Some?;
    Built(JettonTransfer(if known then j.(sender := Some(Plain(body.sender.value))) else j), [])
  }

  function BuildFlawed(info: Info, v: View): Built {
    if !info.FlawedJettonTransfer? || !HasTransfer(v) then Built(info, []) else
    var tx := v.info.tx;
    var body := tx.decodedBody.value;
    var to := body.destination;
    Built(FlawedJettonTransfer(info.flawed.(master := MasterOf(tx), senderWallet := tx.account.address,
                                            sender := tx.inputFrom, sentAmount := body.amount,
                                            payload := body.forwardPayload,
                                            recipient := if to.Some? then Some(Plain(to.value))
                                                         else info.flawed.recipient)),
          if to.Some? then [to.value] else [])
  }

  function BuildFlawedInternal(info: Info, v: View): Built {
    if !info.FlawedJettonTransfer? || !HasInternal(v) then Built(info, []) else
    var tx := v.info.tx;
    var j := info.flawed.(recipientWallet := tx.account.address, receivedAmount := tx.decodedBody.value.amount,
                          success := tx.success);
    Built(FlawedJettonTransfer(if j.master.IsZero() then j.(master := MasterOf(tx)) else j), [])
  }

  function BuildFlawedNotify(info: Info, v: View): Built {
    if !info.FlawedJettonTransfer? || !HasNotify(v) then Built(info, []) else
    var tx := v.info.tx;
    var body := tx.decodedBody.value;
    var j := info.flawed.(success := true, receivedAmount := body.amount, payload := body.forwardPayload,
                          recipient := Some(tx.account));
    var known := j.sender.None? && body.sender.Some?;
    Built(FlawedJettonTransfer(if known then j.(sender := Some(Plain(body.sender.value))) else j), [])
  }

  // ----- updaters -----

  function Moves(to: Option<Account>, from: Option<Account>, master: AccountID, received: int,
                 sent: int): seq<JettonChange> {
    (if to.Some? then [JettonChange(to.value.address, master, received)] else [])
    + (if from.Some? then [JettonChange(from.value.address, master, -sent)] else [])
  }

  function MovesOf(info: Info): seq<JettonChange> {
    match info
    case JettonTransfer(j) => Moves(j.recipient, j.sender, j.master, j.amount, j.amount)
    case FlawedJettonTransfer(j) => Moves(j.recipient, j.sender, j.master, j.receivedAmount, j.sentAmount)
    case _ => []
  }

  predicate Succeeded(info: Info) {
    match info
    case JettonTransfer(j) => j.success
    case FlawedJettonTransfer(j) => j.success
    case _ => false
  }

  /** The updater of the internal transfer; the notification's is MovesOf itself. */
  function MovesIfSuccess(info: Info): seq<JettonChange> {
    if Succeeded(info) then MovesOf(info) else []
  }

  // ----- the patterns -----

  const EXCESS: Straw := Straw([IsTx, HasExcess], None, None, None, [], false, true)

  const NOTIFY: Straw := Straw([IsTx, HasNotify], Some(BuildNotify), Some(MovesOf), None, [], false, true)

  const INTERNAL: Straw :=
    Straw([IsTx, WalletOrInternal], Some(BuildInternal), Some(MovesIfSuccess), None, [NOTIFY, EXCESS], false, true)

  const TRANSFER: Straw := Straw([IsTx, IsWallet, HasTransfer], Some(BuildTransfer), None, Some(INTERNAL), [], false,
                                 false)

  const CLASSIC: Pattern := Pattern(TRANSFER, JettonTransfer(
    JettonTransferInfo(None, None, NO_ACCOUNT, NO_ACCOUNT, NO_ACCOUNT, 0, OtherPayload(""), false, false)))

  const FLAWED_NOTIFY: Straw := Straw([IsTx, HasNotify], Some(BuildFlawedNotify), Some(MovesOf), None, [], false, true)

  const FLAWED_INTERNAL: Straw :=
    Straw([IsTx, IsWallet, HasInternal], Some(BuildFlawedInternal), Some(MovesIfSuccess), None, [FLAWED_NOTIFY, EXCESS],
          false, true)

  const FLAWED_TRANSFER: Straw :=
    Straw([IsTx, IsWallet, HasTransfer, AmountsDiffer], Some(BuildFlawed), None, Some(FLAWED_INTERNAL), [], false,
          false)

  const FLAWED: Pattern := Pattern(FLAWED_TRANSFER, FlawedJettonTransfer(
    FlawedTransferInfo(None, None, NO_ACCOUNT, NO_ACCOUNT, NO_ACCOUNT, 0, 0, OtherPayload(""), false)))

  // ----- what both patterns can match -----

  /** A transfer with an optional internal transfer below, and below that an optional notification and excess. */
  ghost predicate TransferShape(root: Straw, internal: Straw, notify: Straw) {
    && root.single == Some(internal) && root.children == [] && !root.notMerge && root.updater.None?
    && internal.single.None? && internal.children == [notify, EXCESS] && !internal.notMerge && internal.optional
    && notify.single.None? && notify.children == [] && !notify.notMerge && notify.optional
    && notify.updater == Some(MovesOf) && internal.updater == Some(MovesIfSuccess)
  }

  /** At most one hit, of this straw. */
  ghost predicate AtMostOne(hits: seq<Hit>, s: Straw) {
    hits == [] || (|hits| == 1 && hits[0].s == s && Passes(s, ViewOf(hits[0].b)))
  }

  /** The hit is on a child, and there is none only if no child matches. */
  ghost predicate Below(hits: seq<Hit>, s: Straw, t: Tree) {
    if hits == [] then forall i | 0 <= i < |t.kids| :: Match(s, t.kids[i]).None? else hits[0].b in t.kids
  }

  lemma LeafHits(s: Straw, t: Tree)
    requires s.single.None? && s.children == [] && !s.notMerge && Match(s, t).Some?
    ensures Match(s, t).value == [Hit(s, t)] && Passes(s, ViewOf(t))
  {
    assert KidStraws(s) == [];
    assert [] + [Hit(s, t)] == [Hit(s, t)];
  }

  lemma {:induction false} OptionalLeaf(s: Straw, rest: seq<Straw>, t: Tree, taken: seq<bool>)
    returns (hits: seq<Hit>, taken': seq<bool>)
    requires s.single.None? && s.children == [] && !s.notMerge && s.optional && |taken| == |t.kids|
    ensures AtMostOne(hits, s) && |taken'| == |t.kids|
    ensures hits != [] ==> hits[0].b in t.kids
    ensures hits == [] ==> forall i | 0 <= i < |t.kids| :: taken[i] || Match(s, t.kids[i]).None?
    ensures MatchKids([s] + rest, t, taken)
         == if MatchKids(rest, t, taken').None? then None else Some(hits + MatchKids(rest, t, taken').value)
  {
    assert ([s] + rest)[1..] == rest;
    var i := Find(s, t, taken, 0);
    if i == |t.kids| {
      hits, taken' := [], taken;
    } else {
      LeafHits(s, t.kids[i]);
      hits, taken' := Match(s, t.kids[i]).value, taken[i := true];
    }
    assert MatchKids(rest, t, taken').Some? ==>
        [] + MatchKids(rest, t, taken').value == MatchKids(rest, t, taken').value;
  }

  lemma {:induction false} InternalHits(internal: Straw, notify: Straw, t: Tree) returns (n: seq<Hit>, e: seq<Hit>)
    requires internal.single.None? && internal.children == [notify, EXCESS] && !internal.notMerge
    requires notify.single.None? && notify.children == [] && !notify.notMerge && notify.optional
    requires Match(internal, t).Some?
    ensures AtMostOne(n, notify) && AtMostOne(e, EXCESS) && Below(n, notify, t)
    ensures Match(internal, t).value == n + e + [Hit(internal, t)] && Passes(internal, ViewOf(t))
  {
    assert KidStraws(internal) == [notify] + [EXCESS] && [EXCESS] + [] == [EXCESS];
    var taken;
    n, taken := OptionalLeaf(notify, [EXCESS], t, NoneTaken(t));
    e, taken := OptionalLeaf(EXCESS, [], t, taken);
    assert e + [] == e;
  }

  lemma {:induction false} TransferHits(root: Straw, internal: Straw, notify: Straw, t: Tree)
    returns (n: seq<Hit>, e: seq<Hit>, i: seq<Hit>)
    requires TransferShape(root, internal, notify) && Match(root, t).Some?
    ensures AtMostOne(n, notify) && AtMostOne(e, EXCESS) && AtMostOne(i, internal)
    ensures Match(root, t).value == n + e + i + [Hit(root, t)] && Passes(root, ViewOf(t))
    ensures i == [] ==> n == [] && e == []
    ensures Below(i, internal, t) && (i != [] ==> Below(n, notify, i[0].b))
  {
    assert KidStraws(root) == [internal] && [internal][1..] == [];
    var taken := NoneTaken(t);
    var f := Find(internal, t, taken, 0);
    var m := MatchKids([internal], t, taken);
    if f == |t.kids| {
      n, e, i := [], [], [];
      assert m == MatchKids([], t, taken) == Some([]);
      assert n + e + i == [];
    } else {
      n, e := InternalHits(internal, notify, t.kids[f]);
      i := [Hit(internal, t.kids[f])];
      assert MatchKids([], t, taken[f := true]) == Some([]);
      assert m == Some(Match(internal, t.kids[f]).value + []);
      assert Match(internal, t.kids[f]).value + [] == n + e + i;
    }
    assert m == Some(n + e + i);
  }

  // ----- what a merge of either pattern does to the flow -----

  lemma TakeOne(a: seq<Hit>, h: Hit, d: Draft, ids: set<Bubble>)
    ensures TakeAll(a + [h], d, ids)
         == if BuildHit(h, d.info).BuildFailed? then None else TakeAll(a, TakeHit(d, h, ids), ids)
  {
    assert (a + [h])[..|a|] == a;
  }

  /** Only an internal transfer or a notification can turn the new bubble into a success, and a notification does. */
  ghost predicate Honest(p: Pattern, internal: Straw, notify: Straw) {
    var k := KindOf(p.zero);
    && TransferShape(p.straw, internal, notify) && !Succeeded(p.zero) && BuildersSucceed(p.straw) && Typed(p.straw, k)
    && p.straw.builder.Some? && notify.builder.Some? && p.straw.updater.None?
    && (forall info, v :: p.straw.builder.value(info, v).Built? && !Succeeded(info) ==>
          !Succeeded(p.straw.builder.value(info, v).info))
    && (forall info, v | Passes(notify, v) && KindOf(info) == k && notify.builder.value(info, v).Built? ::
          Succeeded(notify.builder.value(info, v).info))
  }

  /** The info after one hit. */
  lemma {:induction false} OneBuilt(p: Pattern, internal: Straw, notify: Straw, t: Tree, h: Hit, info: Info)
    requires Honest(p, internal, notify) && Match(p.straw, t).Some? && h in Match(p.straw, t).value
    requires KindOf(info) == KindOf(p.zero)
    ensures BuildHit(h, info).Built? && KindOf(BuildHit(h, info).info) == KindOf(p.zero)
    ensures h.s == p.straw && !Succeeded(info) ==> !Succeeded(BuildHit(h, info).info)
    ensures h.s == notify ==> Succeeded(BuildHit(h, info).info)
  {
    var k := KindOf(p.zero);
    MatchHits(p.straw, t, h);
    ThroughoutHits(p.straw, t, x => TypedAt(x, k), h);
    ThroughoutHits(p.straw, t, SucceedsAt, h);
  }

  /** A merge of either pattern records the transfer in the flow if and only if the new bubble is a success. */
  lemma {:induction false} RecordsSuccess(p: Pattern, internal: Straw, notify: Straw, t: Tree)
    requires Honest(p, internal, notify) && Match(p.straw, t).Some? && Collapse(p, t).Some?
    ensures var product := Collapse(p, t).value;
            KindOf(product.rec.info) == KindOf(p.zero) && product.changes == MovesIfSuccess(product.rec.info)
  {
    var hits := Match(p.straw, t).value;
    var ids := HitIds(hits);
    var n, e, i := TransferHits(p.straw, internal, notify, t);
    var root := Hit(p.straw, t);
    OneUpdater(p, t);
    FirstOf(n, e, i, root, internal, notify);
    var d0 := Begin(p, t);
    assert root in hits;
    OneBuilt(p, internal, notify, t, root, d0.info);
    TakeOne(n + e + i, root, d0, ids);
    var d1 := TakeHit(d0, root, ids);
    var d2 := Taken(p, internal, notify, t, n + e, i, d1, ids);
    var d3 := Taken(p, internal, notify, t, n, e, d2, ids);
    assert [] + n == n;
    var d4 := Taken(p, internal, notify, t, [], n, d3, ids);
    assert Collapse(p, t).value.rec.info == d4.info;
  }

  lemma {:induction false} Taken(p: Pattern, internal: Straw, notify: Straw, t: Tree, a: seq<Hit>, b: seq<Hit>,
                                 d: Draft, ids: set<Bubble>)
    returns (d': Draft)
    requires Honest(p, internal, notify) && Match(p.straw, t).Some? && |b| <= 1
    requires forall h | h in b :: h in Match(p.straw, t).value
    requires KindOf(d.info) == KindOf(p.zero)
    ensures TakeAll(a + b, d, ids) == TakeAll(a, d', ids) && KindOf(d'.info) == KindOf(p.zero)
    ensures b == [] ==> d' == d
    ensures b != [] ==> BuildHit(b[0], d.info).Built? && d'.info == BuildHit(b[0], d.info).info
    ensures b != [] && b[0].s == notify ==> Succeeded(d'.info)
  {
    if b == [] {
      assert a + b == a;
      d' := d;
    } else {
      assert b == [b[0]];
      OneBuilt(p, internal, notify, t, b[0], d.info);
      TakeOne(a, b[0], d, ids);
      d' := TakeHit(d, b[0], ids);
    }
  }

  lemma FirstOf(n: seq<Hit>, e: seq<Hit>, i: seq<Hit>, root: Hit, internal: Straw, notify: Straw)
    requires AtMostOne(n, notify) && AtMostOne(e, EXCESS) && AtMostOne(i, internal) && root.s.updater.None?
    requires notify.updater.Some? && internal.updater.Some?
    ensures FirstUpdater(n + e + i + [root])
         == if n != [] then notify.updater else if i != [] then internal.updater else None
  {
    var all := n + e + i + [root];
    if n == [] {
      assert all == e + i + [root];
      if e != [] {
        assert all[1..] == i + [root];
        assert FirstUpdater(all) == FirstUpdater(i + [root]);
      } else {
        assert all == i + [root];
      }
      NoneFirst(root);
      if i == [] {
        assert i + [root] == [root];
      } else {
        assert (i + [root])[0] == i[0];
      }
    } else {
      assert all[0] == n[0];
    }
  }

  lemma LeafStraw(s: Straw, has: Straw -> bool)
    requires s.single.None? && s.children == []
    ensures WellFormed(s) && NoNested(s) && MinHits(s) == if s.notMerge then 0 else 1
    ensures Throughout(s, has) <==> has(s)
  {
    assert KidStraws(s) == [];
  }

  lemma TransferStraw(root: Straw, internal: Straw, notify: Straw, has: Straw -> bool)
    requires TransferShape(root, internal, notify)
    ensures WellFormed(root) && NoNested(root)
    ensures has(root) && has(internal) && has(notify) && has(EXCESS) ==> Throughout(root, has)
  {
    LeafStraw(EXCESS, has);
    LeafStraw(notify, has);
    assert KidStraws(internal) == [notify, EXCESS] && KidStraws(root) == [internal];
    assert WellFormed(internal) && NoNested(internal);
    assert has(internal) && has(notify) && has(EXCESS) ==> Throughout(internal, has);
  }

  lemma NoneFirst(h: Hit)
    requires h.s.updater.None?
    ensures FirstUpdater([h]) == None
  {
    assert [h][1..] == [];
  }

  lemma ClassicIsHonest()
    ensures Honest(CLASSIC, INTERNAL, NOTIFY) && MakesProgress(Generic(CLASSIC))
  {
    assert TransferShape(TRANSFER, INTERNAL, NOTIFY);
    TransferStraw(TRANSFER, INTERNAL, NOTIFY, x => TypedAt(x, JettonTransferKind));
    TransferStraw(TRANSFER, INTERNAL, NOTIFY, SucceedsAt);
    forall v | Passes(TRANSFER, v) ensures v.info.Tx? { assert TRANSFER.checks[0](v); }
    forall v | Passes(NOTIFY, v) ensures HasNotify(v) { assert NOTIFY.checks[1](v); }
  }

  lemma FlawedIsHonest()
    ensures Honest(FLAWED, FLAWED_INTERNAL, FLAWED_NOTIFY) && MakesProgress(Generic(FLAWED))
  {
    assert TransferShape(FLAWED_TRANSFER, FLAWED_INTERNAL, FLAWED_NOTIFY);
    TransferStraw(FLAWED_TRANSFER, FLAWED_INTERNAL, FLAWED_NOTIFY, x => TypedAt(x, FlawedKind));
    TransferStraw(FLAWED_TRANSFER, FLAWED_INTERNAL, FLAWED_NOTIFY, SucceedsAt);
    forall v | Passes(FLAWED_TRANSFER, v) ensures v.info.Tx? { assert FLAWED_TRANSFER.checks[0](v); }
    forall v | Passes(FLAWED_NOTIFY, v) ensures HasNotify(v) { assert FLAWED_NOTIFY.checks[1](v); }
  }

  // ----- sums per master -----

  /** What the merge adds to the sum of one master over all accounts. */
  function NetOf(info: Info, master: AccountID): int {
    match info
    case JettonTransfer(j) =>
      if j.success && j.master == master
      then (if j.recipient.Some? then j.amount else 0) - (if j.sender.Some? then j.amount else 0)
      else 0
    case FlawedJettonTransfer(j) =>
      if j.success && j.master == master
      then (if j.recipient.Some? then j.receivedAmount else 0) - (if j.sender.Some? then j.sentAmount else 0) else 0
    case _ => 0
  }

  /** The parties of the transfer are among these accounts. */
  predicate Parties(info: Info, accounts: seq<AccountID>) {
    var ends := match info
      case JettonTransfer(j) => (j.recipient, j.sender)
      case FlawedJettonTransfer(j) => (j.recipient, j.sender)
      case _ => (None, None);
    (ends.0.Some? ==> ends.0.value.address in accounts) && (ends.1.Some? ==> ends.1.value.address in accounts)
  }

  lemma {:induction false} MovesSum(to: Option<Account>, from: Option<Account>, m: AccountID, received: int, sent: int,
                                    accounts: seq<AccountID>, master: AccountID)
    requires Unique(accounts)
    requires to.Some? ==> to.value.address in accounts
    requires from.Some? ==> from.value.address in accounts
    ensures SumOver(accounts, a => ChangeOf(Moves(to, from, m, received, sent), Jettons(a, master)))
         == if m != master then 0 else (if to.Some? then received else 0) - (if from.Some? then sent else 0)
  {
    var f := a => if to.Some? && a == to.value.address && m == master then received else 0;
    var g := a => if from.Some? && a == from.value.address && m == master then -sent else 0;
    forall a ensures ChangeOf(Moves(to, from, m, received, sent), Jettons(a, master)) == f(a) + g(a) {
      MovesAt(to, from, m, received, sent, a, master);
    }
    SumOverOne(accounts, f, if to.Some? then to.value.address else NO_ACCOUNT);
    SumOverOne(accounts, g, if from.Some? then from.value.address else NO_ACCOUNT);
    SumOverAdd(accounts, f, g, a => ChangeOf(Moves(to, from, m, received, sent), Jettons(a, master)));
  }

  lemma MovesAt(to: Option<Account>, from: Option<Account>, m: AccountID, received: int, sent: int, a: AccountID,
                master: AccountID)
    ensures ChangeOf(Moves(to, from, m, received, sent), Jettons(a, master))
         == (if to.Some? && a == to.value.address && m == master then received else 0)
          + (if from.Some? && a == from.value.address && m == master then -sent else 0)
  {
    var moves := Moves(to, from, m, received, sent);
    var none: seq<JettonChange> := [];
    assert ChangeOf(none, Jettons(a, master)) == 0;
    if to.Some? && from.Some? {
      assert moves[0] == JettonChange(to.value.address, m, received);
      assert ChangeOf(moves[1..], Jettons(a, master))
          == (if a == from.value.address && m == master then -sent else 0) + ChangeOf(none, Jettons(a, master)) by {
        assert moves[1..] == [JettonChange(from.value.address, m, -sent)] && moves[1..][1..] == [];
      }
      assert moves[1..] == [JettonChange(from.value.address, m, -sent)] && moves[1..][1..] == [];
    } else if moves != [] {
      assert moves[1..] == [];
    }
  }

  /** What all these accounts together gained of a master. */
  function JettonTotal(t: Tree, accounts: seq<AccountID>, master: AccountID): int {
    SumOver(accounts, a => Sum(t, Asset(Jettons(a, master))))
  }

  /** Over all accounts, a merge adds exactly what was received less what was sent, of the transfer's own master, and
      nothing unless the new bubble is a success. */
  lemma {:induction false} MergeAddsNet(p: Pattern, internal: Straw, notify: Straw, t: Tree, t': Tree,
                                        accounts: seq<AccountID>, master: AccountID)
    requires Honest(p, internal, notify) && NoNested(p.straw)
    requires KindOf(p.zero) == JettonTransferKind || KindOf(p.zero) == FlawedKind
    requires IsMergeOf(p, t, t') && Distinct(t) && NoMarks(t)
    requires Unique(accounts) && Parties(t'.rec.info, accounts)
    ensures JettonTotal(t', accounts, master) == JettonTotal(t, accounts, master) + NetOf(t'.rec.info, master)
  {
    var product := Collapse(p, t).value;
    RecordsSuccess(p, internal, notify, t);
    var before := a => Sum(t, Asset(Jettons(a, master)));
    var after := a => Sum(t', Asset(Jettons(a, master)));
    var change := a => ChangeOf(product.changes, Jettons(a, master));
    forall a ensures after(a) == before(a) + change(a) {
      MergeKeepsFlow(p, t, t', Jettons(a, master));
    }
    SumOverAdd(accounts, before, change, after);
    if Succeeded(product.rec.info) {
      match product.rec.info
      case JettonTransfer(j) => MovesSum(j.recipient, j.sender, j.master, j.amount, j.amount, accounts, master);
      case FlawedJettonTransfer(j) => MovesSum(j.recipient, j.sender, j.master, j.receivedAmount, j.sentAmount,
                                               accounts, master);
    } else {
      Nothing(accounts);
      SumOverSame(accounts, change, a => 0);
    }
  }

  /** A classic transfer keeps every master's sum if it fails, moves nothing, or both ends are known or unknown; and
      only then. */
  lemma {:induction false} ClassicKeepsSupplyIff(t: Tree, t': Tree, accounts: seq<AccountID>)
    requires IsMergeOf(CLASSIC, t, t') && Distinct(t) && NoMarks(t)
    requires Unique(accounts) && Parties(t'.rec.info, accounts)
    ensures t'.rec.info.JettonTransfer?
    ensures var j := t'.rec.info.transfer;
            (forall master :: JettonTotal(t', accounts, master) == JettonTotal(t, accounts, master))
            <==> !j.success || j.amount == 0 || j.sender.Some? == j.recipient.Some?
  {
    ClassicIsHonest();
    RecordsSuccess(CLASSIC, INTERNAL, NOTIFY, t);
    var j := t'.rec.info.transfer;
    forall master
      ensures JettonTotal(t', accounts, master) == JettonTotal(t, accounts, master) + NetOf(t'.rec.info, master)
    {
      MergeAddsNet(CLASSIC, INTERNAL, NOTIFY, t, t', accounts, master);
    }
    if forall master :: JettonTotal(t', accounts, master) == JettonTotal(t, accounts, master) {
      assert JettonTotal(t', accounts, j.master) == JettonTotal(t, accounts, j.master);
    }
    assert NetOf(t'.rec.info, j.master) == 0 <==> !j.success || j.amount == 0 || j.sender.Some? == j.recipient.Some?;
  }

  // ----- a straw that leaves its bubble in place -----

  predicate IsVaultDeposit(v: View) { v.info.JettonTransfer? && v.info.transfer.payload.FfVaultAssetDepositPayload? }
  predicate IsVault(v: View) { HasInterface(v.info, FfVault) }
  predicate IsVaultPosition(v: View) { HasInterface(v.info, FfVaultPosition) }
  predicate IsOwnOracleUpdate(v: View) {
    v.info.OraclePriceUpdate? && v.info.success && v.info.requester == v.info.responseTo
  }

  function BuildDeposit(info: Info, v: View): Built {
    if !info.DepositStake? || !v.info.JettonTransfer? || v.info.transfer.recipient.None? || v.info.transfer.sender.None?
    then BuildFailed
    else
      var j := v.info.transfer;
      Built(info.(staker := j.sender.value.address, pool := j.recipient.value.address, master := j.master,
                  amount := j.amount), [])
  }

  function BuildPosition(info: Info, v: View): Built {
    if !info.DepositStake? || !v.info.Tx? then BuildFailed else Built(info.(success := v.info.tx.success), [])
  }

  const POSITION_EXCESS: Straw := Straw([HasExcess], None, None, None, [], false, true)
  const POSITION: Straw := Straw([IsVaultPosition], Some(BuildPosition), None, None, [POSITION_EXCESS], false, false)
  const ORACLE: Straw := Straw([IsOwnOracleUpdate], None, None, None, [POSITION], true, false)
  const DEPOSIT: Pattern :=
    Pattern(Straw([IsVaultDeposit, IsVaultDeposit, IsVault], Some(BuildDeposit), None, None, [ORACLE], false, false),
            DepositStake(NO_ACCOUNT, NO_ACCOUNT, NO_ACCOUNT, 0, false))

  lemma OneKid(s: Straw, k: Straw)
    requires KidStraws(s) == [k] && s.single.None? && s.children == [k] && WellFormed(k) && NoNested(k)
    ensures WellFormed(s) && (NoNested(s) <==> !(s.notMerge && k.notMerge))
    ensures MinHits(s) == (if s.notMerge then 0 else 1) + if k.optional then 0 else MinHits(k)
  {
    assert [k][1..] == [];
    assert MinHitsAll(s, []) == 0;
    assert MinHitsAll(s, [k]) == (if k.optional then 0 else MinHits(k)) + MinHitsAll(s, []);
  }

  /** The oracle's bubble survives the merge above and below it, and every merge consumes at least two bubbles. */
  lemma DepositIsInScope(t: Tree, t': Tree)
    requires IsMergeOf(DEPOSIT, t, t') && Distinct(t) && NoMarks(t)
    ensures MakesProgress(Generic(DEPOSIT)) && Sum(t', Every) < Sum(t, Every)
  {
    LeafStraw(POSITION_EXCESS, SucceedsAt);
    assert KidStraws(POSITION) == [POSITION_EXCESS] && KidStraws(ORACLE) == [POSITION]
           && KidStraws(DEPOSIT.straw) == [ORACLE];
    OneKid(POSITION, POSITION_EXCESS);
    OneKid(ORACLE, POSITION);
    OneKid(DEPOSIT.straw, ORACLE);
    GenericProgress(DEPOSIT, t, t');
  }
}
