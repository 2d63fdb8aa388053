/** What the Stonfi merger reads off a tree: hops over routers and the bubbles each consumes (pkg/bath/stonfi.go). */
module StonfiRoutes {
  import opened Wrappers
  import opened Ledger
  import opened Bubbles
  import opened Patterns
  import opened Clusters

  const SWAP_OK: nat := 0xc64370e5

  predicate IsSwap(info: Info) {
    info.Tx? && info.tx.decodedBody == Some(StonfiSwapV2Body) && info.tx.account.Is(StonfiPoolV2)
  }

  predicate IsVaultPayout(info: Info) {
    info.Tx? && info.tx.decodedBody == Some(StonfiPayVaultV2Body) && info.tx.account.Is(StonfiRouterV2)
  }

  predicate IsRefDeposit(info: Info) {
    info.Tx? && info.tx.decodedBody == Some(StonfiDepositRefFeeV2Body) && info.tx.account.Is(StonfiVaultV2)
  }

  predicate IsExcess(info: Info) {
    info.Tx? && info.tx.decodedBody == Some(ExcessBody)
  }

  predicate IsPayout(info: Info) {
    info.Tx? && info.tx.decodedBody.Some? && info.tx.decodedBody.value.StonfiPayToV2Body?
    && info.tx.account.Is(StonfiRouterV2)
  }

  /** One payout of a pool; of the bubble it pays into only the info is used. */
  datatype Swap = Swap(swapTx: BubbleTx, transfer: Info, payout: Body)

  function OutAddress(payout: Body): Option<AccountID>
    requires payout.StonfiPayToV2Body?
  {
    if payout.amount0Out != 0 then payout.token0 else payout.token1
  }

  // ----- one router -----

  datatype Chain = Chain(swaps: seq<Swap>, next: Option<Tree>, ok: bool, used: set<Bubble>)

  /** The referrer's payout and, as far as they are there, the two bubbles that follow it. */
  function ReferrerUsed(r: Tree): set<Bubble> {
    {r.id} + (if r.kids == [] || !IsRefDeposit(r.kids[0].rec.info) then {} else
              var deposit := r.kids[0];
              {deposit.id} + (if deposit.kids == [] || !IsExcess(deposit.kids[0].rec.info) then {}
                              else {deposit.kids[0].id}))
  }

  function SideUsed(b: Tree): set<Bubble> {
    if |b.kids| == 2 then ReferrerUsed(b.kids[0]) else {}
  }

  function PayoutUsed(payoutB: Tree): set<Bubble>
    requires |payoutB.kids| == 1
    decreases payoutB
  {
    {payoutB.id} + ({payoutB.kids[0].id} + RouterChain(payoutB.kids[0]).used)
  }

  /** `used` is what is added to the used bubbles, on failure too. */
  function RouterChain(b: Tree): (r: Chain)
    ensures r.next.Some? ==> r.next.value < b
    ensures r.ok ==> r.next.Some? && r.swaps != []
    ensures forall s | s in r.swaps :: s.payout.StonfiPayToV2Body?
    decreases b
  {
    if !IsSwap(b.rec.info) || |b.kids| == 0 || |b.kids| > 2 then Chain([], None, false, {}) else
    if |b.kids| == 2 && !IsVaultPayout(b.kids[0].rec.info) then Chain([], None, false, {}) else
    var payoutB := b.kids[|b.kids| - 1];
    if !IsPayout(payoutB.rec.info) || |payoutB.kids| != 1 then Chain([], None, false, SideUsed(b)) else
    var nextB := payoutB.kids[0];
    var payout := Swap(b.rec.info.tx, nextB.rec.info, payoutB.rec.info.tx.decodedBody.value);
    var rest := RouterChain(nextB);
    var used := {b.id} + SideUsed(b) + PayoutUsed(payoutB);
    if rest.ok && rest.next.Some? then Chain(rest.swaps + [payout], rest.next, true, used)
    else Chain(rest.swaps + [payout], Some(nextB), true, used)
  }

  // ----- several routers -----

  datatype Hop = Hop(
    used: set<Bubble>, router: AccountID, sender: AccountID, in_: AssetTransfer, out: AssetTransfer,
    swaps: seq<Swap>, success: bool)

  /** A transfer to a router that asks for a swap. */
  predicate StartsHop(info: Info) {
    info.JettonTransfer? && info.transfer.payload.StonfiSwapV2Payload?
    && info.transfer.sender.Some? && info.transfer.recipient.Some?
    && info.transfer.recipient.value.Is(StonfiRouterV2)
  }

  /** What the hop pays out, or would have paid out; None when it cannot be told. */
  function HopOut(payload: Payload, swaps: seq<Swap>): Option<AssetTransfer>
    requires payload.StonfiSwapV2Payload? && swaps != [] && swaps[0].payout.StonfiPayToV2Body?
  {
    if !swaps[0].transfer.JettonTransfer? || OutAddress(swaps[0].payout).None? then None else
    var final := swaps[0].transfer.transfer;
    if swaps[0].payout.exitCode == SWAP_OK then
      Some(AssetTransfer(final.amount, final.isWrappedTon, final.master, OutAddress(swaps[0].payout).value))
    else if swaps[0].payout.toAddress.None? || payload.tokenWallet1.None? then None
    else
      var masters := swaps[|swaps| - 1].swapTx.jettonMasters;
      var wallet := payload.tokenWallet1.value;
      Some(AssetTransfer(payload.minOut, false, if wallet in masters then masters[wallet] else AccountID(0, 0),
                         swaps[0].payout.toAddress.value))
  }

  /** The hops found from `b`, the last one first; empty when `b` starts none. */
  function Hops(b: Tree): (hops: seq<Hop>)
    ensures forall h | h in hops :: h.swaps != []
    decreases b
  {
    if |b.kids| != 1 || !StartsHop(b.rec.info) then [] else
    var transfer := b.rec.info.transfer;
    var chain := RouterChain(b.kids[0]);
    if !chain.ok then [] else
    var out := HopOut(transfer.payload, chain.swaps);
    if out.None? then [] else
    var in_ := AssetTransfer(transfer.amount, transfer.isWrappedTon, transfer.master, transfer.senderWallet);
    var success := chain.swaps[0].payout.exitCode == SWAP_OK;
    var hop := Hop({b.id} + chain.used, transfer.recipient.value.address, transfer.sender.value.address, in_, out.value,
                   chain.swaps, success);
    var nextHops := Hops(chain.next.value);
    if nextHops == [] then [hop] else nextHops + [hop.(used := hop.used - {chain.next.value.id})]
  }

  // ----- the shape of what is consumed -----

  /** The bubbles of `ids` below `t` form a connected region that contains `t`. */
  ghost predicate TopClosed(t: Tree, ids: set<Bubble>) {
    t.id in ids && forall k | k in t.kids :: if k.id in ids then TopClosed(k, ids) else ids !! Ids(k)
  }

  lemma {:induction false} TopClosedLocal(t: Tree, ids: set<Bubble>, more: set<Bubble>)
    requires TopClosed(t, ids) && ids * Ids(t) == more * Ids(t)
    ensures TopClosed(t, more)
  {
    assert t in Nodes(t) && t.id in Ids(t);
    assert t.id in ids * Ids(t);
    forall k | k in t.kids ensures if k.id in more then TopClosed(k, more) else more !! Ids(k) {
      KidUnder(t, k);
      SameBelow(ids, more, Ids(t), Ids(k));
      assert k.id in ids <==> k.id in ids * Ids(k);
      if k.id in ids { TopClosedLocal(k, ids, more); }
    }
  }

  lemma SameBelow(a: set<Bubble>, b: set<Bubble>, big: set<Bubble>, small: set<Bubble>)
    requires a * big == b * big && small <= big
    ensures a * small == b * small
    ensures a !! small <==> b !! small
  {
    forall x | x in small ensures x in a <==> x in b {
      assert x in a * big <==> x in b * big;
    }
  }

  lemma {:induction false} TopClosedIsClustered(t: Tree, ids: set<Bubble>)
    requires TopClosed(t, ids)
    ensures Clustered(t, ids)
  {
    forall k | k in t.kids ensures if k.id in ids then Clustered(k, ids) else Bridge(k, ids) {
      if k.id in ids { TopClosedIsClustered(k, ids); } else { NothingBelow(k, ids); }
    }
  }

  lemma LoneClosed(t: Tree)
    requires Distinct(t)
    ensures TopClosed(t, {t.id}) && {t.id} <= Ids(t)
  {
    assert t in Nodes(t);
    forall k | k in t.kids ensures t.id !in Ids(k) && k.id != t.id { KidUnder(t, k); }
  }

  lemma BranchClosed(t: Tree, i: nat, ids: set<Bubble>)
    requires Distinct(t) && i < |t.kids| && TopClosed(t.kids[i], ids) && ids <= Ids(t.kids[i])
    ensures TopClosed(t, {t.id} + ids) && {t.id} + ids <= Ids(t)
  {
    var all := {t.id} + ids;
    assert t in Nodes(t);
    forall j | 0 <= j < |t.kids|
      ensures var k := t.kids[j]; if k.id in all then TopClosed(k, all) else all !! Ids(k)
    {
      KidUnder(t, t.kids[j]);
      if j == i {
        TopClosedLocal(t.kids[i], ids, all);
      } else {
        Apart(t, i, j);
      }
    }
    KidUnder(t, t.kids[i]);
  }

  lemma DepositClosed(deposit: Tree) returns (used: set<Bubble>)
    requires Distinct(deposit)
    ensures TopClosed(deposit, used) && used <= Ids(deposit)
    ensures used == {deposit.id} + if deposit.kids != [] && IsExcess(deposit.kids[0].rec.info)
                                   then {deposit.kids[0].id} else {}
  {
    LoneClosed(deposit);
    used := {deposit.id};
    if deposit.kids != [] && IsExcess(deposit.kids[0].rec.info) {
      KidUnder(deposit, deposit.kids[0]);
      LoneClosed(deposit.kids[0]);
      BranchClosed(deposit, 0, {deposit.kids[0].id});
      used := {deposit.id} + {deposit.kids[0].id};
    }
  }

  lemma {:induction false} ReferrerClosed(r: Tree)
    requires Distinct(r)
    ensures TopClosed(r, ReferrerUsed(r)) && ReferrerUsed(r) <= Ids(r)
  {
    LoneClosed(r);
    if r.kids != [] && IsRefDeposit(r.kids[0].rec.info) {
      var deposit := r.kids[0];
      KidUnder(r, deposit);
      var used := DepositClosed(deposit);
      BranchClosed(r, 0, used);
      assert ReferrerUsed(r) == {r.id} + used;
    }
  }

  /** A chain from `b`, successful or not, consumes a connected region below `b`. */
  lemma {:induction false} ChainClosed(b: Tree)
    requires Distinct(b)
    ensures TopClosed(b, {b.id} + RouterChain(b).used) && RouterChain(b).used <= Ids(b)
    ensures RouterChain(b).ok ==> b.id in RouterChain(b).used
    decreases b
  {
    LoneClosed(b);
    var r := RouterChain(b);
    ChainUsed(b);
    assert {b.id} + {} == {b.id};
    if r.used != {} {
      SideClosed(b);
      if r.ok {
        var payoutB := b.kids[|b.kids| - 1];
        KidUnder(b, payoutB);
        PayoutClosed(payoutB);
        SidesClosed(b, SideUsed(b), PayoutUsed(payoutB));
      } else {
        BranchClosed(b, 0, SideUsed(b));
      }
    }
  }

  lemma ChainUsed(b: Tree)
    ensures var r := RouterChain(b);
            if r.ok then
              && 1 <= |b.kids| <= 2 && |b.kids[|b.kids| - 1].kids| == 1
              && r.used == {b.id} + SideUsed(b) + PayoutUsed(b.kids[|b.kids| - 1])
            else r.used == {} || (|b.kids| == 2 && r.used == SideUsed(b))
  {
  }

  lemma SideClosed(b: Tree)
    requires Distinct(b)
    ensures |b.kids| == 2 ==> TopClosed(b.kids[0], SideUsed(b)) && SideUsed(b) <= Ids(b.kids[0])
  {
    if |b.kids| == 2 {
      KidUnder(b, b.kids[0]);
      ReferrerClosed(b.kids[0]);
    }
  }

  lemma {:induction false} PayoutClosed(payoutB: Tree)
    requires Distinct(payoutB) && |payoutB.kids| == 1
    ensures TopClosed(payoutB, PayoutUsed(payoutB)) && PayoutUsed(payoutB) <= Ids(payoutB)
    decreases payoutB
  {
    var nextB := payoutB.kids[0];
    KidUnder(payoutB, nextB);
    ChainClosed(nextB);
    BranchClosed(payoutB, 0, {nextB.id} + RouterChain(nextB).used);
  }

  lemma SidesClosed(t: Tree, left: set<Bubble>, right: set<Bubble>)
    requires Distinct(t) && 1 <= |t.kids| <= 2
    requires if |t.kids| == 1 then left == {} else TopClosed(t.kids[0], left) && left <= Ids(t.kids[0])
    requires TopClosed(t.kids[|t.kids| - 1], right) && right <= Ids(t.kids[|t.kids| - 1])
    ensures var all := {t.id} + left + right; TopClosed(t, {t.id} + all) && all <= Ids(t) && t.id in all
  {
    var all := {t.id} + left + right;
    assert {t.id} + all == all;
    assert t in Nodes(t);
    forall i | 0 <= i < |t.kids| ensures TopClosed(t.kids[i], all) && t.kids[i].id in all {
      SideKid(t, left, right, i);
    }
    KidUnder(t, t.kids[0]);
    KidUnder(t, t.kids[|t.kids| - 1]);
  }

  lemma SideKid(t: Tree, left: set<Bubble>, right: set<Bubble>, i: nat)
    requires Distinct(t) && 1 <= |t.kids| <= 2 && i < |t.kids|
    requires if |t.kids| == 1 then left == {} else TopClosed(t.kids[0], left) && left <= Ids(t.kids[0])
    requires TopClosed(t.kids[|t.kids| - 1], right) && right <= Ids(t.kids[|t.kids| - 1])
    ensures TopClosed(t.kids[i], {t.id} + left + right) && t.kids[i].id in {t.id} + left + right
  {
    var last := |t.kids| - 1;
    KidUnder(t, t.kids[i]);
    if i == last {
      if last == 1 { Apart(t, 0, 1); }
      Elsewhere(t.id, left, right, Ids(t.kids[i]));
      Widen(t.kids[i], right, {t.id} + left, {t.id} + left + right);
    } else {
      Apart(t, 0, 1);
      Elsewhere(t.id, right, left, Ids(t.kids[i]));
      Widen(t.kids[i], left, {t.id} + right, {t.id} + left + right);
    }
  }

  lemma Elsewhere(x: Bubble, away: set<Bubble>, here: set<Bubble>, ids: set<Bubble>)
    requires x !in ids && away !! ids
    ensures ({x} + away) !! ids
    ensures {x} + away + here == here + ({x} + away) && {x} + here + away == here + ({x} + away)
  {
  }

  lemma Widen(k: Tree, part: set<Bubble>, rest: set<Bubble>, all: set<Bubble>)
    requires TopClosed(k, part) && part <= Ids(k) && rest !! Ids(k) && all == part + rest
    ensures TopClosed(k, all) && k.id in all
  {
    assert all * Ids(k) == part * Ids(k);
    TopClosedLocal(k, part, all);
  }

  /** The bubble a successful chain ends in is consumed, and unless it is a swap itself nothing below it is. */
  lemma {:induction false} ChainNext(b: Tree)
    requires Distinct(b) && RouterChain(b).ok
    ensures var next := RouterChain(b).next.value;
            && next in Nodes(b) && next != b && next.id in RouterChain(b).used
            && (!IsSwap(next.rec.info) ==> RouterChain(b).used * Ids(next) == {next.id})
    decreases b
  {
    var r, payoutB := RouterChain(b), b.kids[|b.kids| - 1];
    var nextB := payoutB.kids[0];
    ChainUsed(b);
    KidUnder(b, payoutB);
    KidUnder(payoutB, nextB);
    ChainUsed(nextB);
    var next := r.next.value;
    if RouterChain(nextB).ok { ChainNext(nextB); }
    assert next in Nodes(nextB) && next in Nodes(payoutB) && next in Nodes(b);
    assert next != b by { AboveIsElsewhere(b, payoutB); }
    AboveIsElsewhere(b, next);
    NodesUnder(payoutB, next);
    AboveIsElsewhere(payoutB, next);
    SideClosed(b);
    if |b.kids| == 2 { Apart(b, 0, 1); }
    assert SideUsed(b) !! Ids(next);
    if !IsSwap(next.rec.info) {
      if next == nextB {
        assert next in Nodes(next) && next.id in Ids(next);
        OnlyHere(b.id, SideUsed(b), payoutB.id, nextB.id, RouterChain(nextB).used, next);
      } else {
        AboveIsElsewhere(nextB, next);
        OnlyHere(b.id, SideUsed(b), payoutB.id, nextB.id, RouterChain(nextB).used, next);
      }
    }
  }

  lemma OnlyHere(x: Bubble, side: set<Bubble>, y: Bubble, z: Bubble, rest: set<Bubble>, next: Tree)
    requires x !in Ids(next) && side !! Ids(next) && y !in Ids(next)
    requires next in Nodes(next) && next.id in Ids(next)
    requires (z == next.id && rest == {}) || (z !in Ids(next) && rest * Ids(next) == {next.id})
    ensures ({x} + side + ({y} + ({z} + rest))) * Ids(next) == {next.id}
  {
  }

  /** A region that ends in `next` can be continued by a region of `next`. */
  lemma {:induction false} Graft(t: Tree, ids: set<Bubble>, next: Tree, more: set<Bubble>)
    requires Distinct(t) && TopClosed(t, ids) && next in Nodes(t) && ids * Ids(next) == {next.id}
    requires TopClosed(next, more) && more <= Ids(next)
    ensures TopClosed(t, ids + more)
    decreases t
  {
    if t == next {
      assert next.id in more;
      forall x | x in ids && x in Ids(t) ensures x in more { assert x in ids * Ids(next); }
      assert (ids + more) * Ids(t) == more * Ids(t);
      TopClosedLocal(t, more, ids + more);
    } else {
      forall j | 0 <= j < |t.kids|
        ensures var k := t.kids[j]; if k.id in ids + more then TopClosed(k, ids + more) else ids + more !! Ids(k)
      {
        GraftKid(t, ids, next, more, j);
      }
    }
  }

  lemma {:induction false} GraftKid(t: Tree, ids: set<Bubble>, next: Tree, more: set<Bubble>, j: nat)
    requires Distinct(t) && TopClosed(t, ids) && next in Nodes(t) && next != t && ids * Ids(next) == {next.id}
    requires TopClosed(next, more) && more <= Ids(next) && j < |t.kids|
    ensures var k := t.kids[j]; if k.id in ids + more then TopClosed(k, ids + more) else ids + more !! Ids(k)
    decreases t, 0
  {
    var k := t.kids[j];
    KidUnder(t, k);
    var i :| 0 <= i < |t.kids| && next in Nodes(t.kids[i]);
    KidUnder(t, t.kids[i]);
    NodesUnder(t.kids[i], next);
    assert next.id in ids * Ids(next);
    assert next.id in ids && next.id in Ids(t.kids[i]);
    if i == j {
      Graft(k, ids, next, more);
    } else {
      Apart(t, i, j);
      MoreElsewhere(k, ids, more);
    }
  }

  lemma MoreElsewhere(k: Tree, ids: set<Bubble>, more: set<Bubble>)
    requires if k.id in ids then TopClosed(k, ids) else ids !! Ids(k)
    requires more !! Ids(k) && k.id in Ids(k)
    ensures if k.id in ids + more then TopClosed(k, ids + more) else ids + more !! Ids(k)
  {
    assert (ids + more) * Ids(k) == ids * Ids(k);
    if k.id in ids { TopClosedLocal(k, ids, ids + more); }
  }

  // ----- the hops together -----

  function UsedBy(hops: seq<Hop>): set<Bubble> {
    if hops == [] then {} else hops[0].used + UsedBy(hops[1..])
  }

  lemma UsedByConcat(a: seq<Hop>, b: seq<Hop>)
    ensures UsedBy(a + b) == UsedBy(a) + UsedBy(b)
  {
    if a == [] {
      assert a + b == b;
    } else {
      assert (a + b)[1..] == a[1..] + b;
      UsedByConcat(a[1..], b);
    }
  }

  lemma UsedByOne(hop: Hop)
    ensures UsedBy([hop]) == hop.used
  {
  }

  lemma UsedByEach(hops: seq<Hop>, i: nat)
    requires i < |hops|
    ensures hops[i].used <= UsedBy(hops)
  {
    if i > 0 { UsedByEach(hops[1..], i - 1); }
  }

  ghost predicate HopsApart(hops: seq<Hop>) {
    forall i, j | 0 <= i < j < |hops| :: hops[i].used !! hops[j].used
  }

  ghost predicate Partitions(b: Tree, hops: seq<Hop>) {
    && HopsApart(hops) && TopClosed(b, UsedBy(hops)) && UsedBy(hops) <= Ids(b)
    && hops != [] && b.id in hops[|hops| - 1].used
  }

  /** The hops consume pairwise disjoint sets of bubbles, together a connected region from `b` down. */
  lemma {:induction false} HopsPartition(b: Tree)
    requires Distinct(b) && Hops(b) != []
    ensures Partitions(b, Hops(b))
    ensures |b.kids| == 1 && b.kids[0].id in Hops(b)[|Hops(b)| - 1].used
    decreases b, 1
  {
    HopsUnroll(b);
    var c := b.kids[0];
    var next := RouterChain(c).next.value;
    KidUnder(b, c);
    FirstHopClosed(b);
    ChainNext(c);
    AboveIsElsewhere(c, next);
    assert next in Nodes(next) && next.id in Ids(next);
    if Hops(next) == [] {
      UsedByOne(Hops(b)[0]);
    } else {
      MoreHops(b);
    }
  }

  lemma {:induction false} MoreHops(b: Tree)
    requires Distinct(b) && Hops(b) != [] && Hops(RouterChain(b.kids[0]).next.value) != []
    ensures Partitions(b, Hops(b))
    decreases b, 0
  {
    var next := RouterChain(b.kids[0]).next.value;
    HopsUnroll(b);
    HopEnd(b);
    HopsPartition(next);
    ContinueHops(b, Hops(next), Hops(b)[|Hops(b)| - 1], {b.id} + RouterChain(b.kids[0]).used, next);
  }

  /** Where a hop ends, nothing but the bubble the next one starts from is consumed. */
  lemma {:induction false} HopEnd(b: Tree)
    requires Distinct(b) && Hops(b) != []
    ensures |b.kids| == 1 && RouterChain(b.kids[0]).ok
    ensures var next := RouterChain(b.kids[0]).next.value; var all := {b.id} + RouterChain(b.kids[0]).used;
            && TopClosed(b, all) && all <= Ids(b) && next in Nodes(b) && next != b && Distinct(next)
            && (!IsSwap(next.rec.info) ==> all * Ids(next) == {next.id})
  {
    HopsUnroll(b);
    var c := b.kids[0];
    var next := RouterChain(c).next.value;
    KidUnder(b, c);
    FirstHopClosed(b);
    ChainNext(c);
    NodesUnder(c, next);
    AboveIsElsewhere(b, c);
  }

  lemma {:induction false} ContinueHops(b: Tree, hops: seq<Hop>, last: Hop, all: set<Bubble>, next: Tree)
    requires Distinct(b) && next in Nodes(b) && next != b && TopClosed(b, all) && all <= Ids(b)
    requires all * Ids(next) == {next.id} && Partitions(next, hops)
    requires last.used == all - {next.id}
    ensures Partitions(b, hops + [last])
  {
    NodesUnder(b, next);
    AboveIsElsewhere(b, next);
    Graft(b, all, next, UsedBy(hops));
    HopsJoin(hops, last, all, next);
    assert b.id in all;
    assert next in Nodes(next) && next.id in Ids(next);
  }

  lemma HopsUnroll(b: Tree)
    requires Hops(b) != []
    ensures |b.kids| == 1 && b.rec.info.JettonTransfer? && RouterChain(b.kids[0]).ok
    ensures var hops := Hops(b); var last := hops[|hops| - 1]; var next := RouterChain(b.kids[0]).next.value;
            var all := {b.id} + RouterChain(b.kids[0]).used;
            && (if Hops(next) == [] then hops == [last] && last.used == all
                else hops == Hops(next) + [last] && last.used == all - {next.id} && !IsSwap(next.rec.info))
  {
  }

  lemma HopsJoin(hops: seq<Hop>, last: Hop, all: set<Bubble>, next: Tree)
    requires hops != [] && HopsApart(hops) && UsedBy(hops) <= Ids(next)
    requires last.used == all - {next.id} && all * Ids(next) == {next.id} && next.id in hops[|hops| - 1].used
    ensures HopsApart(hops + [last]) && UsedBy(hops + [last]) == all + UsedBy(hops)
  {
    UsedByConcat(hops, [last]);
    UsedByOne(last);
    UsedByEach(hops, |hops| - 1);
    forall x | x in last.used ensures x !in Ids(next) {
      assert x in all && (x in Ids(next) ==> x in all * Ids(next));
    }
    HopsApartMore(hops, last, Ids(next));
  }

  lemma ChainTop(c: Tree)
    requires Distinct(c) && RouterChain(c).ok
    ensures var used := RouterChain(c).used; TopClosed(c, used) && used <= Ids(c) && c.id in used
  {
    ChainClosed(c);
    assert {c.id} + RouterChain(c).used == RouterChain(c).used;
  }

  lemma {:induction false} FirstHopClosed(b: Tree)
    requires Distinct(b) && |b.kids| == 1 && RouterChain(b.kids[0]).ok
    ensures var all := {b.id} + RouterChain(b.kids[0]).used;
            TopClosed(b, all) && all <= Ids(b) && b.kids[0].id in all
  {
    var c := b.kids[0];
    KidUnder(b, c);
    ChainTop(c);
    BranchClosed(b, 0, RouterChain(c).used);
  }

  lemma HopsApartMore(hops: seq<Hop>, last: Hop, ids: set<Bubble>)
    requires HopsApart(hops) && UsedBy(hops) <= ids && last.used !! ids
    ensures HopsApart(hops + [last])
  {
    forall i | 0 <= i < |hops| ensures hops[i].used !! last.used {
      UsedByEach(hops, i);
    }
  }
}
