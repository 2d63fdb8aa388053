/** Bubbles: the mutable tree that a trace is turned into (pkg/bath/bubble.go), and the value tree it represents. */
module Bubbles {
  import opened Wrappers
  import opened Ledger

  type Hash = nat

  // ----- what a bubble stands for -----

  datatype Interface =
    | JettonWallet | JettonMaster
    | StonfiPoolV2 | StonfiRouterV2 | StonfiVaultV2
    | DedustPool | OmnistonReferral
    | FfVault | FfVaultPosition
    | OtherInterface(name: string)

  /** `interfaces` holds every interface the account's code implements. */
  datatype Account = Account(address: AccountID, interfaces: set<Interface>) {
    predicate Is(i: Interface) { i in interfaces }
  }

  datatype DedustStep = DedustStep(next: Option<DedustStep>)

  /** A decoded message body; the constructor is the operation's name. */
  datatype Body =
    | JettonTransferBody(amount: int, destination: Option<AccountID>, forwardPayload: Payload)
    | JettonInternalTransferBody(amount: int)
    | JettonNotifyBody(amount: int, sender: Option<AccountID>, forwardPayload: Payload)
    | ExcessBody
    | StonfiSwapV2Body
    | StonfiPayToV2Body(exitCode: nat, amount0Out: int, token0: Option<AccountID>, token1: Option<AccountID>,
                        toAddress: Option<AccountID>)
    | StonfiPayVaultV2Body
    | StonfiDepositRefFeeV2Body
    | DedustSwapBody(step: DedustStep, amount: int)
    | DedustPayoutFromPoolBody(amount: int)
    | DedustPayoutBody
    | DedustTonExcessesBody
    | DedustTonPayBody
    | OtherBody(name: string)

  datatype BubbleTx = BubbleTx(
    success: bool,
    inputAmount: int,
    inputFrom: Option<Account>,
    external: bool,
    account: Account,
    opCode: Option<nat>,
    decodedBody: Option<Body>,
    jettonMasters: map<AccountID, AccountID>,
    swapReported: bool)   // an external out message with the Dedust swap operation exists

  datatype Payload =
    | StonfiSwapV2Payload(tokenWallet1: Option<AccountID>, minOut: int)
    | DedustSwapPayload(step: DedustStep)
    | FfVaultAssetDepositPayload
    | OtherPayload(name: string)

  datatype JettonTransferInfo = JettonTransferInfo(
    sender: Option<Account>,
    recipient: Option<Account>,
    senderWallet: AccountID,
    recipientWallet: AccountID,
    master: AccountID,
    amount: int,
    payload: Payload,
    isWrappedTon: bool,
    success: bool)

  datatype FlawedTransferInfo = FlawedTransferInfo(
    sender: Option<Account>,
    recipient: Option<Account>,
    senderWallet: AccountID,
    recipientWallet: AccountID,
    master: AccountID,
    sentAmount: int,
    receivedAmount: int,
    payload: Payload,
    success: bool)

  datatype AssetTransfer = AssetTransfer(amount: int, isTon: bool, jettonMaster: AccountID, jettonWallet: AccountID)

  datatype Dex = Stonfi | Dedust

  datatype SwapInfo = SwapInfo(
    dex: Dex, userWallet: AccountID, router: AccountID, out: AssetTransfer, in_: AssetTransfer, success: bool)

  datatype Info =
    | Tx(tx: BubbleTx)
    | JettonTransfer(transfer: JettonTransferInfo)
    | FlawedJettonTransfer(flawed: FlawedTransferInfo)
    | JettonSwap(swap: SwapInfo)
    | ContractDeploy(contract: AccountID)
    | AddExtension(wallet: AccountID, extension: AccountID, success: bool)
    | RemoveExtension(wallet: AccountID, extension: AccountID, success: bool)
    | SetSignatureAllowed(wallet: AccountID, allowed: bool, success: bool)
    | OraclePriceUpdate(requester: AccountID, responseTo: AccountID, success: bool)
    | DepositStake(staker: AccountID, pool: AccountID, master: AccountID, amount: int, success: bool)
    | OtherInfo(name: string, detail: int)

  /** The dynamic type of a bubble's info, as `Is` compares it. */
  datatype Kind =
    | TxKind | JettonTransferKind | FlawedKind | SwapKind | DeployKind
    | AddExtensionKind | RemoveExtensionKind | SignatureKind | OracleKind | DepositKind
    | OtherKind(name: string)

  function KindOf(info: Info): Kind {
    match info
    case Tx(_) => TxKind
    case JettonTransfer(_) => JettonTransferKind
    case FlawedJettonTransfer(_) => FlawedKind
    case JettonSwap(_) => SwapKind
    case ContractDeploy(_) => DeployKind
    case AddExtension(_, _, _) => AddExtensionKind
    case RemoveExtension(_, _, _) => RemoveExtensionKind
    case SetSignatureAllowed(_, _, _) => SignatureKind
    case OraclePriceUpdate(_, _, _) => OracleKind
    case DepositStake(_, _, _, _, _) => DepositKind
    case OtherInfo(name, _) => OtherKind(name)
  }

  // ----- the heap -----

  class Bubble {
    var info: Info
    var accounts: seq<AccountID>
    var children: seq<Bubble>
    var valueFlow: ValueFlow
    var transaction: seq<Hash>
    var isMerged: bool

    constructor (info: Info, accounts: seq<AccountID>, children: seq<Bubble>, valueFlow: ValueFlow,
                 transaction: seq<Hash>)
      ensures this.info == info && this.accounts == accounts && this.children == children
      ensures this.valueFlow == valueFlow && this.transaction == transaction && !isMerged
    {
      this.info, this.accounts, this.children := info, accounts, children;
      this.valueFlow, this.transaction, isMerged := valueFlow, transaction, false;
    }
  }

  // ----- the tree a bubble represents -----

  /** The fields of one bubble, its children aside. */
  datatype Rec = Rec(info: Info, accounts: seq<AccountID>, flow: Accounts, transaction: seq<Hash>, merged: bool)

  /** A bubble with everything below it; `id` and `cell` are the objects that hold it. */
  datatype Tree = Node(id: Bubble, cell: ValueFlow, rec: Rec, kids: seq<Tree>)

  function Roots(kids: seq<Tree>): seq<Bubble> {
    seq(|kids|, i requires 0 <= i < |kids| => kids[i].id)
  }

  ghost function Nodes(t: Tree): set<Tree> {
    {t} + set k, n | k in t.kids && n in Nodes(k) :: n
  }

  ghost function Ids(t: Tree): set<Bubble> {
    set n | n in Nodes(t) :: n.id
  }

  ghost function Foot(t: Tree): set<object> {
    (set n | n in Nodes(t) :: n.id as object) + (set n | n in Nodes(t) :: n.cell as object)
  }

  ghost predicate Here(n: Tree)
    reads n.id, n.cell
  {
    && n.id.info == n.rec.info
    && n.id.accounts == n.rec.accounts
    && n.id.children == Roots(n.kids)
    && n.id.valueFlow == n.cell
    && n.cell.accounts == n.rec.flow
    && n.id.transaction == n.rec.transaction
    && n.id.isMerged == n.rec.merged
  }

  /** The heap holds `t`. */
  ghost predicate Rep(t: Tree)
    reads Foot(t)
  {
    forall n | n in Nodes(t) :: Here(n)
  }

  /** No object occurs twice in `t`. */
  ghost predicate Distinct(t: Tree) {
    && (forall k | k in t.kids :: Distinct(k) && t.id !in Foot(k) && t.cell !in Foot(k))
    && (forall i, j | 0 <= i < j < |t.kids| :: Foot(t.kids[i]) !! Foot(t.kids[j]))
  }

  ghost predicate Valid(t: Tree)
    reads Foot(t)
  {
    Rep(t) && Distinct(t)
  }

  ghost predicate NoMarks(t: Tree) {
    forall n | n in Nodes(t) :: !n.rec.merged
  }

  lemma {:induction false} NodesUnder(t: Tree, n: Tree)
    requires n in Nodes(t)
    ensures Nodes(n) <= Nodes(t)
    ensures Foot(n) <= Foot(t) && Ids(n) <= Ids(t)
    ensures Distinct(t) ==> Distinct(n)
  {
    if n != t {
      var k :| k in t.kids && n in Nodes(k);
      NodesUnder(k, n);
    }
  }

  lemma FootSplit(t: Tree, o: object)
    requires o in Foot(t)
    ensures o == t.id || o == t.cell || exists k :: k in t.kids && o in Foot(k)
  {
    if o != t.id && o != t.cell {
      var n :| n in Nodes(t) && (o == n.id || o == n.cell);
      var k :| k in t.kids && n in Nodes(k);
      assert o in Foot(k);
    }
  }

  lemma IdsInFoot(t: Tree)
    ensures forall x | x in Ids(t) :: x in Foot(t)
  {
  }

  lemma KidUnder(t: Tree, k: Tree)
    requires k in t.kids
    ensures k in Nodes(k) && k in Nodes(t) && k.id in Ids(k)
    ensures Nodes(k) <= Nodes(t) && Foot(k) <= Foot(t) && Ids(k) <= Ids(t)
    ensures Distinct(t) ==> Distinct(k) && t.id !in Ids(k)
  {
    assert k in Nodes(k);
    NodesUnder(t, k);
    IdsInFoot(k);
  }

  lemma AboveIsElsewhere(t: Tree, n: Tree)
    requires Distinct(t) && n in Nodes(t) && n != t
    ensures t.id !in Ids(n)
  {
    var k :| k in t.kids && n in Nodes(k);
    KidUnder(t, k);
    NodesUnder(k, n);
  }

  /** In a distinct tree an object belongs to one node. */
  lemma {:induction false} OneNode(t: Tree, m: Tree, n: Tree)
    requires Distinct(t) && m in Nodes(t) && n in Nodes(t)
    requires m.id == n.id || m.cell == n.cell
    ensures m == n
  {
    if m != t && n != t {
      var i :| 0 <= i < |t.kids| && m in Nodes(t.kids[i]);
      var j :| 0 <= j < |t.kids| && n in Nodes(t.kids[j]);
      assert i == j by {
        assert m.id in Foot(t.kids[i]) && m.cell in Foot(t.kids[i]);
        assert n.id in Foot(t.kids[j]) && n.cell in Foot(t.kids[j]);
      }
      OneNode(t.kids[i], m, n);
    }
  }

  // ----- adding up over a tree -----

  /** What may be counted over the bubbles of a tree. */
  datatype Weight =
    | Asset(asset: Ledger.Asset)   // one number of the flows
    | Every                        // bubbles
    | NotOf(kind: Kind)            // bubbles whose info is not of this kind
    | Copies(rec: Rec)             // bubbles with exactly these fields
    | Holding(hash: Hash)          // bubbles that list this transaction
    | Naming(account: AccountID)   // bubbles that list this account
    | Listing(holder: AccountID, listed: Hash)   // bubbles that list this account and this transaction
    | Marks                        // bubbles marked as merged
    | At(obj: object)              // bubbles made of this object

  function Weigh(n: Tree, w: Weight): int {
    match w
    case Asset(x) => Amount(n.rec.flow, x)
    case Every => 1
    case NotOf(k) => if KindOf(n.rec.info) == k then 0 else 1
    case Copies(c) => if n.rec == c then 1 else 0
    case Holding(h) => if h in n.rec.transaction then 1 else 0
    case Naming(a) => if a in n.rec.accounts then 1 else 0
    case Listing(a, h) => if a in n.rec.accounts && h in n.rec.transaction then 1 else 0
    case Marks => if n.rec.merged then 1 else 0
    case At(o) => if n.id == o || n.cell == o then 1 else 0
  }

  function Sum(t: Tree, w: Weight): int {
    Weigh(t, w) + SumAll(t.kids, w)
  }

  function SumAll(ts: seq<Tree>, w: Weight): int {
    if ts == [] then 0 else Sum(ts[0], w) + SumAll(ts[1..], w)
  }

  lemma {:induction false} SumAllConcat(ts: seq<Tree>, us: seq<Tree>, w: Weight)
    ensures SumAll(ts + us, w) == SumAll(ts, w) + SumAll(us, w)
  {
    if ts == [] {
      assert ts + us == us;
    } else {
      assert (ts + us)[1..] == ts[1..] + us;
      SumAllConcat(ts[1..], us, w);
    }
  }

  lemma SumAllCut(ts: seq<Tree>, n: nat, w: Weight)
    requires n <= |ts|
    ensures SumAll(ts, w) == SumAll(ts[..n], w) + SumAll(ts[n..], w)
  {
    assert ts == ts[..n] + ts[n..];
    SumAllConcat(ts[..n], ts[n..], w);
  }

  lemma SumAllTake(ts: seq<Tree>, m: nat, w: Weight)
    requires m < |ts|
    ensures SumAll(ts[..m + 1], w) == SumAll(ts[..m], w) + Sum(ts[m], w)
  {
    assert ts[..m + 1] == ts[..m] + [ts[m]];
    SumAllConcat(ts[..m], [ts[m]], w);
    assert SumAll([ts[m]], w) == Sum(ts[m], w);
  }

  lemma {:induction false} SumAllUpdate(ts: seq<Tree>, i: nat, u: Tree, w: Weight)
    requires i < |ts|
    ensures SumAll(ts[i := u], w) == SumAll(ts, w) - Sum(ts[i], w) + Sum(u, w)
  {
    if i > 0 {
      assert ts[i := u][1..] == ts[1..][i - 1 := u];
      SumAllUpdate(ts[1..], i - 1, u, w);
    }
  }

  lemma {:induction false} SumNonNegative(t: Tree, w: Weight)
    requires !w.Asset?
    ensures Sum(t, w) >= 0
  {
    SumAllNonNegative(t.kids, w);
  }

  lemma {:induction false} SumAllNonNegative(ts: seq<Tree>, w: Weight)
    requires !w.Asset?
    ensures SumAll(ts, w) >= 0
  {
    if ts != [] {
      SumNonNegative(ts[0], w);
      SumAllNonNegative(ts[1..], w);
    }
  }

  lemma {:induction false} SumAt(t: Tree, o: object)
    ensures Sum(t, At(o)) > 0 <==> o in Foot(t)
  {
    SumAllNonNegative(t.kids, At(o));
    SumAllAt(t.kids, o);
    forall k | k in t.kids && o in Foot(k) ensures o in Foot(t) { KidUnder(t, k); }
    if o in Foot(t) && t.id != o && t.cell != o {
      var n :| n in Nodes(t) && (n.id == o || n.cell == o);
      var k :| k in t.kids && n in Nodes(k);
      assert o in Foot(k);
    }
    assert t in Nodes(t);
  }

  lemma {:induction false} SumAllAt(ts: seq<Tree>, o: object)
    ensures SumAll(ts, At(o)) > 0 <==> exists k :: k in ts && o in Foot(k)
  {
    if ts != [] {
      SumAt(ts[0], o);
      SumAllAt(ts[1..], o);
      SumNonNegative(ts[0], At(o));
      SumAllNonNegative(ts[1..], At(o));
    }
  }

  /** A tree is distinct exactly when every object is counted at most once. */
  lemma {:induction false} DistinctBySums(t: Tree)
    ensures Distinct(t) <==> forall o :: Sum(t, At(o)) <= 1
  {
    DistinctAllBySums(t.kids);
    if Distinct(t) {
      forall o ensures Sum(t, At(o)) <= 1 {
        SumAllAt(t.kids, o);
        if o == t.id || o == t.cell {
          assert !exists k :: k in t.kids && o in Foot(k);
        }
      }
    }
    if forall o :: Sum(t, At(o)) <= 1 {
      forall o ensures SumAll(t.kids, At(o)) <= 1 {
        assert Sum(t, At(o)) <= 1;
      }
      assert Sum(t, At(t.id)) <= 1 && Sum(t, At(t.cell)) <= 1;
      SumAllAt(t.kids, t.id);
      SumAllAt(t.kids, t.cell);
    }
  }

  ghost predicate DistinctAll(ts: seq<Tree>) {
    && (forall k | k in ts :: Distinct(k))
    && (forall i, j | 0 <= i < j < |ts| :: Foot(ts[i]) !! Foot(ts[j]))
  }

  lemma {:induction false} DistinctAllBySums(ts: seq<Tree>)
    ensures DistinctAll(ts) <==> forall o :: SumAll(ts, At(o)) <= 1
  {
    if ts != [] {
      DistinctBySums(ts[0]);
      DistinctAllBySums(ts[1..]);
      HeadApart(ts);
      if DistinctAll(ts) {
        forall o ensures SumAll(ts, At(o)) <= 1 {
          HeadOrTail(ts, o);
        }
      }
      if forall o :: SumAll(ts, At(o)) <= 1 {
        forall o ensures Sum(ts[0], At(o)) <= 1 && SumAll(ts[1..], At(o)) <= 1 {
          HeadOrTail(ts, o);
        }
        forall k, o | k in ts[1..] && o in Foot(k) ensures o !in Foot(ts[0]) {
          assert SumAll(ts, At(o)) <= 1;
          NotBoth(ts, k, o);
        }
      }
    }
  }

  lemma NotBoth(ts: seq<Tree>, k: Tree, o: object)
    requires ts != [] && k in ts[1..] && o in Foot(k) && SumAll(ts, At(o)) <= 1
    ensures o !in Foot(ts[0])
  {
    HeadOrTail(ts, o);
  }

  lemma {:induction false} HeadOrTail(ts: seq<Tree>, o: object)
    requires ts != []
    ensures SumAll(ts, At(o)) == Sum(ts[0], At(o)) + SumAll(ts[1..], At(o))
    ensures Sum(ts[0], At(o)) >= 0 && SumAll(ts[1..], At(o)) >= 0
    ensures Sum(ts[0], At(o)) > 0 <==> o in Foot(ts[0])
    ensures SumAll(ts[1..], At(o)) > 0 <==> exists k :: k in ts[1..] && o in Foot(k)
  {
    SumNonNegative(ts[0], At(o));
    SumAllNonNegative(ts[1..], At(o));
    SumAt(ts[0], o);
    SumAllAt(ts[1..], o);
  }

  lemma {:induction false} HeadApart(ts: seq<Tree>)
    requires ts != []
    ensures DistinctAll(ts) <==>
            Distinct(ts[0]) && DistinctAll(ts[1..]) && forall k | k in ts[1..] :: Foot(ts[0]) !! Foot(k)
  {
    if Distinct(ts[0]) && DistinctAll(ts[1..]) && forall k | k in ts[1..] :: Foot(ts[0]) !! Foot(k) {
      forall i, j | 0 <= i < j < |ts| ensures Foot(ts[i]) !! Foot(ts[j]) {
        assert ts[j] == ts[1..][j - 1] && ts[j] in ts[1..];
        if i > 0 {
          assert ts[i] == ts[1..][i - 1];
        }
      }
    }
  }

  lemma {:induction false} MarksBySum(t: Tree)
    ensures NoMarks(t) <==> Sum(t, Marks) == 0
  {
    AllMarksBySum(t.kids);
    SumAllNonNegative(t.kids, Marks);
    assert t in Nodes(t);
    forall k, n | k in t.kids && n in Nodes(k) ensures n in Nodes(t) { KidUnder(t, k); }
  }

  lemma {:induction false} AllMarksBySum(ts: seq<Tree>)
    ensures (forall k | k in ts :: NoMarks(k)) <==> SumAll(ts, Marks) == 0
  {
    if ts != [] {
      MarksBySum(ts[0]);
      AllMarksBySum(ts[1..]);
      SumNonNegative(ts[0], Marks);
      SumAllNonNegative(ts[1..], Marks);
    }
  }
}
