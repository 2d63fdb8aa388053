/** Actions, and what they say about an account's balance (pkg/bath/actions.go, pkg/bath/bath.go). */
module Actions {
  import opened Wrappers
  import opened Ledger
  import opened Bubbles

  datatype Token = Token(vault: AccountID, native: bool, amount: int)

  /** What an action says about Gram: the kinds of actions that the balance computation tells apart. */
  datatype Deed =
    | NoExtra(name: string)                                       // never touches anybody's extra
    | Direct(from: AccountID, to: AccountID, amount: int)         // native payment between two accounts
    | Relay(relayer: AccountID, amount: int)
    | Jetton(sender: Option<AccountID>, recipient: Option<AccountID>, amount: int, isWrappedTon: bool)
    | Swap(swap: SwapInfo)
    | Liquidity(provider: AccountID, tokens: seq<Token>)

  datatype Action = Action(deed: Deed, success: bool, base: seq<Hash>)

  function DetectDirection(a: AccountID, from: AccountID, to: AccountID, amount: int): int {
    if from == to then 0
    else if from == a then -amount
    else if to == a then amount
    else 0
  }

  function TokensExtra(a: AccountID, provider: AccountID, tokens: seq<Token>): int {
    if tokens == [] then 0 else
    var t := tokens[0];
    (if a == provider && t.native then -t.amount else 0) + (if a == t.vault && t.native then t.amount else 0)
    + TokensExtra(a, provider, tokens[1..])
  }

  function ContributeToExtra(action: Action, a: AccountID): int {
    if !action.success then 0 else
    match action.deed
    case NoExtra(_) => 0
    case Direct(from, to, amount) => DetectDirection(a, from, to, amount)
    case Relay(relayer, amount) => if relayer == a then -amount else 0
    case Jetton(sender, recipient, amount, isWrappedTon) =>
      if !isWrappedTon || sender.None? || recipient.None? then 0
      else DetectDirection(a, sender.value, recipient.value, amount)
    case Swap(s) =>
      if a != s.userWallet then 0
      else if s.in_.isTon then -s.in_.amount
      else if s.out.isTon then s.out.amount
      else 0
    case Liquidity(provider, tokens) => TokensExtra(a, provider, tokens)
  }

  function Contributions(actions: seq<Action>, a: AccountID): int {
    if actions == [] then 0 else
    var last := |actions| - 1;
    Contributions(actions[..last], a) + ContributeToExtra(actions[last], a)
  }

  /** What an account gained beyond what the actions explain. */
  method Extra(actions: seq<Action>, flow: Accounts, account: AccountID) returns (extra: int)
    ensures extra == Amount(flow, Grams(account)) - Contributions(actions, account)
  {
    extra := 0;
    if account in flow {
      extra := extra + flow[account].gram;
    }
    for i := 0 to |actions|
      invariant extra == Amount(flow, Grams(account)) - Contributions(actions[..i], account)
    {
      assert actions[..i + 1][..i] == actions[..i];
      extra := extra - ContributeToExtra(actions[i], account);
    }
    assert actions[..|actions|] == actions;
  }

  // ----- who pays whom -----

  /** Gram that leaves one account and reaches another; an end that is not known is left out. */
  datatype Payment = Payment(payer: Option<AccountID>, payee: Option<AccountID>, amount: int)

  function TokenPayments(provider: AccountID, tokens: seq<Token>): seq<Payment> {
    if tokens == [] then [] else
    (if tokens[0].native then [Payment(Some(provider), Some(tokens[0].vault), tokens[0].amount)] else [])
    + TokenPayments(provider, tokens[1..])
  }

  /** The payments of Gram that a successful action stands for. */
  function PaymentsOf(deed: Deed): seq<Payment> {
    match deed
    case NoExtra(_) => []
    case Direct(from, to, amount) => [Payment(Some(from), Some(to), amount)]
    case Relay(relayer, amount) => [Payment(Some(relayer), None, amount)]
    case Jetton(sender, recipient, amount, isWrappedTon) =>
      if isWrappedTon && sender.Some? && recipient.Some? then [Payment(sender, recipient, amount)] else []
    case Swap(s) =>
      if s.in_.isTon then [Payment(Some(s.userWallet), None, s.in_.amount)]
      else if s.out.isTon then [Payment(None, Some(s.userWallet), s.out.amount)]
      else []
    case Liquidity(provider, tokens) => TokenPayments(provider, tokens)
  }

  /** What these payments leave an account with: all it gets less all it pays. */
  function Balance(payments: seq<Payment>, a: AccountID): int {
    if payments == [] then 0 else
    var p := payments[0];
    (if p.payee == Some(a) then p.amount else 0) - (if p.payer == Some(a) then p.amount else 0)
    + Balance(payments[1..], a)
  }

  lemma {:induction false} TokensBalance(a: AccountID, provider: AccountID, tokens: seq<Token>)
    ensures TokensExtra(a, provider, tokens) == Balance(TokenPayments(provider, tokens), a)
  {
    if tokens != [] {
      TokensBalance(a, provider, tokens[1..]);
      var rest := TokenPayments(provider, tokens[1..]);
      if tokens[0].native {
        var p := Payment(Some(provider), Some(tokens[0].vault), tokens[0].amount);
        assert ([p] + rest)[1..] == rest;
      } else {
        assert [] + rest == rest;
      }
    }
  }

  /** An action explains exactly the payments it stands for: nothing if it failed, and nothing to those who take no
      part. */
  lemma {:induction false} ContributionIsBalance(action: Action, a: AccountID)
    ensures ContributeToExtra(action, a) == if action.success then Balance(PaymentsOf(action.deed), a) else 0
  {
    match action.deed
    case Liquidity(provider, tokens) => TokensBalance(a, provider, tokens);
    case _ =>
  }

  // ----- a payment takes from one account what it gives to another -----

  function SumOver(accounts: seq<AccountID>, f: AccountID -> int): int {
    if accounts == [] then 0 else f(accounts[0]) + SumOver(accounts[1..], f)
  }

  lemma {:induction false} SumOverAdd(accounts: seq<AccountID>, f: AccountID -> int, g: AccountID -> int,
                                      h: AccountID -> int)
    requires forall a :: h(a) == f(a) + g(a)
    ensures SumOver(accounts, h) == SumOver(accounts, f) + SumOver(accounts, g)
  {
    if accounts != [] { SumOverAdd(accounts[1..], f, g, h); }
  }

  /** A function that is zero but at one account. */
  lemma {:induction false} SumOverOne(accounts: seq<AccountID>, f: AccountID -> int, x: AccountID)
    requires Unique(accounts) && forall a :: a != x ==> f(a) == 0
    ensures SumOver(accounts, f) == if x in accounts then f(x) else 0
  {
    if accounts != [] { SumOverOne(accounts[1..], f, x); }
  }

  lemma {:induction false} DirectionsCancel(accounts: seq<AccountID>, from: AccountID, to: AccountID, amount: int)
    requires Unique(accounts) && from in accounts && to in accounts
    ensures SumOver(accounts, a => DetectDirection(a, from, to, amount)) == 0
  {
    var f := a => if a == from && from != to then -amount else 0;
    var g := a => if a == to && from != to then amount else 0;
    SumOverOne(accounts, f, from);
    SumOverOne(accounts, g, to);
    SumOverAdd(accounts, f, g, a => DetectDirection(a, from, to, amount));
  }

  lemma {:induction false} TokensCancel(accounts: seq<AccountID>, provider: AccountID, tokens: seq<Token>)
    requires Unique(accounts) && provider in accounts
    requires forall i | 0 <= i < |tokens| :: tokens[i].vault in accounts
    ensures SumOver(accounts, a => TokensExtra(a, provider, tokens)) == 0
  {
    if tokens == [] {
      SumOverOne(accounts, a => TokensExtra(a, provider, tokens), provider);
    } else {
      var t, rest := tokens[0], tokens[1..];
      var f := a => if a == provider && t.native then -t.amount else 0;
      var g := a => if a == t.vault && t.native then t.amount else 0;
      var fg := a => f(a) + g(a);
      var h := a => TokensExtra(a, provider, rest);
      SumOverOne(accounts, f, provider);
      SumOverOne(accounts, g, t.vault);
      SumOverAdd(accounts, f, g, fg);
      TokensCancel(accounts, provider, rest);
      SumOverAdd(accounts, fg, h, a => TokensExtra(a, provider, tokens));
    }
  }

  /** What the whole action adds to all extras together: only a relay and a swap have one side. */
  function OneSided(action: Action): int {
    if !action.success then 0 else
    match action.deed
    case Relay(_, amount) => -amount
    case Swap(s) => if s.in_.isTon then -s.in_.amount else if s.out.isTon then s.out.amount else 0
    case _ => 0
  }

  /** The accounts that an action's contribution names. */
  predicate Names(action: Action, accounts: seq<AccountID>) {
    match action.deed
    case NoExtra(_) => true
    case Direct(from, to, _) => from in accounts && to in accounts
    case Relay(relayer, _) => relayer in accounts
    case Jetton(sender, recipient, _, _) =>
      (sender.Some? ==> sender.value in accounts) && (recipient.Some? ==> recipient.value in accounts)
    case Swap(s) => s.userWallet in accounts
    case Liquidity(provider, tokens) =>
      provider in accounts && forall i | 0 <= i < |tokens| :: tokens[i].vault in accounts
  }

  lemma {:induction false} ActionsCancel(accounts: seq<AccountID>, action: Action)
    requires Unique(accounts) && Names(action, accounts)
    ensures SumOver(accounts, a => ContributeToExtra(action, a)) == OneSided(action)
  {
    var f := a => ContributeToExtra(action, a);
    if !action.success {
      SumOverSame(accounts, f, a => 0);
      Nothing(accounts);
    } else {
      match action.deed
      case NoExtra(_) =>
        SumOverSame(accounts, f, a => 0);
        Nothing(accounts);
      case Direct(from, to, amount) =>
        SumOverSame(accounts, f, a => DetectDirection(a, from, to, amount));
        DirectionsCancel(accounts, from, to, amount);
      case Relay(relayer, _) => SumOverOne(accounts, f, relayer);
      case Jetton(sender, recipient, amount, isWrappedTon) =>
        if isWrappedTon && sender.Some? && recipient.Some? {
          SumOverSame(accounts, f, a => DetectDirection(a, sender.value, recipient.value, amount));
          DirectionsCancel(accounts, sender.value, recipient.value, amount);
        } else {
          SumOverSame(accounts, f, a => 0);
          Nothing(accounts);
        }
      case Swap(s) => SumOverOne(accounts, f, s.userWallet);
      case Liquidity(provider, tokens) =>
        SumOverSame(accounts, f, a => TokensExtra(a, provider, tokens));
        TokensCancel(accounts, provider, tokens);
    }
  }

  lemma {:induction false} SumOverSame(accounts: seq<AccountID>, f: AccountID -> int, g: AccountID -> int)
    requires forall a :: f(a) == g(a)
    ensures SumOver(accounts, f) == SumOver(accounts, g)
  {
    if accounts != [] { SumOverSame(accounts[1..], f, g); }
  }

  lemma {:induction false} Nothing(accounts: seq<AccountID>)
    ensures SumOver(accounts, a => 0) == 0
  {
    if accounts != [] {
      Nothing(accounts[1..]);
      SumOverSame(accounts[1..], a => 0, a => 0);
    }
  }

  function OneSidedAll(actions: seq<Action>): int {
    if actions == [] then 0 else
    var last := |actions| - 1;
    OneSidedAll(actions[..last]) + OneSided(actions[last])
  }

  /** All extras together are all Gram changes together, but for the actions with one side. */
  lemma {:induction false} ExtrasAddUp(actions: seq<Action>, flow: Accounts, accounts: seq<AccountID>)
    requires Unique(accounts) && forall i | 0 <= i < |actions| :: Names(actions[i], accounts)
    ensures SumOver(accounts, a => Amount(flow, Grams(a)) - Contributions(actions, a))
         == SumOver(accounts, a => Amount(flow, Grams(a))) - OneSidedAll(actions)
  {
    var gram := a => Amount(flow, Grams(a));
    var now := a => Amount(flow, Grams(a)) - Contributions(actions, a);
    if actions == [] {
      SumOverSame(accounts, now, gram);
    } else {
      var last := |actions| - 1;
      var before := a => Amount(flow, Grams(a)) - Contributions(actions[..last], a);
      var one := a => ContributeToExtra(actions[last], a);
      ExtrasAddUp(actions[..last], flow, accounts);
      ActionsCancel(accounts, actions[last]);
      SumOverAdd(accounts, now, one, before);
    }
  }
}
