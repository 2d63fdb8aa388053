/** Adding the messages a wallet meant to send but nobody received (pkg/bath/intentions.go). */
module Intentions {
  import opened Wrappers
  import opened Ledger
  import opened Actions
  import opened Bubbles

  /** A message body as far as matching looks at it. */
  datatype Content =
    | Cell
    | Comment(text: string)
    | JettonQuery(id: nat)
    | NftQuery(id: nat)
    | DedustQuery(id: nat)
    | Unsupported(name: string)

  /** A message the wallet was told to send, with the transaction that carries it. */
  datatype OutMessage = OutMessage(dest: AccountID, mode: nat, grams: int, body: Option<Content>, tx: Hash)

  datatype InMessage = InMessage(destination: AccountID, value: int, body: Option<Content>)

  /** A transaction with the messages its wallet was told to send. */
  datatype Sent = Sent(out: seq<OutMessage>, inMsg: Option<InMessage>, children: seq<Sent>)

  predicate SameFields(o: OutMessage, i: InMessage) {
    o.dest == i.destination && (o.mode < 128 ==> o.grams == i.value)
  }

  predicate SameType(a: Content, b: Content) {
    match a
    case Cell => b.Cell?
    case Comment(_) => b.Comment?
    case JettonQuery(_) => b.JettonQuery?
    case NftQuery(_) => b.NftQuery?
    case DedustQuery(_) => b.DedustQuery?
    case Unsupported(name) => b.Unsupported? && b.name == name
  }

  predicate IsMatch(o: OutMessage, m: Option<InMessage>) {
    m.Some? && SameFields(o, m.value) &&
    if (o.body.None? || o.body.value.Cell?) && m.value.body.None? then true
    else if o.body.None? || m.value.body.None? then false
    else if !SameType(o.body.value, m.value.body.value) then false
    else o.body.value.Unsupported? || o.body.value.Cell? || o.body.value == m.value.body.value
  }

  /** A transaction received the message if and only if destination, value and body agree; a message that sends a part
      of the balance may arrive with any value, and a body that is a bare cell also as none at all. */
  lemma MatchesIff(o: OutMessage, m: InMessage)
    ensures IsMatch(o, Some(m)) <==>
            && m.destination == o.dest && (o.mode >= 128 || m.value == o.grams)
            && (m.body == o.body || (o.body == Some(Cell) && m.body == None))
    ensures !IsMatch(o, None)
  {
  }

  /** All messages of all wallets, in pre-order. */
  function Wanted(t: Sent): seq<OutMessage> {
    t.out + WantedAll(t.children)
  }

  function WantedAll(ts: seq<Sent>): seq<OutMessage> {
    if ts == [] then [] else
    var last := |ts| - 1;
    WantedAll(ts[..last]) + Wanted(ts[last])
  }

  function Received(t: Sent): nat {
    ReceivedAll(t.children)
  }

  function ReceivedAll(ts: seq<Sent>): nat {
    if ts == [] then 0 else
    var last := |ts| - 1;
    ReceivedAll(ts[..last]) + (if ts[last].inMsg.Some? then 1 else 0) + Received(ts[last])
  }

  method ExtractIntentions(t: Sent) returns (outMessages: seq<OutMessage>, inMsgCount: nat)
    ensures outMessages == Wanted(t) && inMsgCount == Received(t)
    decreases t
  {
    outMessages, inMsgCount := t.out, 0;
    assert t.out + WantedAll(t.children[..0]) == t.out;
    for i := 0 to |t.children|
      invariant outMessages == t.out + WantedAll(t.children[..i]) && inMsgCount == ReceivedAll(t.children[..i])
    {
      assert t.children[..i + 1][..i] == t.children[..i];
      if t.children[i].inMsg.Some? {
        inMsgCount := inMsgCount + 1;
      }
      var more, count := ExtractIntentions(t.children[i]);
      outMessages, inMsgCount := outMessages + more, inMsgCount + count;
    }
    assert t.children[..|t.children|] == t.children;
  }

  // ----- which of them were delivered -----

  /** Some transaction below this one received the message. */
  predicate Delivered(t: Sent, o: OutMessage) {
    DeliveredAll(t.children, o)
  }

  predicate DeliveredAll(ts: seq<Sent>, o: OutMessage) {
    ts != [] && (
      var last := |ts| - 1;
      DeliveredAll(ts[..last], o) || IsMatch(o, ts[last].inMsg) || Delivered(ts[last], o))
  }

  function Unmatched(t: Sent, wanted: seq<OutMessage>): seq<OutMessage> {
    if wanted == [] then [] else
    var last := |wanted| - 1;
    Unmatched(t, wanted[..last]) + if Delivered(t, wanted[last]) then [] else [wanted[last]]
  }

  lemma {:induction false} UnmatchedIs(t: Sent, wanted: seq<OutMessage>, o: OutMessage)
    ensures o in Unmatched(t, wanted) <==> o in wanted && !Delivered(t, o)
  {
    if wanted != [] {
      var last := |wanted| - 1;
      UnmatchedIs(t, wanted[..last], o);
      assert wanted == wanted[..last] + [wanted[last]];
    }
  }

  /** Adds the indices of the messages that some transaction below `t` received. */
  method MatchOutMessages(t: Sent, wanted: seq<OutMessage>, matched: set<nat>) returns (matched': set<nat>)
    ensures forall i :: i in matched' <==> i in matched || (0 <= i < |wanted| && Delivered(t, wanted[i]))
    decreases t
  {
    matched' := matched;
    for k := 0 to |t.children|
      invariant forall i ::
                  i in matched' <==> i in matched || (0 <= i < |wanted| && DeliveredAll(t.children[..k], wanted[i]))
    {
      assert t.children[..k + 1][..k] == t.children[..k];
      var child := t.children[k];
      matched' := MatchOne(child.inMsg, wanted, matched');
      matched' := MatchOutMessages(child, wanted, matched');
    }
    assert t.children[..|t.children|] == t.children;
  }

  method MatchOne(m: Option<InMessage>, wanted: seq<OutMessage>, matched: set<nat>) returns (matched': set<nat>)
    ensures forall i :: i in matched' <==> i in matched || (0 <= i < |wanted| && IsMatch(wanted[i], m))
  {
    matched' := matched;
    for i := 0 to |wanted|
      invariant forall j :: j in matched' <==> j in matched || (0 <= j < i && IsMatch(wanted[j], m))
    {
      if IsMatch(wanted[i], m) {
        matched' := matched' + {i};
      }
    }
  }

  method RemoveMatchedIntentions(t: Sent, wanted: seq<OutMessage>) returns (left: seq<OutMessage>)
    ensures left == Unmatched(t, wanted)
  {
    var matched := MatchOutMessages(t, wanted, {});
    left := [];
    for i := 0 to |wanted|
      invariant left == Unmatched(t, wanted[..i])
    {
      assert wanted[..i + 1][..i] == wanted[..i];
      if i !in matched {
        left := left + [wanted[i]];
      }
    }
    assert wanted[..|wanted|] == wanted;
  }

  // ----- the same, transaction by transaction -----

  /** All transactions, each before those below it. */
  function Transactions(t: Sent): seq<Sent> {
    [t] + TransactionsAll(t.children)
  }

  function TransactionsAll(ts: seq<Sent>): seq<Sent> {
    if ts == [] then [] else Transactions(ts[0]) + TransactionsAll(ts[1..])
  }

  function Outs(ts: seq<Sent>): seq<OutMessage> {
    if ts == [] then [] else ts[0].out + Outs(ts[1..])
  }

  function Receipts(ts: seq<Sent>): nat {
    if ts == [] then 0 else (if ts[0].inMsg.Some? then 1 else 0) + Receipts(ts[1..])
  }

  ghost predicate Receives(ts: seq<Sent>, o: OutMessage) {
    exists i :: 0 <= i < |ts| && IsMatch(o, ts[i].inMsg)
  }

  lemma {:induction false} OutsConcat(a: seq<Sent>, b: seq<Sent>)
    ensures Outs(a + b) == Outs(a) + Outs(b) && Receipts(a + b) == Receipts(a) + Receipts(b)
  {
    if a == [] {
      assert a + b == b;
    } else {
      assert (a + b)[1..] == a[1..] + b;
      OutsConcat(a[1..], b);
    }
  }

  lemma ReceivesConcat(a: seq<Sent>, b: seq<Sent>, o: OutMessage)
    ensures Receives(a + b, o) <==> Receives(a, o) || Receives(b, o)
  {
    if Receives(a, o) {
      var i :| 0 <= i < |a| && IsMatch(o, a[i].inMsg);
      assert (a + b)[i] == a[i];
    }
    if Receives(b, o) {
      var i :| 0 <= i < |b| && IsMatch(o, b[i].inMsg);
      assert (a + b)[|a| + i] == b[i];
    }
  }

  lemma {:induction false} TransactionsTake(ts: seq<Sent>)
    requires ts != []
    ensures TransactionsAll(ts) == TransactionsAll(ts[..|ts| - 1]) + Transactions(ts[|ts| - 1])
  {
    if |ts| > 1 {
      TransactionsTake(ts[1..]);
      assert ts[1..][..|ts| - 2] == ts[..|ts| - 1][1..];
    } else {
      assert ts[1..] == [];
    }
  }

  /** What is wanted is what the transactions were told to send, in their order; what counts as received are the
      messages of all but the first; and a message is delivered if one of these transactions received it. */
  lemma {:induction false} ByTransactions(t: Sent, o: OutMessage)
    ensures Wanted(t) == Outs(Transactions(t)) && Received(t) == Receipts(Transactions(t)[1..])
    ensures Delivered(t, o) <==> Receives(Transactions(t)[1..], o)
    decreases t
  {
    ByTransactionsAll(t.children, o);
    assert Transactions(t)[1..] == TransactionsAll(t.children);
  }

  lemma {:induction false} ByTransactionsAll(ts: seq<Sent>, o: OutMessage)
    ensures WantedAll(ts) == Outs(TransactionsAll(ts)) && ReceivedAll(ts) == Receipts(TransactionsAll(ts))
    ensures DeliveredAll(ts, o) <==> Receives(TransactionsAll(ts), o)
    decreases ts
  {
    if ts != [] {
      var last := |ts| - 1;
      ByTransactionsAll(ts[..last], o);
      ByTransactions(ts[last], o);
      TransactionsTake(ts);
      OutsConcat(TransactionsAll(ts[..last]), Transactions(ts[last]));
      ReceivesConcat(TransactionsAll(ts[..last]), Transactions(ts[last]), o);
      ReceivesConcat([ts[last]], Transactions(ts[last])[1..], o);
      assert [ts[last]][0] == ts[last] && Outs([ts[last]]) == ts[last].out;
      assert Transactions(ts[last]) == [ts[last]] + Transactions(ts[last])[1..];
    }
  }

  // ----- adding them as failed actions -----

  type Describe = OutMessage -> Deed

  /** The action for an undelivered message never succeeded, and lists no transaction. */
  function ActionOf(o: OutMessage, describe: Describe): Action {
    Action(describe(o), false, [])
  }

  /** The original actions are at the places `at`, in order, and the action of the j-th message is at `places[j]`; no
      place is taken twice and none is left. */
  ghost predicate Woven(r: seq<Action>, original: seq<Action>, at: seq<nat>, added: seq<OutMessage>,
                        places: seq<nat>, describe: Describe) {
    && |at| == |original| && |places| == |added| && |r| == |at| + |places|
    && (forall k | 0 <= k < |at| :: at[k] < |r| && r[at[k]] == original[k])
    && (forall k, l | 0 <= k < l < |at| :: at[k] < at[l])
    && (forall j | 0 <= j < |places| :: places[j] < |r| && r[places[j]] == ActionOf(added[j], describe))
    && (forall j, l | 0 <= j < l < |places| :: places[j] != places[l])
    && (forall k, j | 0 <= k < |at| && 0 <= j < |places| :: at[k] != places[j])
  }

  /** The places after an insertion at i. */
  ghost function Moved(at: seq<nat>, i: nat): seq<nat> {
    seq(|at|, k requires 0 <= k < |at| => if at[k] < i then at[k] else at[k] + 1)
  }

  lemma MovedStays(r: seq<Action>, at: seq<nat>, i: nat, a: Action)
    requires i <= |r| && forall k | 0 <= k < |at| :: at[k] < |r|
    ensures var r' := r[..i] + [a] + r[i..];
            forall k | 0 <= k < |at| ::
              Moved(at, i)[k] < |r'| && Moved(at, i)[k] != i && r'[Moved(at, i)[k]] == r[at[k]]
  {
  }

  lemma {:induction false} InsertWeaves(r: seq<Action>, original: seq<Action>, at: seq<nat>, added: seq<OutMessage>,
                                        places: seq<nat>, describe: Describe, i: nat, o: OutMessage)
    requires Woven(r, original, at, added, places, describe) && i <= |r|
    ensures Woven(r[..i] + [ActionOf(o, describe)] + r[i..], original, Moved(at, i), added + [o],
                  Moved(places, i) + [i], describe)
  {
    MovedStays(r, at, i, ActionOf(o, describe));
    MovedStays(r, places, i, ActionOf(o, describe));
  }

  lemma {:induction false} ContributionsConcat(a: seq<Action>, b: seq<Action>, account: AccountID)
    ensures Contributions(a + b, account) == Contributions(a, account) + Contributions(b, account)
  {
    if b == [] {
      assert a + b == a;
    } else {
      assert (a + b)[..|a + b| - 1] == a + b[..|b| - 1];
      ContributionsConcat(a, b[..|b| - 1], account);
    }
  }

  /** A failed action explains nothing. */
  lemma FailedAddsNothing(r: seq<Action>, i: nat, a: Action, account: AccountID)
    requires i <= |r| && !a.success
    ensures Contributions(r[..i] + [a] + r[i..], account) == Contributions(r, account)
  {
    ContributionsConcat(r[..i] + [a], r[i..], account);
    ContributionsConcat(r[..i], r[i..], account);
    assert (r[..i] + [a])[..i] == r[..i];
    assert r[..i] + r[i..] == r;
  }

  /** Right after the first action that lists the transaction, or at the end. */
  function PlaceFor(actions: seq<Action>, tx: Hash): (i: nat)
    ensures i <= |actions|
    ensures i < |actions| ==> i > 0 && tx in actions[i - 1].base
    ensures forall j | 0 <= j < i - 1 :: tx !in actions[j].base
    ensures (forall j | 0 <= j < |actions| :: tx !in actions[j].base) ==> i == |actions|
  {
    if actions == [] then 0
    else if tx in actions[0].base then 1
    else 1 + PlaceFor(actions[1..], tx)
  }

  function Inserted(actions: seq<Action>, o: OutMessage, describe: Describe): seq<Action> {
    var i := PlaceFor(actions, o.tx);
    actions[..i] + [ActionOf(o, describe)] + actions[i..]
  }

  /** One message after another, each among the actions that are there by then. */
  function AllInserted(actions: seq<Action>, added: seq<OutMessage>, describe: Describe): seq<Action> {
    if added == [] then actions else
    var last := |added| - 1;
    Inserted(AllInserted(actions, added[..last], describe), added[last], describe)
  }

  lemma AllInsertedMore(actions: seq<Action>, added: seq<OutMessage>, o: OutMessage, describe: Describe)
    ensures AllInserted(actions, added + [o], describe) == Inserted(AllInserted(actions, added, describe), o, describe)
  {
    assert (added + [o])[..|added|] == added;
  }

  method InsertAction(actions: seq<Action>, o: OutMessage, describe: Describe) returns (r: seq<Action>)
    ensures r == Inserted(actions, o, describe)
  {
    for k := 0 to |actions|
      invariant PlaceFor(actions, o.tx) == k + PlaceFor(actions[k..], o.tx)
    {
      assert actions[k..][0] == actions[k] && actions[k..][1..] == actions[k + 1..];
      if o.tx in actions[k].base {
        return actions[..k + 1] + [ActionOf(o, describe)] + actions[k + 1..];
      }
    }
    r := actions + [ActionOf(o, describe)];
    assert actions[|actions|..] == [] && actions[..|actions|] == actions;
  }

  /** Each message nobody received becomes one action, unless as many messages were received
      as were meant to be sent. */
  method EnrichWithIntentions(t: Sent, actions: seq<Action>, describe: Describe) returns (r: seq<Action>)
    ensures r == AllInserted(actions, if |Wanted(t)| <= Received(t) then [] else Unmatched(t, Wanted(t)), describe)
  {
    r := actions;
    var wanted, inMsgCount := ExtractIntentions(t);
    if |wanted| <= inMsgCount {
      return;
    }
    var left := RemoveMatchedIntentions(t, wanted);
    for n := 0 to |left|
      invariant r == AllInserted(actions, left[..n], describe)
    {
      assert left[..n + 1] == left[..n] + [left[n]];
      AllInsertedMore(actions, left[..n], left[n], describe);
      r := InsertAction(r, left[n], describe);
    }
    assert left[..|left|] == left;
  }

  /** The original actions stay, in order, and the added messages are one action each, at places of their own. */
  lemma {:induction false} KeepsActions(actions: seq<Action>, added: seq<OutMessage>, describe: Describe)
    returns (at: seq<nat>, places: seq<nat>)
    ensures Woven(AllInserted(actions, added, describe), actions, at, added, places, describe)
  {
    if added == [] {
      at, places := seq(|actions|, k => k), [];
    } else {
      var last := |added| - 1;
      var r := AllInserted(actions, added[..last], describe);
      at, places := KeepsActions(actions, added[..last], describe);
      var i := PlaceFor(r, added[last].tx);
      InsertWeaves(r, actions, at, added[..last], places, describe, i, added[last]);
      assert added[..last] + [added[last]] == added;
      at, places := Moved(at, i), Moved(places, i) + [i];
    }
  }

  /** No account's extra changes. */
  lemma {:induction false} KeepsContributions(actions: seq<Action>, added: seq<OutMessage>, describe: Describe,
                                              account: AccountID)
    ensures Contributions(AllInserted(actions, added, describe), account) == Contributions(actions, account)
  {
    if added != [] {
      var last := |added| - 1;
      var r := AllInserted(actions, added[..last], describe);
      KeepsContributions(actions, added[..last], describe, account);
      FailedAddsNothing(r, PlaceFor(r, added[last].tx), ActionOf(added[last], describe), account);
    }
  }
}
