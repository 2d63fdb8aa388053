/** Emulating a migration batch by batch on an over-funded wallet (pkg/api/migration_handlers.go). */
module MigrationRun {
  import opened Wrappers
  import opened MigrationPlan

  const OVERFUND_MARGIN: nat := 5_000_000_000
  const MESSAGE_LIFETIME: int := 300

  // ----- what the emulator says -----

  datatype Shard = Uninit | Active(grams: nat, lastPaid: int)

  type Accounts = map<nat, Shard>

  datatype EmuTrace = EmuTrace(account: nat, success: bool, aborted: bool, endBalance: int, children: seq<EmuTrace>)

  datatype Emulation = EmulatorFailed | SetupFailed | Ran(trace: Option<EmuTrace>, finalStates: Accounts)

  /** All that one batch meets outside the planner: encoding, the emulator, and the preview made of its trace. */
  datatype World = World(encodingFails: bool, emulation: Emulation, previewFails: bool)

  // ----- the shortfall -----

  datatype Shortfall = Shortfall(required: int, available: int)

  function WorseShortfall(current: Option<Shortfall>, required: int, available: int): Option<Shortfall> {
    if required <= available || (current.Some? && current.value.required >= required) then current
    else Some(Shortfall(required, available))
  }

  /** The shortfall after these observations, one after another. */
  function Worst(observed: seq<int>, available: int): Option<Shortfall> {
    if observed == [] then None else
    var last := |observed| - 1;
    WorseShortfall(Worst(observed[..last], available), observed[last], available)
  }

  /** A shortfall is reported if and only if some observation is not covered, and then it is the largest one. */
  lemma {:induction false} WorstIsTheLargest(observed: seq<int>, available: int)
    ensures Worst(observed, available).None? <==> forall i | 0 <= i < |observed| :: observed[i] <= available
    ensures Worst(observed, available).Some? ==>
      && var s := Worst(observed, available).value;
      && s.available == available < s.required && s.required in observed
      && forall i | 0 <= i < |observed| :: observed[i] <= s.required
  {
    if observed != [] {
      var last := |observed| - 1;
      WorstIsTheLargest(observed[..last], available);
      assert observed == observed[..last] + [observed[last]];
    }
  }

  // ----- balances -----

  function GramBalanceSpent(state: Accounts, key: nat, startBalance: int): Option<int> {
    if key !in state || state[key].Uninit? then None else Some(startBalance - state[key].grams)
  }

  /** Takes `amount` out of the account, if it is there and holds as much. */
  method DeductGramBalance(state: Accounts, key: nat, amount: nat) returns (ok: bool, state': Accounts)
    ensures ok <==> key in state && state[key].Active? && state[key].grams >= amount
    ensures ok ==> state' == state[key := state[key].(grams := state[key].grams - amount)]
    ensures !ok ==> state' == state
  {
    if key !in state || state[key].Uninit? || state[key].grams < amount {
      return false, state;
    }
    return true, state[key := state[key].(grams := state[key].grams - amount)];
  }

  function DropOverfund(t: EmuTrace, key: nat, overfund: nat): EmuTrace {
    t.(endBalance := if t.account != key then t.endBalance
                     else if t.endBalance > overfund then t.endBalance - overfund
                     else 0,
       children := seq(|t.children|, i requires 0 <= i < |t.children| => DropOverfund(t.children[i], key, overfund)))
  }

  function BalancesOf(t: EmuTrace, key: nat): seq<int> {
    (if t.account == key then [t.endBalance] else []) + BalancesOfAll(t.children, key)
  }

  function BalancesOfAll(ts: seq<EmuTrace>, key: nat): seq<int> {
    if ts == [] then [] else BalancesOf(ts[0], key) + BalancesOfAll(ts[1..], key)
  }

  /** Every end balance of the source is lowered by the over-funding, but not below zero; nobody else's changes. */
  lemma {:induction false} DropOverfundBalances(t: EmuTrace, key: nat, overfund: nat, other: nat)
    ensures var was, now := BalancesOf(t, other), BalancesOf(DropOverfund(t, key, overfund), other);
            |now| == |was| && forall i | 0 <= i < |now| ::
              now[i] == if other != key then was[i] else if was[i] > overfund then was[i] - overfund else 0
  {
    var d := DropOverfund(t, key, overfund);
    DropOverfundAll(t.children, d.children, key, overfund, other);
  }

  lemma {:induction false} DropOverfundAll(ts: seq<EmuTrace>, ds: seq<EmuTrace>, key: nat, overfund: nat, other: nat)
    requires |ds| == |ts| && forall i | 0 <= i < |ts| :: ds[i] == DropOverfund(ts[i], key, overfund)
    ensures var was, now := BalancesOfAll(ts, other), BalancesOfAll(ds, other);
            |now| == |was| && forall i | 0 <= i < |now| ::
              now[i] == if other != key then was[i] else if was[i] > overfund then was[i] - overfund else 0
  {
    if ts != [] {
      DropOverfundBalances(ts[0], key, overfund, other);
      DropOverfundAll(ts[1..], ds[1..], key, overfund, other);
    }
  }

  /** Both traces have the same transactions with the same outcomes, in the same places. */
  ghost predicate SameOutcomes(s: EmuTrace, t: EmuTrace) {
    && s.account == t.account && s.success == t.success && s.aborted == t.aborted
    && |s.children| == |t.children| && forall i | 0 <= i < |s.children| :: SameOutcomes(s.children[i], t.children[i])
  }

  lemma {:induction false} DropOverfundOutcomes(t: EmuTrace, key: nat, overfund: nat)
    ensures SameOutcomes(DropOverfund(t, key, overfund), t)
  {
    forall i | 0 <= i < |t.children| ensures SameOutcomes(DropOverfund(t, key, overfund).children[i], t.children[i]) {
      DropOverfundOutcomes(t.children[i], key, overfund);
    }
  }

  lemma {:induction false} SameOutcomesRefl(t: EmuTrace)
    ensures SameOutcomes(t, t)
  {
    forall i | 0 <= i < |t.children| ensures SameOutcomes(t.children[i], t.children[i]) {
      SameOutcomesRefl(t.children[i]);
    }
  }

  /** An end balance that has this over-funding in it, without it. */
  function Real(balance: int, overfund: nat): int {
    if overfund == 0 then balance else if balance > overfund then balance - overfund else 0
  }

  /** `shown` is `emulated` without the over-funding: it is taken out of every end balance of the source, as far as
      those go, and nothing else differs. */
  ghost predicate HidesOverfund(shown: EmuTrace, emulated: EmuTrace, key: nat, overfund: nat) {
    && SameOutcomes(shown, emulated)
    && (forall k | k != key :: BalancesOf(shown, k) == BalancesOf(emulated, k))
    && |BalancesOf(shown, key)| == |BalancesOf(emulated, key)|
    && forall j | 0 <= j < |BalancesOf(shown, key)| ::
         BalancesOf(shown, key)[j] == Real(BalancesOf(emulated, key)[j], overfund)
  }

  lemma ShownHides(trace: EmuTrace, key: nat, overfund: nat)
    ensures HidesOverfund(ShownTrace(trace, key, overfund), trace, key, overfund)
  {
    SameOutcomesRefl(trace);
    DropOverfundOutcomes(trace, key, overfund);
    forall k { DropOverfundBalances(trace, key, overfund, k); }
  }

  /** No shown balance of the source has the over-funding in it, and nothing else of the traces is changed. */
  lemma {:induction false} ShownBalancesAreReal(txs: seq<Transaction>, plan: Plan, w: Wallet, worlds: seq<World>,
                                                inputs: seq<Input>, now: int)
    requires Covers(txs, plan, w, worlds, inputs, now)
    ensures AllHideOverfund(txs, w, worlds, inputs)
  {
    forall i | 0 <= i < |txs|
      ensures worlds[i].emulation.Ran? && worlds[i].emulation.trace.Some?
      ensures HidesOverfund(txs[i].trace, worlds[i].emulation.trace.value, w.address, inputs[i].overfund)
    {
      assert Shows(txs[i], i, plan, w, worlds[i], inputs[i]);
      ShownHides(worlds[i].emulation.trace.value, w.address, inputs[i].overfund);
    }
  }

  /** Every transaction shows the trace of its own emulation, without the over-funding. */
  ghost predicate AllHideOverfund(txs: seq<Transaction>, w: Wallet, worlds: seq<World>, inputs: seq<Input>) {
    && |txs| == |inputs| <= |worlds|
    && forall i | 0 <= i < |txs| ::
      && worlds[i].emulation.Ran? && worlds[i].emulation.trace.Some?
      && HidesOverfund(txs[i].trace, worlds[i].emulation.trace.value, w.address, inputs[i].overfund)
  }

  // ----- the clock -----

  /** The clock the emulation ended on. */
  ghost predicate IsEndTime(time: int, states: Accounts, startTime: int) {
    && time >= startTime && (forall k | k in states && states[k].Active? :: states[k].lastPaid + 1 <= time)
    && (time == startTime || exists k :: k in states && states[k].Active? && states[k].lastPaid + 1 == time)
  }

  /** In whatever order the map yields the accounts. */
  method EndTime(states: Accounts, startTime: int) returns (endTime: int)
    ensures IsEndTime(endTime, states, startTime)
  {
    endTime := startTime;
    var todo := states.Keys;
    while todo != {}
      invariant todo <= states.Keys && endTime >= startTime
      invariant forall k | k in states && k !in todo && states[k].Active? :: states[k].lastPaid + 1 <= endTime
      invariant endTime == startTime
                || exists k :: k in states && states[k].Active? && states[k].lastPaid + 1 == endTime
      decreases todo
    {
      var k :| k in todo;
      todo := todo - {k};
      if states[k].Active? && states[k].lastPaid + 1 > endTime {
        endTime := states[k].lastPaid + 1;
      }
    }
  }

  // ----- the response -----

  datatype Transaction = Transaction(seqno: nat, batch: Batch, validUntil: int, withInit: bool, trace: EmuTrace)

  datatype Reply =
    | Prepared(transactions: seq<Transaction>)
    | PreparedButShort(transactions: seq<Transaction>, short: Shortfall)
    | Short(shortfall: Shortfall)
    | EmulationConflict
    | EmulationError
    | Internal

  /** Once the source is known to be short, a failure reports just that. */
  function Fail(shortfall: Option<Shortfall>, reply: Reply): Reply {
    if shortfall.Some? then Short(shortfall.value) else reply
  }

  predicate TraceFails(trace: Option<EmuTrace>) {
    trace.None? || !trace.value.success || trace.value.aborted
  }

  /** What the emulator is given for one batch. */
  datatype Input = Input(state: Accounts, time: int, overfund: nat)

  datatype Wallet = Wallet(address: nat, account: Shard, seqno: nat, deployInit: bool)

  function BalanceOf(w: Wallet): nat {
    if w.account.Active? then w.account.grams else 0
  }

  /** What the source is over-funded with at first. */
  function OverfundOf(plan: Plan, w: Wallet): nat {
    if MinGram(plan) != 0 && w.account.Active? then MinGram(plan) + OVERFUND_MARGIN else 0
  }

  predicate SweptBefore(plan: Plan, i: nat)
    requires i <= |plan|
  {
    i > 0 && (IsSweep(plan[i - 1]) || SweptBefore(plan, i - 1))
  }

  function ShownTrace(trace: EmuTrace, key: nat, overfund: nat): EmuTrace {
    if overfund == 0 then trace else DropOverfund(trace, key, overfund)
  }

  /** Why batch i fails in this world, if it does: the first thing that goes wrong. */
  function FailureOf(plan: Plan, w: Wallet, world: World, input: Input, i: nat): (r: Option<Reply>)
    requires i < |plan|
    ensures r.None? ==> world.emulation.Ran? && !TraceFails(world.emulation.trace)
  {
    if world.encodingFails then Some(Internal)
    else if world.emulation.EmulatorFailed? then Some(EmulationConflict)
    else if world.emulation.SetupFailed? then Some(EmulationError)
    else if TraceFails(world.emulation.trace) then Some(EmulationConflict)
    else if input.overfund != 0 && !IsSweep(plan[i])
            && GramBalanceSpent(world.emulation.finalStates, w.address, 0).None? then Some(Internal)
    else if world.previewFails then Some(Internal)
    else None
  }

  /** A batch fails if and only if it cannot be encoded, emulated, measured or previewed, or its trace did not succeed;
      the reply tells an emulation that was refused from one that broke down,
        and both from the planner's own failures. */
  lemma FailsIff(plan: Plan, w: Wallet, world: World, input: Input, i: nat)
    requires i < |plan|
    ensures var r := FailureOf(plan, w, world, input, i); var emulation := world.emulation;
            var succeeds := emulation.Ran? && emulation.trace.Some?
                            && emulation.trace.value.success && !emulation.trace.value.aborted;
            var measured := input.overfund == 0 || IsSweep(plan[i])
                            || (emulation.Ran? && w.address in emulation.finalStates
                                && emulation.finalStates[w.address].Active?);
            && (r.None? <==> !world.encodingFails && succeeds && measured && !world.previewFails)
            && (r == Some(EmulationConflict) <==> !world.encodingFails && !succeeds && !emulation.SetupFailed?)
            && (r == Some(EmulationError) <==> !world.encodingFails && emulation.SetupFailed?)
            && (r.Some? ==> r.value in {EmulationConflict, EmulationError, Internal})
  {
  }

  /** The i-th transaction shows what the emulator made of the i-th input. */
  ghost predicate Shows(tx: Transaction, i: nat, plan: Plan, w: Wallet, world: World, input: Input)
    requires i < |plan|
  {
    && tx.seqno == w.seqno + i && tx.batch == plan[i] && tx.validUntil == input.time + MESSAGE_LIFETIME
    && tx.withInit == (tx.seqno == 0 && w.deployInit)
    && FailureOf(plan, w, world, input, i).None?
    && tx.trace == ShownTrace(world.emulation.trace.value, w.address, input.overfund)
  }

  /** The clock of each batch starts where the one before it ended. */
  ghost predicate ClockRuns(inputs: seq<Input>, worlds: seq<World>, now: int) {
    && (inputs != [] ==> inputs[0].time == now) && |inputs| <= |worlds|
    && forall i | 0 < i < |inputs| :: Ticks(inputs[i - 1], worlds[i - 1], inputs[i])
  }

  ghost predicate Ticks(before: Input, world: World, after: Input) {
    world.emulation.Ran? && IsEndTime(after.time, world.emulation.finalStates, before.time)
  }

  /** Deadlines never go back. */
  lemma {:induction false} DeadlinesGrow(txs: seq<Transaction>, plan: Plan, w: Wallet, worlds: seq<World>,
                                         inputs: seq<Input>, now: int, i: nat, j: nat)
    requires Covers(txs, plan, w, worlds, inputs, now) && i <= j < |txs|
    ensures txs[i].validUntil <= txs[j].validUntil && txs[i].validUntil >= now + MESSAGE_LIFETIME
    decreases j
  {
    assert Shows(txs[i], i, plan, w, worlds[i], inputs[i]) && Shows(txs[j], j, plan, w, worlds[j], inputs[j]);
    if i < j {
      DeadlinesGrow(txs, plan, w, worlds, inputs, now, i, j - 1);
      assert Ticks(inputs[j - 1], worlds[j - 1], inputs[j]);
      assert Shows(txs[j - 1], j - 1, plan, w, worlds[j - 1], inputs[j - 1]);
    } else if j > 0 {
      DeadlinesGrow(txs, plan, w, worlds, inputs, now, j - 1, j - 1);
      assert Ticks(inputs[j - 1], worlds[j - 1], inputs[j]);
      assert Shows(txs[j - 1], j - 1, plan, w, worlds[j - 1], inputs[j - 1]);
    }
  }

  /** The transactions cover the first |txs| batches of the plan. */
  ghost predicate Covers(txs: seq<Transaction>, plan: Plan, w: Wallet, worlds: seq<World>, inputs: seq<Input>,
                         now: int) {
    && |txs| == |inputs| <= |plan| == |worlds| && ClockRuns(inputs, worlds, now)
    && forall i | 0 <= i < |txs| :: Shows(txs[i], i, plan, w, worlds[i], inputs[i])
  }

  /** One state of the loop before batch i. */
  datatype Progress = Progress(state: Accounts, time: int, overfund: nat, shortfall: Option<Shortfall>)

  /** What the source has spent so far, while the over-funding is in place. */
  function LastSpend(observed: seq<int>): int
    requires observed != []
  {
    if |observed| == 1 then 0 else observed[|observed| - 1]
  }

  /** While no shortfall is known and the over-funding is in place, the emulated balance is the real one less what was
      spent, plus the over-funding; each batch before was observed. */
  ghost predicate Funded(s: Progress, plan: Plan, w: Wallet, i: nat, observed: seq<int>)
    requires i <= |plan|
  {
    && observed != [] && observed[0] == MinGram(plan) && s.shortfall == Worst(observed, BalanceOf(w))
    && (s.shortfall.Some? ==> s.overfund == OverfundOf(plan, w) != 0)
    && (s.overfund == 0 ==> OverfundOf(plan, w) == 0 || SweptBefore(plan, i))
    && (s.overfund != 0 ==> s.overfund == OverfundOf(plan, w))
    && (s.overfund != 0 && s.shortfall.None? ==>
         && !SweptBefore(plan, i) && |observed| == i + 1
         && w.address in s.state && s.state[w.address].Active?
         && s.state[w.address].grams == BalanceOf(w) + s.overfund - LastSpend(observed))
  }

  function Deducted(state: Accounts, key: nat, amount: nat): Accounts {
    if key in state && state[key].Active? && state[key].grams >= amount
    then state[key := state[key].(grams := state[key].grams - amount)] else state
  }

  /** What the emulator is given for batch i: the state before it, with the over-funding taken back before a sweep that
      no shortfall has been found before. */
  function InputOf(s: Progress, plan: Plan, w: Wallet, i: nat): Input
    requires i < |plan|
  {
    if s.overfund != 0 && IsSweep(plan[i]) && s.shortfall.None?
    then Input(Deducted(s.state, w.address, s.overfund), s.time, 0)
    else Input(s.state, s.time, s.overfund)
  }

  /** A sweep that the over-funding is taken back for gets exactly the real balance less what was spent. */
  ghost predicate SweepIsReal(input: Input, s: Progress, plan: Plan, w: Wallet, i: nat, observed: seq<int>)
    requires i < |plan| && observed != []
  {
    s.overfund != 0 && IsSweep(plan[i]) && s.shortfall.None? ==>
      && s.overfund == OverfundOf(plan, w) && BalanceOf(w) >= LastSpend(observed)
      && w.address in input.state && input.state[w.address].Active?
      && input.state[w.address].grams == BalanceOf(w) - LastSpend(observed)
  }

  /** The over-funding is taken back before a sweep; with no shortfall known it is always there to take. */
  method TakeBack(plan: Plan, i: nat, w: Wallet, s: Progress, ghost observed: seq<int>)
    returns (sweep: bool, s': Progress)
    requires i < |plan| && Funded(s, plan, w, i, observed)
    ensures sweep == IsSweep(plan[i])
    ensures Input(s'.state, s'.time, s'.overfund) == InputOf(s, plan, w, i) && s'.shortfall == s.shortfall
    ensures SweepIsReal(InputOf(s, plan, w, i), s, plan, w, i, observed)
  {
    var n := GasFundedMessages(plan[i]);
    sweep, s' := n == 0, s;
    if s.overfund != 0 && sweep && s.shortfall.None? {
      WorstIsTheLargest(observed, BalanceOf(w));
      var ok, state := DeductGramBalance(s.state, w.address, s.overfund);
      if !ok {
        assert false;
      }
      s' := s.(state := state, overfund := 0);
    }
  }

  /** What a batch adds to the observations: what the source has spent after it, unless it sweeps or was not
      over-funded. */
  function Seen(observed: seq<int>, plan: Plan, w: Wallet, world: World, input: Input, i: nat): seq<int>
    requires i < |plan|
  {
    if input.overfund == 0 || IsSweep(plan[i]) || world.encodingFails || !world.emulation.Ran?
      || TraceFails(world.emulation.trace)
    then observed else
    match GramBalanceSpent(world.emulation.finalStates, w.address, BalanceOf(w) + OverfundOf(plan, w))
    case None => observed
    case Some(spent) => observed + [spent]
  }

  /** The plan's own minimum, then every spend seen on these inputs. */
  function Observations(plan: Plan, w: Wallet, worlds: seq<World>, inputs: seq<Input>): seq<int>
    requires |inputs| <= |plan| == |worlds|
  {
    if inputs == [] then [MinGram(plan)] else
    var last := |inputs| - 1;
    Seen(Observations(plan, w, worlds, inputs[..last]), plan, w, worlds[last], inputs[last], last)
  }

  /** Batch i was emulated on the over-funded wallet and is no sweep, and the source is there afterwards. */
  ghost predicate Measured(i: nat, plan: Plan, w: Wallet, worlds: seq<World>, inputs: seq<Input>)
    requires i < |inputs| <= |plan| == |worlds|
  {
    && inputs[i].overfund != 0 && !IsSweep(plan[i]) && !worlds[i].encodingFails && worlds[i].emulation.Ran?
    && !TraceFails(worlds[i].emulation.trace) && w.address in worlds[i].emulation.finalStates
    && worlds[i].emulation.finalStates[w.address].Active?
  }

  /** What the source had lost after batch i of what it was emulated with. */
  ghost function LostAfter(i: nat, plan: Plan, w: Wallet, worlds: seq<World>, inputs: seq<Input>): int
    requires i < |inputs| <= |plan| == |worlds| && Measured(i, plan, w, worlds, inputs)
  {
    BalanceOf(w) + OverfundOf(plan, w) - worlds[i].emulation.finalStates[w.address].grams
  }

  ghost predicate IsLoss(spent: int, i: nat, plan: Plan, w: Wallet, worlds: seq<World>, inputs: seq<Input>)
    requires |inputs| <= |plan| == |worlds|
  {
    i < |inputs| && Measured(i, plan, w, worlds, inputs) && spent == LostAfter(i, plan, w, worlds, inputs)
  }

  ghost predicate IsSomeLoss(spent: int, plan: Plan, w: Wallet, worlds: seq<World>, inputs: seq<Input>)
    requires |inputs| <= |plan| == |worlds|
  {
    exists i: nat :: IsLoss(spent, i, plan, w, worlds, inputs)
  }

  /** What is observed is the plan's minimum and then what the source has lost after each batch that is measured. */
  lemma {:induction false} ObservedAreLosses(plan: Plan, w: Wallet, worlds: seq<World>, inputs: seq<Input>)
    requires |inputs| <= |plan| == |worlds|
    ensures var observed := Observations(plan, w, worlds, inputs);
            && observed != [] && observed[0] == MinGram(plan)
            && forall k | 0 < k < |observed| :: IsSomeLoss(observed[k], plan, w, worlds, inputs)
  {
    if inputs != [] {
      var last := |inputs| - 1;
      var before := inputs[..last];
      ObservedAreLosses(plan, w, worlds, before);
      var was, now := Observations(plan, w, worlds, before), Observations(plan, w, worlds, inputs);
      assert now == Seen(was, plan, w, worlds[last], inputs[last], last);
      forall k | 0 < k < |now| ensures IsSomeLoss(now[k], plan, w, worlds, inputs) {
        if k < |was| {
          var i: nat :| IsLoss(was[k], i, plan, w, worlds, before);
          assert IsLoss(now[k], i, plan, w, worlds, inputs);
        } else {
          assert IsLoss(now[k], last, plan, w, worlds, inputs);
        }
      }
    }
  }

  /** No batch that is measured is overlooked. */
  lemma {:induction false} LossesAreObserved(plan: Plan, w: Wallet, worlds: seq<World>, inputs: seq<Input>, i: nat)
    requires |inputs| <= |plan| == |worlds| && i < |inputs| && Measured(i, plan, w, worlds, inputs)
    ensures LostAfter(i, plan, w, worlds, inputs) in Observations(plan, w, worlds, inputs)
  {
    var last := |inputs| - 1;
    var was, now := Observations(plan, w, worlds, inputs[..last]), Observations(plan, w, worlds, inputs);
    assert now == Seen(was, plan, w, worlds[last], inputs[last], last);
    if i < last {
      LossesAreObserved(plan, w, worlds, inputs[..last], i);
      assert forall x | x in was :: x in now;
    }
  }

  /** One round of the loop: what the emulator was given, and either the trace to show and the next state, or why it
      failed. */
  method RunBatch(plan: Plan, i: nat, w: Wallet, world: World, s: Progress, startBalance: int, ghost observed: seq<int>)
    returns (r: Result<(EmuTrace, Progress), Reply>, ghost input: Input, ghost observed': seq<int>)
    requires i < |plan| && Funded(s, plan, w, i, observed) && startBalance == BalanceOf(w) + OverfundOf(plan, w)
    ensures input == InputOf(s, plan, w, i) && SweepIsReal(input, s, plan, w, i, observed)
    ensures observed' == Seen(observed, plan, w, world, input, i)
    ensures r.Err? <==> FailureOf(plan, w, world, input, i).Some?
    ensures r.Err? ==> r.error == Fail(Worst(observed', BalanceOf(w)), FailureOf(plan, w, world, input, i).value)
    ensures r.Ok? ==>
      && Funded(r.value.1, plan, w, i + 1, observed') && r.value.1.state == world.emulation.finalStates
      && r.value.0 == ShownTrace(world.emulation.trace.value, w.address, input.overfund)
      && HidesOverfund(r.value.0, world.emulation.trace.value, w.address, input.overfund)
      && IsEndTime(r.value.1.time, world.emulation.finalStates, input.time)
      && r.value.1.overfund == input.overfund
      && (s.shortfall.Some? ==> r.value.1.shortfall.Some?)
      && (r.value.1.shortfall.Some? ==> input.overfund == OverfundOf(plan, w))
  {
    var sweep, now := TakeBack(plan, i, w, s, observed);
    input, observed' := Input(now.state, now.time, now.overfund), observed;
    if world.encodingFails {
      return Err(Fail(now.shortfall, Internal)), input, observed';
    }
    if world.emulation.EmulatorFailed? {
      return Err(Fail(now.shortfall, EmulationConflict)), input, observed';
    }
    if world.emulation.SetupFailed? {
      return Err(Fail(now.shortfall, EmulationError)), input, observed';
    }
    var time := EndTime(world.emulation.finalStates, now.time);
    now := now.(state := world.emulation.finalStates, time := time);
    if TraceFails(world.emulation.trace) {
      return Err(Fail(now.shortfall, EmulationConflict)), input, observed';
    }
    var trace := world.emulation.trace.value;
    if now.overfund != 0 {
      // the sweep spends the whole balance, over-funding included, so its delta measures nothing
      if !sweep {
        var spent := GramBalanceSpent(now.state, w.address, startBalance);
        if spent.None? {
          return Err(Fail(now.shortfall, Internal)), input, observed';
        }
        observed' := observed + [spent.value];
        assert observed'[..|observed|] == observed;
        now := now.(shortfall := WorseShortfall(now.shortfall, spent.value, BalanceOf(w)));
      }
      trace := DropOverfund(trace, w.address, now.overfund);
    }
    assert now.shortfall == Worst(observed', BalanceOf(w));
    if world.previewFails {
      return Err(Fail(now.shortfall, Internal)), input, observed';
    }
    ShownHides(world.emulation.trace.value, w.address, input.overfund);
    r := Ok((trace, now));
  }

  /** While no shortfall is known the over-funding is in place up to the first sweep; with a shortfall it stays to the
      end. */
  ghost predicate Overfunds(inputs: seq<Input>, plan: Plan, w: Wallet, short: bool)
    requires |inputs| <= |plan|
  {
    forall i | 0 <= i < |inputs| ::
      inputs[i].overfund == if !short && SweptBefore(plan, i + 1) then 0 else OverfundOf(plan, w)
  }

  /** The first sweep of an over-funded wallet gets the real balance less what the batches before it spent. */
  ghost predicate SweepsReal(inputs: seq<Input>, plan: Plan, w: Wallet, observed: seq<int>)
    requires |inputs| <= |plan|
  {
    OverfundOf(plan, w) != 0 ==> forall i | 0 <= i < |inputs| && IsSweep(plan[i]) && !SweptBefore(plan, i) ::
      && i < |observed| && w.address in inputs[i].state && inputs[i].state[w.address].Active?
      && inputs[i].state[w.address].grams == BalanceOf(w) - if i == 0 then 0 else observed[i]
  }

  lemma OneMoreInput(inputs: seq<Input>, input: Input, plan: Plan, w: Wallet, s: Progress, observed: seq<int>,
                     observed': seq<int>, short: bool)
    requires |inputs| < |plan| && Funded(s, plan, w, |inputs|, observed)
    requires input == InputOf(s, plan, w, |inputs|) && SweepIsReal(input, s, plan, w, |inputs|, observed)
    requires |observed| <= |observed'| && observed'[..|observed|] == observed && s.shortfall.Some? == short
    requires Overfunds(inputs, plan, w, short) && (!short ==> SweepsReal(inputs, plan, w, observed))
    ensures Overfunds(inputs + [input], plan, w, short) && (!short ==> SweepsReal(inputs + [input], plan, w, observed'))
  {
    var i, more := |inputs|, inputs + [input];
    forall k | 0 <= k < |observed| ensures observed'[k] == observed[k] {
      assert observed'[..|observed|][k] == observed[k];
    }
    forall k | 0 <= k < |more|
      ensures more[k].overfund == if !short && SweptBefore(plan, k + 1) then 0 else OverfundOf(plan, w)
    {
      if k < i { assert more[k] == inputs[k]; }
    }
  }

  /** When a shortfall appears, the over-funding has been in place all along. */
  lemma NowShort(inputs: seq<Input>, plan: Plan, w: Wallet)
    requires |inputs| <= |plan| && Overfunds(inputs, plan, w, false)
    requires inputs != [] && inputs[|inputs| - 1].overfund == OverfundOf(plan, w) != 0
    ensures Overfunds(inputs, plan, w, true)
  {
    assert !SweptBefore(plan, |inputs|);
    forall i | 0 <= i < |inputs| ensures inputs[i].overfund == OverfundOf(plan, w) {
      SweptStays(plan, i + 1, |inputs|);
    }
  }

  lemma {:induction false} SweptStays(plan: Plan, i: nat, j: nat)
    requires i <= j <= |plan|
    ensures SweptBefore(plan, i) ==> SweptBefore(plan, j)
    decreases j
  {
    if i < j { SweptStays(plan, i, j - 1); }
  }

  /** The state, the over-funding and the shortfall after these inputs; the clock is `time`. */
  function After(plan: Plan, w: Wallet, worlds: seq<World>, inputs: seq<Input>, time: int): Progress
    requires |inputs| <= |plan| == |worlds|
  {
    var short := Worst(Observations(plan, w, worlds, inputs), BalanceOf(w));
    if inputs == [] then
      var account := if OverfundOf(plan, w) == 0 then w.account
                     else w.account.(grams := BalanceOf(w) + OverfundOf(plan, w));
      Progress(map[w.address := account], time, OverfundOf(plan, w), short)
    else
      var last := |inputs| - 1;
      Progress(if worlds[last].emulation.Ran? then worlds[last].emulation.finalStates else map[],
               time, inputs[last].overfund, short)
  }

  /** The emulator was given exactly what the batches before left behind. */
  ghost predicate Fed(plan: Plan, w: Wallet, worlds: seq<World>, inputs: seq<Input>)
    requires |inputs| <= |plan| == |worlds|
  {
    inputs == [] || (
      var last := |inputs| - 1;
      && Fed(plan, w, worlds, inputs[..last])
      && inputs[last] == InputOf(After(plan, w, worlds, inputs[..last], inputs[last].time), plan, w, last))
  }

  /** The first batch is emulated on the wallet as it is, with the plan's minimum and five Gram on top if the plan needs
      any Gram and the wallet exists. */
  lemma {:induction false} FirstIsFunded(plan: Plan, w: Wallet, worlds: seq<World>, inputs: seq<Input>)
    requires 0 < |inputs| <= |plan| == |worlds| && Fed(plan, w, worlds, inputs)
    requires !IsSweep(plan[0])
    ensures var extra := if MinGram(plan) != 0 && w.account.Active? then MinGram(plan) + 5_000_000_000 else 0;
            && inputs[0].overfund == extra && inputs[0].state.Keys == {w.address}
            && inputs[0].state[w.address]
               == if w.account.Active? then w.account.(grams := w.account.grams + extra) else w.account
  {
    if |inputs| > 1 {
      FirstIsFunded(plan, w, worlds, inputs[..|inputs| - 1]);
    } else {
      assert inputs[..0] == [];
    }
  }

  /** None of the first n batches failed. */
  ghost predicate NoneFails(plan: Plan, w: Wallet, worlds: seq<World>, inputs: seq<Input>, n: nat)
    requires n <= |inputs| <= |plan| == |worlds|
  {
    forall i | 0 <= i < n :: FailureOf(plan, w, worlds[i], inputs[i], i).None?
  }

  /** Batches 0..i-1 have been emulated. */
  ghost predicate HasRun(txs: seq<Transaction>, inputs: seq<Input>, observed: seq<int>, s: Progress,
                         plan: Plan, w: Wallet, worlds: seq<World>, now: int)
  {
    && |inputs| <= |plan| == |worlds| && observed == Observations(plan, w, worlds, inputs)
    && Fed(plan, w, worlds, inputs) && s == After(plan, w, worlds, inputs, s.time)
    && Funded(s, plan, w, |inputs|, observed) && Covers(txs, plan, w, worlds, inputs, now)
    && (if inputs == [] then s.time == now
        else Ticks(inputs[|inputs| - 1], worlds[|inputs| - 1], Input(s.state, s.time, s.overfund)))
    && Overfunds(inputs, plan, w, s.shortfall.Some?)
    && (s.shortfall.None? ==> SweepsReal(inputs, plan, w, observed))
  }

  lemma OneMoreBatch(txs: seq<Transaction>, inputs: seq<Input>, observed: seq<int>, s: Progress,
                     plan: Plan, w: Wallet, worlds: seq<World>, now: int,
                     tx: Transaction, input: Input, observed': seq<int>, s': Progress)
    requires HasRun(txs, inputs, observed, s, plan, w, worlds, now) && |inputs| < |plan|
    requires input == InputOf(s, plan, w, |inputs|) && SweepIsReal(input, s, plan, w, |inputs|, observed)
    requires observed' == Seen(observed, plan, w, worlds[|inputs|], input, |inputs|)
    requires Funded(s', plan, w, |inputs| + 1, observed') && Shows(tx, |inputs|, plan, w, worlds[|inputs|], input)
    requires Ticks(input, worlds[|inputs|], Input(s'.state, s'.time, s'.overfund))
    requires s'.state == worlds[|inputs|].emulation.finalStates && s'.overfund == input.overfund
    requires s.shortfall.Some? ==> s'.shortfall.Some?
    requires s'.shortfall.Some? ==> input.overfund == OverfundOf(plan, w)
    ensures HasRun(txs + [tx], inputs + [input], observed', s', plan, w, worlds, now)
  {
    var more := inputs + [input];
    assert more[..|inputs|] == inputs && more[|inputs|] == input;
    MoreObserved(inputs, input, plan, w, worlds, observed);
    assert |observed| <= |observed'| && observed'[..|observed|] == observed by {
      SeenExtends(observed, plan, w, worlds[|inputs|], input, |inputs|);
    }
    OneMoreInput(inputs, input, plan, w, s, observed, observed', s.shortfall.Some?);
    assert more[|more| - 1] == input && |more| == |inputs| + 1;
    MoreCovered(txs, inputs, plan, w, worlds, now, tx, input);
    if s'.shortfall.Some? && s.shortfall.None? { NowShort(inputs + [input], plan, w); }
  }

  lemma CoveredNeverFails(txs: seq<Transaction>, plan: Plan, w: Wallet, worlds: seq<World>, inputs: seq<Input>,
                          now: int)
    requires Covers(txs, plan, w, worlds, inputs, now)
    ensures NoneFails(plan, w, worlds, inputs, |inputs|)
  {
    forall i | 0 <= i < |inputs| ensures FailureOf(plan, w, worlds[i], inputs[i], i).None? {
      assert Shows(txs[i], i, plan, w, worlds[i], inputs[i]);
    }
  }

  lemma FailedLast(plan: Plan, w: Wallet, worlds: seq<World>, inputs: seq<Input>, input: Input, s: Progress)
    requires |inputs| < |plan| == |worlds| && Fed(plan, w, worlds, inputs)
             && NoneFails(plan, w, worlds, inputs, |inputs|)
    requires s == After(plan, w, worlds, inputs, s.time) && input == InputOf(s, plan, w, |inputs|)
    ensures Fed(plan, w, worlds, inputs + [input]) && NoneFails(plan, w, worlds, inputs + [input], |inputs|)
  {
    var more := inputs + [input];
    assert more[..|inputs|] == inputs && more[|inputs|] == input;
  }

  lemma SeenExtends(observed: seq<int>, plan: Plan, w: Wallet, world: World, input: Input, i: nat)
    requires i < |plan|
    ensures var seen := Seen(observed, plan, w, world, input, i); |observed| <= |seen| && seen[..|observed|] == observed
  {
  }

  lemma MoreObserved(inputs: seq<Input>, input: Input, plan: Plan, w: Wallet, worlds: seq<World>, observed: seq<int>)
    requires |inputs| < |plan| == |worlds| && observed == Observations(plan, w, worlds, inputs)
    ensures Observations(plan, w, worlds, inputs + [input])
            == Seen(observed, plan, w, worlds[|inputs|], input, |inputs|)
  {
    assert (inputs + [input])[..|inputs|] == inputs;
  }

  lemma MoreCovered(txs: seq<Transaction>, inputs: seq<Input>, plan: Plan, w: Wallet, worlds: seq<World>, now: int,
                    tx: Transaction, input: Input)
    requires Covers(txs, plan, w, worlds, inputs, now) && |inputs| < |plan|
    requires Shows(tx, |inputs|, plan, w, worlds[|inputs|], input)
    requires if inputs == [] then input.time == now else Ticks(inputs[|inputs| - 1], worlds[|inputs| - 1], input)
    ensures Covers(txs + [tx], plan, w, worlds, inputs + [input], now)
  {
    var more := inputs + [input];
    forall i | 0 < i < |more| ensures Ticks(more[i - 1], worlds[i - 1], more[i]) {
      if i < |inputs| { assert Ticks(inputs[i - 1], worlds[i - 1], inputs[i]); }
    }
    forall i | 0 <= i < |more| ensures Shows((txs + [tx])[i], i, plan, w, worlds[i], more[i]) {
      if i < |inputs| { assert Shows(txs[i], i, plan, w, worlds[i], inputs[i]); }
    }
  }

  /** The first state: a wallet that exists is over-funded by the plan's minimum and a margin. */
  method Start(plan: Plan, w: Wallet, now: int, ghost worlds: seq<World>) returns (overfund: nat, s: Progress)
    requires |worlds| == |plan|
    ensures overfund == OverfundOf(plan, w) && s.shortfall == Worst([MinGram(plan)], BalanceOf(w))
    ensures s.shortfall.None? || overfund != 0 ==> HasRun([], [], [MinGram(plan)], s, plan, w, worlds, now)
  {
    var minGramBalance := MinGramBalanceRequired(plan);
    var account := w.account;
    overfund := 0;
    if minGramBalance != 0 && w.account.Active? {
      overfund := minGramBalance + OVERFUND_MARGIN;
      account := account.(grams := BalanceOf(w) + overfund);
    }
    s := Progress(map[w.address := account], now, overfund, WorseShortfall(None, minGramBalance, BalanceOf(w)));
    ghost var first, none := [minGramBalance], [];
    assert first[..0] == none && Worst(none, BalanceOf(w)).None?;
    assert Worst(first, BalanceOf(w)) == s.shortfall;
  }

  /** The plan's minimum is not covered, and there is nothing to emulate it with: nothing was over-funded. */
  predicate IsBarelyShort(plan: Plan, w: Wallet) {
    MinGram(plan) > BalanceOf(w) && OverfundOf(plan, w) == 0
  }

  /** The one reply there is to these inputs: a bare shortfall before anything was emulated, the first failure or the
      shortfall that caused it, or the whole plan, with the shortfall if one was found. */
  ghost predicate Answers(reply: Reply, plan: Plan, w: Wallet, now: int, worlds: seq<World>, inputs: seq<Input>)
    requires |inputs| <= |plan| == |worlds|
  {
    var short := Worst(Observations(plan, w, worlds, inputs), BalanceOf(w));
    var last := |inputs| - 1;
    if IsBarelyShort(plan, w) then inputs == [] && short.Some? && reply == Short(short.value)
    else if inputs != [] && FailureOf(plan, w, worlds[last], inputs[last], last).Some? then
      && NoneFails(plan, w, worlds, inputs, last)
      && reply == if short.Some? then Short(short.value)
                  else FailureOf(plan, w, worlds[last], inputs[last], last).value
    else
      && |inputs| == |plan| && NoneFails(plan, w, worlds, inputs, |inputs|)
      && (if short.Some? then reply.PreparedButShort? && reply.short == short.value else reply.Prepared?)
      && Covers(reply.transactions, plan, w, worlds, inputs, now)
  }

  method PrepareMigration(plan: Plan, w: Wallet, now: int, worlds: seq<World>)
    returns (reply: Reply, ghost observed: seq<int>, ghost inputs: seq<Input>)
    requires |worlds| == |plan|
    ensures |inputs| <= |plan| && observed == Observations(plan, w, worlds, inputs) && Fed(plan, w, worlds, inputs)
    ensures Answers(reply, plan, w, now, worlds, inputs)
    ensures reply.Prepared? ==> Overfunds(inputs, plan, w, false) && SweepsReal(inputs, plan, w, observed)
    ensures reply.PreparedButShort? ==> Overfunds(inputs, plan, w, true)
    ensures reply.Prepared? || reply.PreparedButShort? ==> AllHideOverfund(reply.transactions, w, worlds, inputs)
  {
    observed, inputs := [MinGram(plan)], [];
    var overfund, s := Start(plan, w, now, worlds);
    WorstIsTheLargest([MinGram(plan)], BalanceOf(w));
    assert s.shortfall.Some? && overfund == 0 <==> IsBarelyShort(plan, w);
    if s.shortfall.Some? && overfund == 0 {
      return Short(s.shortfall.value), observed, inputs;
    }
    var r;
    r, observed, inputs := RunBatches(plan, w, now, worlds, s, overfund);
    if r.Err? {
      return r.error, observed, inputs;
    }
    CoveredNeverFails(r.value.0, plan, w, worlds, inputs, now);
    ShownBalancesAreReal(r.value.0, plan, w, worlds, inputs, now);
    if r.value.1.Some? {
      return PreparedButShort(r.value.0, r.value.1.value), observed, inputs;
    }
    return Prepared(r.value.0), observed, inputs;
  }

  /** Every batch in turn: all transactions with the shortfall found, or the reply to the first failure. */
  method RunBatches(plan: Plan, w: Wallet, now: int, worlds: seq<World>, start: Progress, overfund: nat)
    returns (r: Result<(seq<Transaction>, Option<Shortfall>), Reply>, ghost observed: seq<int>,
             ghost inputs: seq<Input>)
    requires |worlds| == |plan| && overfund == OverfundOf(plan, w)
    requires HasRun([], [], [MinGram(plan)], start, plan, w, worlds, now)
    ensures |inputs| <= |plan| && observed == Observations(plan, w, worlds, inputs) && Fed(plan, w, worlds, inputs)
    ensures r.Ok? ==> exists s ::
              && |inputs| == |plan| && HasRun(r.value.0, inputs, observed, s, plan, w, worlds, now)
              && s.shortfall == r.value.1
    ensures r.Err? ==>
      && inputs != [] && NoneFails(plan, w, worlds, inputs, |inputs| - 1)
      && FailureOf(plan, w, worlds[|inputs| - 1], inputs[|inputs| - 1], |inputs| - 1).Some?
      && r.error == Fail(Worst(observed, BalanceOf(w)),
                         FailureOf(plan, w, worlds[|inputs| - 1], inputs[|inputs| - 1], |inputs| - 1).value)
  {
    observed, inputs := [MinGram(plan)], [];
    var s := start;
    var transactions: seq<Transaction> := [];
    var seqno := w.seqno;
    for i := 0 to |plan|
      invariant seqno == w.seqno + i && |inputs| == i
      invariant HasRun(transactions, inputs, observed, s, plan, w, worlds, now)
    {
      var ran;
      ghost var input, seen;
      ran, input, seen := RunBatch(plan, i, w, worlds[i], s, BalanceOf(w) + overfund, observed);
      if ran.Err? {
        MoreObserved(inputs, input, plan, w, worlds, observed);
        CoveredNeverFails(transactions, plan, w, worlds, inputs, now);
        FailedLast(plan, w, worlds, inputs, input, s);
        return Err(ran.error), seen, inputs + [input];
      }
      var tx := Transaction(seqno, plan[i], s.time + MESSAGE_LIFETIME, seqno == 0 && w.deployInit, ran.value.0);
      OneMoreBatch(transactions, inputs, observed, s, plan, w, worlds, now, tx, input, seen, ran.value.1);
      inputs, observed := inputs + [input], seen;
      transactions, s, seqno := transactions + [tx], ran.value.1, seqno + 1;
    }
    r := Ok((transactions, s.shortfall));
  }
}
