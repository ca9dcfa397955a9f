/**
 One order seen from both sides: the vault, and the engine that may tell the bank to pay. The engine's
 calls reach the vault only as envelopes of its action log, applied by the network when it pleases.
 */
module Bridge {
  import opened Wrappers
  import Policy
  import V = Vault
  import S = VaultSafety
  import T = VaultTheorems
  import E = Engine
  import P = EngineProgress

  /** The order, its contract, the history of the nodes, and what each envelope calls. */
  datatype Setup = Setup(config: V.Config, id: V.Hash, window: nat, callOf: E.Tx -> V.Call)

  /**
   The vault with all its past states, the action log, and the engine's row: its last copy of the order,
   where that was read, whether nothing was logged since, the bank request and the stored bank event.
   */
  datatype Desk = Desk(
    vault: V.State,
    past: seq<V.State>,
    log: E.State,
    chain: Option<V.Order>,
    readAt: nat,
    synced: bool,
    requested: bool,
    event: Option<V.Receipt>)

  datatype Action =
    | World(event: V.Event)
    | CloseLedger(time: nat, applied: Option<E.Tx>, host: V.Host)
    | Log(step: E.Event)
    | Sync(k: nat)
    | RequestBank
    | StoreEvent(eventId: V.Hash, ledgerTime: nat, depositReady: bool)

  // ------------------------------------------------------------------------ action keys

  const RECORD: nat := 3
  const SETTLE: nat := 4
  const REFUND: nat := 5
  const CANCEL: nat := 6

  function KeyOf(call: V.Call): nat {
    match call
    case Create(_, _) => 0
    case Fund(_, _) => 1
    case Authorize(_) => 2
    case Record(_, _) => RECORD
    case Settle(_) => SETTLE
    case Refund(_) => REFUND
    case Cancel(_) => CANCEL
    case Submit(_, _, _) => 7
  }

  /** An envelope calls what its row's key says, on the row's order; proofs have keys of their own. */
  predicate Matches(u: Setup, tx: E.Tx, intent: nat, key: nat) {
    && tx.expiresAt < Policy.U64_MAX
    && if u.callOf(tx).Submit? then key >= 7 else u.callOf(tx).id == intent && KeyOf(u.callOf(tx)) == key
  }

  /** A receipt is recorded only as the stored bank event says. */
  predicate Fits(u: Setup, d: Desk, tx: E.Tx, intent: nat, key: nat) {
    && Matches(u, tx, intent, key)
    && (u.callOf(tx).Record? && u.callOf(tx).id == u.id ==> d.event == Some(u.callOf(tx).receipt))
  }

  // ----------------------------------------------------------------------------- guards

  /** The notary signs calls on this order only in the engine's envelopes. */
  predicate NotaryCall(u: Setup, e: V.Event) {
    && e.Invoke? && e.host.notary
    && (e.call.Fund? || e.call.Authorize? || e.call.Record? || e.call.Refund? || e.call.Cancel?)
    && e.call.id == u.id
  }

  /** `refund`: escrowed and open by a fresh copy, without payout, receipt, stored event or unresolved action. */
  predicate MayUndo(u: Setup, d: Desk) {
    && d.event.None? && d.synced && d.chain.Some?
    && var chain := d.chain.value;
    && chain.escrowed && !V.Terminal(chain) && chain.payout.None? && chain.receipt.None?
    && forall i :: 0 <= i < |d.log.rows| && d.log.rows[i].intent == u.id ==> !E.InFlight(d.log.rows[i].status)
  }

  /** `refund` withdraws the bank request before it acts. */
  predicate BeginsUndo(u: Setup, e: E.Event) {
    e.Begin? && e.job.Perform? && e.job.intent == u.id && (e.job.key == CANCEL || e.job.key == REFUND)
  }

  predicate MayLog(u: Setup, d: Desk, e: E.Event) {
    match e
    case CloseLedger(_, _) => false
    case Begin(job, _) =>
      job.Perform? && job.intent == u.id && (job.key == CANCEL || job.key == REFUND) ==> MayUndo(u, d)
    case Insert(prepared) =>
      d.log.pc.Scan? && d.log.pc.job.Perform? && prepared.Some? ==>
        Fits(u, d, prepared.value.tx, d.log.pc.job.intent, d.log.pc.job.key)
    case _ => true
  }

  /** `checkChain`: a copy is never older than the last one, nor than any action known to have succeeded. */
  predicate MaySync(u: Setup, d: Desk, k: nat) {
    && d.log.pc.Idle? && d.readAt <= k < |d.past| && u.id in d.past[k].orders
    && forall i :: 0 <= i < |d.log.rows| && d.log.rows[i].intent == u.id && d.log.rows[i].status.Success?
                   && d.log.rows[i].tx in d.log.ledger.included ==>
                     d.past[k].now >= d.log.ledger.included[d.log.rows[i].tx].at
  }

  /**
   `advance` stores the event for an order that is open by a fresh copy, after a bank request, for a
   withdrawal only once authorized. Nothing here looks at the action log.
   */
  predicate MayStore(d: Desk, eventId: V.Hash, ledgerTime: nat, depositReady: bool) {
    && d.log.pc.Idle? && d.synced && d.requested && d.chain.Some? && d.event.None? && eventId != 0
    && var chain := d.chain.value;
    && !V.Terminal(chain) && ledgerTime <= d.vault.now
    && (if chain.terms.direction.Withdrawal? then chain.payout.Some? && chain.payout.value <= ledgerTime
        else depositReady && chain.terms.subject in d.vault.grants && chain.createdAt <= ledgerTime)
  }

  // ------------------------------------------------------------------------------ steps

  predicate Eligible(l: E.Ledger, tx: E.Tx, time: nat) {
    tx in l.submitted && tx !in l.included && tx.minTime <= time <= tx.expiresAt
  }

  function Moved(d: Desk, vault: V.State): Desk {
    d.(vault := vault, past := d.past + [vault])
  }

  /** The engine's envelopes carry both operators' signatures. */
  function Apply(u: Setup, s: V.State, host: V.Host, tx: E.Tx): V.Outcome {
    V.Apply(u.config, host.(provider := true, notary := true), s, u.callOf(tx))
  }

  function Close(u: Setup, d: Desk, time: nat, applied: Option<E.Tx>, host: V.Host): Desk {
    if time <= d.log.ledger.closeTime || time >= Policy.U64_MAX then d
    else
      var aged := d.vault.(now := time);
      if applied.Some? && Eligible(d.log.ledger, applied.value, time) then
        var outcome := Apply(u, aged, host, applied.value);
        Moved(d.(log := E.Step(u.window, d.log, E.CloseLedger(time, map[applied.value := !outcome.reply.Failed?]))),
              outcome.state)
      else Moved(d.(log := E.Step(u.window, d.log, E.CloseLedger(time, map[]))), aged)
  }

  function Step(u: Setup, d: Desk, a: Action): Desk {
    match a
    case World(e) => if e.Wait? || NotaryCall(u, e) then d else Moved(d, V.Step(u.config, d.vault, e))
    case CloseLedger(time, applied, host) => Close(u, d, time, applied, host)
    case Log(e) =>
      if MayLog(u, d, e) then
        d.(log := E.Step(u.window, d.log, e), synced := false, requested := d.requested && !BeginsUndo(u, e))
      else d
    case Sync(k) =>
      if MaySync(u, d, k) then d.(chain := Some(d.past[k].orders[u.id]), readAt := k, synced := true) else d
    case RequestBank =>
      if d.event.None? && d.chain.Some? && d.chain.value.escrowed && !V.Terminal(d.chain.value) then d.(requested := true) else d
    case StoreEvent(eventId, ledgerTime, depositReady) =>
      if MayStore(d, eventId, ledgerTime, depositReady) then d.(event := Some(EventOf(d, eventId, ledgerTime))) else d
  }

  function EventOf(d: Desk, eventId: V.Hash, ledgerTime: nat): V.Receipt
    requires d.chain.Some?
  {
    var t := d.chain.value.terms;
    V.Receipt(eventId, t.quoteHash, t.tryMinor, ledgerTime, t.bankDestinationHash)
  }

  function Run(u: Setup, d: Desk, actions: seq<Action>): Desk
    decreases |actions|
  {
    if actions == [] then d else Run(u, Step(u, d, actions[0]), actions[1..])
  }

  predicate Initial(d: Desk) {
    && V.Initial(d.vault) && E.Initial(d.log) && d.log.ledger.closeTime == d.vault.now
    && d.past == [d.vault] && d.chain.None? && d.readAt == 0 && !d.synced && !d.requested && d.event.None?
  }

  /** An undo starts exactly for an order that a fresh copy shows open, untouched by the bank and undecided nowhere. */
  lemma UndoBeginsExactly(u: Setup, d: Desk, key: nat)
    requires d.log.pc.Idle? && (key == CANCEL || key == REFUND)
    ensures Step(u, d, Log(E.Begin(E.Job.Perform(u.id, key), []))).log.pc.Scan?
            <==> && d.event.None? && d.synced && d.chain.Some?
                 && d.chain.value.escrowed && d.chain.value.payout.None? && d.chain.value.receipt.None?
                 && d.chain.value.settledAt.None? && d.chain.value.refundedAt.None? && d.chain.value.cancelledAt.None?
                 && forall i :: 0 <= i < |d.log.rows| && d.log.rows[i].intent == u.id ==>
                      d.log.rows[i].status.Success? || d.log.rows[i].status.Failed?
  {
    if Step(u, d, Log(E.Begin(E.Job.Perform(u.id, key), []))).log.pc.Scan? {
      assert MayUndo(u, d);
    }
  }

  /** An event is stored exactly once, when nothing runs, for an order that a fresh copy shows ready for the bank. */
  lemma StoresExactly(u: Setup, d: Desk, eventId: V.Hash, ledgerTime: nat, depositReady: bool)
    requires d.event.None?
    ensures Step(u, d, StoreEvent(eventId, ledgerTime, depositReady)).event.Some?
            <==> && d.log.pc.Idle? && d.synced && d.requested && eventId != 0 && d.chain.Some? && ledgerTime <= d.vault.now
                 && d.chain.value.settledAt.None? && d.chain.value.refundedAt.None? && d.chain.value.cancelledAt.None?
                 && (d.chain.value.terms.direction.Withdrawal? ==>
                       d.chain.value.payout.Some? && d.chain.value.payout.value <= ledgerTime)
                 && (d.chain.value.terms.direction.Deposit? ==>
                       depositReady && d.chain.value.terms.subject in d.vault.grants && d.chain.value.createdAt <= ledgerTime)
  {
  }

  // ---------------------------------------------------------------------- the invariant

  /** One clock, and every past state is an earlier form of the present one. */
  ghost predicate PastOk(d: Desk) {
    && d.vault.now == d.log.ledger.closeTime
    && d.readAt < |d.past| && d.past[|d.past| - 1] == d.vault
    && forall k :: 0 <= k < |d.past| ==> T.Extends(d.past[k], d.vault)
  }

  /**
   The copy is an earlier form of the real order, and a stored event meets the vault's own receipt
   guards: a deposit's subject has a grant on record.
   */
  predicate Linked(u: Setup, d: Desk) {
    && (d.chain.Some? ==> u.id in d.vault.orders && T.OrderExtends(d.chain.value, d.vault.orders[u.id]))
    && (d.event.Some? ==>
          && u.id in d.vault.orders
          && S.GoodReceipt(d.vault.orders[u.id], d.event.value) && d.event.value.receivedAt <= d.vault.now
          && (d.vault.orders[u.id].terms.direction.Deposit? ==> d.vault.orders[u.id].terms.subject in d.vault.grants))
  }

  ghost predicate Core(u: Setup, d: Desk) {
    S.Inv(u.config, d.vault) && E.Inv(d.log) && PastOk(d) && Linked(u, d)
  }

  lemma ExtendsAt(s: V.State, t: V.State, id: V.Hash)
    requires T.Extends(s, t) && id in s.orders
    ensures id in t.orders && T.OrderExtends(s.orders[id], t.orders[id]) && s.now <= t.now
  {
    hide T.OrderExtends;
  }

  lemma GrantStays(s: V.State, t: V.State, subject: V.Hash)
    requires T.Extends(s, t) && subject in s.grants
    ensures subject in t.grants
  {
    hide T.OrderExtends;
  }

  lemma PastMoves(u: Setup, d: Desk, log: E.State, vault: V.State)
    requires PastOk(d) && Linked(u, d) && T.Extends(d.vault, vault) && vault.now == log.ledger.closeTime
    ensures PastOk(Moved(d.(log := log), vault)) && Linked(u, Moved(d.(log := log), vault))
  {
    hide T.Extends;
    var t := Moved(d.(log := log), vault);
    T.ExtendsReflexive(vault);
    forall k | 0 <= k < |t.past| ensures T.Extends(t.past[k], vault) {
      if k < |d.past| { T.ExtendsTransitive(d.past[k], d.vault, vault); }
    }
    if u.id in d.vault.orders {
      ExtendsAt(d.vault, vault, u.id);
      if d.vault.orders[u.id].terms.subject in d.vault.grants {
        GrantStays(d.vault, vault, d.vault.orders[u.id].terms.subject);
      }
    }
  }

  /** What a closed ledger does to the vault: time passes, and perhaps one envelope is applied. */
  lemma CloseMovesVault(u: Setup, d: Desk, time: nat, applied: Option<E.Tx>, host: V.Host)
    requires V.Deployed(u.config) && S.Inv(u.config, d.vault) && d.vault.now == d.log.ledger.closeTime
    requires time > d.log.ledger.closeTime && time < Policy.U64_MAX
    ensures var t := Close(u, d, time, applied, host);
            S.Inv(u.config, t.vault) && T.Extends(d.vault, t.vault) && t.vault.now == time
  {
    hide V.Deployed, S.Inv, V.Apply, T.Extends, E.Step;
    var c, aged := u.config, d.vault.(now := time);
    assert V.Step(c, d.vault, V.Wait(time)) == aged;
    S.StepKeepsInv(c, d.vault, V.Wait(time));
    T.StepExtends(c, d.vault, V.Wait(time));
    if applied.Some? && Eligible(d.log.ledger, applied.value, time) {
      var e := V.Invoke(host.(provider := true, notary := true), u.callOf(applied.value));
      assert V.Step(c, aged, e) == Apply(u, aged, host, applied.value).state;
      S.StepKeepsInv(c, aged, e);
      T.StepExtends(c, aged, e);
      T.ExtendsTransitive(d.vault, aged, V.Step(c, aged, e));
      SameTime(c, aged, e);
    }
  }

  lemma SameTime(c: V.Config, s: V.State, e: V.Event)
    requires V.Deployed(c) && S.Inv(c, s) && !e.Wait?
    ensures V.Step(c, s, e).now == s.now
  {
    hide V.Deployed, S.OrderOk, S.ReceiptIndexOk, S.FundingIndexOk, S.MovesOk, S.ReserveOk, S.GrantsOk, S.Evolves,
         V.CreateCall, V.FundCall, V.AuthorizeCall, V.RecordCall, V.SettleCall, V.RefundCall, V.CancelCall, V.SubmitCall;
    if e.Invoke? {
      if e.call.Submit? {
        S.SubmitEffect(c, e.host, s, e.call.subject, e.call.lengthsOk, e.call.inputs);
      } else {
        S.StoredPaysOutside(c, s, e.call.id);
        S.CallEffect(c, e.host, s, e.call);
      }
    }
  }

  lemma CloseSetsTime(window: nat, s: E.State, time: nat, results: map<E.Tx, bool>)
    requires time > s.ledger.closeTime
    ensures E.Step(window, s, E.CloseLedger(time, results)).ledger.closeTime == time
  {
  }

  lemma CloseKeepsCore(u: Setup, d: Desk, time: nat, applied: Option<E.Tx>, host: V.Host)
    requires V.Deployed(u.config) && Core(u, d)
    ensures Core(u, Close(u, d, time, applied, host))
  {
    hide V.Deployed, S.Inv, E.Inv, E.Step, T.Extends, Linked, Apply;
    if time > d.log.ledger.closeTime && time < Policy.U64_MAX {
      CloseMovesVault(u, d, time, applied, host);
      var t := Close(u, d, time, applied, host);
      var ok := map[];
      if applied.Some? && Eligible(d.log.ledger, applied.value, time) {
        ok := map[applied.value := !Apply(u, d.vault.(now := time), host, applied.value).reply.Failed?];
      }
      CloseSetsTime(u.window, d.log, time, ok);
      E.StepKeeps(u.window, d.log, E.CloseLedger(time, ok));
      PastMoves(u, d, t.log, t.vault);
    }
  }

  lemma LogTime(window: nat, s: E.State, e: E.Event)
    requires !e.CloseLedger?
    ensures E.Step(window, s, e).ledger.closeTime == s.ledger.closeTime
    ensures E.Step(window, s, e).ledger.included == s.ledger.included
  {
    hide E.Honest, E.Verdict, E.Previous;
  }

  lemma WorldKeepsCore(u: Setup, d: Desk, e: V.Event)
    requires V.Deployed(u.config) && Core(u, d)
    ensures Core(u, Step(u, d, World(e)))
  {
    hide V.Deployed, S.Inv, E.Inv, T.Extends, Linked, V.Step;
    if !e.Wait? && !NotaryCall(u, e) {
      S.StepKeepsInv(u.config, d.vault, e);
      T.StepExtends(u.config, d.vault, e);
      SameTime(u.config, d.vault, e);
      PastMoves(u, d, d.log, V.Step(u.config, d.vault, e));
    }
  }

  lemma StepKeepsCore(u: Setup, d: Desk, a: Action)
    requires V.Deployed(u.config) && Core(u, d)
    ensures Core(u, Step(u, d, a))
  {
    hide V.Deployed, S.Inv, E.Inv, T.Extends, Close, V.Step, E.Step, MayLog;
    match a
    case World(e) => WorldKeepsCore(u, d, e);
    case CloseLedger(time, applied, host) => CloseKeepsCore(u, d, time, applied, host);
    case Log(e) =>
      if MayLog(u, d, e) {
        NoCloseLogged(u, d, e);
        LogTime(u.window, d.log, e);
        E.StepKeeps(u.window, d.log, e);
      }
    case Sync(k) =>
      if MaySync(u, d, k) { ExtendsAt(d.past[k], d.vault, u.id); }
    case RequestBank =>
    case StoreEvent(_, _, _) =>
  }

  lemma NoCloseLogged(u: Setup, d: Desk, e: E.Event)
    requires MayLog(u, d, e)
    ensures !e.CloseLedger?
  {
  }

  lemma {:induction false} RunKeepsCore(u: Setup, d: Desk, actions: seq<Action>)
    requires V.Deployed(u.config) && Core(u, d)
    ensures Core(u, Run(u, d, actions)) && T.Extends(d.vault, Run(u, d, actions).vault)
    ensures d.event.Some? ==> Run(u, d, actions).event == d.event
    decreases |actions|
  {
    hide Step, Core, V.Deployed, T.Extends;
    if actions == [] {
      T.ExtendsReflexive(d.vault);
    } else {
      var next := Step(u, d, actions[0]);
      StepKeepsCore(u, d, actions[0]);
      StepMoves(u, d, actions[0]);
      RunKeepsCore(u, next, actions[1..]);
      T.ExtendsTransitive(d.vault, next.vault, Run(u, d, actions).vault);
    }
  }

  lemma StepMoves(u: Setup, d: Desk, a: Action)
    requires V.Deployed(u.config) && Core(u, d)
    ensures T.Extends(d.vault, Step(u, d, a).vault)
    ensures d.event.Some? ==> Step(u, d, a).event == d.event
  {
    hide V.Deployed, S.Inv, E.Inv, T.Extends, V.Step, E.Step, MayLog, Linked, Apply;
    T.ExtendsReflexive(d.vault);
    match a
    case World(e) => T.StepExtends(u.config, d.vault, e);
    case CloseLedger(time, applied, host) =>
      if time > d.log.ledger.closeTime && time < Policy.U64_MAX { CloseMovesVault(u, d, time, applied, host); }
    case Log(_) =>
    case Sync(_) =>
    case RequestBank =>
    case StoreEvent(_, _, _) =>
  }

  ghost predicate Reachable(u: Setup, d: Desk) {
    exists d0, actions :: Initial(d0) && d == Run(u, d0, actions)
  }

  lemma InitialCore(u: Setup, d: Desk)
    requires Initial(d)
    ensures Core(u, d)
  {
    hide S.Inv, T.Extends;
    S.InitialInv(u.config, d.vault);
    T.ExtendsReflexive(d.vault);
  }

  lemma ReachableCore(u: Setup, d: Desk)
    requires V.Deployed(u.config) && Reachable(u, d)
    ensures Core(u, d)
  {
    hide Core, V.Deployed, Run, Initial;
    var d0, actions :| Initial(d0) && d == Run(u, d0, actions);
    InitialCore(u, d0);
    RunKeepsCore(u, d0, actions);
  }

  // ------------------------------------------------------------------------ pieces of runs

  lemma RunCons(u: Setup, d: Desk, a: Action, rest: seq<Action>)
    ensures Run(u, d, [a] + rest) == Run(u, Step(u, d, a), rest)
  {
    hide Step;
    assert ([a] + rest)[0] == a && ([a] + rest)[1..] == rest;
  }

  lemma RunNone(u: Setup, d: Desk)
    ensures Run(u, d, []) == d
  {
  }

  lemma {:induction false} RunAppend(u: Setup, d: Desk, a: seq<Action>, b: seq<Action>)
    ensures Run(u, d, a + b) == Run(u, Run(u, d, a), b)
    decreases |a|
  {
    hide Step;
    if a == [] {
      assert a + b == b;
    } else {
      assert (a + b)[0] == a[0] && (a + b)[1..] == a[1..] + b;
      RunAppend(u, Step(u, d, a[0]), a[1..], b);
    }
  }

  lemma ReachableRun(u: Setup, d: Desk, actions: seq<Action>)
    requires Reachable(u, d)
    ensures Reachable(u, Run(u, d, actions))
  {
    hide Run, Initial;
    var d0, before :| Initial(d0) && d == Run(u, d0, before);
    RunAppend(u, d0, before, actions);
  }

  lemma OneStep(u: Setup, d: Desk, a: Action)
    ensures Run(u, d, [a]) == Step(u, d, a)
  {
    hide Step;
    assert [a] == [a] + [];
    RunCons(u, d, a, []);
    RunNone(u, Step(u, d, a));
  }

  /** A new envelope of the order's own is logged and held ready. */
  lemma OpeningRun(u: Setup, d: Desk, key: nat, tx: E.Tx)
    requires d.log.pc.Idle? && Fits(u, d, tx, u.id, key) && (key == CANCEL || key == REFUND ==> MayUndo(u, d))
    requires E.Step(u.window, d.log, P.Opening(u.id, key, tx)[0]) == d.log.(pc := E.Scan(E.Perform(u.id, key), []))
    ensures var es := P.Opening(u.id, key, tx);
            Run(u, d, [Log(es[0]), Log(es[1])])
            == d.(log := E.Run(u.window, d.log, es), synced := false, requested := d.requested && key != CANCEL && key != REFUND)
  {
    hide Run, E.Run, Fits, MayUndo, E.Step;
    var es := P.Opening(u.id, key, tx);
    var scanning := Step(u, d, Log(es[0]));
    FitsAnyLog(u, d, scanning, tx, u.id, key);
    assert [Log(es[0]), Log(es[1])] == [Log(es[0])] + [Log(es[1])];
    RunCons(u, d, Log(es[0]), [Log(es[1])]);
    OneStep(u, scanning, Log(es[1]));
    P.RunTwo(u.window, d.log, es[0], es[1]);
  }

  lemma FitsAnyLog(u: Setup, d: Desk, t: Desk, tx: E.Tx, intent: nat, key: nat)
    requires Fits(u, d, tx, intent, key) && t.event == d.event
    ensures Fits(u, t, tx, intent, key)
  {
  }

  /** Engine events that nothing on the desk restricts. */
  predicate Free(e: E.Event) {
    !e.CloseLedger? && (e.Begin? ==> e.job.Review?) && (e.Insert? ==> e.prepared.None?)
  }

  function Logs(es: seq<E.Event>): seq<Action> {
    if es == [] then [] else [Log(es[0])] + Logs(es[1..])
  }

  /** A run of the action log is a run of the desk. */
  lemma {:induction false} LoggedRun(u: Setup, d: Desk, es: seq<E.Event>)
    requires es != [] && forall i :: 0 <= i < |es| ==> Free(es[i])
    ensures Run(u, d, Logs(es)) == d.(log := E.Run(u.window, d.log, es), synced := false)
    decreases |es|
  {
    hide Run, E.Step;
    RunCons(u, d, Log(es[0]), Logs(es[1..]));
    var next := d.(log := E.Step(u.window, d.log, es[0]), synced := false);
    LogStep(u, d, es[0]);
    if |es| > 1 {
      LoggedRun(u, next, es[1..]);
    } else {
      assert es[1..] == [];
      RunNone(u, next);
    }
  }

  lemma LogStep(u: Setup, d: Desk, e: E.Event)
    requires Free(e)
    ensures Step(u, d, Log(e)) == d.(log := E.Step(u.window, d.log, e), synced := false)
  {
    hide E.Step, MayUndo, Fits;
  }

  // ----------------------------------------------------------------------- the bank request

  lemma StepKeepsRequest(u: Setup, d: Desk, a: Action)
    requires d.event.Some? ==> d.requested
    ensures Step(u, d, a).event.Some? ==> Step(u, d, a).requested
  {
    hide V.Step, Close, E.Step, Fits, MaySync;
    if a.CloseLedger? { CloseKeepsRow(u, d, a.time, a.applied, a.host); }
  }

  lemma CloseKeepsRow(u: Setup, d: Desk, time: nat, applied: Option<E.Tx>, host: V.Host)
    ensures Close(u, d, time, applied, host).event == d.event && Close(u, d, time, applied, host).requested == d.requested
  {
    hide Apply, E.Step, Eligible;
  }

  lemma {:induction false} RunKeepsRequest(u: Setup, d: Desk, actions: seq<Action>)
    requires d.event.Some? ==> d.requested
    ensures Run(u, d, actions).event.Some? ==> Run(u, d, actions).requested
    decreases |actions|
  {
    hide Step;
    if actions != [] {
      StepKeepsRequest(u, d, actions[0]);
      RunKeepsRequest(u, Step(u, d, actions[0]), actions[1..]);
    }
  }

  /** A bank event is stored only after a bank request that no refund has withdrawn since. */
  lemma StoredEventWasRequested(u: Setup, d: Desk)
    requires Reachable(u, d) && d.event.Some?
    ensures d.requested
  {
    hide Run;
    var d0, actions :| Initial(d0) && d == Run(u, d0, actions);
    RunKeepsRequest(u, d0, actions);
  }

  // ------------------------------------------------------------------------ withdrawals

  lemma ShapeOf(c: V.Config, s: V.State, id: V.Hash)
    requires S.Inv(c, s) && id in s.orders
    ensures S.OrderOk(c, s.now, id, s.orders[id])
  {
    hide S.OrderOk, S.ReceiptIndexOk, S.FundingIndexOk, S.MovesOk, S.ReserveOk, S.GrantsOk;
  }

  /**
   Once the engine has stored a bank event for a withdrawal, the vault never refunds that order in
   any continuation, whatever envelopes are still in flight and however stale the engine's copy was.
   */
  lemma CreditedWithdrawalIsNeverRefunded(u: Setup, d: Desk, actions: seq<Action>)
    requires V.Deployed(u.config) && Reachable(u, d)
    requires d.event.Some? && u.id in d.vault.orders && d.vault.orders[u.id].terms.direction.Withdrawal?
    ensures var later := Run(u, d, actions).vault;
            && u.id in later.orders
            && later.orders[u.id].payout.Some? && later.orders[u.id].refundedAt.None?
  {
    hide S.Inv, E.Inv, PastOk, V.Deployed, Run, Reachable, V.AcceptableTerms, T.Extends;
    ReachableCore(u, d);
    RunKeepsCore(u, d, actions);
    var later := Run(u, d, actions).vault;
    ExtendsAt(d.vault, later, u.id);
    ShapeOf(u.config, later, u.id);
  }

  /** And once a withdrawal is refunded, no continuation stores a bank event for it. */
  lemma RefundedWithdrawalIsNeverCredited(u: Setup, d: Desk, actions: seq<Action>)
    requires V.Deployed(u.config) && Reachable(u, d)
    requires u.id in d.vault.orders && d.vault.orders[u.id].refundedAt.Some?
    ensures Run(u, d, actions).event.None?
  {
    hide S.Inv, E.Inv, PastOk, V.Deployed, Run, Reachable, V.AcceptableTerms, T.Extends;
    ReachableCore(u, d);
    RunKeepsCore(u, d, actions);
    var later := Run(u, d, actions).vault;
    ExtendsAt(d.vault, later, u.id);
    ShapeOf(u.config, later, u.id);
  }

  /** What the vault asks before it records a receipt. */
  lemma RecordAccepted(c: V.Config, h: V.Host, s: V.State, id: V.Hash, receipt: V.Receipt)
    requires h.notary && id in s.orders && s.orders[id].receipt.None? && s.orders[id].escrowed && !V.Terminal(s.orders[id])
    requires S.GoodReceipt(s.orders[id], receipt) && receipt.receivedAt <= s.now && receipt.eventId !in s.receipts
    requires s.orders[id].terms.direction.Deposit? ==> s.orders[id].terms.subject in s.grants
    ensures var r := V.RecordCall(c, h, s, id, receipt); var o := s.orders[id].(receipt := Some(receipt));
            && r.reply == V.Done(o)
            && r.state == s.(orders := s.orders[id := o], receipts := s.receipts[receipt.eventId := id])
  {
    hide V.Terminal;
  }

  /**
   The stored event of either direction meets the vault's quote, amount, destination, time and grant
   guards: while the order is still open without a receipt and the event id is unused, recording it
   succeeds.
   */
  lemma StoredEventIsRecordable(u: Setup, d: Desk, h: V.Host)
    requires V.Deployed(u.config) && Reachable(u, d) && d.event.Some? && h.notary
    requires u.id in d.vault.orders && d.vault.orders[u.id].escrowed && d.vault.orders[u.id].receipt.None?
    requires d.event.value.eventId !in d.vault.receipts
    ensures var r := V.RecordCall(u.config, h, d.vault, u.id, d.event.value);
            && r.reply == V.Done(d.vault.orders[u.id].(receipt := d.event))
            && r.state.orders == d.vault.orders[u.id := d.vault.orders[u.id].(receipt := d.event)]
  {
    hide S.Inv, E.Inv, PastOk, V.Deployed, Reachable, V.AcceptableTerms, V.RecordCall, S.GoodReceipt, S.Timeline;
    ReachableCore(u, d);
    ShapeOf(u.config, d.vault, u.id);
    RecordAccepted(u.config, h, d.vault, u.id, d.event.value);
  }
}
