/** Withdrawals on both sides: exactly when a stored bank event can still be recorded and settled. */
module Payouts {
  import opened Wrappers
  import Policy
  import V = Vault
  import S = VaultSafety
  import T = VaultTheorems
  import R = VaultRelease
  import X = VaultExamples
  import E = Engine
  import P = EngineProgress
  import opened Bridge
  import D = Deposits

  // ---------------------------------------------------------------------- the invariant

  /** Every call that the log has seen succeed has left its lasting trace in the vault. */
  ghost predicate AppliedDone(u: Setup, d: Desk) {
    forall tx :: E.Succeeded(d.log.ledger, tx) && !u.callOf(tx).Submit? ==> T.Completed(d.vault, u.callOf(tx))
  }

  /** Nothing but the stored event is ever recorded for the order. */
  predicate OnlyTheEvent(u: Setup, d: Desk) {
    D.Received(u, d.vault) ==> d.vault.orders[u.id].receipt == d.event
  }

  ghost predicate Inv(u: Setup, d: Desk) {
    D.Inv(u, d) && AppliedDone(u, d) && OnlyTheEvent(u, d)
  }

  lemma DoneLater(u: Setup, d: Desk, t: Desk)
    requires AppliedDone(u, d) && T.Extends(d.vault, t.vault) && t.log.ledger.included == d.log.ledger.included
    ensures AppliedDone(u, t)
  {
    hide T.Completed, T.Extends;
    forall tx | E.Succeeded(t.log.ledger, tx) && !u.callOf(tx).Submit? ensures T.Completed(t.vault, u.callOf(tx)) {
      assert E.Succeeded(d.log.ledger, tx);
      T.CompletedLasts(d.vault, t.vault, u.callOf(tx));
    }
  }

  /** What a recorded order shows stays as it is. */
  lemma ReceiptStays(u: Setup, d: Desk, t: Desk)
    requires OnlyTheEvent(u, d) && T.Extends(d.vault, t.vault) && D.Received(u, d.vault)
    requires d.event.Some? ==> t.event == d.event
    ensures OnlyTheEvent(u, t)
  {
    hide T.Extends;
    ExtendsAt(d.vault, t.vault, u.id);
  }

  lemma WorldKeeps(u: Setup, d: Desk, e: V.Event)
    requires V.Deployed(u.config) && Inv(u, d)
    ensures AppliedDone(u, Step(u, d, World(e))) && OnlyTheEvent(u, Step(u, d, World(e)))
  {
    hide V.Deployed, V.Step, S.Inv, Core, D.Marks, AppliedDone, T.Extends;
    D.CoreParts(u, d);
    StepMoves(u, d, World(e));
    if !e.Wait? && !NotaryCall(u, e) {
      D.OthersLeaveMarks(u.config, d.vault, e, u.id);
      DoneLater(u, d, Step(u, d, World(e)));
    }
  }

  lemma NotGranted(u: Setup, s: V.State, host: V.Host, tx: E.Tx)
    requires !u.callOf(tx).Submit?
    ensures var r := Apply(u, s, host, tx);
            (r.reply.Failed? ==> r.state == s) && (!r.reply.Failed? ==> r.reply.Done? && T.Completed(r.state, u.callOf(tx)))
  {
    hide V.CreateCall, V.FundCall, V.AuthorizeCall, V.RecordCall, V.SettleCall, V.RefundCall, V.CancelCall, T.Completed;
    var h := host.(provider := true, notary := true);
    FailureChangesNothing(u.config, h, s, u.callOf(tx));
    if Apply(u, s, host, tx).reply.Done? {
      T.SuccessCompletes(u.config, h, s, u.callOf(tx));
    }
  }

  lemma FailureChangesNothing(c: V.Config, h: V.Host, s: V.State, call: V.Call)
    requires !call.Submit?
    ensures var r := V.Apply(c, h, s, call); !r.reply.Granted? && (r.reply.Failed? ==> r.state == s)
  {
    hide V.ReserveFrom, V.ActiveGrant, V.AcceptableTerms, V.Balance, V.Undoable, V.Terminal;
  }

  lemma CloseKeeps(u: Setup, d: Desk, time: nat, applied: Option<E.Tx>, host: V.Host)
    requires V.Deployed(u.config) && Inv(u, d)
    ensures AppliedDone(u, Close(u, d, time, applied, host)) && OnlyTheEvent(u, Close(u, d, time, applied, host))
  {
    hide V.Deployed, Core, D.Marks, Close, Apply, AppliedDone, T.Extends, D.Received;
    if time > d.log.ledger.closeTime && time < Policy.U64_MAX {
      var t := Close(u, d, time, applied, host);
      D.CloseParts(u, d, time, applied, host);
      StepMoves(u, d, CloseLedger(time, applied, host));
      D.SameOrders(u, d.vault, time);
      if D.Received(u, d.vault) { ReceiptStays(u, d, t); }
      if applied.Some? && Eligible(d.log.ledger, applied.value, time) {
        AppliedKeeps(u, d, time, applied.value, host);
      } else {
        DoneLater(u, d, t);
      }
    } else {
      D.CloseEarly(u, d, time, applied, host);
    }
  }

  /** The parts that an applied envelope can change. */
  lemma AppliedKeeps(u: Setup, d: Desk, time: nat, tx: E.Tx, host: V.Host)
    requires V.Deployed(u.config) && Inv(u, d)
    requires time > d.log.ledger.closeTime && time < Policy.U64_MAX && Eligible(d.log.ledger, tx, time)
    ensures var t := Close(u, d, time, Some(tx), host);
            AppliedDone(u, t) && (!D.Received(u, d.vault) ==> OnlyTheEvent(u, t))
  {
    hide V.Deployed, Core, Close, Apply, T.Extends, T.Completed, D.LogFits, D.CancelSeen, D.CancelApplied, D.FreshCopy, S.Inv;
    var t, aged := Close(u, d, time, Some(tx), host), d.vault.(now := time);
    D.CloseParts(u, d, time, Some(tx), host);
    StepMoves(u, d, CloseLedger(time, Some(tx), host));
    D.AgedInv(u, d, time);
    D.ApplyMarks(u, aged, host, tx);
    if !u.callOf(tx).Submit? { NotGranted(u, aged, host, tx); }
    forall x | E.Succeeded(t.log.ledger, x) && !u.callOf(x).Submit? ensures T.Completed(t.vault, u.callOf(x)) {
      if x != tx {
        assert E.Succeeded(d.log.ledger, x);
        T.CompletedLasts(d.vault, t.vault, u.callOf(x));
      }
    }
    if D.Received(u, t.vault) && !D.Received(u, d.vault) {
      var i := D.AppliedIsLogged(u, d, tx);
      EventIsRecorded(u, d, i, t.vault);
    }
  }

  lemma EventIsRecorded(u: Setup, d: Desk, i: nat, after: V.State)
    requires D.LogFits(u, d) && i < |d.log.rows|
    requires u.callOf(d.log.rows[i].tx).Record? && u.callOf(d.log.rows[i].tx).id == u.id
    requires T.Completed(after, u.callOf(d.log.rows[i].tx))
    ensures after.orders[u.id].receipt == d.event
  {
    hide Matches;
    assert Fits(u, d, d.log.rows[i].tx, d.log.rows[i].intent, d.log.rows[i].key);
  }

  lemma StepKeeps(u: Setup, d: Desk, a: Action)
    requires V.Deployed(u.config) && Inv(u, d)
    ensures Inv(u, Step(u, d, a))
  {
    hide V.Deployed, D.Inv, Close, V.Step, E.Step, MayLog, AppliedDone, T.Extends;
    D.StepKeeps(u, d, a);
    T.ExtendsReflexive(d.vault);
    var t := Step(u, d, a);
    match a
    case World(e) => WorldKeeps(u, d, e);
    case CloseLedger(time, applied, host) => CloseKeeps(u, d, time, applied, host);
    case Log(e) =>
      if MayLog(u, d, e) {
        NoCloseLogged(u, d, e);
        LogTime(u.window, d.log, e);
      }
      DoneLater(u, d, t);
    case Sync(_) => DoneLater(u, d, t);
    case RequestBank => DoneLater(u, d, t);
    case StoreEvent(_, _, _) =>
      DoneLater(u, d, t);
      EventFirst(u, d);
  }

  lemma EventFirst(u: Setup, d: Desk)
    requires D.Inv(u, d)
    ensures d.event.None? ==> !D.Received(u, d.vault)
  {
    hide Core, D.LogFits, D.CancelSeen, D.CancelApplied, D.FreshCopy, D.Received;
  }

  lemma {:induction false} RunKeeps(u: Setup, d: Desk, actions: seq<Action>)
    requires V.Deployed(u.config) && Inv(u, d)
    ensures Inv(u, Run(u, d, actions))
    decreases |actions|
  {
    hide V.Deployed, Inv, Step;
    if actions != [] {
      StepKeeps(u, d, actions[0]);
      RunKeeps(u, Step(u, d, actions[0]), actions[1..]);
    }
  }

  lemma ReachableInv(u: Setup, d: Desk)
    requires V.Deployed(u.config) && Reachable(u, d)
    ensures Inv(u, d)
  {
    hide V.Deployed, Core, D.Marks, Run, Initial;
    var d0, actions :| Initial(d0) && d == Run(u, d0, actions);
    InitialCore(u, d0);
    D.InitialMarks(u, d0);
    NothingYet(u, d0);
    RunKeeps(u, d0, actions);
  }

  lemma NothingYet(u: Setup, d: Desk)
    requires Initial(d)
    ensures AppliedDone(u, d) && OnlyTheEvent(u, d)
  {
  }

  // ------------------------------------------------------------ leaving nothing in flight

  /** No other order has the stored event's id, in the vault or in a logged envelope. */
  predicate EventIsOwn(u: Setup, d: Desk) {
    && d.event.Some?
    && (d.event.value.eventId in d.vault.receipts ==> d.vault.receipts[d.event.value.eventId] == u.id)
    && forall i :: 0 <= i < |d.log.rows| && u.callOf(d.log.rows[i].tx).Record?
                   && u.callOf(d.log.rows[i].tx).receipt.eventId == d.event.value.eventId ==>
                     u.callOf(d.log.rows[i].tx).id == u.id
  }

  /** The newest row is the only one in flight, if any is. */
  predicate Busy(d: Desk) {
    d.log.rows != [] && E.InFlight(d.log.rows[|d.log.rows| - 1].status)
  }

  /** What the way to an idle engine leaves: the same envelopes, all decided, and time up to `bound`. */
  predicate Calm(u: Setup, d: Desk, t: Desk, bound: nat) {
    && t.log.pc.Idle? && !E.SomeInFlight(t.log.rows) && t.event == d.event && EventIsOwn(u, t)
    && t.log.ledger.closeTime <= bound
    && |t.log.rows| == |d.log.rows| && forall i :: 0 <= i < |t.log.rows| ==> t.log.rows[i].tx == d.log.rows[i].tx
  }

  /** What is in flight expires before `bound`. */
  predicate Soon(d: Desk, bound: nat) {
    && d.log.ledger.closeTime <= bound < Policy.U64_MAX
    && (Busy(d) ==> d.log.rows[|d.log.rows| - 1].tx.expiresAt < bound)
  }

  lemma OnlyNewestInFlight(u: Setup, d: Desk)
    requires D.Inv(u, d)
    ensures E.SomeInFlight(d.log.rows) ==> Busy(d)
    ensures Busy(d) ==> forall i :: 0 <= i < |d.log.rows| - 1 ==> !E.InFlight(d.log.rows[i].status)
  {
    hide S.Inv, E.LedgerOk, E.RowsTrue, E.PersistedFirst, PastOk, Linked, D.Marks;
  }

  /** Deciding the newest row leaves nothing in flight. */
  lemma DecidedIsCalm(u: Setup, d: Desk, t: Desk, status: E.Status, bound: nat)
    requires D.Inv(u, d) && Busy(d) && EventIsOwn(u, d) && !E.InFlight(status)
    requires var n := |d.log.rows| - 1; t.log.rows == d.log.rows[n := d.log.rows[n].(status := status)]
    requires t.log.pc.Idle? && t.event == d.event && t.log.ledger.closeTime <= bound
    requires d.event.value.eventId in t.vault.receipts ==> t.vault.receipts[d.event.value.eventId] == u.id
    ensures Calm(u, d, t, bound)
  {
    hide D.Inv;
    OnlyNewestInFlight(u, d);
    var n := |d.log.rows| - 1;
    forall i | 0 <= i < |t.log.rows| ensures t.log.rows[i].tx == d.log.rows[i].tx && !E.InFlight(t.log.rows[i].status) {
      if i < n { assert t.log.rows[i] == d.log.rows[i]; }
    }
  }

  /** A crash forgets what the engine was doing, and nothing else. */
  lemma Crashed(u: Setup, d: Desk)
    ensures Run(u, d, [Log(E.Crash)]) == d.(log := d.log.(pc := E.Idle), synced := false)
  {
    hide Run, E.Step;
    OneStep(u, d, Log(E.Crash));
    CrashStep(u, d);
  }

  lemma CrashStep(u: Setup, d: Desk)
    ensures Step(u, d, Log(E.Crash)) == d.(log := d.log.(pc := E.Idle), synced := false)
  {
    hide MayUndo, Fits;
  }

  /** Of the receipts, an applied envelope can only add its own. */
  lemma AppliedReceipts(u: Setup, s: V.State, host: V.Host, tx: E.Tx)
    requires V.Deployed(u.config) && S.Inv(u.config, s)
    ensures var t := Apply(u, s, host, tx).state;
            || t.receipts == s.receipts
            || (u.callOf(tx).Record? && t.receipts == s.receipts[u.callOf(tx).receipt.eventId := u.callOf(tx).id])
  {
    hide V.Deployed, S.OrderOk, S.ReceiptIndexOk, S.FundingIndexOk, S.MovesOk, S.ReserveOk, S.GrantsOk, S.Evolves, V.Balance,
         V.CreateCall, V.FundCall, V.AuthorizeCall, V.RecordCall, V.SettleCall, V.RefundCall, V.CancelCall, V.SubmitCall;
    var call, h := u.callOf(tx), host.(provider := true, notary := true);
    if call.Submit? {
      S.SubmitEffect(u.config, h, s, call.subject, call.lengthsOk, call.inputs);
    } else {
      S.StoredPaysOutside(u.config, s, call.id);
      S.CallEffect(u.config, h, s, call);
    }
  }

  /** The pass over the newest row with a decisive answer. */
  lemma DecideNewest(u: Setup, d: Desk, reply: E.RpcReply, bound: nat) returns (actions: seq<Action>)
    requires D.Inv(u, d) && Busy(d) && EventIsOwn(u, d) && d.log.pc.Idle? && d.log.ledger.closeTime <= bound
    requires var row := d.log.rows[|d.log.rows| - 1];
             && E.Honest(u.window, d.log.ledger, row.tx, reply)
             && !E.InFlight(E.Verdict(reply, Some(E.Bounds(row.minTime, row.tx.expiresAt))))
    ensures Calm(u, d, Run(u, d, actions), bound)
  {
    hide D.Inv, Run, E.Run, E.Honest, E.Verdict, P.Deciding, Calm, EventIsOwn;
    var n := |d.log.rows| - 1;
    P.Decided(u.window, d.log, n, reply);
    DecidingIsFree(n, reply);
    LoggedRun(u, d, P.Deciding(n, reply));
    actions := Logs(P.Deciding(n, reply));
    var row := d.log.rows[n];
    OwnReceipt(u, d);
    DecidedIsCalm(u, d, Run(u, d, actions), E.Verdict(reply, Some(E.Bounds(row.minTime, row.tx.expiresAt))), bound);
  }

  lemma DecidingIsFree(i: nat, reply: E.RpcReply)
    ensures P.Deciding(i, reply) != [] && forall k :: 0 <= k < |P.Deciding(i, reply)| ==> Free(P.Deciding(i, reply)[k])
  {
  }

  lemma OwnReceipt(u: Setup, d: Desk)
    requires EventIsOwn(u, d)
    ensures d.event.Some?
    ensures d.event.value.eventId in d.vault.receipts ==> d.vault.receipts[d.event.value.eventId] == u.id
  {
  }

  /** The newest row is sent again, applied, and found. */
  lemma ApplyNewest(u: Setup, d: Desk, bound: nat) returns (actions: seq<Action>)
    requires V.Deployed(u.config) && D.Inv(u, d) && Busy(d) && EventIsOwn(u, d) && d.log.pc.Idle? && Soon(d, bound)
    requires P.CanApply(d.log.ledger, d.log.rows[|d.log.rows| - 1].tx)
    ensures Calm(u, d, Run(u, d, actions), bound)
  {
    hide V.Deployed, D.Inv, Run, E.Run, Apply, P.Resending, D.Delivery, Calm;
    var n := |d.log.rows| - 1;
    var tx, host := d.log.rows[n].tx, D.HELPFUL;
    P.Resent(u.window, d.log, [], n);
    assert [] + [n] == [n];
    D.ResendingIsFree([n], d.log.ledger);
    LoggedRun(u, d, P.Resending([n], d.log.ledger));
    var resend := Logs(P.Resending([n], d.log.ledger));
    var sending := Run(u, d, resend);
    D.Delivered(u, sending, n, host);
    actions := resend + D.Delivery(u, sending, tx, host);
    RunAppend(u, d, resend, D.Delivery(u, sending, tx, host));
    var aged := d.vault.(now := tx.expiresAt);
    Aged(u, d, tx.expiresAt);
    AppliedReceipts(u, aged, host, tx);
    var t := Run(u, d, actions);
    DecidedIsCalm(u, d, t, t.log.rows[n].status, bound);
  }

  lemma Aged(u: Setup, d: Desk, time: nat)
    requires D.Inv(u, d) && d.log.ledger.closeTime <= time < Policy.U64_MAX
    ensures S.Inv(u.config, d.vault.(now := time)) && d.vault.now <= time
  {
    hide S.Inv, Core, D.Marks;
    D.CoreParts(u, d);
    S.WaitKeepsInv(u.config, d.vault, time);
  }

  /** Past the newest row's time bounds, a miss whose history covers them decides it. */
  lemma MissNewest(u: Setup, d: Desk, bound: nat) returns (actions: seq<Action>)
    requires V.Deployed(u.config) && D.Inv(u, d) && Busy(d) && EventIsOwn(u, d) && d.log.pc.Idle? && Soon(d, bound)
    requires var row := d.log.rows[|d.log.rows| - 1];
             row.tx !in d.log.ledger.included && row.minTime + u.window >= P.TooLate(d.log.ledger, row.tx)
    ensures Calm(u, d, Run(u, d, actions), bound)
  {
    hide V.Deployed, D.Inv, Run, Close, Calm, EventIsOwn;
    var row := d.log.rows[|d.log.rows| - 1];
    var time := P.TooLate(d.log.ledger, row.tx);
    if time == d.log.ledger.closeTime {
      actions := DecideNewest(u, d, E.NotFound(row.minTime, time), bound);
    } else {
      var late := Step(u, d, CloseLedger(time, None, D.HELPFUL));
      D.CloseStepKeeps(u, d, time, None, D.HELPFUL);
      D.CloseParts(u, d, time, None, D.HELPFUL);
      D.CloseTime(u, d, time, None, D.HELPFUL);
      LateIsOwn(u, d, late);
      var rest := DecideNewest(u, late, E.NotFound(row.minTime, time), bound);
      actions := [CloseLedger(time, None, D.HELPFUL)] + rest;
      RunCons(u, d, CloseLedger(time, None, D.HELPFUL), rest);
      CalmFrom(u, d, late, Run(u, d, actions), bound);
    }
  }

  lemma LateIsOwn(u: Setup, d: Desk, t: Desk)
    requires EventIsOwn(u, d) && t.event == d.event && t.vault.receipts == d.vault.receipts && t.log.rows == d.log.rows
    ensures EventIsOwn(u, t)
  {
  }

  lemma CalmFrom(u: Setup, d: Desk, s: Desk, t: Desk, bound: nat)
    requires Calm(u, s, t, bound) && s.event == d.event && |s.log.rows| == |d.log.rows|
    requires forall i :: 0 <= i < |s.log.rows| ==> s.log.rows[i].tx == d.log.rows[i].tx
    ensures Calm(u, d, t, bound)
  {
    hide EventIsOwn, E.SomeInFlight;
  }

  /** From any reachable desk whose engine is not lost, the engine gets idle with nothing in flight. */
  lemma GetsCalm(u: Setup, d: Desk, bound: nat) returns (actions: seq<Action>)
    requires V.Deployed(u.config) && D.Inv(u, d) && EventIsOwn(u, d) && Soon(d, bound) && !P.Lost(u.window, d.log)
    ensures Calm(u, d, Run(u, d, actions), bound)
  {
    hide V.Deployed, D.Inv, Run, Calm, EventIsOwn, P.CanApply, E.Step;
    OnlyNewestInFlight(u, d);
    var idle := d.(log := d.log.(pc := E.Idle), synced := false);
    Crashed(u, d);
    D.RunKeeps(u, d, [Log(E.Crash)]);
    LateIsOwn(u, d, idle);
    if !Busy(d) {
      actions := [Log(E.Crash)];
      NothingIsCalm(u, d, idle, bound);
    } else if d.log.pc.Save? && !E.InFlight(d.log.pc.status) {
      actions := WriteDown(u, d, bound);
    } else {
      var row := d.log.rows[|d.log.rows| - 1];
      var rest;
      if row.tx in d.log.ledger.included {
        rest := DecideNewest(u, idle, E.Found(d.log.ledger.included[row.tx].ok), bound);
      } else if P.CanApply(d.log.ledger, row.tx) {
        rest := ApplyNewest(u, idle, bound);
      } else {
        rest := MissNewest(u, idle, bound);
      }
      actions := [Log(E.Crash)] + rest;
      RunAppend(u, d, [Log(E.Crash)], rest);
      CalmFrom(u, d, idle, Run(u, d, actions), bound);
    }
  }

  lemma NothingIsCalm(u: Setup, d: Desk, t: Desk, bound: nat)
    requires t.log.pc.Idle? && !E.SomeInFlight(t.log.rows) && EventIsOwn(u, t) && t.log.ledger.closeTime <= bound
    requires t.event == d.event && t.log.rows == d.log.rows
    ensures Calm(u, d, t, bound)
  {
  }

  /** A decided status that waits to be written is written. */
  lemma WriteDown(u: Setup, d: Desk, bound: nat) returns (actions: seq<Action>)
    requires D.Inv(u, d) && EventIsOwn(u, d) && d.log.ledger.closeTime <= bound && Busy(d)
    requires d.log.pc.Save? && !E.InFlight(d.log.pc.status)
    ensures Calm(u, d, Run(u, d, actions), bound)
  {
    hide D.Inv, Run, Calm, EventIsOwn;
    SaveIsNewest(u, d);
    var written := Step(u, d, Log(E.Write));
    LogStep(u, d, E.Write);
    Crashed(u, written);
    RunCons(u, d, Log(E.Write), [Log(E.Crash)]);
    actions := [Log(E.Write)] + [Log(E.Crash)];
    OwnReceipt(u, d);
    DecidedIsCalm(u, d, Run(u, d, actions), d.log.pc.status, bound);
  }

  lemma SaveIsNewest(u: Setup, d: Desk)
    requires D.Inv(u, d) && d.log.pc.Save?
    ensures d.log.pc.row == |d.log.rows| - 1
  {
    hide S.Inv, E.LedgerOk, E.RowsTrue, E.PersistedFirst, PastOk, Linked, D.Marks;
  }

  // ------------------------------------------------------------------- performing one call

  lemma {:induction false} PreviousIsRow(rows: seq<E.Row>, intent: nat, key: nat) returns (i: nat)
    requires E.Previous(rows, intent, key).Some?
    ensures i < |rows| && rows[i] == E.Previous(rows, intent, key).value && rows[i].intent == intent && rows[i].key == key
  {
    var n := |rows| - 1;
    if rows[n].intent == intent && rows[n].key == key {
      i := n;
    } else {
      i := PreviousIsRow(rows[..n], intent, key);
    }
  }

  /** An action of the order that the log knows to have succeeded shows in the vault. */
  lemma PreviousIsDone(u: Setup, d: Desk, key: nat)
    requires Inv(u, d) && (key == RECORD || key == SETTLE)
    requires E.Previous(d.log.rows, u.id, key).Some? && E.Previous(d.log.rows, u.id, key).value.status.Success?
    ensures u.id in d.vault.orders
    ensures key == RECORD ==> d.vault.orders[u.id].receipt.Some?
    ensures key == SETTLE ==> d.vault.orders[u.id].settledAt.Some?
  {
    hide Core, D.CancelSeen, D.CancelApplied, D.FreshCopy, E.Previous;
    var i := PreviousIsRow(d.log.rows, u.id, key);
    assert Fits(u, d, d.log.rows[i].tx, d.log.rows[i].intent, d.log.rows[i].key);
    D.StatusHolds(u, d, i);
    assert E.Succeeded(d.log.ledger, d.log.rows[i].tx);
    assert T.Completed(d.vault, u.callOf(d.log.rows[i].tx));
  }

  /** A call of the order is logged, sent and applied; the engine ends idle and knows the outcome. */
  lemma Performed(u: Setup, d: Desk, key: nat, tx: E.Tx) returns (actions: seq<Action>)
    requires D.Inv(u, d) && d.log.pc.Idle? && !E.SomeInFlight(d.log.rows) && !E.Recorded(d.log.rows, tx)
    requires key != CANCEL && key != REFUND && Fits(u, d, tx, u.id, key)
    requires tx.minTime <= tx.expiresAt && d.log.ledger.closeTime < tx.expiresAt
    requires E.Previous(d.log.rows, u.id, key).Some? ==> !E.Previous(d.log.rows, u.id, key).value.status.Success?
    ensures var t := Run(u, d, actions);
            && t.vault == Apply(u, d.vault.(now := tx.expiresAt), D.HELPFUL, tx).state && t.event == d.event
            && t.log.pc.Idle? && !E.SomeInFlight(t.log.rows) && t.log.ledger.closeTime == tx.expiresAt
            && |t.log.rows| == |d.log.rows| + 1 && t.log.rows[|d.log.rows|].tx == tx
            && t.log.rows[|d.log.rows|].intent == u.id && t.log.rows[|d.log.rows|].key == key
            && t.log.rows[..|d.log.rows|] == d.log.rows
  {
    hide Run, E.Run, Apply, Fits, D.Inv, E.Previous, E.SomeInFlight, E.Recorded, P.Opening, D.Delivery;
    var n, es := |d.log.rows|, P.Opening(u.id, key, tx);
    P.Opened(u.window, d.log, u.id, key, tx);
    OpeningRun(u, d, key, tx);
    var opening := [Log(es[0]), Log(es[1])];
    var ready := Run(u, d, opening);
    CanStillApply(u, d, tx);
    D.Delivered(u, ready, n, D.HELPFUL);
    actions := opening + D.Delivery(u, ready, tx, D.HELPFUL);
    RunAppend(u, d, opening, D.Delivery(u, ready, tx, D.HELPFUL));
    NoneAdded(d.log.rows, Run(u, d, actions).log.rows);
  }

  lemma CanStillApply(u: Setup, d: Desk, tx: E.Tx)
    requires D.Inv(u, d) && !E.Recorded(d.log.rows, tx)
    requires tx.minTime <= tx.expiresAt && d.log.ledger.closeTime < tx.expiresAt
    ensures P.CanApply(d.log.ledger, tx)
    ensures forall key :: Fits(u, d, tx, u.id, key) ==> tx.expiresAt < Policy.U64_MAX
  {
    hide Core, D.Marks, E.Recorded;
    D.CoreParts(u, d);
    P.NeverApplied(d.log, tx);
  }

  lemma NoneAdded(rows: seq<E.Row>, more: seq<E.Row>)
    requires !E.SomeInFlight(rows) && |more| == |rows| + 1 && more[..|rows|] == rows && !E.InFlight(more[|rows|].status)
    ensures !E.SomeInFlight(more)
  {
    forall i | 0 <= i < |more| ensures !E.InFlight(more[i].status) {
      if i < |rows| { assert more[i] == rows[i]; }
    }
  }

  // -------------------------------------------------------------------- recorded and settled

  predicate Settled(u: Setup, s: V.State) {
    u.id in s.orders && s.orders[u.id].settledAt.Some?
  }

  /** A withdrawal whose customer the engine has credited. */
  predicate Credited(u: Setup, d: Desk) {
    d.event.Some? && u.id in d.vault.orders && d.vault.orders[u.id].terms.direction.Withdrawal?
  }

  /** It was paid out for good: it is open in escrow, or settled, with the event as its only receipt. */
  lemma CreditedShape(u: Setup, d: Desk)
    requires Inv(u, d) && Credited(u, d)
    ensures var o := d.vault.orders[u.id];
            && S.GoodReceipt(o, d.event.value) && d.event.value.receivedAt <= d.vault.now
            && (o.receipt.Some? ==> o.receipt == d.event)
            && (if o.settledAt.Some? then o.receipt.Some? else o.escrowed && !V.Terminal(o))
  {
    hide S.Inv, E.Inv, PastOk, D.Marks, AppliedDone, V.AcceptableTerms;
    ShapeOf(u.config, d.vault, u.id);
  }

  lemma CreditedLater(u: Setup, d: Desk, actions: seq<Action>)
    requires V.Deployed(u.config) && Inv(u, d) && Credited(u, d)
    ensures Inv(u, Run(u, d, actions)) && Credited(u, Run(u, d, actions)) && Run(u, d, actions).event == d.event
  {
    hide V.Deployed, Core, D.Marks, AppliedDone, Run, T.Extends;
    RunKeeps(u, d, actions);
    RunKeepsCore(u, d, actions);
    ExtendsAt(d.vault, Run(u, d, actions).vault, u.id);
  }

  /** New envelopes for the record and the settlement, each valid after all that came before. */
  predicate Envelopes(u: Setup, d: Desk, record: E.Tx, settle: E.Tx)
    requires d.event.Some?
  {
    && u.callOf(record) == V.Record(u.id, d.event.value) && u.callOf(settle) == V.Settle(u.id)
    && !E.Recorded(d.log.rows, record) && !E.Recorded(d.log.rows, settle)
    && record.minTime <= record.expiresAt && settle.minTime <= settle.expiresAt
    && record.expiresAt > 0 && Soon(d, record.expiresAt - 1)
    && record.expiresAt < settle.expiresAt < Policy.U64_MAX
  }

  lemma RecordOne(u: Setup, d: Desk, tx: E.Tx) returns (actions: seq<Action>)
    requires V.Deployed(u.config) && Inv(u, d) && Credited(u, d) && EventIsOwn(u, d)
    requires d.vault.orders[u.id].receipt.None? && u.callOf(tx) == V.Record(u.id, d.event.value)
    requires d.log.pc.Idle? && !E.SomeInFlight(d.log.rows) && !E.Recorded(d.log.rows, tx)
    requires tx.minTime <= tx.expiresAt < Policy.U64_MAX && d.log.ledger.closeTime < tx.expiresAt
    ensures var t := Run(u, d, actions);
            && u.id in t.vault.orders && t.vault.orders[u.id].receipt == d.event
            && t.log.pc.Idle? && !E.SomeInFlight(t.log.rows) && t.log.ledger.closeTime == tx.expiresAt
            && |t.log.rows| == |d.log.rows| + 1 && t.log.rows[|d.log.rows|].tx == tx
            && t.log.rows[..|d.log.rows|] == d.log.rows
  {
    hide V.Deployed, Core, D.Marks, AppliedDone, Run, E.Previous, E.SomeInFlight, E.Recorded, S.GoodReceipt, V.RecordCall,
         V.Terminal;
    if E.Previous(d.log.rows, u.id, RECORD).Some? && E.Previous(d.log.rows, u.id, RECORD).value.status.Success? {
      PreviousIsDone(u, d, RECORD);
    }
    actions := Performed(u, d, RECORD, tx);
    CreditedShape(u, d);
    Aged(u, d, tx.expiresAt);
    var aged := d.vault.(now := tx.expiresAt);
    UnusedEvent(u, aged, d.event.value.eventId);
    RecordAccepted(u.config, D.HELPFUL, aged, u.id, d.event.value);
  }

  lemma UnusedEvent(u: Setup, s: V.State, eventId: V.Hash)
    requires S.Inv(u.config, s) && u.id in s.orders && s.orders[u.id].receipt.None?
    requires eventId in s.receipts ==> s.receipts[eventId] == u.id
    ensures eventId !in s.receipts
  {
    hide S.OrdersOk, S.FundingIndexOk, S.MovesOk, S.ReserveOk, S.GrantsOk;
  }

  lemma SettleOne(u: Setup, d: Desk, tx: E.Tx) returns (actions: seq<Action>)
    requires V.Deployed(u.config) && Inv(u, d) && Credited(u, d)
    requires d.vault.orders[u.id].receipt.Some? && d.vault.orders[u.id].settledAt.None? && u.callOf(tx) == V.Settle(u.id)
    requires d.log.pc.Idle? && !E.SomeInFlight(d.log.rows) && !E.Recorded(d.log.rows, tx)
    requires tx.minTime <= tx.expiresAt < Policy.U64_MAX && d.log.ledger.closeTime < tx.expiresAt
    ensures Settled(u, Run(u, d, actions).vault)
  {
    hide V.Deployed, Core, D.Marks, AppliedDone, Run, E.Previous, E.SomeInFlight, E.Recorded, S.Inv, V.SettleCall, V.Terminal;
    if E.Previous(d.log.rows, u.id, SETTLE).Some? && E.Previous(d.log.rows, u.id, SETTLE).value.status.Success? {
      PreviousIsDone(u, d, SETTLE);
    }
    actions := Performed(u, d, SETTLE, tx);
    CreditedShape(u, d);
    Aged(u, d, tx.expiresAt);
    R.SettleReleases(u.config, D.HELPFUL, d.vault.(now := tx.expiresAt), u.id);
  }

  /**
   Once a withdrawal's bank event is stored and the engine is not lost, some continuation records that
   event and settles the order, whatever was in flight.
   */
  lemma StoredEventCanSettle(u: Setup, d: Desk, record: E.Tx, settle: E.Tx) returns (actions: seq<Action>)
    requires V.Deployed(u.config) && Reachable(u, d) && Credited(u, d) && EventIsOwn(u, d)
    requires Envelopes(u, d, record, settle) && !P.Lost(u.window, d.log)
    ensures Settled(u, Run(u, d, actions).vault) && Run(u, d, actions).vault.orders[u.id].receipt == d.event
  {
    hide V.Deployed, Reachable, Inv, Run, EventIsOwn, E.SomeInFlight, E.Recorded, P.Lost, Soon;
    ReachableInv(u, d);
    DeskInv(u, d);
    var calming := GetsCalm(u, d, record.expiresAt - 1);
    var calm := Run(u, d, calming);
    CreditedLater(u, d, calming);
    CreditedShape(u, calm);
    StillNew(d.log.rows, calm.log.rows, record);
    StillNew(d.log.rows, calm.log.rows, settle);
    var recording := [];
    RunNoneHere(u, calm);
    if calm.vault.orders[u.id].receipt.None? {
      recording := RecordOne(u, calm, record);
    }
    var recorded := Run(u, calm, recording);
    CreditedLater(u, calm, recording);
    CreditedShape(u, recorded);
    if recorded.vault.orders[u.id].settledAt.None? {
      OneMore(calm.log.rows, recorded.log.rows, record, settle);
      var settling := SettleOne(u, recorded, settle);
      CreditedLater(u, recorded, settling);
      CreditedShape(u, Run(u, recorded, settling));
      actions := calming + (recording + settling);
      RunAppend(u, calm, recording, settling);
      RunAppend(u, d, calming, recording + settling);
    } else {
      actions := calming + recording;
      RunAppend(u, d, calming, recording);
    }
  }

  lemma DeskInv(u: Setup, d: Desk)
    requires Inv(u, d)
    ensures D.Inv(u, d)
  {
    hide D.Inv, AppliedDone;
  }

  lemma RunNoneHere(u: Setup, d: Desk)
    ensures Run(u, d, []) == d
  {
  }

  lemma StillNew(rows: seq<E.Row>, more: seq<E.Row>, tx: E.Tx)
    requires !E.Recorded(rows, tx) && |more| == |rows| && forall i :: 0 <= i < |more| ==> more[i].tx == rows[i].tx
    ensures !E.Recorded(more, tx)
  {
  }

  /** One more envelope in the log, if any, leaves another one new. */
  lemma OneMore(rows: seq<E.Row>, more: seq<E.Row>, added: E.Tx, tx: E.Tx)
    requires !E.Recorded(rows, tx) && tx != added
    requires more == rows || (|more| == |rows| + 1 && more[|rows|].tx == added && more[..|rows|] == rows)
    ensures !E.Recorded(more, tx)
  {
    forall i | 0 <= i < |more| ensures more[i].tx != tx {
      if i < |rows| { assert more[i] == rows[i]; }
    }
  }

  // ----------------------------------------------------------------- exactly when it can be

  predicate EndsSettled(u: Setup, d: Desk, actions: seq<Action>) {
    Settled(u, Run(u, d, actions).vault)
  }

  /** A lost engine applies nothing any more. */
  lemma LostAppliesNothing(u: Setup, d: Desk, tx: E.Tx, time: nat)
    requires D.Inv(u, d) && P.Lost(u.window, d.log) && time > d.log.ledger.closeTime
    ensures !Eligible(d.log.ledger, tx, time)
  {
    hide Core, D.Marks;
    if Eligible(d.log.ledger, tx, time) {
      var i := D.AppliedIsLogged(u, d, tx);
      D.StatusHolds(u, d, i);
      OnlyNewestInFlight(u, d);
    }
  }

  lemma LostClose(u: Setup, d: Desk, time: nat, applied: Option<E.Tx>, host: V.Host)
    requires D.Inv(u, d) && P.Lost(u.window, d.log) && !D.Received(u, d.vault)
    ensures var t := Close(u, d, time, applied, host); P.Lost(u.window, t.log) && !D.Received(u, t.vault)
  {
    hide D.Inv, P.Lost, E.Step, Eligible, Apply, D.Received;
    if time > d.log.ledger.closeTime && time < Policy.U64_MAX {
      if applied.Some? { LostAppliesNothing(u, d, applied.value, time); }
      D.SameOrders(u, d.vault, time);
      LostLog(u, d, E.CloseLedger(time, map[]));
    }
  }

  lemma LostLog(u: Setup, d: Desk, e: E.Event)
    requires D.Inv(u, d) && P.Lost(u.window, d.log)
    ensures P.Lost(u.window, E.Step(u.window, d.log, e))
  {
    hide Core, D.Marks, P.Lost, E.Step, E.Inv;
    D.CoreParts(u, d);
    P.LostStep(u.window, d.log, e);
  }

  /** While the engine is lost, no receipt is recorded for the order. */
  lemma LostNeverRecords(u: Setup, d: Desk, a: Action)
    requires V.Deployed(u.config) && D.Inv(u, d) && P.Lost(u.window, d.log) && !D.Received(u, d.vault)
    ensures var t := Step(u, d, a); P.Lost(u.window, t.log) && !D.Received(u, t.vault)
  {
    hide V.Deployed, Core, D.Marks, P.Lost, Close, V.Step, E.Step, MayLog, S.Inv;
    match a
    case World(e) =>
      D.CoreParts(u, d);
      if !e.Wait? && !NotaryCall(u, e) { D.OthersLeaveMarks(u.config, d.vault, e, u.id); }
    case CloseLedger(time, applied, host) => LostClose(u, d, time, applied, host);
    case Log(e) => LostLog(u, d, e);
    case Sync(_) =>
    case RequestBank =>
    case StoreEvent(_, _, _) =>
  }

  lemma {:induction false} LostNeverReceives(u: Setup, d: Desk, actions: seq<Action>)
    requires V.Deployed(u.config) && D.Inv(u, d) && P.Lost(u.window, d.log) && !D.Received(u, d.vault)
    ensures !D.Received(u, Run(u, d, actions).vault)
    decreases |actions|
  {
    hide V.Deployed, D.Inv, Step, D.Received, P.Lost;
    if actions != [] {
      LostNeverRecords(u, d, actions[0]);
      D.StepKeeps(u, d, actions[0]);
      LostNeverReceives(u, Step(u, d, actions[0]), actions[1..]);
    }
  }

  /** With its receipt recorded, anyone can have the order settled. */
  lemma AnyoneSettles(u: Setup, d: Desk) returns (actions: seq<Action>)
    requires V.Deployed(u.config) && Inv(u, d) && Credited(u, d) && D.Received(u, d.vault)
    ensures EndsSettled(u, d, actions)
  {
    hide V.Deployed, Core, D.Marks, AppliedDone, Run, S.Inv, V.SettleCall, V.Terminal, S.GoodReceipt;
    CreditedShape(u, d);
    if Settled(u, d.vault) {
      actions := [];
      RunNoneHere(u, d);
    } else {
      D.CoreParts(u, d);
      R.SettleReleases(u.config, D.HELPFUL, d.vault, u.id);
      actions := [World(V.Invoke(D.HELPFUL, V.Settle(u.id)))];
      OneStep(u, d, actions[0]);
    }
  }

  /**
   A credited withdrawal can still be settled, in some continuation, if and only if its receipt is
   already recorded or the engine is not lost.
   */
  lemma CreditedWithdrawalSettlesExactly(u: Setup, d: Desk, record: E.Tx, settle: E.Tx)
    requires V.Deployed(u.config) && Reachable(u, d) && Credited(u, d) && EventIsOwn(u, d)
    requires Envelopes(u, d, record, settle)
    ensures (exists actions :: EndsSettled(u, d, actions)) <==> D.Received(u, d.vault) || !P.Lost(u.window, d.log)
  {
    hide V.Deployed, Reachable, Inv, Run, EventIsOwn, P.Lost, Envelopes, D.Received, Settled, Credited;
    ReachableInv(u, d);
    DeskInv(u, d);
    if D.Received(u, d.vault) {
      var actions := AnyoneSettles(u, d);
    } else if !P.Lost(u.window, d.log) {
      var actions := StoredEventCanSettle(u, d, record, settle);
      assert EndsSettled(u, d, actions);
    } else {
      forall actions ensures !EndsSettled(u, d, actions) {
        LostNeverReceives(u, d, actions);
        CreditedLater(u, d, actions);
        if Settled(u, Run(u, d, actions).vault) { SettledIsReceived(u, Run(u, d, actions)); }
      }
    }
  }

  lemma SettledIsReceived(u: Setup, d: Desk)
    requires Inv(u, d) && Credited(u, d) && Settled(u, d.vault)
    ensures D.Received(u, d.vault)
  {
    hide Inv, S.GoodReceipt;
    CreditedShape(u, d);
  }

  // ----------------------------------------------------------------- a concrete withdrawal

  function DemoCall(tx: E.Tx): V.Call {
    if tx.body == 1 then V.Fund(7, 77)
    else if tx.body == 2 then V.Authorize(7)
    else if tx.body == 3 then V.Record(7, V.Receipt(9, 1, 40, 30, 8))
    else V.Settle(7)
  }

  function DemoSetup(): Setup {
    Setup(X.DemoConfig(), 7, 1000, DemoCall)
  }

  function DemoOrder(): V.Order {
    V.NewOrder(10, X.DemoWithdrawal())
  }

  function DemoFunded(): V.Order {
    DemoOrder().(escrowed := true, funding := Some(V.Funding(77, 20)))
  }

  function DemoAuthorized(): V.Order {
    DemoFunded().(payout := Some(30))
  }

  lemma DemoFund(s: V.State)
    requires s.now == 10 && s.orders == map[7 := DemoOrder()] && s.fundings == map[]
    requires s.balances == map[1 := 50] && s.reserved == 0
    ensures var t := Apply(DemoSetup(), s.(now := 20), D.HELPFUL, E.Tx(1, 0, 20)).state;
            && t.orders == map[7 := DemoFunded()] && t.grants == s.grants && t.receipts == s.receipts && t.now == 20
            && t.reserved == 30 && V.Balance(t, 0) == 30
  {
  }

  lemma DemoAuthorize(s: V.State)
    requires s.now == 20 && s.orders == map[7 := DemoFunded()] && s.grants == map[105 := Policy.Grant(10, 110)]
    requires s.reserved == 30 && V.Balance(s, 0) == 30
    ensures var t := Apply(DemoSetup(), s.(now := 30), D.HELPFUL, E.Tx(2, 0, 30)).state;
            && t.orders == map[7 := DemoAuthorized()] && t.grants == s.grants && t.receipts == s.receipts && t.now == 30
  {
  }

  /** The engine funds and authorizes the new withdrawal. */
  lemma DemoPaid(d: Desk) returns (actions: seq<Action>, t: Desk)
    requires V.Deployed(DemoSetup().config) && D.Inv(DemoSetup(), d)
    requires d.log == D.DemoDesk().log && d.event.None? && d.vault.now == 10 && d.vault.receipts == map[] && d.vault.fundings == map[]
    requires d.vault.grants == map[105 := Policy.Grant(10, 110)] && d.vault.orders == map[7 := DemoOrder()]
    requires d.vault.balances == map[1 := 50] && d.vault.reserved == 0
    ensures t == Run(DemoSetup(), d, actions) && t.event.None? && t.log.pc.Idle? && t.log.ledger.closeTime == 30
    ensures |t.log.rows| == 2 && t.log.rows[0].tx == E.Tx(1, 0, 20) && t.log.rows[1].tx == E.Tx(2, 0, 30)
    ensures !E.SomeInFlight(t.log.rows)
    ensures t.vault.orders == map[7 := DemoAuthorized()] && t.vault.receipts == map[] && t.vault.now == 30
  {
    hide V.Deployed, D.Inv, Run, Apply, DemoOrder, DemoFunded, DemoAuthorized;
    var u := DemoSetup();
    var funding := Performed(u, d, 1, E.Tx(1, 0, 20));
    D.RunKeeps(u, d, funding);
    DemoFund(d.vault);
    var funded := Run(u, d, funding);
    OtherKey(funded.log.rows);
    var authorizing := Performed(u, funded, 2, E.Tx(2, 0, 30));
    DemoAuthorize(funded.vault);
    actions := funding + authorizing;
    RunAppend(u, d, funding, authorizing);
    t := Run(u, d, actions);
    assert t.log.rows[..1][0] == funded.log.rows[0];
  }

  lemma OtherKey(rows: seq<E.Row>)
    requires |rows| == 1 && rows[0].key == 1
    ensures E.Previous(rows, 7, 2).None?
  {
    assert rows[..0] == [];
    assert E.Previous(rows[..0], 7, 2).None?;
  }

  /** Some run credits a withdrawal whose receipt is still to be recorded, with an engine that is not lost. */
  lemma CreditedWithdrawalExists() returns (d: Desk, record: E.Tx, settle: E.Tx)
    ensures V.Deployed(DemoSetup().config) && Reachable(DemoSetup(), d)
    ensures Credited(DemoSetup(), d) && !D.Received(DemoSetup(), d.vault) && EventIsOwn(DemoSetup(), d)
    ensures Envelopes(DemoSetup(), d, record, settle) && !P.Lost(DemoSetup().window, d.log)
  {
    hide V.Deployed, Reachable, D.Inv, Run, Credited, D.Received, EventIsOwn, Envelopes, P.Lost, DemoOrder, DemoAuthorized, MayStore,
         X.DemoWithdrawal;
    var u := DemoSetup();
    DemoOrderIs();
    var d0 := D.DemoOrdered(u, X.DemoWithdrawal());
    D.ReachableInv(u, d0);
    var paying, paid := DemoPaid(d0);
    D.RunKeeps(u, d0, paying);
    D.ReadPresent(u, paid);
    var k := |paid.past| - 1;
    var read := Step(u, paid, Sync(k));
    DemoStored(read);
    var asked := Step(u, read, RequestBank);
    d := Step(u, asked, StoreEvent(9, 30, false));
    var rest := [RequestBank] + [StoreEvent(9, 30, false)];
    OneStep(u, asked, StoreEvent(9, 30, false));
    RunCons(u, read, RequestBank, [StoreEvent(9, 30, false)]);
    RunCons(u, paid, Sync(k), rest);
    RunAppend(u, d0, paying, [Sync(k)] + rest);
    ReachableRun(u, d0, paying + ([Sync(k)] + rest));
    record, settle := E.Tx(3, 0, 50), E.Tx(4, 0, 60);
    DemoCredited(d);
  }

  lemma DemoOrderIs()
    ensures DemoOrder() == V.NewOrder(10, X.DemoWithdrawal()) && X.DemoWithdrawal().direction.Withdrawal?
  {
  }

  /** The event of the example is stored. */
  lemma DemoStored(d: Desk)
    requires d.log.pc.Idle? && d.synced && d.chain == Some(DemoAuthorized()) && d.event.None? && d.vault.now == 30
    ensures var asked := Step(DemoSetup(), d, RequestBank);
            Step(DemoSetup(), asked, StoreEvent(9, 30, false))
            == d.(requested := true, event := Some(V.Receipt(9, 1, 40, 30, 8)))
  {
  }

  lemma DemoCredited(d: Desk)
    requires d.event == Some(V.Receipt(9, 1, 40, 30, 8)) && d.vault.orders == map[7 := DemoAuthorized()]
    requires d.vault.receipts == map[] && d.log.ledger.closeTime == 30 && !E.SomeInFlight(d.log.rows)
    requires |d.log.rows| == 2 && d.log.rows[0].tx == E.Tx(1, 0, 20) && d.log.rows[1].tx == E.Tx(2, 0, 30)
    ensures var u := DemoSetup();
            && Credited(u, d) && !D.Received(u, d.vault) && EventIsOwn(u, d)
            && Envelopes(u, d, E.Tx(3, 0, 50), E.Tx(4, 0, 60)) && !P.Lost(u.window, d.log)
  {
    assert !E.InFlight(d.log.rows[1].status);
  }
}
