/** Deposits on both sides: exactly when a stored bank event and a cancel can both come true. */
module Deposits {
  import opened Wrappers
  import Policy
  import V = Vault
  import S = VaultSafety
  import T = VaultTheorems
  import R = VaultRelease
  import X = VaultExamples
  import E = Engine
  import P = EngineProgress
  import opened Bridge

  // ---------------------------------------------------------------------- the invariant

  predicate CancelRow(u: Setup, row: E.Row) {
    u.callOf(row.tx) == V.Cancel(u.id)
  }

  predicate Cancelled(u: Setup, s: V.State) {
    u.id in s.orders && s.orders[u.id].cancelledAt.Some?
  }

  /** Every logged envelope calls what its key says. */
  ghost predicate LogFits(u: Setup, d: Desk) {
    forall i :: 0 <= i < |d.log.rows| ==> Fits(u, d, d.log.rows[i].tx, d.log.rows[i].intent, d.log.rows[i].key)
  }

  predicate UndoJob(u: Setup, pc: E.Pc) {
    !pc.Idle? && pc.job.Perform? && pc.job.intent == u.id && (pc.job.key == CANCEL || pc.job.key == REFUND)
  }

  /** The engine works on an undo only while no event is stored. */
  predicate UndoFirst(u: Setup, d: Desk) {
    UndoJob(u, d.log.pc) ==> d.event.None?
  }

  predicate Received(u: Setup, s: V.State) {
    u.id in s.orders && s.orders[u.id].receipt.Some?
  }

  /** An applied cancel shows in every state from its ledger on. */
  ghost predicate CancelSeen(u: Setup, d: Desk) {
    forall tx, k :: Applied(u, d, tx) && 0 <= k < |d.past| && d.past[k].now >= d.log.ledger.included[tx].at ==>
      Cancelled(u, d.past[k])
  }

  predicate Applied(u: Setup, d: Desk, tx: E.Tx) {
    E.Succeeded(d.log.ledger, tx) && u.callOf(tx) == V.Cancel(u.id)
  }

  ghost predicate CancelApplied(u: Setup, d: Desk) {
    exists i :: 0 <= i < |d.log.rows| && Applied(u, d, d.log.rows[i].tx)
  }

  /** A fresh copy shows every cancel that the log knows to have succeeded. */
  ghost predicate FreshCopy(u: Setup, d: Desk) {
    d.synced && d.chain.Some? && d.chain.value.cancelledAt.None? ==>
      forall i :: 0 <= i < |d.log.rows| && CancelRow(u, d.log.rows[i]) ==> !d.log.rows[i].status.Success?
  }

  ghost predicate Marks(u: Setup, d: Desk) {
    && LogFits(u, d) && UndoFirst(u, d) && (d.event.None? ==> !Received(u, d.vault)) && CancelSeen(u, d)
    && (Cancelled(u, d.vault) ==> CancelApplied(u, d)) && FreshCopy(u, d)
  }

  ghost predicate Inv(u: Setup, d: Desk) {
    Core(u, d) && Marks(u, d)
  }

  // -------------------------------------------------- what a step leaves of each part

  lemma FitsSame(u: Setup, d: Desk, t: Desk)
    requires LogFits(u, d) && t.log.rows == d.log.rows && (t.event == d.event || d.event.None?)
    ensures LogFits(u, t)
  {
    hide Matches;
    forall i | 0 <= i < |t.log.rows| ensures Fits(u, t, t.log.rows[i].tx, t.log.rows[i].intent, t.log.rows[i].key) {
      assert Fits(u, d, d.log.rows[i].tx, d.log.rows[i].intent, d.log.rows[i].key);
    }
  }

  lemma SeenSame(u: Setup, d: Desk, t: Desk)
    requires CancelSeen(u, d) && t.past == d.past && t.log.ledger.included == d.log.ledger.included
    ensures CancelSeen(u, t)
  {
    hide Cancelled;
    forall tx, k | Applied(u, t, tx) && 0 <= k < |t.past| && t.past[k].now >= t.log.ledger.included[tx].at
      ensures Cancelled(u, t.past[k])
    {
      assert Applied(u, d, tx);
    }
  }

  lemma AppliedSame(u: Setup, d: Desk, t: Desk)
    requires CancelApplied(u, d) && |d.log.rows| <= |t.log.rows|
    requires forall i :: 0 <= i < |d.log.rows| ==> t.log.rows[i].tx == d.log.rows[i].tx
    requires forall tx :: tx in d.log.ledger.included ==>
               tx in t.log.ledger.included && t.log.ledger.included[tx] == d.log.ledger.included[tx]
    ensures CancelApplied(u, t)
  {
    var i :| 0 <= i < |d.log.rows| && Applied(u, d, d.log.rows[i].tx);
    assert Applied(u, t, t.log.rows[i].tx);
  }

  lemma FreshSame(u: Setup, d: Desk, t: Desk)
    requires FreshCopy(u, d) && t.log.rows == d.log.rows && t.chain == d.chain && t.synced == d.synced
    ensures FreshCopy(u, t)
  {
  }

  /** The order's receipt and cancel mark are left alone by every call but its own. */
  lemma OthersLeaveMarks(c: V.Config, s: V.State, e: V.Event, id: V.Hash)
    requires V.Deployed(c) && S.Inv(c, s)
    requires e.Invoke? && (e.call.Record? || e.call.Cancel?) ==> e.call.id != id || !e.host.notary
    ensures var t := V.Step(c, s, e);
            && (id in s.orders ==> id in t.orders && t.orders[id].receipt == s.orders[id].receipt
                                   && t.orders[id].cancelledAt == s.orders[id].cancelledAt)
            && (id !in s.orders && id in t.orders ==> t.orders[id].receipt.None? && t.orders[id].cancelledAt.None?)
  {
    hide V.Deployed, S.OrderOk, S.ReceiptIndexOk, S.FundingIndexOk, S.MovesOk, S.ReserveOk, S.GrantsOk, V.AcceptableTerms,
         S.Destination, V.Balance, V.CreateCall, V.FundCall, V.AuthorizeCall, V.SettleCall, V.RefundCall, V.SubmitCall,
         V.Release;
    if e.Invoke? {
      if e.call.Submit? {
        S.SubmitEffect(c, e.host, s, e.call.subject, e.call.lengthsOk, e.call.inputs);
      } else {
        S.StoredPaysOutside(c, s, e.call.id);
        S.CallEffect(c, e.host, s, e.call);
      }
    }
  }

  /** An applied cancel shows in the present state. */
  lemma PresentShows(u: Setup, d: Desk, tx: E.Tx)
    requires Core(u, d) && CancelSeen(u, d) && Applied(u, d, tx)
    ensures Cancelled(u, d.vault)
  {
    hide S.Inv, E.LogOk, E.RowsTrue, E.PersistedFirst, Linked, T.Extends, Cancelled;
    assert d.past[|d.past| - 1].now >= d.log.ledger.included[tx].at;
  }

  /** A new state that keeps the cancel mark shows what the present one shows. */
  lemma SeenGrows(u: Setup, d: Desk, t: Desk)
    requires Core(u, d) && CancelSeen(u, d)
    requires t.past == d.past + [t.vault] && t.log.ledger.included == d.log.ledger.included
    requires Cancelled(u, d.vault) ==> Cancelled(u, t.vault)
    ensures CancelSeen(u, t)
  {
    hide Core, Cancelled;
    forall tx, k | Applied(u, t, tx) && 0 <= k < |t.past| && t.past[k].now >= t.log.ledger.included[tx].at
      ensures Cancelled(u, t.past[k])
    {
      assert Applied(u, d, tx);
      if k == |d.past| { PresentShows(u, d, tx); }
    }
  }

  lemma CoreParts(u: Setup, d: Desk)
    requires Core(u, d)
    ensures S.Inv(u.config, d.vault) && E.Inv(d.log) && d.vault.now == d.log.ledger.closeTime
  {
    hide S.Inv, E.Inv, Linked, T.Extends;
  }

  lemma WorldKeeps(u: Setup, d: Desk, e: V.Event)
    requires V.Deployed(u.config) && Inv(u, d)
    ensures Inv(u, Step(u, d, World(e)))
  {
    hide V.Deployed, V.Step, S.Inv, Core, LogFits, CancelSeen, CancelApplied, FreshCopy;
    WorldKeepsCore(u, d, e);
    CoreParts(u, d);
    if !e.Wait? && !NotaryCall(u, e) {
      OthersLeaveMarks(u.config, d.vault, e, u.id);
      var t := Step(u, d, World(e));
      FitsSame(u, d, t);
      SeenGrows(u, d, t);
      FreshSame(u, d, t);
      if Cancelled(u, d.vault) { AppliedSame(u, d, t); }
    }
  }

  // ------------------------------------------------------------------------ closing

  lemma AppliedIsLogged(u: Setup, d: Desk, tx: E.Tx) returns (i: nat)
    requires Core(u, d) && tx in d.log.ledger.submitted
    ensures i < |d.log.rows| && d.log.rows[i].tx == tx
  {
    hide S.Inv, PastOk, Linked, E.LedgerOk, E.LogOk, E.RowsTrue;
    assert E.Recorded(d.log.rows, tx);
    i :| 0 <= i < |d.log.rows| && d.log.rows[i].tx == tx;
  }

  /** What a closed ledger applies, and what it records of it. */
  lemma CloseParts(u: Setup, d: Desk, time: nat, applied: Option<E.Tx>, host: V.Host)
    requires time > d.log.ledger.closeTime && time < Policy.U64_MAX
    ensures var t := Close(u, d, time, applied, host); var l := d.log.ledger; var aged := d.vault.(now := time);
            && t.past == d.past + [t.vault] && t.log.rows == d.log.rows && t.log.pc == d.log.pc
            && t.event == d.event && t.chain == d.chain && t.synced == d.synced
            && (if applied.Some? && Eligible(l, applied.value, time) then
                  && t.vault == Apply(u, aged, host, applied.value).state
                  && t.log.ledger.included
                     == l.included[applied.value := E.Inclusion(time, !Apply(u, aged, host, applied.value).reply.Failed?)]
                else t.vault == aged && t.log.ledger.included == l.included)
  {
    hide V.Apply, Apply, E.Step;
    var aged := d.vault.(now := time);
    if applied.Some? && Eligible(d.log.ledger, applied.value, time) {
      EngineApplies(u.window, d.log, time, applied.value, !Apply(u, aged, host, applied.value).reply.Failed?);
    } else {
      EngineAges(u.window, d.log, time);
    }
  }

  lemma EngineApplies(window: nat, s: E.State, time: nat, tx: E.Tx, ok: bool)
    requires time > s.ledger.closeTime && Eligible(s.ledger, tx, time)
    ensures var t := E.Step(window, s, E.CloseLedger(time, map[tx := ok]));
            && t.rows == s.rows && t.pc == s.pc
            && t.ledger.included == s.ledger.included[tx := E.Inclusion(time, ok)]
  {
    var l := E.Close(s.ledger, time, map[tx := ok]);
    assert l.included == s.ledger.included[tx := E.Inclusion(time, ok)];
  }

  lemma EngineAges(window: nat, s: E.State, time: nat)
    requires time > s.ledger.closeTime
    ensures var t := E.Step(window, s, E.CloseLedger(time, map[]));
            t.rows == s.rows && t.pc == s.pc && t.ledger.included == s.ledger.included
  {
    assert E.Close(s.ledger, time, map[]).included == s.ledger.included;
  }

  /** Sending an envelope that is applied at its last moment, and writing down what became of it. */
  function Delivery(u: Setup, d: Desk, tx: E.Tx, host: V.Host): seq<Action> {
    [Log(E.Submit(true)), CloseLedger(tx.expiresAt, Some(tx), host)]
    + Logs(P.ReadBack(!Apply(u, d.vault.(now := tx.expiresAt), host, tx).reply.Failed?))
  }

  lemma Delivered(u: Setup, d: Desk, i: nat, host: V.Host)
    requires d.log.pc == E.Pc.Send(E.Review(true), i, []) && i < |d.log.rows|
    requires P.CanApply(d.log.ledger, d.log.rows[i].tx) && d.log.rows[i].tx.expiresAt < Policy.U64_MAX
    ensures var row := d.log.rows[i]; var r := Apply(u, d.vault.(now := row.tx.expiresAt), host, row.tx);
            var t := Run(u, d, Delivery(u, d, row.tx, host));
            && t.vault == r.state && t.event == d.event && t.log.pc.Idle? && t.log.ledger.closeTime == row.tx.expiresAt
            && t.log.rows == d.log.rows[i := row.(status := if r.reply.Failed? then E.Failed else E.Success)]
  {
    hide Run, Close, Apply, E.Run, E.Honest, P.ReadBack;
    var tx := d.log.rows[i].tx;
    var ok := !Apply(u, d.vault.(now := tx.expiresAt), host, tx).reply.Failed?;
    var waiting := d.(log := E.State(d.log.ledger.(submitted := d.log.ledger.submitted + {tx}), d.log.rows,
                                     E.Await(E.Review(true), i, [])), synced := false);
    LogStep(u, d, E.Submit(true));
    var close := CloseLedger(tx.expiresAt, Some(tx), host);
    CloseParts(u, waiting, tx.expiresAt, Some(tx), host);
    CloseTime(u, waiting, tx.expiresAt, Some(tx), host);
    var closed := Step(u, waiting, close);
    JustIncluded(u.window, closed.log.ledger, tx, ok);
    P.IsReadBack(u.window, closed.log, i, ok);
    ReadBackIsFree(ok);
    LoggedRun(u, closed, P.ReadBack(ok));
    assert [Log(E.Submit(true)), close] + Logs(P.ReadBack(ok)) == [Log(E.Submit(true))] + ([close] + Logs(P.ReadBack(ok)));
    RunCons(u, d, Log(E.Submit(true)), [close] + Logs(P.ReadBack(ok)));
    RunCons(u, waiting, close, Logs(P.ReadBack(ok)));
  }

  lemma ReadBackIsFree(ok: bool)
    ensures P.ReadBack(ok) != [] && forall i :: 0 <= i < |P.ReadBack(ok)| ==> Free(P.ReadBack(ok)[i])
  {
  }

  lemma JustIncluded(window: nat, l: E.Ledger, tx: E.Tx, ok: bool)
    requires tx in l.included && l.included[tx] == E.Inclusion(l.closeTime, ok)
    ensures E.Honest(window, l, tx, E.Found(ok))
  {
  }

  /** An applied cancel call leaves the order cancelled; anything but its own calls leaves its marks. */
  lemma ApplyMarks(u: Setup, s: V.State, host: V.Host, tx: E.Tx)
    requires V.Deployed(u.config) && S.Inv(u.config, s)
    ensures var r := Apply(u, s, host, tx);
            && (Cancelled(u, s) ==> Cancelled(u, r.state))
            && (u.callOf(tx) == V.Cancel(u.id) && !r.reply.Failed? ==> Cancelled(u, r.state))
            && (Cancelled(u, r.state) && !Cancelled(u, s) ==> u.callOf(tx) == V.Cancel(u.id) && !r.reply.Failed?)
            && (Received(u, r.state) && !Received(u, s) ==> u.callOf(tx).Record? && u.callOf(tx).id == u.id)
  {
    hide V.Deployed, S.Inv, V.CancelCall, V.RecordCall, V.CreateCall, V.FundCall, V.AuthorizeCall, V.SettleCall, V.RefundCall,
         V.SubmitCall;
    var call, h := u.callOf(tx), host.(provider := true, notary := true);
    if call.Cancel? && call.id == u.id {
      CancelOutcome(u, s, h);
    } else if call.Record? && call.id == u.id {
      RecordOutcome(u, s, h, call.receipt);
    } else {
      assert V.Step(u.config, s, V.Invoke(h, call)) == Apply(u, s, host, tx).state;
      OthersLeaveMarks(u.config, s, V.Invoke(h, call), u.id);
    }
  }

  lemma CancelOutcome(u: Setup, s: V.State, h: V.Host)
    ensures var r := V.CancelCall(u.config, h, s, u.id);
            && (!r.reply.Failed? ==> Cancelled(u, r.state)) && (r.reply.Failed? ==> r.state == s)
            && (Received(u, r.state) ==> Received(u, s))
  {
    hide V.Balance;
  }

  lemma RecordOutcome(u: Setup, s: V.State, h: V.Host, receipt: V.Receipt)
    ensures var r := V.RecordCall(u.config, h, s, u.id, receipt); Cancelled(u, r.state) <==> Cancelled(u, s)
  {
  }

  lemma CloseKeeps(u: Setup, d: Desk, time: nat, applied: Option<E.Tx>, host: V.Host)
    requires V.Deployed(u.config) && Inv(u, d)
    ensures Inv(u, Close(u, d, time, applied, host))
  {
    hide V.Deployed, Core, Close, Apply, LogFits, CancelSeen, CancelApplied, FreshCopy, Cancelled, Received, S.Inv, E.Inv;
    CloseKeepsCore(u, d, time, applied, host);
    if time > d.log.ledger.closeTime && time < Policy.U64_MAX {
      CloseParts(u, d, time, applied, host);
      AgedInv(u, d, time);
      var t := Close(u, d, time, applied, host);
      FitsSame(u, d, t);
      FreshSame(u, d, t);
      SameOrders(u, d.vault, time);
      if applied.Some? && Eligible(d.log.ledger, applied.value, time) {
        AppliedKeeps(u, d, time, applied.value, host);
      } else {
        SeenGrows(u, d, t);
        if Cancelled(u, d.vault) { AppliedSame(u, d, t); }
      }
    } else {
      CloseEarly(u, d, time, applied, host);
    }
  }

  lemma CloseEarly(u: Setup, d: Desk, time: nat, applied: Option<E.Tx>, host: V.Host)
    requires time <= d.log.ledger.closeTime || time >= Policy.U64_MAX
    ensures Close(u, d, time, applied, host) == d
  {
  }

  lemma SameOrders(u: Setup, s: V.State, time: nat)
    ensures Cancelled(u, s.(now := time)) == Cancelled(u, s) && Received(u, s.(now := time)) == Received(u, s)
  {
  }

  /** The parts that an applied envelope can change. */
  lemma AppliedKeeps(u: Setup, d: Desk, time: nat, tx: E.Tx, host: V.Host)
    requires V.Deployed(u.config) && Inv(u, d)
    requires time > d.log.ledger.closeTime && time < Policy.U64_MAX && Eligible(d.log.ledger, tx, time)
    ensures var t := Close(u, d, time, Some(tx), host);
            && CancelSeen(u, t) && (Cancelled(u, t.vault) ==> CancelApplied(u, t))
            && (t.event.None? ==> !Received(u, t.vault))
  {
    hide V.Deployed, Core, Close, Apply, LogFits, CancelSeen, CancelApplied, FreshCopy, Cancelled, Received, S.Inv, E.Inv;
    CloseParts(u, d, time, Some(tx), host);
    AgedInv(u, d, time);
    SameOrders(u, d.vault, time);
    var aged, t := d.vault.(now := time), Close(u, d, time, Some(tx), host);
    ApplyMarks(u, aged, host, tx);
    var i := AppliedIsLogged(u, d, tx);
    RecordNeedsEvent(u, d, i);
    SeenApplied(u, d, t, time, tx);
    if Cancelled(u, d.vault) {
      AppliedSame(u, d, t);
    } else if Cancelled(u, t.vault) {
      NewlyApplied(u, t, i);
    }
  }

  lemma RecordNeedsEvent(u: Setup, d: Desk, i: nat)
    requires LogFits(u, d) && i < |d.log.rows|
    ensures u.callOf(d.log.rows[i].tx).Record? && u.callOf(d.log.rows[i].tx).id == u.id ==> d.event.Some?
  {
    hide Matches;
    assert Fits(u, d, d.log.rows[i].tx, d.log.rows[i].intent, d.log.rows[i].key);
  }

  lemma NewlyApplied(u: Setup, t: Desk, i: nat)
    requires i < |t.log.rows| && Applied(u, t, t.log.rows[i].tx)
    ensures CancelApplied(u, t)
  {
  }

  lemma SeenApplied(u: Setup, d: Desk, t: Desk, time: nat, tx: E.Tx)
    requires Core(u, d) && CancelSeen(u, d) && time > d.log.ledger.closeTime
    requires t.past == d.past + [t.vault] && tx !in d.log.ledger.included
    requires tx in t.log.ledger.included && t.log.ledger.included[tx].at == time
    requires t.log.ledger.included == d.log.ledger.included[tx := t.log.ledger.included[tx]]
    requires Cancelled(u, d.vault) || Applied(u, t, tx) ==> Cancelled(u, t.vault)
    ensures CancelSeen(u, t)
  {
    hide Core, Cancelled;
    forall x, k | Applied(u, t, x) && 0 <= k < |t.past| && t.past[k].now >= t.log.ledger.included[x].at
      ensures Cancelled(u, t.past[k])
    {
      if k < |d.past| {
        PastBefore(u, d, k);
        if x != tx { assert Applied(u, d, x); }
      } else if x != tx {
        assert Applied(u, d, x);
        PresentShows(u, d, x);
      }
    }
  }

  lemma PastBefore(u: Setup, d: Desk, k: nat)
    requires Core(u, d) && k < |d.past|
    ensures d.past[k].now <= d.log.ledger.closeTime
  {
    hide S.Inv, E.Inv, Linked;
  }

  lemma AgedInv(u: Setup, d: Desk, time: nat)
    requires V.Deployed(u.config) && Core(u, d) && time > d.log.ledger.closeTime && time < Policy.U64_MAX
    ensures S.Inv(u.config, d.vault.(now := time)) && d.vault.now == d.log.ledger.closeTime
  {
    hide V.Deployed, S.Inv, E.Inv, Linked, T.Extends;
    assert V.Step(u.config, d.vault, V.Wait(time)) == d.vault.(now := time);
    S.StepKeepsInv(u.config, d.vault, V.Wait(time));
  }

  // ------------------------------------------------------------------------ logging

  /** What one engine step may do to the rows: nothing, a new status, or one fitting new row. */
  lemma LogParts(u: Setup, d: Desk, e: E.Event)
    requires E.Inv(d.log) && MayLog(u, d, e)
    ensures var t := E.Step(u.window, d.log, e);
            && t.ledger.included == d.log.ledger.included
            && |d.log.rows| <= |t.rows| <= |d.log.rows| + 1
            && (forall i :: 0 <= i < |d.log.rows| ==> E.RowExtends(d.log.rows[i], t.rows[i]))
            && (|t.rows| > |d.log.rows| ==>
                  && e.Insert? && e.prepared.Some? && d.log.pc.Scan? && d.log.pc.job.Perform?
                  && var row := t.rows[|d.log.rows|];
                  && row.tx == e.prepared.value.tx && row.intent == d.log.pc.job.intent && row.key == d.log.pc.job.key)
            && (!t.pc.Idle? ==> t.pc.job.Review? || (e.Begin? && t.pc.job == e.job) || (!d.log.pc.Idle? && t.pc.job == d.log.pc.job))
  {
    hide E.Honest, E.Verdict, E.Previous, E.LedgerOk, E.RowsTrue, E.PersistedFirst, E.SomeInFlight, E.Recorded, Fits, MayUndo;
    E.StepExtends(u.window, d.log, e);
  }

  lemma LogKeepsFits(u: Setup, d: Desk, e: E.Event)
    requires E.Inv(d.log) && MayLog(u, d, e) && LogFits(u, d)
    ensures LogFits(u, d.(log := E.Step(u.window, d.log, e), synced := false, requested := d.requested && !BeginsUndo(u, e)))
  {
    LogParts(u, d, e);
    hide E.Step, E.Inv, Matches, MayUndo;
    var t := d.(log := E.Step(u.window, d.log, e), synced := false, requested := d.requested && !BeginsUndo(u, e));
    forall i | 0 <= i < |t.log.rows| ensures Fits(u, t, t.log.rows[i].tx, t.log.rows[i].intent, t.log.rows[i].key) {
      if i < |d.log.rows| {
        assert E.RowExtends(d.log.rows[i], t.log.rows[i]);
        assert Fits(u, d, d.log.rows[i].tx, d.log.rows[i].intent, d.log.rows[i].key);
      }
    }
  }

  lemma LogKeeps(u: Setup, d: Desk, e: E.Event)
    requires V.Deployed(u.config) && Inv(u, d)
    ensures Inv(u, Step(u, d, Log(e)))
  {
    hide V.Deployed, Core, E.Step, E.Inv, LogFits, CancelSeen, CancelApplied, Cancelled, Received, MayLog;
    StepKeepsCore(u, d, Log(e));
    CoreParts(u, d);
    if MayLog(u, d, e) {
      LogParts(u, d, e);
      LogKeepsFits(u, d, e);
      UndoStillFirst(u, d, e);
      var t := Step(u, d, Log(e));
      SeenSame(u, d, t);
      if Cancelled(u, d.vault) {
        assert forall i :: 0 <= i < |d.log.rows| ==> E.RowExtends(d.log.rows[i], t.log.rows[i]);
        AppliedSame(u, d, t);
      }
    }
  }

  lemma UndoStillFirst(u: Setup, d: Desk, e: E.Event)
    requires E.Inv(d.log) && MayLog(u, d, e) && UndoFirst(u, d)
    ensures UndoFirst(u, d.(log := E.Step(u.window, d.log, e), synced := false, requested := d.requested && !BeginsUndo(u, e)))
  {
    LogParts(u, d, e);
    hide E.Step, Fits, E.Inv;
  }

  lemma SyncKeeps(u: Setup, d: Desk, k: nat)
    requires V.Deployed(u.config) && Inv(u, d)
    ensures Inv(u, Step(u, d, Sync(k)))
  {
    hide V.Deployed, Core, LogFits, CancelSeen, CancelApplied, FreshCopy, Cancelled, Received;
    StepKeepsCore(u, d, Sync(k));
    if MaySync(u, d, k) {
      var t := Step(u, d, Sync(k));
      FitsSame(u, d, t);
      SeenSame(u, d, t);
      if Cancelled(u, d.vault) { AppliedSame(u, d, t); }
      SyncIsFresh(u, d, k);
    }
  }

  lemma SyncIsFresh(u: Setup, d: Desk, k: nat)
    requires Core(u, d) && LogFits(u, d) && CancelSeen(u, d) && MaySync(u, d, k)
    ensures FreshCopy(u, d.(chain := Some(d.past[k].orders[u.id]), readAt := k, synced := true))
  {
    hide Core;
    forall i | 0 <= i < |d.log.rows| && CancelRow(u, d.log.rows[i]) && d.log.rows[i].status.Success?
      ensures d.past[k].orders[u.id].cancelledAt.Some?
    {
      assert Fits(u, d, d.log.rows[i].tx, d.log.rows[i].intent, d.log.rows[i].key);
      StatusHolds(u, d, i);
      assert Applied(u, d, d.log.rows[i].tx);
      assert Cancelled(u, d.past[k]);
    }
  }

  lemma StatusHolds(u: Setup, d: Desk, i: nat)
    requires Core(u, d) && i < |d.log.rows|
    ensures E.StatusTrue(d.log.ledger, d.log.rows[i].status, d.log.rows[i].tx)
  {
    hide S.Inv, PastOk, Linked, E.LogOk, E.LedgerOk, E.PersistedFirst;
  }

  lemma StoreKeeps(u: Setup, d: Desk, eventId: V.Hash, ledgerTime: nat, ready: bool)
    requires V.Deployed(u.config) && Inv(u, d)
    ensures Inv(u, Step(u, d, StoreEvent(eventId, ledgerTime, ready)))
  {
    hide V.Deployed, Core, LogFits, CancelSeen, CancelApplied, FreshCopy, Cancelled, Received;
    StepKeepsCore(u, d, StoreEvent(eventId, ledgerTime, ready));
    if MayStore(d, eventId, ledgerTime, ready) {
      SameMarks(u, d, Step(u, d, StoreEvent(eventId, ledgerTime, ready)));
    }
  }

  /** The row's own fields do not matter to what the log and the vault show. */
  lemma SameMarks(u: Setup, d: Desk, t: Desk)
    requires Marks(u, d) && (t.event == d.event || d.event.None?)
    requires t.log == d.log && t.vault == d.vault && t.past == d.past && t.chain == d.chain && t.synced == d.synced
    requires t.event == d.event || t.log.pc.Idle?
    ensures Marks(u, t)
  {
    hide LogFits, CancelSeen, CancelApplied, FreshCopy, Cancelled, Received;
    FitsSame(u, d, t);
    SeenSame(u, d, t);
    FreshSame(u, d, t);
    if Cancelled(u, d.vault) { AppliedSame(u, d, t); }
  }

  lemma RequestKeeps(u: Setup, d: Desk)
    requires V.Deployed(u.config) && Inv(u, d)
    ensures Inv(u, Step(u, d, RequestBank))
  {
    hide V.Deployed, Core, Marks;
    StepKeepsCore(u, d, RequestBank);
    SameMarks(u, d, Step(u, d, RequestBank));
  }

  lemma StepKeeps(u: Setup, d: Desk, a: Action)
    requires V.Deployed(u.config) && Inv(u, d)
    ensures Inv(u, Step(u, d, a))
  {
    hide V.Deployed, Inv, Close, Step;
    match a
    case World(e) => WorldKeeps(u, d, e);
    case CloseLedger(time, applied, host) => CloseStepKeeps(u, d, time, applied, host);
    case Log(e) => LogKeeps(u, d, e);
    case Sync(k) => SyncKeeps(u, d, k);
    case RequestBank => RequestKeeps(u, d);
    case StoreEvent(eventId, ledgerTime, ready) => StoreKeeps(u, d, eventId, ledgerTime, ready);
  }

  lemma CloseStepKeeps(u: Setup, d: Desk, time: nat, applied: Option<E.Tx>, host: V.Host)
    requires V.Deployed(u.config) && Inv(u, d)
    ensures Inv(u, Step(u, d, CloseLedger(time, applied, host)))
  {
    hide V.Deployed, Inv, Close;
    CloseKeeps(u, d, time, applied, host);
  }

  lemma {:induction false} RunKeeps(u: Setup, d: Desk, actions: seq<Action>)
    requires V.Deployed(u.config) && Inv(u, d)
    ensures Inv(u, Run(u, d, actions))
    decreases |actions|
  {
    hide V.Deployed, Inv, Step;
    if actions != [] {
      StepKeeps(u, d, actions[0]);
      RunKeeps(u, Step(u, d, actions[0]), actions[1..]);
    }
  }

  lemma ReachableInv(u: Setup, d: Desk)
    requires V.Deployed(u.config) && Reachable(u, d)
    ensures Inv(u, d)
  {
    hide V.Deployed, Core, Run, Initial;
    var d0, actions :| Initial(d0) && d == Run(u, d0, actions);
    InitialCore(u, d0);
    InitialMarks(u, d0);
    RunKeeps(u, d0, actions);
  }

  lemma InitialMarks(u: Setup, d: Desk)
    requires Initial(d)
    ensures Marks(u, d)
  {
  }

  // --------------------------------------------------------- what storing the event can lead to

  /** A prepared or pending cancel of the log whose envelope was applied, or can still be. */
  predicate LiveCancel(u: Setup, d: Desk, row: E.Row) {
    && row.intent == u.id && row.key == CANCEL && E.InFlight(row.status)
    && (E.Succeeded(d.log.ledger, row.tx) || P.CanApply(d.log.ledger, row.tx))
  }

  ghost predicate CancelInFlight(u: Setup, d: Desk) {
    exists i :: 0 <= i < |d.log.rows| && LiveCancel(u, d, d.log.rows[i])
  }

  ghost predicate EndsCancelled(u: Setup, d: Desk, actions: seq<Action>) {
    Cancelled(u, Run(u, d, actions).vault)
  }

  /** Nothing in the log can still cancel the order. */
  ghost predicate NoneLive(u: Setup, d: Desk) {
    && d.event.Some? && !Cancelled(u, d.vault)
    && forall i :: 0 <= i < |d.log.rows| && CancelRow(u, d.log.rows[i]) ==>
         !E.Succeeded(d.log.ledger, d.log.rows[i].tx) && !P.CanApply(d.log.ledger, d.log.rows[i].tx)
  }

  lemma NoneLiveLogged(u: Setup, d: Desk, e: E.Event)
    requires Inv(u, d) && NoneLive(u, d)
    ensures NoneLive(u, Step(u, d, Log(e)))
  {
    hide Core, LogFits, CancelSeen, CancelApplied, FreshCopy, Cancelled, Received, E.Step, E.Inv, Matches, MayUndo;
    CoreParts(u, d);
    if MayLog(u, d, e) {
      LogParts(u, d, e);
      NewRowIsNoCancel(u, d, e);
      var t := Step(u, d, Log(e));
      forall i | 0 <= i < |t.log.rows| && CancelRow(u, t.log.rows[i])
        ensures !E.Succeeded(t.log.ledger, t.log.rows[i].tx) && !P.CanApply(t.log.ledger, t.log.rows[i].tx)
      {
        if i < |d.log.rows| {
          assert E.RowExtends(d.log.rows[i], t.log.rows[i]);
          assert CancelRow(u, d.log.rows[i]);
        }
        LogTime(u.window, d.log, e);
      }
    }
  }

  /** With an event stored, no new cancel is logged. */
  lemma NewRowIsNoCancel(u: Setup, d: Desk, e: E.Event)
    requires E.Inv(d.log) && MayLog(u, d, e) && UndoFirst(u, d) && d.event.Some?
    ensures !e.CloseLedger?
    ensures var t := E.Step(u.window, d.log, e);
            |t.rows| > |d.log.rows| ==> !CancelRow(u, t.rows[|d.log.rows|])
  {
    LogParts(u, d, e);
    hide E.Step, E.Inv, MayUndo;
  }

  lemma NoneLiveClosed(u: Setup, d: Desk, time: nat, applied: Option<E.Tx>, host: V.Host)
    requires V.Deployed(u.config) && Inv(u, d) && NoneLive(u, d)
    ensures NoneLive(u, Close(u, d, time, applied, host))
  {
    hide V.Deployed, Core, Close, Apply, LogFits, CancelSeen, CancelApplied, FreshCopy, Cancelled, Received, S.Inv, E.Inv;
    if time > d.log.ledger.closeTime && time < Policy.U64_MAX {
      CloseParts(u, d, time, applied, host);
      AgedInv(u, d, time);
      SameOrders(u, d.vault, time);
      var t, aged := Close(u, d, time, applied, host), d.vault.(now := time);
      CloseTime(u, d, time, applied, host);
      if applied.Some? && Eligible(d.log.ledger, applied.value, time) {
        ApplyMarks(u, aged, host, applied.value);
        var j := AppliedIsLogged(u, d, applied.value);
        assert !CancelRow(u, d.log.rows[j]);
      }
    } else {
      CloseEarly(u, d, time, applied, host);
    }
  }

  lemma CloseTime(u: Setup, d: Desk, time: nat, applied: Option<E.Tx>, host: V.Host)
    requires time > d.log.ledger.closeTime && time < Policy.U64_MAX
    ensures Close(u, d, time, applied, host).log.ledger.closeTime == time
  {
    hide E.Step, Apply;
    if applied.Some? && Eligible(d.log.ledger, applied.value, time) {
      CloseSetsTime(u.window, d.log, time,
                    map[applied.value := !Apply(u, d.vault.(now := time), host, applied.value).reply.Failed?]);
    } else {
      CloseSetsTime(u.window, d.log, time, map[]);
    }
  }

  lemma NoneLiveWorld(u: Setup, d: Desk, e: V.Event)
    requires V.Deployed(u.config) && Inv(u, d) && NoneLive(u, d)
    ensures NoneLive(u, Step(u, d, World(e)))
  {
    hide V.Deployed, V.Step, S.Inv, Core, Marks;
    CoreParts(u, d);
    if !e.Wait? && !NotaryCall(u, e) {
      OthersLeaveMarks(u.config, d.vault, e, u.id);
    }
  }

  lemma NoneLiveStep(u: Setup, d: Desk, a: Action)
    requires V.Deployed(u.config) && Inv(u, d) && NoneLive(u, d)
    ensures NoneLive(u, Step(u, d, a))
  {
    hide V.Deployed, Inv, Close, MayLog, MaySync, E.Step, Cancelled, CancelRow, V.Step;
    match a
    case World(e) => NoneLiveWorld(u, d, e);
    case CloseLedger(time, applied, host) => NoneLiveClosed(u, d, time, applied, host);
    case Log(e) => NoneLiveLogged(u, d, e);
    case Sync(_) =>
    case RequestBank =>
    case StoreEvent(_, _, _) =>
  }

  lemma {:induction false} NeverCancelled(u: Setup, d: Desk, actions: seq<Action>)
    requires V.Deployed(u.config) && Inv(u, d) && NoneLive(u, d)
    ensures !EndsCancelled(u, d, actions)
    decreases |actions|
  {
    hide V.Deployed, Inv, Step, Cancelled;
    if actions != [] {
      NoneLiveStep(u, d, actions[0]);
      StepKeeps(u, d, actions[0]);
      NeverCancelled(u, Step(u, d, actions[0]), actions[1..]);
    }
  }

  /** Without a live cancel in the log, storing the event leaves nothing that could cancel. */
  lemma StoringIsSafe(u: Setup, d: Desk, eventId: V.Hash, ledgerTime: nat, ready: bool)
    requires Inv(u, d) && MayStore(d, eventId, ledgerTime, ready) && !CancelInFlight(u, d)
    ensures NoneLive(u, Step(u, d, StoreEvent(eventId, ledgerTime, ready)))
  {
    hide Core, CancelSeen, Received, E.Succeeded, P.CanApply;
    forall i | 0 <= i < |d.log.rows| && CancelRow(u, d.log.rows[i])
      ensures !E.Succeeded(d.log.ledger, d.log.rows[i].tx) && !P.CanApply(d.log.ledger, d.log.rows[i].tx)
    {
      assert Fits(u, d, d.log.rows[i].tx, d.log.rows[i].intent, d.log.rows[i].key);
      StatusHolds(u, d, i);
      if E.InFlight(d.log.rows[i].status) {
        assert !LiveCancel(u, d, d.log.rows[i]);
      } else {
        DeadIsOver(d.log.ledger, d.log.rows[i].tx);
      }
    }
  }

  lemma DeadIsOver(l: E.Ledger, tx: E.Tx)
    requires E.Dead(l, tx)
    ensures !E.Succeeded(l, tx) && !P.CanApply(l, tx)
  {
  }

  /** A deposit that the engine may still credit is open in the vault, unless it was cancelled unseen. */
  lemma CreditableIsOpen(u: Setup, d: Desk, eventId: V.Hash, ledgerTime: nat, ready: bool)
    requires Inv(u, d) && MayStore(d, eventId, ledgerTime, ready) && d.chain.value.terms.direction.Deposit?
    ensures u.id in d.vault.orders && d.vault.orders[u.id].terms.direction.Deposit?
    ensures Cancelled(u, d.vault) || V.Undoable(d.vault.orders[u.id])
  {
    hide S.Inv, E.Inv, PastOk, LogFits, CancelSeen, CancelApplied, FreshCopy, V.AcceptableTerms;
    ShapeOf(u.config, d.vault, u.id);
  }

  const HELPFUL: V.Host := V.Host(true, true, true, true, true)

  /** A cancel that can still be applied is replayed, applied, and cancels the open deposit. */
  lemma LiveCancelCancels(u: Setup, d: Desk, i: nat) returns (actions: seq<Action>)
    requires V.Deployed(u.config) && Inv(u, d) && d.log.pc.Idle?
    requires u.id in d.vault.orders && d.vault.orders[u.id].terms.direction.Deposit? && V.Undoable(d.vault.orders[u.id])
    requires i < |d.log.rows| && LiveCancel(u, d, d.log.rows[i]) && P.CanApply(d.log.ledger, d.log.rows[i].tx)
    ensures EndsCancelled(u, d, actions)
  {
    hide V.Deployed, Core, Marks, Cancelled, Run, E.Run, Apply, V.Undoable, E.Inv, S.Inv, P.Resending, Delivery;
    CoreParts(u, d);
    var tx := d.log.rows[i].tx;
    LiveFits(u, d, i);
    ResendingIsFree([i], d.log.ledger);
    P.Resent(u.window, d.log, [], i);
    assert [] + [i] == [i];
    var resend := Logs(P.Resending([i], d.log.ledger));
    LoggedRun(u, d, P.Resending([i], d.log.ledger));
    var sending := Run(u, d, resend);
    Delivered(u, sending, i, HELPFUL);
    actions := resend + Delivery(u, sending, tx, HELPFUL);
    RunAppend(u, d, resend, Delivery(u, sending, tx, HELPFUL));
    AppliedCancels(u, d.vault, tx);
  }

  lemma ResendingIsFree(todo: seq<nat>, l: E.Ledger)
    ensures P.Resending(todo, l) != [] && forall i :: 0 <= i < |P.Resending(todo, l)| ==> Free(P.Resending(todo, l)[i])
  {
  }

  lemma LiveFits(u: Setup, d: Desk, i: nat)
    requires Inv(u, d) && i < |d.log.rows| && d.log.rows[i].intent == u.id && d.log.rows[i].key == CANCEL
    ensures CancelRow(u, d.log.rows[i]) && d.log.rows[i].tx.expiresAt < Policy.U64_MAX
  {
    hide Core, CancelSeen, CancelApplied, FreshCopy;
    assert Fits(u, d, d.log.rows[i].tx, d.log.rows[i].intent, d.log.rows[i].key);
  }

  lemma AppliedCancels(u: Setup, s: V.State, tx: E.Tx)
    requires V.Deployed(u.config) && S.Inv(u.config, s) && s.now <= tx.expiresAt < Policy.U64_MAX
    requires u.id in s.orders && s.orders[u.id].terms.direction.Deposit? && V.Undoable(s.orders[u.id])
    requires u.callOf(tx) == V.Cancel(u.id)
    ensures Cancelled(u, Apply(u, s.(now := tx.expiresAt), HELPFUL, tx).state)
  {
    hide V.Deployed, S.Inv, V.CancelCall;
    S.WaitKeepsInv(u.config, s, tx.expiresAt);
    CancelMarks(u.config, HELPFUL, s.(now := tx.expiresAt), u.id);
  }

  lemma CancelMarks(c: V.Config, h: V.Host, s: V.State, id: V.Hash)
    requires V.Deployed(c) && S.Inv(c, s) && R.Helpful(h)
    requires id in s.orders && s.orders[id].terms.direction.Deposit? && V.Undoable(s.orders[id])
    ensures var t := V.CancelCall(c, h, s, id).state;
            id in t.orders && t.orders[id].cancelledAt.Some?
  {
    R.EscrowIsCovered(c, s, id);
    R.ReleaseSucceeds(c, h, s, id, s.orders[id].(cancelledAt := Some(s.now)), c.provider);
    hide S.Inv, V.Deployed, V.Release, V.Balance;
  }

  /**
   Whenever the engine may store a deposit's bank event, storing it can end with the customer credited
   and the order cancelled if and only if the action log holds a prepared or pending cancel whose
   envelope was applied or can still be.
   */
  lemma CreditedDepositExactly(u: Setup, d: Desk, eventId: V.Hash, ledgerTime: nat, ready: bool)
    requires V.Deployed(u.config) && Reachable(u, d)
    requires MayStore(d, eventId, ledgerTime, ready) && d.chain.value.terms.direction.Deposit?
    ensures Step(u, d, StoreEvent(eventId, ledgerTime, ready)).event.Some?
    ensures (exists actions :: EndsCancelled(u, Step(u, d, StoreEvent(eventId, ledgerTime, ready)), actions))
            <==> CancelInFlight(u, d)
  {
    hide Step, Run, V.Deployed, Reachable, Inv, MayStore, EndsCancelled, Cancelled, V.Undoable, E.Succeeded, P.CanApply;
    ReachableInv(u, d);
    StoredDesk(u, d, eventId, ledgerTime, ready);
    var t := Step(u, d, StoreEvent(eventId, ledgerTime, ready));
    if CancelInFlight(u, d) {
      var i :| 0 <= i < |d.log.rows| && LiveCancel(u, d, d.log.rows[i]);
      if Cancelled(u, t.vault) {
        EndsHere(u, t);
      } else if P.CanApply(d.log.ledger, d.log.rows[i].tx) {
        var actions := LiveCancelCancels(u, t, i);
      } else {
        AppliedShows(u, t, i);
        EndsHere(u, t);
      }
    } else {
      StoringIsSafe(u, d, eventId, ledgerTime, ready);
      forall actions ensures !EndsCancelled(u, t, actions) {
        NeverCancelled(u, t, actions);
      }
    }
  }

  lemma StoredDesk(u: Setup, d: Desk, eventId: V.Hash, ledgerTime: nat, ready: bool)
    requires V.Deployed(u.config) && Inv(u, d)
    requires MayStore(d, eventId, ledgerTime, ready) && d.chain.value.terms.direction.Deposit?
    ensures var t := Step(u, d, StoreEvent(eventId, ledgerTime, ready));
            && Inv(u, t) && t.event.Some? && t.log == d.log && t.log.pc.Idle? && t.vault == d.vault
            && u.id in t.vault.orders && t.vault.orders[u.id].terms.direction.Deposit?
            && (Cancelled(u, t.vault) || V.Undoable(t.vault.orders[u.id]))
  {
    hide V.Deployed, Inv, Cancelled, V.Undoable;
    CreditableIsOpen(u, d, eventId, ledgerTime, ready);
    StoreKeeps(u, d, eventId, ledgerTime, ready);
  }

  lemma EndsHere(u: Setup, d: Desk)
    requires Cancelled(u, d.vault)
    ensures EndsCancelled(u, d, [])
  {
  }

  lemma AppliedShows(u: Setup, d: Desk, i: nat)
    requires Inv(u, d) && i < |d.log.rows| && LiveCancel(u, d, d.log.rows[i])
    requires E.Succeeded(d.log.ledger, d.log.rows[i].tx)
    ensures Cancelled(u, d.vault)
  {
    hide Core, LogFits, Cancelled, FreshCopy, CancelApplied;
    LiveFits(u, d, i);
    PresentShows(u, d, d.log.rows[i].tx);
  }

  /**
   A guard that the engine could check: without a prepared or pending cancel of this order in its log,
   a stored deposit event is never followed by a cancel, in any continuation.
   */
  lemma NoPendingCancelIsSafe(u: Setup, d: Desk, eventId: V.Hash, ledgerTime: nat, ready: bool, actions: seq<Action>)
    requires V.Deployed(u.config) && Reachable(u, d)
    requires MayStore(d, eventId, ledgerTime, ready) && d.chain.value.terms.direction.Deposit?
    requires forall i :: 0 <= i < |d.log.rows| && d.log.rows[i].intent == u.id && d.log.rows[i].key == CANCEL ==>
               !E.InFlight(d.log.rows[i].status)
    ensures !EndsCancelled(u, Step(u, d, StoreEvent(eventId, ledgerTime, ready)), actions)
  {
    hide Step, Run, V.Deployed, Reachable, EndsCancelled, MayStore, E.Succeeded, P.CanApply;
    CreditedDepositExactly(u, d, eventId, ledgerTime, ready);
  }

  // ------------------------------------------------------------------- the failing case

  /** An ordinary open deposit that the engine knows, with nothing in flight. */
  predicate OpenDeposit(u: Setup, d: Desk) {
    && d.log.pc.Idle? && d.event.None? && !E.SomeInFlight(d.log.rows)
    && u.id in d.vault.orders
    && var o := d.vault.orders[u.id];
    && o.terms.direction.Deposit? && V.Undoable(o)
    && o.terms.subject in d.vault.grants && o.createdAt <= d.vault.now
  }

  /** A new cancel envelope for the order that the network can still apply. */
  predicate NewCancel(u: Setup, d: Desk, tx: E.Tx) {
    && u.callOf(tx) == V.Cancel(u.id) && tx.expiresAt < Policy.U64_MAX
    && !E.Recorded(d.log.rows, tx) && P.CanApply(d.log.ledger, tx)
    && (E.Previous(d.log.rows, u.id, CANCEL).Some? ==> !E.Previous(d.log.rows, u.id, CANCEL).value.status.Success?)
  }

  /** The cancel is logged and sent, and the answer is lost: the engine is idle again, the row pending. */
  lemma CancelGoesOut(u: Setup, d: Desk, tx: E.Tx) returns (actions: seq<Action>, t: Desk)
    requires V.Deployed(u.config) && Inv(u, d) && OpenDeposit(u, d) && NewCancel(u, d, tx) && MayUndo(u, d)
    ensures t == Run(u, d, actions) && t == d.(log := t.log, synced := false, requested := false)
    ensures t.log.ledger.included == d.log.ledger.included
    ensures |t.log.rows| == |d.log.rows| + 1 && t.log.rows[..|d.log.rows|] == d.log.rows
    ensures t.log.pc.Idle? && PendingCancel(u, t)
  {
    hide V.Deployed, Inv, Run, MayUndo, E.Run, E.Previous, E.SomeInFlight, E.Recorded, V.Undoable, P.Unanswered;
    var n, opening := |d.log.rows|, P.Opening(u.id, CANCEL, tx);
    P.Opened(u.window, d.log, u.id, CANCEL, tx);
    OpeningRun(u, d, CANCEL, tx);
    var sending := Run(u, d, [Log(opening[0]), Log(opening[1])]);
    P.LeftPending(u.window, sending.log, n);
    UnansweredIsFree();
    LoggedRun(u, sending, P.Unanswered());
    actions := [Log(opening[0]), Log(opening[1])] + Logs(P.Unanswered());
    RunAppend(u, d, [Log(opening[0]), Log(opening[1])], Logs(P.Unanswered()));
    t := Run(u, d, actions);
    NoneInFlight(d.log.rows);
    assert t.log.rows[..n] == d.log.rows;
  }

  lemma NoneInFlight(rows: seq<E.Row>)
    requires !E.SomeInFlight(rows)
    ensures forall i :: 0 <= i < |rows| ==> !E.InFlight(rows[i].status)
  {
  }

  lemma UnansweredIsFree()
    ensures forall i :: 0 <= i < |P.Unanswered()| ==> Free(P.Unanswered()[i])
    ensures P.Unanswered() != []
  {
  }

  /** The newest row is a cancel of this order that was sent, can still be applied, and got no answer. */
  predicate PendingCancel(u: Setup, d: Desk) {
    && d.log.rows != []
    && var n := |d.log.rows| - 1; var row := d.log.rows[n];
    && LiveCancel(u, d, row) && row.intent == u.id && row.status.Pending?
    && P.CanApply(d.log.ledger, row.tx) && row.tx in d.log.ledger.submitted
    && forall i :: 0 <= i < n ==> !E.InFlight(d.log.rows[i].status)
  }

  // ----------------------------------------------------------------- what `advance` does

  /** The rows of one order, oldest first. */
  function ActionsOf(rows: seq<E.Row>, intent: nat): (todo: seq<nat>)
    ensures forall k :: 0 <= k < |todo| ==> todo[k] < |rows| && rows[todo[k]].intent == intent
  {
    if rows == [] then []
    else
      var n := |rows| - 1;
      ActionsOf(rows[..n], intent) + if rows[n].intent == intent then [n] else []
  }

  /** A pass over the order's actions that finds nothing, sends the open one again and gets no answer. */
  function FruitlessPass(log: E.State, intent: nat): (es: seq<E.Event>)
    ensures es != [] && forall i :: 0 <= i < |es| ==> Free(es[i])
  {
    UnansweredIsFree();
    P.Resending(ActionsOf(log.rows, intent), log.ledger) + P.Unanswered()
  }

  /** It leaves everything as it was; only the copy of the order is no longer fresh. */
  lemma PassLeavesPending(u: Setup, d: Desk)
    requires d.log.pc.Idle? && PendingCancel(u, d)
    ensures Run(u, d, Logs(FruitlessPass(d.log, u.id))) == d.(synced := false)
  {
    hide Run, E.Run, P.Resending, P.Unanswered, P.CanApply, LiveCancel;
    var n := |d.log.rows| - 1;
    var settled := ActionsOf(d.log.rows[..n], u.id);
    P.Resent(u.window, d.log, settled, n);
    var sending := d.log.(pc := E.Pc.Send(E.Review(true), n, []));
    P.LeftPending(u.window, sending, n);
    P.RunAppend(u.window, d.log, P.Resending(settled + [n], d.log.ledger), P.Unanswered());
    LoggedRun(u, d, FruitlessPass(d.log, u.id));
    var row := d.log.rows[n];
    assert d.log.rows[n := row.(status := E.Pending)] == d.log.rows;
    assert d.log.ledger.submitted + {row.tx} == d.log.ledger.submitted;
  }

  /** The start of `advance`: the pass, then a read of the present order. */
  function Advance(d: Desk, id: V.Hash): seq<Action>
    requires d.past != []
  {
    Logs(FruitlessPass(d.log, id)) + [Sync(|d.past| - 1)]
  }

  lemma Advanced(u: Setup, d: Desk)
    requires V.Deployed(u.config) && Inv(u, d) && d.log.pc.Idle? && PendingCancel(u, d) && u.id in d.vault.orders
    ensures d.past != []
    ensures Run(u, d, Advance(d, u.id)) == d.(chain := Some(d.vault.orders[u.id]), readAt := |d.past| - 1, synced := true)
  {
    hide V.Deployed, Inv, Run, MaySync, PendingCancel;
    PastIsThere(u, d);
    var pass, k := Logs(FruitlessPass(d.log, u.id)), |d.past| - 1;
    PassLeavesPending(u, d);
    RunKeeps(u, d, pass);
    var passed := Run(u, d, pass);
    ReadPresent(u, passed);
    RunAppend(u, d, pass, [Sync(k)]);
    OneStep(u, passed, Sync(k));
  }

  lemma PastIsThere(u: Setup, d: Desk)
    requires Inv(u, d)
    ensures d.past != []
  {
    hide S.Inv, E.Inv, Linked, T.Extends, Marks;
  }

  /** Reading the order's present state is always allowed to an idle engine. */
  lemma ReadPresent(u: Setup, d: Desk)
    requires Inv(u, d) && d.log.pc.Idle? && u.id in d.vault.orders
    ensures var k := |d.past| - 1;
            && k >= 0 && MaySync(u, d, k)
            && Step(u, d, Sync(k)) == d.(chain := Some(d.vault.orders[u.id]), readAt := k, synced := true)
  {
    hide S.Inv, E.LogOk, E.RowsTrue, E.PersistedFirst, Linked, T.Extends, Marks;
  }

  /**
   For deposits the exclusion is false: from any open deposit, a cancel whose answers are lost, then
   `simulateBank`, which finds the cancel undecided in both of its passes and yet stores the event, can
   end with the customer credited and the order cancelled.
   */
  lemma CreditedDepositCanBeCancelled(u: Setup, d: Desk, tx: E.Tx, eventId: V.Hash) returns (actions: seq<Action>)
    requires V.Deployed(u.config) && Reachable(u, d) && OpenDeposit(u, d) && NewCancel(u, d, tx) && eventId != 0
    ensures Run(u, d, actions).event.Some? && EndsCancelled(u, d, actions)
  {
    hide V.Deployed, Run, Reachable, Inv, EndsCancelled, NewCancel, E.SomeInFlight, PendingCancel, Advance;
    ReachableInv(u, d);
    ReadPresent(u, d);
    var k := |d.past| - 1;
    var known := Step(u, d, Sync(k));
    SyncKeeps(u, d, k);
    UndoAllowed(u, d, known);
    SameNewCancel(u, d, known, tx);
    var sent, t := CancelGoesOut(u, known, tx);
    var toStore := [Sync(k)] + sent;
    RunCons(u, d, Sync(k), sent);
    RunKeeps(u, d, toStore);
    var last, store := StoreAfter(u, t, eventId);
    RunAppend(u, d, toStore, last);
    ReachableRun(u, d, toStore + last);
    var ready := Run(u, d, toStore + last);
    SamePending(u, t, ready);
    PendingIsInFlight(u, ready);
    CreditedDepositExactly(u, ready, eventId, d.vault.now, true);
    var after := Step(u, ready, store);
    var rest :| EndsCancelled(u, after, rest);
    ReachableInv(u, ready);
    StoreKeeps(u, ready, eventId, d.vault.now, true);
    RunKeepsEvent(u, after, rest);
    RunCons(u, ready, store, rest);
    RunAppend(u, d, toStore + last, [store] + rest);
    actions := (toStore + last) + ([store] + rest);
    EndsLater(u, d, actions, after, rest);
  }

  lemma PendingIsInFlight(u: Setup, d: Desk)
    requires PendingCancel(u, d)
    ensures CancelInFlight(u, d)
  {
    hide LiveCancel;
    assert LiveCancel(u, d, d.log.rows[|d.log.rows| - 1]);
  }

  lemma EndsLater(u: Setup, d: Desk, actions: seq<Action>, after: Desk, rest: seq<Action>)
    requires Run(u, d, actions) == Run(u, after, rest) && EndsCancelled(u, after, rest)
    ensures EndsCancelled(u, d, actions)
  {
    hide Run, Cancelled;
  }

  lemma RunKeepsEvent(u: Setup, d: Desk, actions: seq<Action>)
    requires V.Deployed(u.config) && Inv(u, d) && d.event.Some?
    ensures Run(u, d, actions).event.Some?
  {
    hide V.Deployed, Core, Marks, Run, T.Extends;
    RunKeepsCore(u, d, actions);
  }

  lemma UndoAllowed(u: Setup, d: Desk, known: Desk)
    requires OpenDeposit(u, d) && known == d.(chain := Some(d.vault.orders[u.id]), readAt := known.readAt, synced := true)
    ensures MayUndo(u, known) && OpenDeposit(u, known)
  {
  }

  lemma SameNewCancel(u: Setup, d: Desk, known: Desk, tx: E.Tx)
    requires NewCancel(u, d, tx) && known.log == d.log
    ensures NewCancel(u, known, tx)
  {
  }

  /** `simulateBank`: advance, the request, and advance again; then the event may be stored. */
  lemma StoreAfter(u: Setup, d: Desk, eventId: V.Hash) returns (actions: seq<Action>, store: Action)
    requires V.Deployed(u.config) && Inv(u, d) && d.log.pc.Idle? && PendingCancel(u, d) && d.event.None? && eventId != 0
    requires u.id in d.vault.orders && d.vault.orders[u.id].terms.direction.Deposit? && V.Undoable(d.vault.orders[u.id])
    requires d.vault.orders[u.id].terms.subject in d.vault.grants && d.vault.orders[u.id].createdAt <= d.vault.now
    ensures d.past != [] && actions == Advance(d, u.id) + ([RequestBank] + Advance(d, u.id))
    ensures store == StoreEvent(eventId, d.vault.now, true)
    ensures var t := Run(u, d, actions);
            && t.log == d.log && t.vault == d.vault && t.chain == Some(d.vault.orders[u.id])
            && MayStore(t, eventId, d.vault.now, true)
  {
    hide V.Deployed, Inv, Run, Advance, PendingCancel;
    Advanced(u, d);
    var pass := Advance(d, u.id);
    var read := Run(u, d, pass);
    RunKeeps(u, d, pass);
    var asked := Step(u, read, RequestBank);
    assert asked == read.(requested := true);
    RequestKeeps(u, read);
    SamePending(u, d, asked);
    Advanced(u, asked);
    SameAdvance(u, d, asked);
    RunCons(u, read, RequestBank, pass);
    RunAppend(u, d, pass, [RequestBank] + pass);
    actions := pass + ([RequestBank] + pass);
    store := StoreEvent(eventId, d.vault.now, true);
  }

  lemma SamePending(u: Setup, d: Desk, t: Desk)
    requires PendingCancel(u, d) && t.log == d.log
    ensures PendingCancel(u, t)
  {
    hide P.CanApply;
  }

  lemma SameAdvance(u: Setup, d: Desk, t: Desk)
    requires d.past != [] && t.past == d.past && t.log == d.log
    ensures Advance(t, u.id) == Advance(d, u.id)
  {
    hide FruitlessPass;
  }

  // ------------------------------------------------------------------- a concrete deposit

  function DemoSetup(): Setup {
    Setup(X.DemoConfig(), 7, 1000, (tx: E.Tx) => V.Cancel(7))
  }

  function DemoDesk(): Desk {
    Desk(X.DemoStart(), [X.DemoStart()], E.State(E.Ledger(10, {}, map[]), [], E.Idle), None, 0, false, false, None)
  }

  /** A proof and an order are all that it takes to reach a desk with a new order. */
  lemma DemoOrdered(u: Setup, terms: V.Terms) returns (d: Desk)
    requires u.config == X.DemoConfig() && (terms == X.DemoTerms() || terms == X.DemoWithdrawal())
    ensures V.Deployed(u.config) && Reachable(u, d)
    ensures d.log == DemoDesk().log && d.event.None? && d.chain.None? && !d.requested
    ensures d.vault.now == 10 && d.vault.receipts == map[] && d.vault.fundings == map[]
    ensures d.vault.grants == map[105 := Policy.Grant(10, 110)] && d.vault.orders == map[7 := V.NewOrder(10, terms)]
    ensures terms.direction.Withdrawal? ==> d.vault.balances == map[1 := 50] && d.vault.reserved == 0
  {
    hide V.Step, V.Deployed, Run, Initial, Step, V.NewOrder, X.DemoWithdrawal;
    var submit, create, s := X.DemoOpen(terms);
    DemoInitial();
    var d0 := DemoDesk();
    var d1 := Step(u, d0, World(submit));
    WorldStep(u, d0, submit);
    WorldStep(u, d1, create);
    d := Step(u, d1, World(create));
    RunCons(u, d0, World(submit), [World(create)]);
    OneStep(u, d1, World(create));
    assert d == Run(u, d0, [World(submit)] + [World(create)]);
  }

  lemma WorldStep(u: Setup, d: Desk, e: V.Event)
    requires e.Invoke? && (e.call.Submit? || e.call.Create?)
    ensures Step(u, d, World(e)) == Moved(d, V.Step(u.config, d.vault, e))
  {
    hide V.Step;
  }

  /** Some run reaches an open deposit with a cancel to send, so the failing case does occur. */
  lemma OpenDepositExists() returns (d: Desk, tx: E.Tx)
    ensures V.Deployed(DemoSetup().config) && Reachable(DemoSetup(), d)
    ensures OpenDeposit(DemoSetup(), d) && NewCancel(DemoSetup(), d, tx)
  {
    hide V.Deployed, Reachable, OpenDeposit, NewCancel, V.NewOrder;
    d := DemoOrdered(DemoSetup(), X.DemoTerms());
    tx := E.Tx(0, 11, 50);
    DemoIsOpen(d, tx);
  }

  lemma DemoIsOpen(d: Desk, tx: E.Tx)
    requires d.vault.orders == map[7 := V.NewOrder(10, X.DemoTerms())] && 105 in d.vault.grants && d.vault.now == 10
    requires d.log == DemoDesk().log && d.event.None? && tx == E.Tx(0, 11, 50)
    ensures OpenDeposit(DemoSetup(), d) && NewCancel(DemoSetup(), d, tx)
  {
  }

  lemma DemoInitial()
    ensures Initial(DemoDesk())
  {
  }
}
