/** The action log that drives the vault: one engine, a ledger, and an RPC node that may be stale. */
module Engine {
  import opened Wrappers

  /** A signed envelope. Its hash identifies its contents, so equal hashes are equal envelopes. */
  datatype Tx = Tx(body: nat, minTime: nat, expiresAt: nat)

  datatype Inclusion = Inclusion(at: nat, ok: bool)

  /** The network: envelopes it has seen, and what it applied at which ledger close time. */
  datatype Ledger = Ledger(closeTime: nat, submitted: set<Tx>, included: map<Tx, Inclusion>)

  /** An RPC answer for one hash; a miss reports the close times bounding the node's history window. */
  datatype RpcReply = Found(ok: bool) | NotFound(oldest: nat, latest: nat)

  datatype Status = Prepared | Pending | Success | Failed

  datatype Bounds = Bounds(minTime: nat, expiresAt: nat)

  datatype Row = Row(intent: nat, key: nat, tx: Tx, minTime: nat, status: Status)

  predicate InFlight(status: Status) {
    status.Prepared? || status.Pending?
  }

  // --------------------------------------------------------------------------- verdicts

  /** `transaction`: a miss is final only when the node's window spans the whole validity interval. */
  function Verdict(reply: RpcReply, bounds: Option<Bounds>): Status {
    match reply
    case Found(ok) => if ok then Success else Failed
    case NotFound(oldest, latest) =>
      if bounds.Some? && latest > bounds.value.expiresAt && oldest <= bounds.value.minTime then Failed else Pending
  }

  /**
   What a correct, possibly lagging node may answer. Its history is finite: no node reaches further
   back than `window` seconds before the present.
   */
  predicate Honest(window: nat, l: Ledger, tx: Tx, reply: RpcReply) {
    match reply
    case Found(ok) => tx in l.included && l.included[tx].ok == ok && l.included[tx].at + window >= l.closeTime
    case NotFound(oldest, latest) =>
      && latest <= l.closeTime && oldest + window >= l.closeTime
      && !(tx in l.included && oldest <= l.included[tx].at <= latest)
  }

  predicate Succeeded(l: Ledger, tx: Tx) {
    tx in l.included && l.included[tx].ok
  }

  /** Applied without success, or not applied and too late to be. */
  predicate Dead(l: Ledger, tx: Tx) {
    if tx in l.included then !l.included[tx].ok else l.closeTime > tx.expiresAt
  }

  /** Envelopes are applied only inside their time bounds, and only once seen by the network. */
  ghost predicate LedgerOk(l: Ledger) {
    forall tx :: tx in l.included ==>
      tx in l.submitted && tx.minTime <= l.included[tx].at <= tx.expiresAt && l.included[tx].at <= l.closeTime
  }

  predicate StatusTrue(l: Ledger, status: Status, tx: Tx) {
    && (status.Success? ==> Succeeded(l, tx))
    && (status.Failed? ==> Dead(l, tx))
  }

  lemma VerdictTrue(window: nat, l: Ledger, tx: Tx, reply: RpcReply, minTime: nat, bounded: bool)
    requires LedgerOk(l) && Honest(window, l, tx, reply) && minTime <= tx.minTime
    ensures StatusTrue(l, Verdict(reply, if bounded then Some(Bounds(minTime, tx.expiresAt)) else None), tx)
  {
  }

  /**
   The window test is exact: a miss proves the envelope dead in every ledger that could have given
   that answer, if and only if the reported window covers its time bounds.
   */
  lemma MissProvesDeathExactly(tx: Tx, oldest: nat, latest: nat)
    requires tx.minTime <= tx.expiresAt
    ensures Verdict(NotFound(oldest, latest), Some(Bounds(tx.minTime, tx.expiresAt))).Failed?
            <==> forall window, l :: LedgerOk(l) && Honest(window, l, tx, NotFound(oldest, latest)) ==> Dead(l, tx)
  {
    if latest <= tx.expiresAt {
      var waiting := Ledger(latest, {}, map[]);
      assert LedgerOk(waiting) && Honest(latest, waiting, tx, NotFound(oldest, latest)) && !Dead(waiting, tx);
    } else if oldest > tx.minTime {
      var forgotten := Ledger(latest, {tx}, map[tx := Inclusion(tx.minTime, true)]);
      assert LedgerOk(forgotten) && Honest(latest, forgotten, tx, NotFound(oldest, latest)) && !Dead(forgotten, tx);
    }
  }

  // ------------------------------------------------------------------------ the machine

  /** `perform` for one action key, or a plain reconciliation pass (`replay` off in `refund`). */
  datatype Job = Perform(intent: nat, key: nat) | Review(replay: bool)

  /** Where the engine is between two observable effects; everything here is lost in a crash. */
  datatype Pc =
    | Idle
    | Scan(job: Job, todo: seq<nat>)
    | Send(job: Job, row: nat, rest: seq<nat>)
    | Await(job: Job, row: nat, rest: seq<nat>)
    | Save(job: Job, row: nat, rest: seq<nat>, status: Status)

  datatype State = State(ledger: Ledger, rows: seq<Row>, pc: Pc)

  /** A newly signed envelope; older ones carry no recorded lower time bound. */
  datatype Envelope = Envelope(tx: Tx, recordsMinTime: bool)

  datatype Event =
    | Begin(job: Job, todo: seq<nat>)
    | Query(reply: RpcReply)
    | Submit(delivered: bool)
    | Poll(answer: Option<RpcReply>)
    | Write
    | Insert(prepared: Option<Envelope>)
    | Crash
    | CloseLedger(time: nat, results: map<Tx, bool>)

  function InFlightRows(rows: seq<Row>, from: nat): seq<nat>
    requires from <= |rows|
    decreases |rows| - from
  {
    if from == |rows| then []
    else (if InFlight(rows[from].status) then [from] else []) + InFlightRows(rows, from + 1)
  }

  /** The newest row of the action, if any. */
  function Previous(rows: seq<Row>, intent: nat, key: nat): Option<Row> {
    if rows == [] then None
    else
      var last := rows[|rows| - 1];
      if last.intent == intent && last.key == key then Some(last) else Previous(rows[..|rows| - 1], intent, key)
  }

  predicate SomeInFlight(rows: seq<Row>) {
    exists i :: 0 <= i < |rows| && InFlight(rows[i].status)
  }

  predicate Recorded(rows: seq<Row>, tx: Tx) {
    exists i :: 0 <= i < |rows| && rows[i].tx == tx
  }

  /** Ledger close: strictly later, and applying only seen, unapplied, currently valid envelopes. */
  function Close(l: Ledger, time: nat, results: map<Tx, bool>): Ledger {
    if time <= l.closeTime then l
    else
      l.(closeTime := time,
         included := l.included + map tx | tx in results && tx in l.submitted && tx !in l.included
                                           && tx.minTime <= time <= tx.expiresAt :: Inclusion(time, results[tx]))
  }

  /** The tail of `perform` once every row in flight has been reconciled. */
  function InsertStep(s: State, intent: nat, key: nat, prepared: Option<Envelope>): State {
    var previous := Previous(s.rows, intent, key);
    if previous.Some? && previous.value.status.Success? then s.(pc := Idle)
    else if SomeInFlight(s.rows) || prepared.None? || Recorded(s.rows, prepared.value.tx) then s.(pc := Idle)
    else
      var tx := prepared.value.tx;
      var minTime := if prepared.value.recordsMinTime then tx.minTime else 0;
      s.(rows := s.rows + [Row(intent, key, tx, minTime, Prepared)], pc := Send(Review(true), |s.rows|, []))
  }

  function Step(window: nat, s: State, e: Event): State {
    match e
    case Crash => s.(pc := Idle)
    case CloseLedger(time, results) => s.(ledger := Close(s.ledger, time, results))
    case Begin(job, todo) =>
      if !s.pc.Idle? then s
      else if job.Perform? then s.(pc := Scan(job, InFlightRows(s.rows, 0)))
      else s.(pc := Scan(job, todo))
    case Query(reply) =>
      if !s.pc.Scan? || s.pc.todo == [] then s
      else
        var i, rest := s.pc.todo[0], s.pc.todo[1..];
        if i >= |s.rows| || !InFlight(s.rows[i].status) then s.(pc := Scan(s.pc.job, rest))
        else if !Honest(window, s.ledger, s.rows[i].tx, reply) then s
        else
          var verdict := Verdict(reply, Some(Bounds(s.rows[i].minTime, s.rows[i].tx.expiresAt)));
          if verdict.Pending? && (s.pc.job.Perform? || s.pc.job.replay) then s.(pc := Send(s.pc.job, i, rest))
          else s.(pc := Save(s.pc.job, i, rest, verdict))
    case Submit(delivered) =>
      if !s.pc.Send? || s.pc.row >= |s.rows| then s
      else
        var seen := if delivered then s.ledger.submitted + {s.rows[s.pc.row].tx} else s.ledger.submitted;
        State(s.ledger.(submitted := seen), s.rows, Await(s.pc.job, s.pc.row, s.pc.rest))
    case Poll(reply) =>
      if !s.pc.Await? || s.pc.row >= |s.rows| then s
      else if reply.None? then s.(pc := Save(s.pc.job, s.pc.row, s.pc.rest, Pending))
      else if !Honest(window, s.ledger, s.rows[s.pc.row].tx, reply.value) then s
      else s.(pc := Save(s.pc.job, s.pc.row, s.pc.rest, Verdict(reply.value, None)))
    case Write =>
      if !s.pc.Save? || s.pc.row >= |s.rows| then s
      else State(s.ledger, s.rows[s.pc.row := s.rows[s.pc.row].(status := s.pc.status)], Scan(s.pc.job, s.pc.rest))
    case Insert(prepared) =>
      if !s.pc.Scan? || s.pc.todo != [] then s
      else if s.pc.job.Review? then s.(pc := Idle)
      else InsertStep(s, s.pc.job.intent, s.pc.job.key, prepared)
  }

  function Run(window: nat, s: State, es: seq<Event>): State
    decreases |es|
  {
    if es == [] then s else Run(window, Step(window, s, es[0]), es[1..])
  }

  predicate Initial(s: State) {
    s.rows == [] && s.pc.Idle? && s.ledger.included == map[] && s.ledger.submitted == {}
  }

  // ---------------------------------------------------------------------- the invariant

  predicate SameAction(a: Row, b: Row) {
    a.intent == b.intent && a.key == b.key
  }

  /** Only the newest row can be in flight, and of one action only the newest can be other than failed. */
  ghost predicate LogOk(rows: seq<Row>) {
    && (forall i, j :: 0 <= i < j < |rows| ==> rows[i].tx != rows[j].tx)
    && (forall i :: 0 <= i < |rows| - 1 ==> !InFlight(rows[i].status))
    && (forall i, j :: 0 <= i < j < |rows| && SameAction(rows[i], rows[j]) ==> rows[i].status.Failed?)
    && (forall i :: 0 <= i < |rows| ==> rows[i].minTime <= rows[i].tx.minTime)
  }

  ghost predicate RowsTrue(l: Ledger, rows: seq<Row>) {
    forall i :: 0 <= i < |rows| ==> StatusTrue(l, rows[i].status, rows[i].tx)
  }

  /** Whatever the network has seen was written to the log before. */
  ghost predicate PersistedFirst(l: Ledger, rows: seq<Row>) {
    forall tx :: tx in l.submitted ==> Recorded(rows, tx)
  }

  predicate PcOk(s: State) {
    && (s.pc.Send? || s.pc.Await? || s.pc.Save? ==> s.pc.row < |s.rows| && InFlight(s.rows[s.pc.row].status))
    && (s.pc.Save? ==> StatusTrue(s.ledger, s.pc.status, s.rows[s.pc.row].tx))
  }

  ghost predicate Inv(s: State) {
    LedgerOk(s.ledger) && LogOk(s.rows) && RowsTrue(s.ledger, s.rows) && PersistedFirst(s.ledger, s.rows) && PcOk(s)
  }

  lemma CloseKeeps(l: Ledger, time: nat, results: map<Tx, bool>)
    requires LedgerOk(l)
    ensures LedgerOk(Close(l, time, results)) && Close(l, time, results).submitted == l.submitted
    ensures forall tx, status :: StatusTrue(l, status, tx) ==> StatusTrue(Close(l, time, results), status, tx)
  {
  }

  lemma {:induction false} NoneBefore(rows: seq<Row>, intent: nat, key: nat)
    requires LogOk(rows) && !SomeInFlight(rows)
    requires var p := Previous(rows, intent, key); p.None? || !p.value.status.Success?
    ensures forall i :: 0 <= i < |rows| && rows[i].intent == intent && rows[i].key == key ==> rows[i].status.Failed?
  {
    if rows != [] {
      var last, front := rows[|rows| - 1], rows[..|rows| - 1];
      assert !InFlight(last.status);
      if last.intent != intent || last.key != key {
        forall i | 0 <= i < |front| ensures !InFlight(front[i].status) { assert front[i] == rows[i]; }
        LogOkFront(rows);
        NoneBefore(front, intent, key);
        assert forall i :: 0 <= i < |front| ==> front[i] == rows[i];
      } else {
        forall i | 0 <= i < |rows| - 1 && rows[i].intent == intent && rows[i].key == key
          ensures rows[i].status.Failed?
        {
          assert SameAction(rows[i], last);
        }
      }
    }
  }

  lemma LogOkFront(rows: seq<Row>)
    requires LogOk(rows) && rows != []
    ensures LogOk(rows[..|rows| - 1])
  {
  }

  lemma InsertKeeps(s: State, intent: nat, key: nat, prepared: Option<Envelope>)
    requires Inv(s)
    ensures Inv(InsertStep(s, intent, key, prepared))
  {
    hide LogOk, LedgerOk, RowsTrue, PersistedFirst, StatusTrue, Previous, SomeInFlight, Recorded;
    var t := InsertStep(s, intent, key, prepared);
    if t.rows != s.rows {
      AppendKeepsLog(s.rows, t.rows[|s.rows|]);
      AppendKeepsTruth(s.ledger, s.rows, t.rows[|s.rows|]);
    }
  }

  /** A new prepared row of an action that never succeeded, when nothing else is in flight. */
  lemma AppendKeepsLog(rows: seq<Row>, row: Row)
    requires LogOk(rows) && !SomeInFlight(rows) && !Recorded(rows, row.tx) && row.minTime <= row.tx.minTime
    requires var p := Previous(rows, row.intent, row.key); p.None? || !p.value.status.Success?
    ensures LogOk(rows + [row])
  {
    hide Previous;
    NoneBefore(rows, row.intent, row.key);
    var more := rows + [row];
    assert forall i :: 0 <= i < |rows| ==> more[i] == rows[i];
  }

  lemma AppendKeepsTruth(l: Ledger, rows: seq<Row>, row: Row)
    requires RowsTrue(l, rows) && PersistedFirst(l, rows) && row.status.Prepared?
    ensures RowsTrue(l, rows + [row]) && PersistedFirst(l, rows + [row])
  {
    var more := rows + [row];
    forall tx | tx in l.submitted ensures Recorded(more, tx) {
      var i :| 0 <= i < |rows| && rows[i].tx == tx;
      assert more[i].tx == tx;
    }
  }

  lemma SubmitKeeps(window: nat, s: State, delivered: bool)
    requires Inv(s)
    ensures Inv(Step(window, s, Submit(delivered)))
  {
  }

  lemma WriteKeeps(window: nat, s: State)
    requires Inv(s)
    ensures Inv(Step(window, s, Write))
  {
    hide StatusTrue;
    var t := Step(window, s, Write);
    if t != s {
      assert s.pc.row == |s.rows| - 1;
      forall tx | tx in t.ledger.submitted ensures Recorded(t.rows, tx) {
        var i :| 0 <= i < |s.rows| && s.rows[i].tx == tx;
        assert t.rows[i].tx == tx;
      }
    }
  }

  lemma QueryKeeps(window: nat, s: State, reply: RpcReply)
    requires Inv(s)
    ensures Inv(Step(window, s, Query(reply)))
  {
    hide LogOk, RowsTrue, PersistedFirst, StatusTrue, Verdict, Honest, LedgerOk;
    if s.pc.Scan? && s.pc.todo != [] && s.pc.todo[0] < |s.rows| {
      var row := s.rows[s.pc.todo[0]];
      RecordedMin(s, s.pc.todo[0]);
      if Honest(window, s.ledger, row.tx, reply) {
        VerdictTrue(window, s.ledger, row.tx, reply, row.minTime, true);
      }
    }
  }

  lemma RecordedMin(s: State, i: nat)
    requires Inv(s) && i < |s.rows|
    ensures s.rows[i].minTime <= s.rows[i].tx.minTime
  {
  }

  lemma PollKeeps(window: nat, s: State, reply: Option<RpcReply>)
    requires Inv(s)
    ensures Inv(Step(window, s, Poll(reply)))
  {
    hide LogOk, RowsTrue, PersistedFirst, Verdict, Honest, LedgerOk;
    if s.pc.Await? && reply.Some? && Honest(window, s.ledger, s.rows[s.pc.row].tx, reply.value) {
      VerdictTrue(window, s.ledger, s.rows[s.pc.row].tx, reply.value, 0, false);
    }
  }

  lemma StepKeeps(window: nat, s: State, e: Event)
    requires Inv(s)
    ensures Inv(Step(window, s, e))
  {
    hide LogOk, LedgerOk, Verdict, Honest;
    match e
    case CloseLedger(time, results) => CloseKeeps(s.ledger, time, results);
    case Query(reply) => QueryKeeps(window, s, reply);
    case Submit(delivered) => SubmitKeeps(window, s, delivered);
    case Poll(reply) => PollKeeps(window, s, reply);
    case Write => WriteKeeps(window, s);
    case Insert(prepared) =>
      if s.pc.Scan? && s.pc.job.Perform? {
        InsertKeeps(s, s.pc.job.intent, s.pc.job.key, prepared);
      }
    case Crash =>
    case Begin(_, _) =>
  }

  lemma {:induction false} RunKeeps(window: nat, s: State, es: seq<Event>)
    requires Inv(s)
    ensures Inv(Run(window, s, es))
    decreases |es|
  {
    hide Step, Inv;
    if es != [] {
      StepKeeps(window, s, es[0]);
      RunKeeps(window, Step(window, s, es[0]), es[1..]);
    }
  }

  // ----------------------------------------------------------------------- exactly once

  lemma ReachableInv(window: nat, s: State, es: seq<Event>)
    requires Initial(s)
    ensures Inv(Run(window, s, es))
  {
    hide Run;
    RunKeeps(window, s, es);
  }

  /**
   Over every run, with crashes, lost answers, stale nodes and replays, at most one envelope of an
   action key ever succeeds on the ledger: of all its rows, only the newest can.
   */
  lemma AtMostOneSuccess(window: nat, s: State, es: seq<Event>)
    requires Initial(s)
    ensures forall i, j :: 0 <= i < j < |Run(window, s, es).rows| && SameAction(Run(window, s, es).rows[i], Run(window, s, es).rows[j])
              ==> !Succeeded(Run(window, s, es).ledger, Run(window, s, es).rows[i].tx)
  {
    hide Run;
    ReachableInv(window, s, es);
    var t := Run(window, s, es);
    forall i, j | 0 <= i < j < |t.rows| && SameAction(t.rows[i], t.rows[j])
      ensures !Succeeded(t.ledger, t.rows[i].tx)
    {
      assert StatusTrue(t.ledger, t.rows[i].status, t.rows[i].tx);
    }
  }

  /** Globally at most one action is in flight. */
  lemma OneInFlight(window: nat, s: State, es: seq<Event>, i: nat, j: nat)
    requires Initial(s) && i < |Run(window, s, es).rows| && j < |Run(window, s, es).rows|
    requires InFlight(Run(window, s, es).rows[i].status) && InFlight(Run(window, s, es).rows[j].status)
    ensures i == j
  {
    hide Run;
    ReachableInv(window, s, es);
  }

  /** An envelope the network first sees in a step was in the log before that step. */
  lemma SubmittedWasPersisted(window: nat, s: State, es: seq<Event>, e: Event, tx: Tx)
    requires Initial(s)
    requires tx !in Run(window, s, es).ledger.submitted && tx in Step(window, Run(window, s, es), e).ledger.submitted
    ensures Recorded(Run(window, s, es).rows, tx)
  {
    hide Run, Honest, Verdict, Inv;
  }

  /** The log only grows; rows keep their identity, and a final status is never revised. */
  predicate RowExtends(a: Row, b: Row) {
    && SameAction(a, b) && b.tx == a.tx && b.minTime == a.minTime
    && (!InFlight(a.status) ==> b.status == a.status)
  }

  ghost predicate Extends(s: State, t: State) {
    && |s.rows| <= |t.rows|
    && (forall i :: 0 <= i < |s.rows| ==> RowExtends(s.rows[i], t.rows[i]))
    && s.ledger.closeTime <= t.ledger.closeTime
    && (forall tx :: tx in s.ledger.included ==> tx in t.ledger.included && t.ledger.included[tx] == s.ledger.included[tx])
  }

  lemma StepExtends(window: nat, s: State, e: Event)
    requires Inv(s)
    ensures Extends(s, Step(window, s, e))
  {
    hide Honest, Verdict, Previous, LogOk, LedgerOk, RowsTrue, PersistedFirst, StatusTrue, SomeInFlight, Recorded;
  }

  lemma {:induction false} RunExtends(window: nat, s: State, es: seq<Event>)
    requires Inv(s)
    ensures Extends(s, Run(window, s, es)) && Inv(Run(window, s, es))
    decreases |es|
  {
    hide Step, Inv;
    if es != [] {
      StepKeeps(window, s, es[0]);
      StepExtends(window, s, es[0]);
      RunExtends(window, Step(window, s, es[0]), es[1..]);
    }
  }

  /**
   A recorded outcome is true and final: a row marked failed never succeeds in any continuation,
   and a row marked successful stays applied successfully.
   */
  lemma RecordedOutcomeIsFinal(window: nat, s: State, es: seq<Event>, more: seq<Event>, i: nat)
    requires Initial(s) && i < |Run(window, s, es).rows| && !InFlight(Run(window, s, es).rows[i].status)
    ensures var t := Run(window, s, es); var u := Run(window, t, more);
            && i < |u.rows| && u.rows[i].status == t.rows[i].status
            && (Succeeded(u.ledger, t.rows[i].tx) <==> t.rows[i].status.Success?)
  {
    hide Run, LogOk, LedgerOk, PersistedFirst, PcOk;
    ReachableInv(window, s, es);
    var t := Run(window, s, es);
    RunExtends(window, t, more);
    var u := Run(window, t, more);
    assert RowExtends(t.rows[i], u.rows[i]);
    assert StatusTrue(u.ledger, u.rows[i].status, u.rows[i].tx);
  }
}
