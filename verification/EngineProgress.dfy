/** When the engine gets on: which actions in flight can still be settled, and what a lost one blocks. */
module EngineProgress {
  import opened Wrappers
  import opened Engine

  lemma RunCons(window: nat, s: State, e: Event, rest: seq<Event>)
    ensures Run(window, s, [e] + rest) == Run(window, Step(window, s, e), rest)
  {
    hide Step;
    assert ([e] + rest)[0] == e && ([e] + rest)[1..] == rest;
  }

  lemma RunNone(window: nat, s: State)
    ensures Run(window, s, []) == s
  {
  }

  lemma {:induction false} RunAppend(window: nat, s: State, a: seq<Event>, b: seq<Event>)
    ensures Run(window, s, a + b) == Run(window, Run(window, s, a), b)
    decreases |a|
  {
    hide Step;
    if a == [] {
      assert a + b == b;
    } else {
      assert (a + b)[0] == a[0] && (a + b)[1..] == a[1..] + b;
      RunAppend(window, Step(window, s, a[0]), a[1..], b);
    }
  }

  lemma RunTwo(window: nat, s: State, a: Event, b: Event)
    ensures Run(window, s, [a, b]) == Step(window, Step(window, s, a), b)
  {
    hide Run, Step;
    assert [a, b] == [a] + ([b] + []);
    RunCons(window, s, a, [b] + []);
    RunCons(window, Step(window, s, a), b, []);
    RunNone(window, Step(window, Step(window, s, a), b));
  }

  lemma RunFour(window: nat, s: State, a: Event, b: Event, c: Event, d: Event)
    ensures Run(window, s, [a, b, c, d])
            == Step(window, Step(window, Step(window, Step(window, s, a), b), c), d)
  {
    hide Run, Step;
    assert [a, b, c, d] == [a, b] + [c, d];
    RunAppend(window, s, [a, b], [c, d]);
    RunTwo(window, s, a, b);
    RunTwo(window, Run(window, s, [a, b]), c, d);
  }

  // ------------------------------------------------------------------------ pieces of runs

  /** The events that log and hold ready one new envelope. */
  function Opening(intent: nat, key: nat, tx: Tx): (es: seq<Event>)
    ensures |es| == 2
  {
    [Begin(Perform(intent, key), []), Insert(Some(Envelope(tx, true)))]
  }

  /** With nothing in flight and no earlier success of the action, a new envelope is logged. */
  lemma Opened(window: nat, s: State, intent: nat, key: nat, tx: Tx)
    requires s.pc.Idle? && !SomeInFlight(s.rows) && !Recorded(s.rows, tx)
    requires Previous(s.rows, intent, key).Some? ==> !Previous(s.rows, intent, key).value.status.Success?
    ensures Run(window, s, Opening(intent, key, tx))
            == State(s.ledger, s.rows + [Row(intent, key, tx, tx.minTime, Prepared)], Pc.Send(Review(true), |s.rows|, []))
    ensures Step(window, s, Opening(intent, key, tx)[0]) == s.(pc := Scan(Perform(intent, key), []))
  {
    hide Run, Previous, SomeInFlight, Recorded;
    NothingToScan(s.rows, 0);
    RunTwo(window, s, Begin(Perform(intent, key), []), Insert(Some(Envelope(tx, true))));
  }

  /** A reconciliation pass over `n` rows, every lookup giving the same answer. */
  function Lookups(n: nat, reply: RpcReply): (es: seq<Event>)
    ensures |es| == n && forall i :: 0 <= i < n ==> es[i] == Query(reply)
  {
    if n == 0 then [] else [Query(reply)] + Lookups(n - 1, reply)
  }

  /** Settled rows are passed over; the first open one that a miss leaves undecided is sent again. */
  lemma {:induction false} PassOver(window: nat, s: State, job: Job, todo: seq<nat>, i: nat, reply: RpcReply)
    requires s.pc == Scan(job, todo + [i]) && (job.Perform? || job.replay)
    requires forall k :: 0 <= k < |todo| && todo[k] < |s.rows| ==> !InFlight(s.rows[todo[k]].status)
    requires i < |s.rows| && InFlight(s.rows[i].status) && Honest(window, s.ledger, s.rows[i].tx, reply)
    requires Verdict(reply, Some(Bounds(s.rows[i].minTime, s.rows[i].tx.expiresAt))).Pending?
    ensures Run(window, s, Lookups(|todo| + 1, reply)) == s.(pc := Pc.Send(job, i, []))
    decreases |todo|
  {
    hide Run, Verdict, Honest;
    var rest := Lookups(|todo|, reply);
    RunCons(window, s, Query(reply), rest);
    if todo == [] {
      assert todo + [i] == [i] && [i][1..] == [];
      RunNone(window, Step(window, s, Query(reply)));
    } else {
      assert (todo + [i])[0] == todo[0] && (todo + [i])[1..] == todo[1..] + [i];
      PassOver(window, s.(pc := Scan(job, todo[1..] + [i])), job, todo[1..], i, reply);
    }
  }

  /** What a pass that finds nothing does up to sending the one open row again. */
  function Resending(todo: seq<nat>, l: Ledger): seq<Event> {
    [Begin(Review(true), todo)] + Lookups(|todo|, NotFound(l.closeTime, l.closeTime))
  }

  lemma Resent(window: nat, s: State, settled: seq<nat>, i: nat)
    requires s.pc.Idle? && i < |s.rows| && InFlight(s.rows[i].status) && CanApply(s.ledger, s.rows[i].tx)
    requires forall k :: 0 <= k < |settled| && settled[k] < |s.rows| ==> !InFlight(s.rows[settled[k]].status)
    ensures Run(window, s, Resending(settled + [i], s.ledger)) == s.(pc := Pc.Send(Review(true), i, []))
  {
    hide Run, Honest;
    var todo, miss := settled + [i], NotFound(s.ledger.closeTime, s.ledger.closeTime);
    MissIsHonest(window, s.ledger, s.rows[i].tx);
    RunCons(window, s, Begin(Review(true), todo), Lookups(|todo|, miss));
    PassOver(window, s.(pc := Scan(Review(true), todo)), Review(true), settled, i, miss);
  }

  /** A delivery whose answer is lost. */
  function Unanswered(): seq<Event> {
    [Submit(true), Poll(None), Write, Insert(None)]
  }

  lemma LeftPending(window: nat, s: State, i: nat)
    requires s.pc == Pc.Send(Review(true), i, []) && i < |s.rows|
    ensures Run(window, s, Unanswered())
            == State(s.ledger.(submitted := s.ledger.submitted + {s.rows[i].tx}),
                     s.rows[i := s.rows[i].(status := Pending)], Idle)
  {
    hide Run;
    RunFour(window, s, Submit(true), Poll(None), Write, Insert(None));
  }

  /** A pass over one row that decides it. */
  function Deciding(i: nat, reply: RpcReply): seq<Event> {
    [Begin(Review(false), [i]), Query(reply), Write, Insert(None)]
  }

  lemma Decided(window: nat, s: State, i: nat, reply: RpcReply)
    requires s.pc.Idle? && i < |s.rows| && InFlight(s.rows[i].status)
    requires Honest(window, s.ledger, s.rows[i].tx, reply)
    requires !InFlight(Verdict(reply, Some(Bounds(s.rows[i].minTime, s.rows[i].tx.expiresAt))))
    ensures Run(window, s, Deciding(i, reply))
            == State(s.ledger, s.rows[i := s.rows[i].(status := Verdict(reply, Some(Bounds(s.rows[i].minTime, s.rows[i].tx.expiresAt))))],
                     Idle)
  {
    hide Run, Verdict, Honest;
    var verdict := Verdict(reply, Some(Bounds(s.rows[i].minTime, s.rows[i].tx.expiresAt)));
    assert [i][0] == i && [i][1..] == [];
    RunFour(window, s, Begin(Review(false), [i]), Query(reply), Write, Insert(None));
    assert Step(window, s, Begin(Review(false), [i])) == s.(pc := Scan(Review(false), [i]));
    assert Step(window, s.(pc := Scan(Review(false), [i])), Query(reply)) == s.(pc := Save(Review(false), i, [], verdict));
  }

  /** An answer just given by the ledger is written down. */
  function ReadBack(ok: bool): seq<Event> {
    [Poll(Some(Found(ok))), Write] + [Insert(None)]
  }

  lemma IsReadBack(window: nat, s: State, i: nat, ok: bool)
    requires s.pc == Await(Review(true), i, []) && i < |s.rows| && Honest(window, s.ledger, s.rows[i].tx, Found(ok))
    ensures Run(window, s, ReadBack(ok))
            == State(s.ledger, s.rows[i := s.rows[i].(status := if ok then Success else Failed)], Idle)
  {
    hide Run, Honest;
    RunTwo(window, s, Poll(Some(Found(ok))), Write);
    RunAppend(window, s, [Poll(Some(Found(ok))), Write], [Insert(None)]);
    var written := Run(window, s, [Poll(Some(Found(ok))), Write]);
    assert [Insert(None)] == [Insert(None)] + [];
    RunCons(window, written, Insert(None), []);
    RunNone(window, Step(window, written, Insert(None)));
  }

  /** A delivery that is applied at the last moment, read back and written down. */
  function Answered(tx: Tx): seq<Event> {
    [Submit(true), CloseLedger(tx.expiresAt, map[tx := true])] + ReadBack(true)
  }

  lemma AnsweredIsWritten(window: nat, s: State, i: nat)
    requires s.pc == Pc.Send(Review(true), i, []) && i < |s.rows| && CanApply(s.ledger, s.rows[i].tx)
    ensures var t := Run(window, s, Answered(s.rows[i].tx));
            t.rows == s.rows[i := s.rows[i].(status := Success)] && Succeeded(t.ledger, s.rows[i].tx)
  {
    hide Run, Close, Honest, ReadBack;
    var tx := s.rows[i].tx;
    var seen := s.ledger.(submitted := s.ledger.submitted + {tx});
    var close := CloseLedger(tx.expiresAt, map[tx := true]);
    AppliedNow(window, seen, tx.expiresAt, tx);
    RunTwo(window, s, Submit(true), close);
    var waiting := State(seen, s.rows, Await(Review(true), i, []));
    assert Step(window, s, Submit(true)) == waiting;
    var applied := waiting.(ledger := Close(seen, tx.expiresAt, map[tx := true]));
    IsReadBack(window, applied, i, true);
    RunAppend(window, s, [Submit(true), close], ReadBack(true));
  }

  // ------------------------------------------------------------------ what can be settled

  predicate CanApply(l: Ledger, tx: Tx) {
    tx !in l.included && tx.minTime <= tx.expiresAt && l.closeTime < tx.expiresAt
  }

  /** The first moment, from now on, at which the envelope is too late. */
  function TooLate(l: Ledger, tx: Tx): nat {
    if l.closeTime > tx.expiresAt then l.closeTime else tx.expiresAt + 1
  }

  /**
   Some node can still tell what became of the envelope: its application is still in the history, or it
   can still be applied, or the history will still reach back to its recorded lower time bound when it
   is too late to apply it.
   */
  predicate Settleable(window: nat, l: Ledger, row: Row) {
    if row.tx in l.included then l.included[row.tx].at + window >= l.closeTime
    else CanApply(l, row.tx) || row.minTime + window >= TooLate(l, row.tx)
  }

  predicate Settles(window: nat, s: State, more: seq<Event>, i: nat) {
    i < |Run(window, s, more).rows| && !InFlight(Run(window, s, more).rows[i].status)
  }

  /** An applied envelope still in the history is found. */
  lemma SettleFound(window: nat, s: State, i: nat) returns (more: seq<Event>)
    requires s.pc.Idle? && i < |s.rows| && InFlight(s.rows[i].status)
    requires s.rows[i].tx in s.ledger.included && s.ledger.included[s.rows[i].tx].at + window >= s.ledger.closeTime
    ensures Settles(window, s, more, i)
  {
    more := DecideNow(window, s, i, Found(s.ledger.included[s.rows[i].tx].ok));
  }

  /** One reconciliation pass with a decisive answer. */
  lemma DecideNow(window: nat, s: State, i: nat, reply: RpcReply) returns (more: seq<Event>)
    requires s.pc.Idle? && i < |s.rows| && InFlight(s.rows[i].status)
    requires Honest(window, s.ledger, s.rows[i].tx, reply)
    requires !InFlight(Verdict(reply, Some(Bounds(s.rows[i].minTime, s.rows[i].tx.expiresAt))))
    ensures more == Deciding(i, reply)
    ensures Settles(window, s, more, i)
  {
    hide Run, Verdict, Honest;
    more := Deciding(i, reply);
    Decided(window, s, i, reply);
  }

  /** A miss whose history covers the time bounds fails the action. */
  lemma SettleMissed(window: nat, s: State, i: nat) returns (more: seq<Event>)
    requires s.pc.Idle? && i < |s.rows| && InFlight(s.rows[i].status)
    requires s.rows[i].tx !in s.ledger.included
    requires s.rows[i].minTime + window >= TooLate(s.ledger, s.rows[i].tx)
    ensures Settles(window, s, more, i)
  {
    var row, time := s.rows[i], TooLate(s.ledger, s.rows[i].tx);
    var late := Step(window, s, CloseLedger(time, map[]));
    var rest := DecideNow(window, late, i, NotFound(row.minTime, time));
    RunCons(window, s, CloseLedger(time, map[]), rest);
    more := [CloseLedger(time, map[])] + rest;
  }

  /** One that can still be applied is replayed, applied and found. */
  lemma SettleApplied(window: nat, s: State, i: nat) returns (more: seq<Event>)
    requires s.pc.Idle? && i < |s.rows| && InFlight(s.rows[i].status) && CanApply(s.ledger, s.rows[i].tx)
    ensures Settles(window, s, more, i)
  {
    hide Run, Answered, Resending, CanApply;
    Resent(window, s, [], i);
    assert [] + [i] == [i];
    var sending := s.(pc := Pc.Send(Review(true), i, []));
    AnsweredIsWritten(window, sending, i);
    more := Resending([i], s.ledger) + Answered(s.rows[i].tx);
    RunAppend(window, s, Resending([i], s.ledger), Answered(s.rows[i].tx));
  }

  lemma MissIsHonest(window: nat, l: Ledger, tx: Tx)
    requires CanApply(l, tx)
    ensures Honest(window, l, tx, NotFound(l.closeTime, l.closeTime))
  {
  }

  lemma AppliedNow(window: nat, l: Ledger, time: nat, tx: Tx)
    requires tx in l.submitted && tx !in l.included && l.closeTime < time && tx.minTime <= time <= tx.expiresAt
    ensures var next := Close(l, time, map[tx := true]); Succeeded(next, tx) && Honest(window, next, tx, Found(true))
  {
  }

  // --------------------------------------------------------------------- what stays lost

  /** The newest row is in flight, nothing can settle it any more, and no settled status waits to be written. */
  predicate Lost(window: nat, s: State) {
    && s.rows != []
    && var row := s.rows[|s.rows| - 1];
    && InFlight(row.status) && !Settleable(window, s.ledger, row)
    && (s.pc.Save? ==> InFlight(s.pc.status))
  }

  /** No honest answer decides a row that cannot be settled, with or without its bounds. */
  lemma NoDecision(window: nat, l: Ledger, row: Row, reply: RpcReply, bounds: Option<Bounds>)
    requires LedgerOk(l) && row.minTime <= row.tx.minTime && !Settleable(window, l, row)
    requires Honest(window, l, row.tx, reply)
    requires bounds.None? || bounds == Some(Bounds(row.minTime, row.tx.expiresAt))
    ensures Verdict(reply, bounds).Pending?
  {
  }

  lemma CloseKeepsLost(window: nat, l: Ledger, time: nat, results: map<Tx, bool>, row: Row)
    requires !Settleable(window, l, row)
    ensures !Settleable(window, Close(l, time, results), row)
  {
  }

  lemma LostStep(window: nat, s: State, e: Event)
    requires Inv(s) && Lost(window, s)
    ensures Lost(window, Step(window, s, e)) && |Step(window, s, e).rows| == |s.rows|
  {
    hide Settleable, LedgerOk, Honest, Verdict, Close, Previous;
    var n := |s.rows| - 1;
    RecordedMin(s, n);
    match e
    case CloseLedger(time, results) => CloseKeepsLost(window, s.ledger, time, results, s.rows[n]);
    case Query(reply) =>
      if Honest(window, s.ledger, s.rows[n].tx, reply) {
        NoDecision(window, s.ledger, s.rows[n], reply, Some(Bounds(s.rows[n].minTime, s.rows[n].tx.expiresAt)));
      }
    case Poll(answer) =>
      if answer.Some? && Honest(window, s.ledger, s.rows[n].tx, answer.value) {
        NoDecision(window, s.ledger, s.rows[n], answer.value, None);
      }
    case Submit(_) => SubmitKeepsLost(window, s.ledger, s.rows[n]);
    case Insert(_) =>
    case Begin(_, _) =>
    case Write =>
      if s.pc.Save? {
        InFlightIsNewest(s, s.pc.row);
        StatusIsAside(window, s.ledger, s.rows[n], s.pc.status);
      }
    case Crash =>
  }

  lemma StatusIsAside(window: nat, l: Ledger, row: Row, status: Status)
    ensures Settleable(window, l, row.(status := status)) <==> Settleable(window, l, row)
  {
  }

  lemma SubmitKeepsLost(window: nat, l: Ledger, row: Row)
    requires !Settleable(window, l, row)
    ensures forall seen: set<Tx> :: !Settleable(window, l.(submitted := seen), row)
  {
  }

  lemma {:induction false} LostForever(window: nat, s: State, es: seq<Event>)
    requires Inv(s) && Lost(window, s)
    ensures Lost(window, Run(window, s, es)) && |Run(window, s, es).rows| == |s.rows|
    decreases |es|
  {
    hide Inv, Lost, Step;
    if es != [] {
      LostStep(window, s, es[0]);
      StepKeeps(window, s, es[0]);
      LostForever(window, Step(window, s, es[0]), es[1..]);
    }
  }

  /** In every idle state the only row that can be in flight is the newest. */
  lemma InFlightIsNewest(s: State, i: nat)
    requires Inv(s) && i < |s.rows| && InFlight(s.rows[i].status)
    ensures i == |s.rows| - 1
  {
    hide LedgerOk, RowsTrue, PersistedFirst;
  }

  /**
   From an idle state an action in flight can still be settled, in some run, if and only if its
   application is still in the history, or it can still be applied, or the history still reaches back to
   its recorded lower time bound.
   */
  lemma SettleableExactly(window: nat, s0: State, es: seq<Event>, i: nat)
    requires Initial(s0) && Run(window, s0, es).pc.Idle?
    requires i < |Run(window, s0, es).rows| && InFlight(Run(window, s0, es).rows[i].status)
    ensures var s := Run(window, s0, es);
            (exists more :: Settles(window, s, more, i)) <==> Settleable(window, s.ledger, s.rows[i])
  {
    var s := Run(window, s0, es);
    ReachableInv(window, s0, es);
    InFlightIsNewest(s, i);
    hide Run, Inv, Settles;
    if Settleable(window, s.ledger, s.rows[i]) {
      var more;
      if s.rows[i].tx in s.ledger.included {
        more := SettleFound(window, s, i);
      } else if CanApply(s.ledger, s.rows[i].tx) {
        more := SettleApplied(window, s, i);
      } else {
        more := SettleMissed(window, s, i);
      }
      assert Settles(window, s, more, i);
    } else {
      forall more ensures !Settles(window, s, more, i) {
        LostForever(window, s, more);
        NotSettled(window, s, more, i);
      }
    }
  }

  lemma NotSettled(window: nat, s: State, more: seq<Event>, i: nat)
    requires i == |s.rows| - 1 && |Run(window, s, more).rows| == |s.rows| && Lost(window, Run(window, s, more))
    ensures !Settles(window, s, more, i)
  {
    hide Run, Settleable;
  }

  /**
   A lost action blocks the engine for ever: whatever happens from then on, no action of any intent is
   logged again.
   */
  lemma LostActionBlocksEverything(window: nat, s0: State, es: seq<Event>, i: nat, more: seq<Event>)
    requires Initial(s0) && Run(window, s0, es).pc.Idle?
    requires i < |Run(window, s0, es).rows| && InFlight(Run(window, s0, es).rows[i].status)
    requires !Settleable(window, Run(window, s0, es).ledger, Run(window, s0, es).rows[i])
    ensures var s, t := Run(window, s0, es), Run(window, Run(window, s0, es), more);
            && |t.rows| == |s.rows| && InFlight(t.rows[i].status)
            && forall k :: 0 <= k < i ==> t.rows[k] == s.rows[k]
  {
    var s := Run(window, s0, es);
    ReachableInv(window, s0, es);
    InFlightIsNewest(s, i);
    hide Run, Settleable, LedgerOk, RowsTrue, PersistedFirst, PcOk;
    LostForever(window, s, more);
    RunExtends(window, s, more);
    var t := Run(window, s, more);
    forall k | 0 <= k < i ensures t.rows[k] == s.rows[k] {
      assert RowExtends(s.rows[k], t.rows[k]);
    }
  }

  /** It does happen: a lost submission followed by an outage longer than the history. */
  lemma LostSubmissionBlocks(window: nat) returns (s0: State, es: seq<Event>)
    ensures Initial(s0) && Run(window, s0, es).pc.Idle? && |Run(window, s0, es).rows| == 1
    ensures InFlight(Run(window, s0, es).rows[0].status)
    ensures !Settleable(window, Run(window, s0, es).ledger, Run(window, s0, es).rows[0])
  {
    hide Run;
    var tx := Tx(0, 0, 10);
    var job := Perform(0, 0);
    s0 := State(Ledger(0, {}, map[]), [], Idle);
    var scanning := s0.(pc := Scan(job, []));
    var rows := [Row(0, 0, tx, 0, Prepared)];
    var sending := State(s0.ledger, rows, Pc.Send(Review(true), 0, []));
    var waiting := sending.(pc := Await(Review(true), 0, []));
    var idle := sending.(pc := Idle);
    var envelope := Insert(Some(Envelope(tx, true)));
    assert Step(window, s0, Begin(job, [])) == scanning;
    assert Step(window, scanning, envelope) == sending;
    assert Step(window, sending, Submit(false)) == waiting;
    assert Step(window, waiting, Crash) == idle;
    var late := Step(window, idle, CloseLedger(window + 11, map[]));
    assert late.ledger.closeTime == window + 11 && tx !in late.ledger.included && late.rows == rows;
    var e4 := [CloseLedger(window + 11, map[])] + [];
    var e3 := [Crash] + e4;
    var e2 := [Submit(false)] + e3;
    var e1 := [envelope] + e2;
    RunNone(window, late);
    RunCons(window, idle, CloseLedger(window + 11, map[]), []);
    RunCons(window, waiting, Crash, e4);
    RunCons(window, sending, Submit(false), e3);
    RunCons(window, scanning, envelope, e2);
    RunCons(window, s0, Begin(job, []), e1);
    es := [Begin(job, [])] + e1;
  }

  // ------------------------------------------------------------------- a new action succeeds

  /**
   When nothing is in flight and the action has not succeeded, any new envelope that can still be
   applied leads, in some run, to a recorded success on the ledger.
   */
  lemma ActionCanSucceed(window: nat, s0: State, es: seq<Event>, intent: nat, key: nat, tx: Tx) returns (more: seq<Event>)
    requires Initial(s0)
    requires var s := Run(window, s0, es);
             && s.pc.Idle? && !SomeInFlight(s.rows) && !Recorded(s.rows, tx)
             && (Previous(s.rows, intent, key).Some? ==> !Previous(s.rows, intent, key).value.status.Success?)
             && tx.minTime <= tx.expiresAt && s.ledger.closeTime < tx.expiresAt
    ensures var s := Run(window, s0, es); var t := Run(window, s, more);
            && |t.rows| == |s.rows| + 1
            && t.rows[|s.rows|] == Row(intent, key, tx, tx.minTime, Success)
            && Succeeded(t.ledger, tx)
  {
    var s := Run(window, s0, es);
    ReachableInv(window, s0, es);
    NeverApplied(s, tx);
    hide Run, Previous, SomeInFlight, Recorded, Inv, Opening, Answered;
    Opened(window, s, intent, key, tx);
    var ready := Run(window, s, Opening(intent, key, tx));
    AnsweredIsWritten(window, ready, |s.rows|);
    RunAppend(window, s, Opening(intent, key, tx), Answered(tx));
    more := Opening(intent, key, tx) + Answered(tx);
  }

  lemma NeverApplied(s: State, tx: Tx)
    requires Inv(s) && !Recorded(s.rows, tx)
    ensures tx !in s.ledger.included
  {
    hide LogOk, RowsTrue, PcOk, Recorded;
  }

  lemma {:induction false} NothingToScan(rows: seq<Row>, from: nat)
    requires from <= |rows| && !SomeInFlight(rows)
    ensures InFlightRows(rows, from) == []
    decreases |rows| - from
  {
    if from < |rows| {
      NothingToScan(rows, from + 1);
    }
  }
}
