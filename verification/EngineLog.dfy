/** The engine's own code over its action table, shown to be a run of the machine in `Engine`. */
module EngineLog {
  import opened Wrappers
  import opened Engine

  /** What the outside world does around one request: ledgers close, a node answers or the answer is lost. */
  datatype Turn = Turn(time: nat, results: map<Tx, bool>, oldest: nat, latest: nat, lost: bool, delivered: bool)

  lemma {:induction false} RunSnoc(window: nat, s: State, es: seq<Event>, e: Event)
    ensures Run(window, s, es + [e]) == Step(window, Run(window, s, es), e)
    decreases |es|
  {
    hide Step;
    if es == [] {
      assert Run(window, Step(window, s, e), []) == Step(window, s, e);
    } else {
      assert (es + [e])[0] == es[0] && (es + [e])[1..] == es[1..] + [e];
      RunSnoc(window, Step(window, s, es[0]), es[1..], e);
    }
  }

  /** The history that a node reports in this turn: its own window, never ahead of the ledger. */
  function Latest(l: Ledger, turn: Turn): nat {
    if turn.latest < l.closeTime then turn.latest else l.closeTime
  }

  function Oldest(window: nat, l: Ledger, turn: Turn): nat {
    if turn.oldest + window < l.closeTime then l.closeTime - window else turn.oldest
  }

  /** The node that answers in this turn still holds the ledger that applied the envelope. */
  predicate Seen(window: nat, l: Ledger, turn: Turn, tx: Tx) {
    tx in l.included && Oldest(window, l, turn) <= l.included[tx].at <= Latest(l, turn)
  }

  /** What a submission of the envelope ends in, given the answering turn and the ledger at that time. */
  predicate Outcome(window: nat, l: Ledger, answer: Turn, tx: Tx, status: Status) {
    && (!answer.lost && Seen(window, l, answer, tx) ==> status == if Succeeded(l, tx) then Success else Failed)
    && (answer.lost || !Seen(window, l, answer, tx) ==> status.Pending?)
  }

  /** What one lookup of a row decides, if anything. */
  predicate LookedUp(window: nat, l: Ledger, turn: Turn, tx: Tx, minTime: nat, status: Status) {
    && (Seen(window, l, turn, tx) ==> status == if Succeeded(l, tx) then Success else Failed)
    && (!Seen(window, l, turn, tx) ==>
          && (status.Failed? <==> Latest(l, turn) > tx.expiresAt && Oldest(window, l, turn) <= minTime)
          && (status.Failed? || status.Pending?))
  }

  predicate AnsweredSince(world: nat -> Turn, asked: map<nat, Tx>, since: nat, now: nat, tx: Tx) {
    exists k :: since <= k < now && k in asked && asked[k] == tx && !world(k).lost
  }

  /** Earlier questions stay on record. */
  ghost predicate Remembered(asked: map<nat, Tx>, now: nat, later: map<nat, Tx>, end: nat) {
    now <= end && forall k :: k in asked && k < now ==> k in later && later[k] == asked[k]
  }

  lemma RemembersMore(asked: map<nat, Tx>, now: nat, k: nat, tx: Tx, end: nat)
    requires now <= k && now <= end
    ensures Remembered(asked, now, asked[k := tx], end)
  {
  }

  lemma RemembersOn(a: map<nat, Tx>, i: nat, b: map<nat, Tx>, j: nat, c: map<nat, Tx>, k: nat)
    requires Remembered(a, i, b, j) && Remembered(b, j, c, k)
    ensures Remembered(a, i, c, k)
  {
  }

  lemma RemembersForward(a: map<nat, Tx>, i: nat, b: map<nat, Tx>, j: nat)
    requires Remembered(a, i, b, j)
    ensures i <= j
  {
  }

  lemma AnsweredHere(world: nat -> Turn, asked: map<nat, Tx>, since: nat, k: nat, now: nat, tx: Tx)
    requires since <= k < now && k in asked && asked[k] == tx && !world(k).lost
    ensures AnsweredSince(world, asked, since, now, tx)
  {
  }

  /** The question asked first is still on record after more of them. */
  lemma StillAsked(a: map<nat, Tx>, i: nat, b: map<nat, Tx>, j: nat, c: map<nat, Tx>, k: nat, tx: Tx)
    requires Remembered(a, i, b, j) && Remembered(b, j, c, k) && b == a[i := tx] && i < j
    ensures Remembered(a, i, c, k) && i in c && c[i] == tx
  {
    RemembersOn(a, i, b, j, c, k);
  }

  lemma RemembersItself(a: map<nat, Tx>, now: nat)
    ensures Remembered(a, now, a, now)
  {
  }

  lemma AnsweredLater(world: nat -> Turn, asked: map<nat, Tx>, since: nat, now: nat, tx: Tx, later: map<nat, Tx>, end: nat)
    requires AnsweredSince(world, asked, since, now, tx) && Remembered(asked, now, later, end)
    ensures AnsweredSince(world, later, since, end, tx)
  {
    var k :| since <= k < now && k in asked && asked[k] == tx && !world(k).lost;
    assert k in later && later[k] == tx;
  }

  class ActionLog {
    var rows: seq<Row>
    var ledger: Ledger
    /** How many turns the outside world has had. */
    var now: nat
    ghost var pc: Pc
    /** Which envelope was asked for in which turn. */
    ghost var asked: map<nat, Tx>
    /** What the outside world does in each turn. */
    const world: nat -> Turn
    /** How far back before the present any node's history reaches. */
    const window: nat
    ghost const start: State
    ghost var trace: seq<Event>

    constructor (window: nat, time: nat, world: nat -> Turn)
      ensures this.window == window && this.world == world && Valid() && pc.Idle? && rows == [] && now == 0
      ensures ledger == Ledger(time, {}, map[])
    {
      this.window, this.world := window, world;
      rows, ledger, now, pc, asked := [], Ledger(time, {}, map[]), 0, Idle, map[];
      start, trace := State(Ledger(time, {}, map[]), [], Idle), [];
    }

    ghost function At(): State
      reads this
    {
      State(ledger, rows, pc)
    }

    /** Everything done so far, by the engine and around it, is a run of the machine. */
    ghost predicate Valid()
      reads this
    {
      Initial(start) && At() == Run(window, start, trace)
    }

    /** The row's envelope was asked for since `since`, and an answer came. */
    ghost predicate Asked(since: nat, tx: Tx)
      reads this
    {
      AnsweredSince(world, asked, since, now, tx)
    }

    ghost method Did(e: Event)
      requires Initial(start) && At() == Step(window, Run(window, start, trace), e)
      modifies `trace
      ensures Valid()
    {
      RunSnoc(window, start, trace, e);
      trace := trace + [e];
    }

    method NextTurn() returns (turn: Turn)
      requires Valid()
      modifies `now, `ledger, `trace
      ensures Valid() && turn == world(old(now)) && now == old(now) + 1
      ensures ledger == Close(old(ledger), turn.time, turn.results)
    {
      turn := world(now);
      now := now + 1;
      ledger := Close(ledger, turn.time, turn.results);
      Did(CloseLedger(turn.time, turn.results));
    }

    /** A node with its own window, never ahead of the ledger. */
    method Ask(tx: Tx) returns (reply: Option<RpcReply>)
      requires Valid()
      modifies `now, `ledger, `trace, `asked
      ensures Valid() && (reply.Some? ==> Honest(window, ledger, tx, reply.value))
      ensures now == old(now) + 1 && asked == old(asked)[old(now) := tx]
      ensures var turn := world(old(now));
              && ledger == Close(old(ledger), turn.time, turn.results)
              && (reply.None? <==> turn.lost)
              && (reply.Some? ==>
                    reply.value == if Seen(window, ledger, turn, tx) then Found(ledger.included[tx].ok)
                                   else NotFound(Oldest(window, ledger, turn), Latest(ledger, turn)))
    {
      asked := asked[now := tx];
      var turn := NextTurn();
      if turn.lost {
        return None;
      }
      if Seen(window, ledger, turn, tx) {
        return Some(Found(ledger.included[tx].ok));
      }
      return Some(NotFound(Oldest(window, ledger, turn), Latest(ledger, turn)));
    }

    /**
     `submit`: deliver a stored envelope and read its outcome back. It is what the ledger made of it if the
     answering node holds it, and pending if no answer comes or the node does not.
     */
    method Deliver(i: nat, ghost job: Job, ghost rest: seq<nat>) returns (status: Status)
      requires Valid() && i < |rows| && pc == Pc.Send(job, i, rest)
      modifies `now, `ledger, `trace, `asked, `pc
      ensures Valid() && pc == Save(job, i, rest, status)
      ensures now == old(now) + 2 && asked == old(asked)[old(now) + 1 := rows[i].tx]
      ensures var sent := world(old(now)); var l := Close(old(ledger), sent.time, sent.results);
              ledger == Close(if sent.delivered then l.(submitted := l.submitted + {rows[i].tx}) else l,
                              world(now - 1).time, world(now - 1).results)
      ensures Outcome(window, ledger, world(now - 1), rows[i].tx, status)
      ensures world(old(now)).delivered ==> rows[i].tx in ledger.submitted
    {
      hide Close, Honest, Verdict, Seen, Outcome, Run, Step;
      var turn := NextTurn();
      SubmitStep(window, At(), turn.delivered);
      if turn.delivered {
        ledger := ledger.(submitted := ledger.submitted + {rows[i].tx});
      }
      pc := Await(job, i, rest);
      Did(Submit(turn.delivered));
      SeenStays(ledger, world(now));
      var reply := Ask(rows[i].tx);
      status := if reply.None? then Pending else Verdict(reply.value, None);
      AnswerIsOutcome(window, ledger, world(now - 1), rows[i].tx, reply);
      PollStep(window, At(), reply);
      pc := Save(job, i, rest, status);
      Did(Poll(reply));
    }

    /** Submit a stored envelope and write down what came of it. */
    method SubmitAndSave(i: nat, ghost job: Job, ghost rest: seq<nat>)
      requires Valid() && i < |rows| && pc == Pc.Send(job, i, rest)
      modifies this
      ensures Valid() && pc == Scan(job, rest) && Remembered(old(asked), old(now), asked, now)
      ensures |rows| == |old(rows)| && rows == old(rows)[i := old(rows)[i].(status := rows[i].status)]
      ensures now == old(now) + 2
      ensures var sent := world(old(now)); var l := Close(old(ledger), sent.time, sent.results);
              ledger == Close(if sent.delivered then l.(submitted := l.submitted + {rows[i].tx}) else l,
                              world(now - 1).time, world(now - 1).results)
      ensures Outcome(window, ledger, world(now - 1), rows[i].tx, rows[i].status)
      ensures world(old(now)).delivered ==> rows[i].tx in ledger.submitted
    {
      hide Close, Outcome, Run, Step, Remembered;
      var status := Deliver(i, job, rest);
      RemembersMore(old(asked), old(now), old(now) + 1, rows[i].tx, now);
      WriteStep(window, At());
      rows := rows[i := rows[i].(status := status)];
      pc := Scan(job, rest);
      Did(Write);
    }

    /** `transaction` for a stored row; no status when the answer is lost. */
    method Lookup(i: nat) returns (status: Option<Status>, ghost reply: RpcReply)
      requires Valid() && i < |rows|
      modifies `now, `ledger, `trace, `asked
      ensures Valid() && now == old(now) + 1 && asked == old(asked)[old(now) := rows[i].tx]
      ensures ledger == Close(old(ledger), world(old(now)).time, world(old(now)).results)
      ensures status.None? <==> world(old(now)).lost
      ensures status.Some? ==>
                && Honest(window, ledger, rows[i].tx, reply)
                && status.value == Verdict(reply, Some(Bounds(rows[i].minTime, rows[i].tx.expiresAt)))
                && LookedUp(window, ledger, world(old(now)), rows[i].tx, rows[i].minTime, status.value)
    {
      hide Close, Honest, Verdict, Seen, Run, LookedUp;
      reply := NotFound(0, 0);
      var answer := Ask(rows[i].tx);
      if answer.None? {
        return None, reply;
      }
      reply := answer.value;
      AnswerIsLookup(window, ledger, world(now - 1), rows[i], reply);
      return Some(Verdict(answer.value, Some(Bounds(rows[i].minTime, rows[i].tx.expiresAt)))), reply;
    }

    /**
     `reconcileAction`: a settled row costs nothing. An open one is looked up; the operation is abandoned
     (`threw`) exactly when that lookup is lost. What the lookup leaves undecided is sent again on replay.
     */
    method Reconcile(i: nat, replay: bool, ghost job: Job, ghost rest: seq<nat>) returns (threw: bool)
      requires Valid() && i < |rows| && pc == Scan(job, [i] + rest) && (replay <==> job.Perform? || job.replay)
      modifies this
      ensures Valid() && pc == if threw then Idle else Scan(job, rest)
      ensures Remembered(old(asked), old(now), asked, now)
      ensures |rows| == |old(rows)| && rows == old(rows)[i := old(rows)[i].(status := rows[i].status)]
      ensures !InFlight(old(rows)[i].status) ==> rows == old(rows) && ledger == old(ledger) && now == old(now) && !threw
      ensures InFlight(old(rows)[i].status) ==>
                && now > old(now) && old(now) in asked && asked[old(now)] == rows[i].tx
                && (threw <==> world(old(now)).lost)
                && (threw ==> rows == old(rows) && now == old(now) + 1)
      ensures InFlight(old(rows)[i].status) && !threw ==>
                var looked := world(old(now)); var l := Close(old(ledger), looked.time, looked.results);
                || (&& now == old(now) + 1 && ledger == l && LookedUp(window, l, looked, rows[i].tx, rows[i].minTime, rows[i].status)
                    && (rows[i].status.Pending? ==> !replay))
                || (&& now == old(now) + 3 && replay && LookedUp(window, l, looked, rows[i].tx, rows[i].minTime, Pending)
                    && Outcome(window, ledger, world(now - 1), rows[i].tx, rows[i].status)
                    && (world(now - 2).delivered ==> rows[i].tx in ledger.submitted))
    {
      hide Close, Honest, Verdict, Seen, Succeeded, Outcome, LookedUp, Run, Step, Remembered;
      RemembersItself(asked, now);
      QueryStep(window, At(), NotFound(0, 0));
      assert ([i] + rest)[1..] == rest;
      if !InFlight(rows[i].status) {
        pc := Scan(job, rest);
        Did(Query(NotFound(0, 0)));
        return false;
      }
      var status, reply := Lookup(i);
      RemembersMore(old(asked), old(now), old(now), rows[i].tx, now);
      ghost var first, since := asked, now;
      CrashStep(window, At());
      if status.None? {
        pc := Idle;
        Did(Crash);
        return true;
      }
      QueryStep(window, At(), reply);
      if status.value.Pending? && replay {
        pc := Pc.Send(job, i, rest);
        Did(Query(reply));
        SubmitAndSave(i, job, rest);
        StillAsked(old(asked), old(now), first, since, asked, now, rows[i].tx);
      } else {
        pc := Save(job, i, rest, status.value);
        Did(Query(reply));
        WriteStep(window, At());
        rows := rows[i := rows[i].(status := status.value)];
        pc := Scan(job, rest);
        Did(Write);
      }
      return false;
    }

    method CollectInFlight() returns (todo: seq<nat>)
      ensures todo == InFlightRows(rows, 0)
      ensures forall k :: 0 <= k < |todo| ==> todo[k] < |rows|
      ensures forall i :: 0 <= i < |rows| && InFlight(rows[i].status) ==> i in todo
    {
      todo := [];
      var i := |rows|;
      while i > 0
        invariant 0 <= i <= |rows|
        invariant todo == InFlightRows(rows, i)
        invariant forall k :: 0 <= k < |todo| ==> todo[k] < |rows|
        invariant forall k :: i <= k < |rows| && InFlight(rows[k].status) ==> k in todo
      {
        i := i - 1;
        if InFlight(rows[i].status) {
          todo := [i] + todo;
        }
      }
    }

    /**
     Reconcile every listed row in turn, stopping where a lookup fails, and only there. Otherwise every
     listed row that was open has been asked for and answered.
     */
    method ReconcileAll(todo: seq<nat>, replay: bool, ghost job: Job) returns (threw: bool)
      requires Valid() && pc == Scan(job, todo) && (replay <==> job.Perform? || job.replay)
      requires forall k :: 0 <= k < |todo| ==> todo[k] < |rows|
      modifies this
      ensures Valid() && pc == if threw then Idle else Scan(job, [])
      ensures Remembered(old(asked), old(now), asked, now) && |rows| == |old(rows)|
      ensures forall i :: 0 <= i < |rows| ==> rows[i] == old(rows)[i].(status := rows[i].status)
      ensures forall i :: 0 <= i < |rows| && (i !in todo || !InFlight(old(rows)[i].status)) ==> rows[i] == old(rows)[i]
      ensures threw ==> now > old(now) && world(now - 1).lost
      ensures !threw ==> forall i :: i in todo && InFlight(old(rows)[i].status) ==> Asked(old(now), rows[i].tx)
    {
      hide Run, Step, Honest, Close, Verdict, Outcome, LookedUp, Seen, Remembered, AnsweredSince, Succeeded, Valid;
      RemembersItself(asked, now);
      for k := 0 to |todo|
        invariant Valid() && pc == Scan(job, todo[k..]) && |rows| == |old(rows)| && Remembered(old(asked), old(now), asked, now)
        invariant forall i :: 0 <= i < |rows| ==> rows[i] == old(rows)[i].(status := rows[i].status)
        invariant forall i :: 0 <= i < |rows| && (i !in todo[..k] || !InFlight(old(rows)[i].status)) ==> rows[i] == old(rows)[i]
        invariant forall i :: i in todo[..k] && InFlight(old(rows)[i].status) ==> Asked(old(now), rows[i].tx)
      {
        assert todo[k..] == [todo[k]] + todo[k + 1..];
        assert todo[..k + 1] == todo[..k] + [todo[k]];
        ghost var before, since := asked, now;
        threw := Reconcile(todo[k], replay, job, todo[k + 1..]);
        RemembersOn(old(asked), old(now), before, since, asked, now);
        RemembersForward(old(asked), old(now), before, since);
        if threw {
          return;
        }
        forall i | i in todo[..k + 1] && InFlight(old(rows)[i].status) ensures Asked(old(now), rows[i].tx) {
          if i in todo[..k] {
            AnsweredLater(world, before, old(now), since, rows[i].tx, asked, now);
          } else {
            AnsweredHere(world, asked, old(now), since, now, rows[i].tx);
          }
        }
      }
      assert todo[..|todo|] == todo;
      return false;
    }

    /** The rows of one intent, as `advance` and `refund` reconcile them. */
    method Review(todo: seq<nat>, replay: bool) returns (threw: bool)
      requires Valid() && pc.Idle? && forall k :: 0 <= k < |todo| ==> todo[k] < |rows|
      modifies this
      ensures Valid() && pc.Idle? && |rows| == |old(rows)|
      ensures forall i :: 0 <= i < |rows| && (i !in todo || !InFlight(old(rows)[i].status)) ==> rows[i] == old(rows)[i]
      ensures threw ==> now > old(now) && world(now - 1).lost
      ensures !threw ==> forall i :: i in todo && InFlight(old(rows)[i].status) ==> Asked(old(now), rows[i].tx)
    {
      pc := Scan(Job.Review(replay), todo);
      Did(Begin(Job.Review(replay), todo));
      threw := ReconcileAll(todo, replay, Job.Review(replay));
      if !threw {
        pc := Idle;
        Did(Insert(None));
      }
    }

    method FindPrevious(intent: nat, key: nat) returns (previous: Option<Row>)
      ensures previous == Previous(rows, intent, key)
      ensures previous.Some? ==> previous.value.intent == intent && previous.value.key == key && previous.value in rows
    {
      var i := |rows|;
      assert rows[..i] == rows;
      while i > 0
        invariant 0 <= i <= |rows| && Previous(rows, intent, key) == Previous(rows[..i], intent, key)
      {
        if rows[i - 1].intent == intent && rows[i - 1].key == key {
          return Some(rows[i - 1]);
        }
        assert rows[..i][..i - 1] == rows[..i - 1];
        i := i - 1;
      }
      return None;
    }

    /** The start of `perform`: everything in flight is reconciled. */
    method ReconcileInFlight(ghost intent: nat, ghost key: nat) returns (threw: bool)
      requires Valid() && pc.Idle?
      modifies this
      ensures Valid() && pc == if threw then Idle else Scan(Job.Perform(intent, key), [])
      ensures |rows| == |old(rows)| && forall i :: 0 <= i < |rows| ==> rows[i] == old(rows)[i].(status := rows[i].status)
      ensures threw ==> now > old(now) && world(now - 1).lost
      ensures !threw ==> forall i :: 0 <= i < |old(rows)| && InFlight(old(rows)[i].status) ==> Asked(old(now), old(rows)[i].tx)
      ensures old(now) <= now
    {
      hide Run, Step, Honest, Close, Succeeded, AnsweredSince;
      var todo := CollectInFlight();
      pc := Scan(Job.Perform(intent, key), todo);
      BeginStep(window, At().(pc := Idle), Job.Perform(intent, key));
      Did(Begin(Job.Perform(intent, key), []));
      threw := ReconcileAll(todo, true, Job.Perform(intent, key));
    }

    /** The end of `perform`: the new row is written, then sent, and its outcome saved. */
    method Attempt(intent: nat, key: nat, envelope: Envelope)
      requires Valid() && pc == Scan(Job.Perform(intent, key), [])
      requires var p := Previous(rows, intent, key); p.None? || !p.value.status.Success?
      requires !SomeInFlight(rows) && !Recorded(rows, envelope.tx)
      modifies this
      ensures Valid() && pc.Idle? && Remembered(old(asked), old(now), asked, now) && now == old(now) + 2
      ensures |rows| == |old(rows)| + 1
      ensures var row := rows[|old(rows)|];
              && rows == old(rows) + [row]
              && row == Row(intent, key, envelope.tx, if envelope.recordsMinTime then envelope.tx.minTime else 0, row.status)
              && Outcome(window, ledger, world(now - 1), row.tx, row.status)
              && (world(now - 2).delivered ==> row.tx in ledger.submitted)
    {
      hide Run, Step, SomeInFlight, Recorded, Outcome, Honest, Close, Succeeded, Previous;
      var n := |rows|;
      var minTime := if envelope.recordsMinTime then envelope.tx.minTime else 0;
      FreshStep(window, At(), envelope);
      rows := rows + [Row(intent, key, envelope.tx, minTime, Prepared)];
      pc := Pc.Send(Job.Review(true), n, []);
      Did(Insert(Some(envelope)));
      SubmitAndSave(n, Job.Review(true), []);
      EndStep(window, At());
      pc := Idle;
      Did(Insert(None));
    }

    /**
     `perform`: reconcile everything in flight, then submit a new envelope unless the action already
     succeeded or something is still in flight. It throws only when a lookup is lost, and otherwise looks
     up everything that was in flight. True is answered exactly when the newest row of the action is a
     success, and only for an action that the ledger really applied. A new row, written before it is
     sent, ends as the ledger took it if the answering node holds that, and pending if not.
     */
    method Perform(intent: nat, key: nat, prepared: Option<Envelope>) returns (done: bool, threw: bool)
      requires Valid() && pc.Idle?
      modifies this
      ensures Valid() && pc.Idle? && !(done && threw)
      ensures threw ==> now > old(now) && world(now - 1).lost && |rows| == |old(rows)|
      ensures !threw ==> forall i :: 0 <= i < |old(rows)| && InFlight(old(rows)[i].status) ==> Asked(old(now), old(rows)[i].tx)
      ensures !threw ==> (done <==> Previous(rows, intent, key).Some? && Previous(rows, intent, key).value.status.Success?)
      ensures done ==> exists i :: 0 <= i < |rows| && rows[i].intent == intent && rows[i].key == key
                                   && Succeeded(ledger, rows[i].tx)
      ensures |rows| == |old(rows)| ==>
                done || threw || prepared.None? || SomeInFlight(rows) || Recorded(rows, prepared.value.tx)
      ensures |rows| != |old(rows)| ==>
                && |rows| == |old(rows)| + 1 && prepared.Some?
                && var row, tx := rows[|old(rows)|], prepared.value.tx;
                && row == Row(intent, key, tx, if prepared.value.recordsMinTime then tx.minTime else 0, row.status)
                && (done <==> row.status.Success?) && now >= old(now) + 2
                && (world(now - 2).delivered ==> tx in ledger.submitted)
                && var answer := world(now - 1);
                && (answer.lost ==> row.status.Pending?)
                && (!answer.lost && tx in ledger.included && answer.oldest <= ledger.included[tx].at <= answer.latest
                    && ledger.closeTime <= ledger.included[tx].at + window ==>
                      row.status == if ledger.included[tx].ok then Success else Failed)
    {
      hide Run, Step, StatusTrue, SomeInFlight, Recorded, Outcome, Honest, Close, Succeeded, Previous, AnsweredSince, Remembered;
      threw := ReconcileInFlight(intent, key);
      if threw {
        return false, true;
      }
      ghost var passed, since := asked, now;
      var previous := FindPrevious(intent, key);
      if previous.Some? && previous.value.status.Success? {
        StopStep(window, At(), prepared);
        pc := Idle;
        Did(Insert(prepared));
        RecordedSuccess(window, start, trace, previous.value);
        return true, false;
      }
      if SomeInFlight(rows) || prepared.None? || Recorded(rows, prepared.value.tx) {
        StopStep(window, At(), prepared);
        pc := Idle;
        Did(Insert(prepared));
        return false, false;
      }
      var n := |rows|;
      Attempt(intent, key, prepared.value);
      forall i | 0 <= i < |old(rows)| && InFlight(old(rows)[i].status) ensures Asked(old(now), old(rows)[i].tx) {
        AnsweredLater(world, passed, old(now), since, old(rows)[i].tx, asked, now);
      }
      NewestIsPrevious(rows, intent, key);
      OutcomeMeans(window, start, trace, world(now - 1), prepared.value.tx, rows[n].status);
      if rows[n].status.Success? {
        RecordedSuccess(window, start, trace, rows[n]);
        return true, false;
      }
      return false, false;
    }
  }

  /** An answer that came from a node whose history holds the envelope's ledger is the truth about it. */
  lemma OutcomeMeans(window: nat, start: State, trace: seq<Event>, answer: Turn, tx: Tx, status: Status)
    requires Initial(start) && Outcome(window, Run(window, start, trace).ledger, answer, tx, status)
    ensures answer.lost ==> status.Pending?
    ensures var l := Run(window, start, trace).ledger;
            !answer.lost && tx in l.included && answer.oldest <= l.included[tx].at <= answer.latest
            && l.closeTime <= l.included[tx].at + window ==>
              status == if l.included[tx].ok then Success else Failed
  {
    hide Run, LogOk, RowsTrue, PersistedFirst, PcOk;
    ReachableInv(window, start, trace);
  }

  lemma NewestIsPrevious(rows: seq<Row>, intent: nat, key: nat)
    requires rows != [] && rows[|rows| - 1].intent == intent && rows[|rows| - 1].key == key
    ensures Previous(rows, intent, key) == Some(rows[|rows| - 1])
  {
  }

  lemma SeenStays(l: Ledger, turn: Turn)
    ensures Close(l, turn.time, turn.results).submitted == l.submitted
  {
  }

  lemma AnswerIsOutcome(window: nat, l: Ledger, turn: Turn, tx: Tx, reply: Option<RpcReply>)
    requires reply.None? <==> turn.lost
    requires reply.Some? ==> reply.value == if Seen(window, l, turn, tx) then Found(l.included[tx].ok)
                                            else NotFound(Oldest(window, l, turn), Latest(l, turn))
    ensures Outcome(window, l, turn, tx, if reply.None? then Pending else Verdict(reply.value, None))
  {
    hide Oldest, Latest;
  }

  lemma AnswerIsLookup(window: nat, l: Ledger, turn: Turn, row: Row, reply: RpcReply)
    requires reply == if Seen(window, l, turn, row.tx) then Found(l.included[row.tx].ok)
                      else NotFound(Oldest(window, l, turn), Latest(l, turn))
    ensures LookedUp(window, l, turn, row.tx, row.minTime, Verdict(reply, Some(Bounds(row.minTime, row.tx.expiresAt))))
  {
    hide Oldest, Latest;
  }

  lemma SubmitStep(window: nat, s: State, delivered: bool)
    requires s.pc.Send? && s.pc.row < |s.rows|
    ensures Step(window, s, Submit(delivered))
            == State(if delivered then s.ledger.(submitted := s.ledger.submitted + {s.rows[s.pc.row].tx}) else s.ledger,
                     s.rows, Await(s.pc.job, s.pc.row, s.pc.rest))
  {
  }

  lemma PollStep(window: nat, s: State, reply: Option<RpcReply>)
    requires s.pc.Await? && s.pc.row < |s.rows|
    requires reply.Some? ==> Honest(window, s.ledger, s.rows[s.pc.row].tx, reply.value)
    ensures Step(window, s, Poll(reply))
            == s.(pc := Save(s.pc.job, s.pc.row, s.pc.rest, if reply.None? then Pending else Verdict(reply.value, None)))
  {
    hide Verdict, Honest;
  }

  lemma WriteStep(window: nat, s: State)
    requires s.pc.Save? && s.pc.row < |s.rows|
    ensures Step(window, s, Write)
            == State(s.ledger, s.rows[s.pc.row := s.rows[s.pc.row].(status := s.pc.status)], Scan(s.pc.job, s.pc.rest))
  {
  }

  lemma CrashStep(window: nat, s: State)
    ensures Step(window, s, Crash) == s.(pc := Idle)
  {
  }

  lemma QueryStep(window: nat, s: State, reply: RpcReply)
    requires s.pc.Scan? && s.pc.todo != [] && s.pc.todo[0] < |s.rows|
    ensures var i, rest, row := s.pc.todo[0], s.pc.todo[1..], s.rows[s.pc.todo[0]];
            && (!InFlight(row.status) ==> Step(window, s, Query(reply)) == s.(pc := Scan(s.pc.job, rest)))
            && (InFlight(row.status) && Honest(window, s.ledger, row.tx, reply) ==>
                  var verdict := Verdict(reply, Some(Bounds(row.minTime, row.tx.expiresAt)));
                  Step(window, s, Query(reply))
                  == if verdict.Pending? && (s.pc.job.Perform? || s.pc.job.replay) then s.(pc := Pc.Send(s.pc.job, i, rest))
                     else s.(pc := Save(s.pc.job, i, rest, verdict)))
  {
    hide Verdict, Honest;
  }

  lemma BeginStep(window: nat, s: State, job: Job)
    requires s.pc.Idle? && job.Perform?
    ensures Step(window, s, Begin(job, [])) == s.(pc := Scan(job, InFlightRows(s.rows, 0)))
  {
  }

  lemma StopStep(window: nat, s: State, prepared: Option<Envelope>)
    requires s.pc.Scan? && s.pc.todo == [] && s.pc.job.Perform?
    requires var p := Previous(s.rows, s.pc.job.intent, s.pc.job.key);
             || (p.Some? && p.value.status.Success?)
             || SomeInFlight(s.rows) || prepared.None? || Recorded(s.rows, prepared.value.tx)
    ensures Step(window, s, Insert(prepared)) == s.(pc := Idle)
  {
    hide SomeInFlight, Recorded, Previous;
  }

  lemma FreshStep(window: nat, s: State, prepared: Envelope)
    requires s.pc.Scan? && s.pc.todo == [] && s.pc.job.Perform?
    requires var p := Previous(s.rows, s.pc.job.intent, s.pc.job.key); p.None? || !p.value.status.Success?
    requires !SomeInFlight(s.rows) && !Recorded(s.rows, prepared.tx)
    ensures var minTime := if prepared.recordsMinTime then prepared.tx.minTime else 0;
            Step(window, s, Insert(Some(prepared)))
            == State(s.ledger, s.rows + [Row(s.pc.job.intent, s.pc.job.key, prepared.tx, minTime, Prepared)],
                     Pc.Send(Job.Review(true), |s.rows|, []))
  {
    hide SomeInFlight, Recorded, Previous;
  }

  lemma EndStep(window: nat, s: State)
    requires s.pc.Scan? && s.pc.todo == [] && s.pc.job.Review?
    ensures Step(window, s, Insert(None)) == s.(pc := Idle)
  {
  }

  lemma RecordedSuccess(window: nat, start: State, trace: seq<Event>, row: Row)
    requires Initial(start) && row in Run(window, start, trace).rows && row.status.Success?
    ensures Succeeded(Run(window, start, trace).ledger, row.tx)
  {
    hide Run;
    ReachableInv(window, start, trace);
    var t := Run(window, start, trace);
    var i :| 0 <= i < |t.rows| && t.rows[i] == row;
    assert StatusTrue(t.ledger, t.rows[i].status, t.rows[i].tx);
  }
}
