/** Incoming payments beside the vault that they fund: what is swept into escrow, and from which payment. */
module Sweep {
  import opened Wrappers
  import opened Decimal
  import opened Ingest
  import V = Vault
  import S = VaultSafety
  import T = VaultTheorems
  import X = VaultExamples

  /** The vault's configuration, the engine's receiver, and the operation id that stands for a payment. */
  datatype Setup = Setup(config: V.Config, receiver: Receiver, operationOf: string -> V.Hash)

  /** The vault, the engine's database, and the funding calls that the operators have signed. */
  datatype State = State(vault: V.State, db: Db, signed: set<(V.Hash, V.Hash)>)

  datatype Event =
    | World(event: V.Event)
    | Page(payments: seq<Payment>, cursor: Option<string>)
    | Update(id: Id, row: Intent)
    | Sync(id: Id, copy: V.Order)
    | Fund(id: Id)

  /** Funding needs both operators, who sign it only in an envelope that the engine prepared. */
  predicate Unsigned(s: State, e: V.Event) {
    && e.Invoke? && e.call.Fund? && e.host.provider && e.host.notary
    && (e.call.id, e.call.operationId) !in s.signed
  }

  /** A node may lag: a read returns the order as it was at some earlier time. */
  predicate Readable(s: State, id: Id, copy: V.Order) {
    id in s.vault.orders && T.OrderExtends(copy, s.vault.orders[id])
  }

  function View(copy: V.Order): Chain {
    Chain(copy.createdAt, copy.escrowed, copy.funding.Some?, V.Terminal(copy))
  }

  function FirstAccepted(payments: seq<Entry>, id: Id): Option<Entry> {
    if payments == [] then None
    else if AcceptedFor(payments[0], id) then Some(payments[0])
    else FirstAccepted(payments[1..], id)
  }

  /** `advance`: open, not in recovery, and neither escrowed nor funded by the engine's last copy of the order. */
  predicate MayFund(db: Db, id: Id) {
    && id in db.intents && FirstAccepted(db.payments, id).Some?
    && var row := db.intents[id];
    && row.terms.Some? && row.chain.Some? && row.recovery.None? && row.withdrawal
    && !row.chain.value.terminal && !row.chain.value.escrowed && !row.chain.value.funded
  }

  /** Rows gain terms and recovery marks; the copy of the order comes from `sync` alone. */
  predicate MayUpdate(db: Db, id: Id, row: Intent) {
    if id in db.intents then Evolves(db.intents[id], row) && row.chain == db.intents[id].chain else row.chain.None?
  }

  /** `checkChain` accepts a copy only with exactly the accepted terms. */
  predicate MaySync(s: State, id: Id, copy: V.Order) {
    && id in s.db.intents && s.db.intents[id].terms == Some(copy.terms) && Readable(s, id, copy)
  }

  function Step(u: Setup, s: State, e: Event): State {
    match e
    case World(event) => if Unsigned(s, event) then s else s.(vault := V.Step(u.config, s.vault, event))
    case Page(ps, cursor) =>
      var done := IngestPage(u.receiver, s.db, ps, cursor);
      if done.Some? then s.(db := done.value) else s
    case Update(id, row) =>
      if MayUpdate(s.db, id, row) then s.(db := s.db.(intents := s.db.intents[id := row])) else s
    case Sync(id, copy) =>
      if MaySync(s, id, copy) then
        s.(db := s.db.(intents := s.db.intents[id := s.db.intents[id].(chain := Some(View(copy)))]))
      else s
    case Fund(id) =>
      if MayFund(s.db, id) then
        s.(signed := s.signed + {(id, u.operationOf(FirstAccepted(s.db.payments, id).value.payment.operationId))})
      else s
  }

  function Run(u: Setup, s: State, es: seq<Event>): State
    decreases |es|
  {
    if es == [] then s else Run(u, Step(u, s, es[0]), es[1..])
  }

  predicate Initial(s: State) {
    V.Initial(s.vault) && s.db == Db(map[], [], None) && s.signed == {}
  }

  /**
   A funding call is signed exactly for an open withdrawal with an accepted payment, not in recovery and,
   by the last copy of its order, neither escrowed nor funded; it names the first such payment.
   */
  lemma FundsExactly(u: Setup, s: State, id: Id, op: V.Hash)
    requires (id, op) !in s.signed
    ensures (id, op) in Step(u, s, Fund(id)).signed
            <==> && id in s.db.intents && s.db.intents[id].withdrawal && s.db.intents[id].recovery.None?
                 && s.db.intents[id].terms.Some? && s.db.intents[id].chain.Some?
                 && !s.db.intents[id].chain.value.escrowed && !s.db.intents[id].chain.value.funded
                 && !s.db.intents[id].chain.value.terminal
                 && exists i :: 0 <= i < |s.db.payments| && AcceptedFor(s.db.payments[i], id)
                      && op == u.operationOf(s.db.payments[i].payment.operationId)
                      && forall k :: 0 <= k < i ==> !AcceptedFor(s.db.payments[k], id)
  {
    FirstAcceptedIsFirst(s.db.payments, id);
  }

  lemma {:induction false} FirstAcceptedIsFirst(payments: seq<Entry>, id: Id)
    ensures FirstAccepted(payments, id).None? <==> forall k :: 0 <= k < |payments| ==> !AcceptedFor(payments[k], id)
    ensures forall i :: 0 <= i < |payments| && AcceptedFor(payments[i], id) && (forall k :: 0 <= k < i ==> !AcceptedFor(payments[k], id))
                        ==> FirstAccepted(payments, id) == Some(payments[i])
    ensures FirstAccepted(payments, id).Some? ==>
              exists i :: 0 <= i < |payments| && AcceptedFor(payments[i], id) && FirstAccepted(payments, id) == Some(payments[i])
                          && forall k :: 0 <= k < i ==> !AcceptedFor(payments[k], id)
    decreases |payments|
  {
    hide AcceptedFor;
    if payments != [] && !AcceptedFor(payments[0], id) {
      var rest := payments[1..];
      FirstAcceptedIsFirst(rest, id);
      assert forall k :: 0 < k < |payments| ==> payments[k] == rest[k - 1];
      if FirstAccepted(payments, id).Some? {
        var i :| 0 <= i < |rest| && AcceptedFor(rest[i], id) && FirstAccepted(rest, id) == Some(rest[i])
                 && forall k :: 0 <= k < i ==> !AcceptedFor(rest[k], id);
        assert payments[i + 1] == rest[i];
        assert forall k :: 0 <= k < i + 1 ==> !AcceptedFor(payments[k], id);
      }
    }
  }

  // ---------------------------------------------------------------------- the invariant

  /** The operation id stands for an accepted payment of the order. */
  predicate StandsFor(u: Setup, payments: seq<Entry>, id: Id, operationId: V.Hash) {
    exists i :: 0 <= i < |payments| && AcceptedFor(payments[i], id)
                && u.operationOf(payments[i].payment.operationId) == operationId
  }

  /** A row with a copy of its order agrees with the real one on the terms and the time of birth. */
  ghost predicate Linked(s: State) {
    forall id :: id in s.db.intents && s.db.intents[id].chain.Some? ==>
      && id in s.vault.orders && s.db.intents[id].terms == Some(s.vault.orders[id].terms)
      && s.db.intents[id].chain.value.createdAt == s.vault.orders[id].createdAt
  }

  ghost predicate SignedOk(u: Setup, s: State) {
    forall id, op :: (id, op) in s.signed ==> StandsFor(u, s.db.payments, id, op)
  }

  ghost predicate FundedOk(u: Setup, s: State) {
    forall id :: id in s.vault.orders && s.vault.orders[id].funding.Some? ==>
      StandsFor(u, s.db.payments, id, s.vault.orders[id].funding.value.operationId)
  }

  ghost predicate Inv(u: Setup, s: State) {
    && S.Inv(u.config, s.vault) && EntriesOk(u.receiver, s.db)
    && Linked(s) && SignedOk(u, s) && FundedOk(u, s)
  }

  lemma {:induction false} FirstAcceptedIsThere(u: Setup, payments: seq<Entry>, id: Id)
    requires FirstAccepted(payments, id).Some?
    ensures StandsFor(u, payments, id, u.operationOf(FirstAccepted(payments, id).value.payment.operationId))
    decreases |payments|
  {
    if AcceptedFor(payments[0], id) {
      assert payments[0] == FirstAccepted(payments, id).value;
    } else {
      FirstAcceptedIsThere(u, payments[1..], id);
      var op := u.operationOf(FirstAccepted(payments, id).value.payment.operationId);
      var i :| 0 <= i < |payments[1..]| && AcceptedFor(payments[1..][i], id)
               && u.operationOf(payments[1..][i].payment.operationId) == op;
      assert payments[1..][i] == payments[i + 1];
    }
  }

  lemma StandsForLater(u: Setup, a: seq<Entry>, b: seq<Entry>, id: Id, op: V.Hash)
    requires a <= b && StandsFor(u, a, id, op)
    ensures StandsFor(u, b, id, op)
  {
    var i :| 0 <= i < |a| && AcceptedFor(a[i], id) && u.operationOf(a[i].payment.operationId) == op;
    assert b[i] == a[i];
  }

  /** A change of the database that keeps every classification keeps what the signatures stand for. */
  lemma DbKeeps(u: Setup, s: State, db: Db)
    requires SignedOk(u, s) && FundedOk(u, s) && s.db.payments <= db.payments
    ensures SignedOk(u, s.(db := db)) && FundedOk(u, s.(db := db))
  {
    hide StandsFor;
    forall id, op | (id, op) in s.signed ensures StandsFor(u, db.payments, id, op) {
      StandsForLater(u, s.db.payments, db.payments, id, op);
    }
    forall id | id in s.vault.orders && s.vault.orders[id].funding.Some?
      ensures StandsFor(u, db.payments, id, s.vault.orders[id].funding.value.operationId)
    {
      StandsForLater(u, s.db.payments, db.payments, id, s.vault.orders[id].funding.value.operationId);
    }
  }

  /** Ingestion changes nothing of a row but its recovery mark. */
  lemma {:induction false} PaymentsOnlyMark(r: Receiver, db: Db, page: seq<Payment>)
    ensures var done := IngestPayments(r, db, page);
            done.Some? ==>
              forall id :: id in done.value.intents ==>
                id in db.intents && done.value.intents[id] == db.intents[id].(recovery := done.value.intents[id].recovery)
    decreases |page|
  {
    hide WellIdentified, Known, Objection, Canonical;
    if page != [] && WellIdentified(page[0]) {
      PaymentsOnlyMark(r, IngestOne(r, db, page[0]), page[1..]);
    }
  }

  lemma PageKeeps(u: Setup, s: State, ps: seq<Payment>, cursor: Option<string>)
    requires Inv(u, s)
    ensures Inv(u, Step(u, s, Page(ps, cursor))) && Extends(s.db, Step(u, s, Page(ps, cursor)).db)
  {
    hide S.Inv, EntriesOk, IngestPayments, StandsFor, Numeral, Extends, SignedOk, FundedOk;
    ExtendsReflexive(s.db);
    if IngestPage(u.receiver, s.db, ps, cursor).Some? {
      PageIsPayments(u.receiver, s.db, ps, cursor);
      PaymentsKeep(u.receiver, s.db, ps);
      PaymentsOnlyMark(u.receiver, s.db, ps);
      CursorIsAside(u.receiver, s.db, IngestPayments(u.receiver, s.db, ps).value, cursor);
      var db := Step(u, s, Page(ps, cursor)).db;
      ExtendsPrefix(s.db, db);
      DbKeeps(u, s, db);
    }
  }

  lemma ExtendsPrefix(a: Db, b: Db)
    requires Extends(a, b)
    ensures a.payments <= b.payments
  {
  }

  lemma RowKeeps(u: Setup, s: State, id: Id, row: Intent)
    requires Inv(u, s) && (id in s.db.intents ==> Evolves(s.db.intents[id], row))
    requires row.chain.Some? ==>
               && id in s.vault.orders && row.terms == Some(s.vault.orders[id].terms)
               && row.chain.value.createdAt == s.vault.orders[id].createdAt
    ensures var db := s.db.(intents := s.db.intents[id := row]); Inv(u, s.(db := db)) && Extends(s.db, db)
  {
    hide S.Inv, EntriesOk, StandsFor, Evolves, SignedOk, FundedOk;
    UpdateKeeps(u.receiver, s.db, id, row);
    DbKeeps(u, s, s.db.(intents := s.db.intents[id := row]));
  }

  lemma SyncKeeps(u: Setup, s: State, id: Id, copy: V.Order)
    requires Inv(u, s)
    ensures Inv(u, Step(u, s, Sync(id, copy))) && Extends(s.db, Step(u, s, Sync(id, copy)).db)
  {
    hide S.Inv, EntriesOk, SignedOk, FundedOk, V.Terminal;
    ExtendsReflexive(s.db);
    if MaySync(s, id, copy) {
      RowKeeps(u, s, id, s.db.intents[id].(chain := Some(View(copy))));
    }
  }

  lemma UpdateRowKeeps(u: Setup, s: State, id: Id, row: Intent)
    requires Inv(u, s)
    ensures Inv(u, Step(u, s, Update(id, row))) && Extends(s.db, Step(u, s, Update(id, row)).db)
  {
    hide S.Inv, EntriesOk, SignedOk, FundedOk, Extends;
    ExtendsReflexive(s.db);
    if MayUpdate(s.db, id, row) {
      RowKeeps(u, s, id, row);
    }
  }

  lemma FundKeeps(u: Setup, s: State, id: Id)
    requires Inv(u, s)
    ensures Inv(u, Step(u, s, Fund(id)))
  {
    hide S.Inv, EntriesOk, StandsFor, FirstAccepted;
    if MayFund(s.db, id) {
      FirstAcceptedIsThere(u, s.db.payments, id);
    }
  }

  /** In the vault a funding mark appears only by a funding call that both operators signed. */
  lemma NewFundingIsSigned(c: V.Config, s: V.State, e: V.Event, id: V.Hash)
    requires V.Deployed(c) && S.Inv(c, s)
    requires id in V.Step(c, s, e).orders && V.Step(c, s, e).orders[id].funding.Some?
    requires id !in s.orders || s.orders[id].funding.None?
    ensures e.Invoke? && e.call.Fund? && e.call.id == id && e.host.provider && e.host.notary
    ensures V.Step(c, s, e).orders[id].funding.value.operationId == e.call.operationId
  {
    hide V.Deployed, S.OrderOk, S.ReceiptIndexOk, S.FundingIndexOk, S.MovesOk, S.ReserveOk, S.GrantsOk, V.AcceptableTerms,
         S.Destination, V.Balance, V.CreateCall, V.AuthorizeCall, V.RecordCall, V.SettleCall, V.RefundCall, V.CancelCall,
         V.SubmitCall, V.ReserveFrom;
    if e.Invoke? {
      if e.call.Submit? {
        S.SubmitEffect(c, e.host, s, e.call.subject, e.call.lengthsOk, e.call.inputs);
      } else {
        S.StoredPaysOutside(c, s, e.call.id);
        S.CallEffect(c, e.host, s, e.call);
      }
    }
  }

  lemma WorldKeeps(u: Setup, s: State, e: V.Event)
    requires V.Deployed(u.config) && Inv(u, s) && !Unsigned(s, e)
    ensures Inv(u, s.(vault := V.Step(u.config, s.vault, e)))
  {
    hide S.Inv, V.Deployed, V.Step, EntriesOk, StandsFor;
    var c := u.config;
    var t := s.(vault := V.Step(c, s.vault, e));
    S.StepKeepsInv(c, s.vault, e);
    T.StepExtends(c, s.vault, e);
    forall id | id in t.vault.orders && t.vault.orders[id].funding.Some?
      ensures StandsFor(u, t.db.payments, id, t.vault.orders[id].funding.value.operationId)
    {
      if id in s.vault.orders && s.vault.orders[id].funding.Some? {
        assert T.OrderExtends(s.vault.orders[id], t.vault.orders[id]);
      } else {
        NewFundingIsSigned(c, s.vault, e, id);
      }
    }
    forall id | id in t.db.intents && t.db.intents[id].chain.Some?
      ensures id in t.vault.orders && t.db.intents[id].terms == Some(t.vault.orders[id].terms)
      ensures t.db.intents[id].chain.value.createdAt == t.vault.orders[id].createdAt
    {
      assert T.OrderExtends(s.vault.orders[id], t.vault.orders[id]);
    }
  }

  lemma WorldStepKeeps(u: Setup, s: State, e: V.Event)
    requires V.Deployed(u.config) && Inv(u, s)
    ensures Inv(u, Step(u, s, World(e))) && Extends(s.db, Step(u, s, World(e)).db)
  {
    hide Inv, V.Deployed, V.Step, Extends;
    ExtendsReflexive(s.db);
    if !Unsigned(s, e) { WorldKeeps(u, s, e); }
  }

  lemma FundStepKeeps(u: Setup, s: State, id: Id)
    requires Inv(u, s)
    ensures Inv(u, Step(u, s, Fund(id))) && Extends(s.db, Step(u, s, Fund(id)).db)
  {
    hide Inv, FirstAccepted, MayFund, Extends;
    ExtendsReflexive(s.db);
    FundKeeps(u, s, id);
  }

  lemma StepKeeps(u: Setup, s: State, e: Event)
    requires V.Deployed(u.config) && Inv(u, s)
    ensures Inv(u, Step(u, s, e)) && Extends(s.db, Step(u, s, e).db)
  {
    hide Inv, V.Deployed, Step, Extends;
    match e
    case World(event) => WorldStepKeeps(u, s, event);
    case Page(ps, cursor) => PageKeeps(u, s, ps, cursor);
    case Update(id, row) => UpdateRowKeeps(u, s, id, row);
    case Sync(id, copy) => SyncKeeps(u, s, id, copy);
    case Fund(id) => FundStepKeeps(u, s, id);
  }

  lemma {:induction false} RunKeeps(u: Setup, s: State, es: seq<Event>)
    requires V.Deployed(u.config) && Inv(u, s)
    ensures Inv(u, Run(u, s, es)) && Extends(s.db, Run(u, s, es).db)
    decreases |es|
  {
    hide Step, Inv, Extends, V.Deployed;
    if es == [] {
      ExtendsReflexive(s.db);
    } else {
      StepKeeps(u, s, es[0]);
      RunKeeps(u, Step(u, s, es[0]), es[1..]);
      ExtendsTransitive(s.db, Step(u, s, es[0]).db, Run(u, s, es).db);
    }
  }

  lemma ReachableInv(u: Setup, s: State, es: seq<Event>)
    requires V.Deployed(u.config) && Initial(s)
    ensures Inv(u, Run(u, s, es))
  {
    hide Run, V.Deployed, S.Inv;
    S.InitialInv(u.config, s.vault);
    RunKeeps(u, s, es);
  }

  // -------------------------------------------------------------------------- theorems

  /** Over any pages, updates and vault calls, an operation id is classified at most once, and never revised. */
  lemma ClassifiedOnceForever(u: Setup, s: State, es: seq<Event>, more: seq<Event>)
    requires V.Deployed(u.config) && Initial(s)
    ensures var t := Run(u, s, es).db.payments;
            && t <= Run(u, Run(u, s, es), more).db.payments
            && forall i, j :: 0 <= i < j < |t| ==> t[i].payment.operationId != t[j].payment.operationId
  {
    hide Run, V.Deployed, S.Inv, Meets, Evolves, Linked, SignedOk, FundedOk;
    ReachableInv(u, s, es);
    RunKeeps(u, Run(u, s, es), more);
  }

  /**
   At every moment of a run each withdrawal has at most one accepted payment, which came from its
   subject to the receiver in the right asset, for exactly the amount of its vault order, between that
   order's creation and its deadline.
   */
  lemma AcceptedPaymentIsExact(u: Setup, s: State, es: seq<Event>, i: nat)
    requires V.Deployed(u.config) && Initial(s)
    requires i < |Run(u, s, es).db.payments| && Run(u, s, es).db.payments[i].reason.None?
    ensures var t := Run(u, s, es); var e := t.db.payments[i];
            && e.intent.Some? && e.intent.value in t.db.intents && e.intent.value in t.vault.orders
            && var row, o := t.db.intents[e.intent.value], t.vault.orders[e.intent.value];
            && row.withdrawal && e.payment.from == row.subject
            && e.payment.to == u.receiver.account && e.payment.asset == u.receiver.asset
            && Numeral(e.payment.amount) && Value(e.payment.amount) == o.terms.amount
            && e.payment.createdAt.Some?
            && o.createdAt * 1000 <= e.payment.createdAt.value < o.terms.deadline * 1000
    ensures var db := Run(u, s, es).db;
            forall j :: 0 <= j < |db.payments| && j != i && db.payments[j].reason.None? ==>
              db.payments[j].intent != db.payments[i].intent
  {
    hide Run, V.Deployed, S.Inv, Value, Digits, SignedOk, FundedOk;
    ReachableInv(u, s, es);
    var t := Run(u, s, es);
    assert t.db.payments[i].intent.value in t.db.intents;
  }

  /** What the vault took into custody for a withdrawal. */
  function SweptAmount(o: V.Order): int {
    if o.funding.Some? then o.terms.amount else 0
  }

  /** Every funded order of the list has its own accepted payment among these, of exactly its amount. */
  ghost predicate PaidFor(payments: seq<Entry>, orders: map<V.Hash, V.Order>) {
    && (forall i, j :: 0 <= i < j < |payments| && payments[i].reason.None? && payments[j].reason.None? ==>
          payments[i].intent != payments[j].intent)
    && (forall id :: id in orders && orders[id].funding.Some? ==> HasAccepted(payments, id))
    && (forall i :: 0 <= i < |payments| && payments[i].reason.None? && payments[i].intent.Some?
                    && payments[i].intent.value in orders ==>
          Numeral(payments[i].payment.amount) && Value(payments[i].payment.amount) == orders[payments[i].intent.value].terms.amount)
  }

  lemma {:induction false} NothingFunded(orders: map<V.Hash, V.Order>)
    requires forall id :: id in orders ==> orders[id].funding.None?
    ensures S.SumOf(orders, SweptAmount) == 0
    decreases |orders|
  {
    if id :| id in orders {
      S.SumSplit(orders, SweptAmount, id);
      NothingFunded(orders - {id});
      assert SweptAmount(orders[id]) == 0;
    } else {
      assert orders == map[];
    }
  }

  lemma AcceptedInFront(payments: seq<Entry>, id: Id)
    requires payments != [] && HasAccepted(payments, id) && !AcceptedFor(payments[|payments| - 1], id)
    ensures HasAccepted(payments[..|payments| - 1], id)
  {
    var i :| 0 <= i < |payments| && AcceptedFor(payments[i], id);
    assert payments[..|payments| - 1][i] == payments[i];
  }

  /** Without the order that the last payment is for, the earlier payments still pay for all others. */
  lemma PaidForFront(payments: seq<Entry>, orders: map<V.Hash, V.Order>, rest: map<V.Hash, V.Order>)
    requires PaidFor(payments, orders) && payments != []
    requires forall id :: id in rest ==> id in orders && rest[id] == orders[id] && !AcceptedFor(payments[|payments| - 1], id)
    ensures PaidFor(payments[..|payments| - 1], rest)
  {
    hide Value, Digits, HasAccepted;
    forall id | id in rest && rest[id].funding.Some? ensures HasAccepted(payments[..|payments| - 1], id) {
      AcceptedInFront(payments, id);
    }
  }

  lemma {:induction false} SweptBounded(payments: seq<Entry>, orders: map<V.Hash, V.Order>)
    requires PaidFor(payments, orders)
    ensures S.SumOf(orders, SweptAmount) <= AcceptedTotal(payments)
    decreases |payments|
  {
    hide Value, Digits, S.SumOf;
    if payments == [] {
      forall id | id in orders ensures orders[id].funding.None? {
        if orders[id].funding.Some? { NonePaid(id); }
      }
      NothingFunded(orders);
    } else {
      var e, front := payments[|payments| - 1], payments[..|payments| - 1];
      if e.reason.None? && e.intent.Some? && e.intent.value in orders {
        var rest := orders - {e.intent.value};
        PaidForFront(payments, orders, rest);
        S.SumSplit(orders, SweptAmount, e.intent.value);
        SweptBounded(front, rest);
      } else {
        PaidForFront(payments, orders, orders);
        SweptBounded(front, orders);
      }
    }
  }

  lemma NonePaid(id: Id)
    ensures !HasAccepted([], id)
  {
  }

  lemma ReachablePaidFor(u: Setup, s: State)
    requires Inv(u, s)
    ensures PaidFor(s.db.payments, s.vault.orders)
  {
    hide S.Inv, Value, Digits, InWindow, SignedOk;
    forall id | id in s.vault.orders && s.vault.orders[id].funding.Some? ensures HasAccepted(s.db.payments, id) {
      assert StandsFor(u, s.db.payments, id, s.vault.orders[id].funding.value.operationId);
    }
  }

  /**
   Over every run the amounts of all vault orders ever funded add up to no more than the payments
   accepted, whatever the engine's copies of the orders say and however often it signs.
   */
  lemma SweptNeverExceedsAccepted(u: Setup, s: State, es: seq<Event>)
    requires V.Deployed(u.config) && Initial(s)
    ensures S.SumOf(Run(u, s, es).vault.orders, SweptAmount) <= AcceptedTotal(Run(u, s, es).db.payments)
  {
    hide Run, V.Deployed, Inv, PaidFor;
    ReachableInv(u, s, es);
    ReachablePaidFor(u, Run(u, s, es));
    SweptBounded(Run(u, s, es).db.payments, Run(u, s, es).vault.orders);
  }

  /** Each funded order carries the operation id of its own accepted payment, of exactly its amount. */
  lemma FundingComesFromItsPayment(u: Setup, s: State, es: seq<Event>, id: Id)
    requires V.Deployed(u.config) && Initial(s)
    requires id in Run(u, s, es).vault.orders && Run(u, s, es).vault.orders[id].funding.Some?
    ensures var t := Run(u, s, es); var o := t.vault.orders[id];
            exists i :: 0 <= i < |t.db.payments| && AcceptedFor(t.db.payments[i], id)
                        && u.operationOf(t.db.payments[i].payment.operationId) == o.funding.value.operationId
                        && Numeral(t.db.payments[i].payment.amount)
                        && Value(t.db.payments[i].payment.amount) == o.terms.amount
  {
    hide Run, V.Deployed, S.Inv, Value, Digits, InWindow, SignedOk;
    ReachableInv(u, s, es);
    var t := Run(u, s, es);
    var op := t.vault.orders[id].funding.value.operationId;
    assert StandsFor(u, t.db.payments, id, op);
    var i :| 0 <= i < |t.db.payments| && AcceptedFor(t.db.payments[i], id)
             && u.operationOf(t.db.payments[i].payment.operationId) == op;
    assert t.db.payments[i].intent.value == id;
  }

  lemma IndexIn(page: seq<Payment>, p: Payment) returns (k: nat)
    requires p in page
    ensures k < |page| && page[k] == p
  {
    k :| k < |page| && page[k] == p;
  }

  /**
   Overlap and repetition are harmless: once a page was ingested, a page made only of its payments
   changes nothing but the cursor it carries, whatever happened in between.
   */
  lemma RepeatedPageMovesOnlyTheCursor(u: Setup, s: State, es: seq<Event>, page: seq<Payment>, cursor: Option<string>,
                                       more: seq<Event>, again: seq<Payment>, next: Option<string>)
    requires V.Deployed(u.config) && Initial(s) && IngestPage(u.receiver, Run(u, s, es).db, page, cursor).Some?
    requires forall i :: 0 <= i < |again| ==> again[i] in page
    ensures var t := Run(u, Step(u, Run(u, s, es), Page(page, cursor)), more);
            IngestPage(u.receiver, t.db, again, next)
            == if next.None? then Some(t.db)
               else if !Numeral(next.value) then None
               else Some(t.db.(cursor := next))
  {
    hide Run, V.Deployed, S.Inv, Linked, SignedOk, FundedOk, IngestPayments, Known, WellIdentified, EntriesOk, Evolves, Numeral;
    ReachableInv(u, s, es);
    var t := Run(u, s, es);
    PageIsPayments(u.receiver, t.db, page, cursor);
    PageBecomesKnown(u.receiver, t.db, page);
    var v := Step(u, t, Page(page, cursor));
    StepKeeps(u, t, Page(page, cursor));
    RunKeeps(u, v, more);
    var w := Run(u, v, more);
    forall i | 0 <= i < |again| ensures WellIdentified(again[i]) && Known(w.db.payments, again[i].operationId) {
      var k := IndexIn(page, again[i]);
      KnownLater(v.db.payments, w.db.payments, page[k].operationId);
    }
    KnownPaymentsChangeNothing(u.receiver, w.db, again);
  }

  // ---------------------------------------------------------------- a concrete withdrawal

  function DemoSetup(): Setup {
    Setup(X.DemoConfig(), Receiver(1, 1, 3), (operationId: string) => 77)
  }

  function DemoPayment(): Payment {
    Payment("1", "1", seq(64, _ => '0'), 5, 1, 3, "30", Some(7), Some(20_000))
  }

  function DemoRow(): Intent {
    Intent(5, true, 1, Some(X.DemoWithdrawal()), None, None)
  }

  lemma DemoCreate()
    ensures var t := V.Step(X.DemoConfig(), X.DemoStart(), V.Invoke(X.DEMO_HOST, V.Create(7, X.DemoWithdrawal())));
            && t == X.DemoStart().(orders := map[7 := V.NewOrder(10, X.DemoWithdrawal())])
  {
  }

  lemma DemoFund(s: V.State)
    requires s == X.DemoStart().(orders := map[7 := V.NewOrder(10, X.DemoWithdrawal())])
    ensures var t := V.Step(X.DemoConfig(), s, V.Invoke(X.DEMO_HOST, V.Fund(7, 77)));
            7 in t.orders && t.orders[7].funding == Some(V.Funding(77, 10)) && t.orders[7].escrowed
  {
  }

  lemma DemoDigits()
    ensures Numeral("1") && Numeral("30") && Value("30") == 30 && IsHash(seq(64, _ => '0'))
  {
    assert "30"[..1] == "3" && "3"[..0] == "";
    assert Value("3") == 3;
  }

  /** The payment of a known, open, unpaid withdrawal is accepted. */
  lemma DemoAccepted(db: Db)
    requires db.payments == [] && 7 in db.intents
    requires db.intents[7] == DemoRow().(chain := Some(View(V.NewOrder(10, X.DemoWithdrawal()))))
    ensures var p := DemoPayment();
            IngestPage(DemoSetup().receiver, db, [p], None) == Some(db.(payments := [Entry(p, Some(7), None)]))
  {
    var p, r := DemoPayment(), DemoSetup().receiver;
    DemoDigits();
    hide Value, Numeral, IsHash;
    AcceptedExactly(r, db, p);
    assert WellIdentified(p) && !Known(db.payments, p.operationId);
    assert Objection(r, db, p).None?;
    var next := IngestOne(r, db, p);
    assert next.payments == [Entry(p, Some(7), None)];
    assert IngestPayments(r, next, []) == Some(next);
    assert [p][1..] == [];
  }

  /** The desk of the example once the order is created and read, and once it is paid. */
  function DemoKnown(): State {
    var order := V.NewOrder(10, X.DemoWithdrawal());
    State(X.DemoStart().(orders := map[7 := order]),
          Db(map[], [], None).(intents := map[7 := DemoRow().(chain := Some(View(order)))]), {})
  }

  function DemoPaid(): State {
    DemoKnown().(db := DemoKnown().db.(payments := [Entry(DemoPayment(), Some(7), None)]), signed := {(7, 77)})
  }

  function DemoEmpty(): State {
    State(X.DemoStart(), Db(map[], [], None), {})
  }

  lemma DemoIsKnown() returns (es: seq<Event>)
    ensures Run(DemoSetup(), DemoEmpty(), es) == DemoKnown()
  {
    var u, s, order := DemoSetup(), DemoEmpty(), V.NewOrder(10, X.DemoWithdrawal());
    DemoCreate();
    var s1 := s.(vault := X.DemoStart().(orders := map[7 := order]));
    var s2 := s1.(db := s1.db.(intents := map[7 := DemoRow()]));
    hide V.Step, V.NewOrder, X.DemoWithdrawal;
    var create := World(V.Invoke(X.DEMO_HOST, V.Create(7, X.DemoWithdrawal())));
    assert Step(u, s, create) == s1;
    assert Step(u, s1, Update(7, DemoRow())) == s2;
    DemoSynced(s2, order);
    assert Step(u, s2, Sync(7, order)) == DemoKnown();
    hide Step;
    var e2 := [Sync(7, order)] + [];
    var e1 := [Update(7, DemoRow())] + e2;
    RunNone(u, DemoKnown());
    RunCons(u, s2, Sync(7, order), []);
    RunCons(u, s1, Update(7, DemoRow()), e2);
    RunCons(u, s, create, e1);
    es := [create] + e1;
  }

  lemma DemoIsPaid() returns (es: seq<Event>)
    ensures Run(DemoSetup(), DemoKnown(), es) == DemoPaid()
  {
    var u, s, p := DemoSetup(), DemoKnown(), DemoPayment();
    DemoAccepted(s.db);
    hide V.Step, IngestPage, V.NewOrder, X.DemoWithdrawal;
    var paid := s.(db := s.db.(payments := [Entry(p, Some(7), None)]));
    assert Step(u, s, Page([p], None)) == paid;
    DemoMayFund(paid.db);
    assert Step(u, paid, Fund(7)) == DemoPaid();
    hide Step;
    var e1 := [Fund(7)] + [];
    RunNone(u, DemoPaid());
    RunCons(u, paid, Fund(7), []);
    RunCons(u, s, Page([p], None), e1);
    es := [Page([p], None)] + e1;
  }

  lemma {:induction false} RunAppend(u: Setup, s: State, a: seq<Event>, b: seq<Event>)
    ensures Run(u, s, a + b) == Run(u, Run(u, s, a), b)
    decreases |a|
  {
    hide Step;
    if a == [] {
      assert a + b == b;
    } else {
      assert (a + b)[0] == a[0] && (a + b)[1..] == a[1..] + b;
      RunAppend(u, Step(u, s, a[0]), a[1..], b);
    }
  }

  /** Some run does sweep a payment: the withdrawal is escrowed for exactly what was paid. */
  lemma SweepExists() returns (s: State, es: seq<Event>)
    ensures V.Deployed(DemoSetup().config) && Initial(s)
    ensures 7 in Run(DemoSetup(), s, es).vault.orders && Run(DemoSetup(), s, es).vault.orders[7].funding.Some?
    ensures AcceptedTotal(Run(DemoSetup(), s, es).db.payments) == 30
  {
    hide V.Step, Run, V.NewOrder, X.DemoWithdrawal, AcceptedTotal;
    var u := DemoSetup();
    s := DemoEmpty();
    var toKnown := DemoIsKnown();
    var toPaid := DemoIsPaid();
    var fund := World(V.Invoke(X.DEMO_HOST, V.Fund(7, 77)));
    RunAppend(u, s, toKnown, toPaid);
    RunAppend(u, s, toKnown + toPaid, [fund] + []);
    RunCons(u, DemoPaid(), fund, []);
    RunNone(u, Step(u, DemoPaid(), fund));
    es := (toKnown + toPaid) + ([fund] + []);
    DemoFund(DemoPaid().vault);
    DemoTotal();
    DemoDeployed();
  }

  lemma DemoSynced(s: State, order: V.Order)
    requires order == V.NewOrder(10, X.DemoWithdrawal()) && s.vault.orders == map[7 := order] && s.db.intents == map[7 := DemoRow()]
    ensures MaySync(s, 7, order)
  {
  }

  lemma DemoMayFund(db: Db)
    requires db.payments == [Entry(DemoPayment(), Some(7), None)]
    requires 7 in db.intents && db.intents[7] == DemoRow().(chain := Some(View(V.NewOrder(10, X.DemoWithdrawal()))))
    ensures MayFund(db, 7) && FirstAccepted(db.payments, 7) == Some(Entry(DemoPayment(), Some(7), None))
  {
  }

  lemma DemoTotal()
    ensures AcceptedTotal([Entry(DemoPayment(), Some(7), None)]) == 30
  {
    DemoDigits();
    var one := [Entry(DemoPayment(), Some(7), None)];
    assert one[..0] == [];
    assert AcceptedTotal(one[..0]) == 0;
  }

  lemma DemoDeployed()
    ensures V.Deployed(X.DemoConfig()) && V.Initial(X.DemoStart())
  {
  }

  lemma RunCons(u: Setup, s: State, e: Event, rest: seq<Event>)
    ensures Run(u, s, [e] + rest) == Run(u, Step(u, s, e), rest)
  {
    hide Step;
    assert ([e] + rest)[0] == e && ([e] + rest)[1..] == rest;
  }

  lemma RunNone(u: Setup, s: State)
    ensures Run(u, s, []) == s
  {
  }
}
