/** Safety, replay and release of escrow over whole runs of the vault. */
module VaultTheorems {
  import opened Wrappers
  import opened Policy
  import opened Vault
  import opened VaultSafety

  // ----------------------------------------------------------------------- conservation

  lemma {:induction false} SumBounds(orders: map<Hash, Order>, weight: Order -> int)
    requires forall id :: id in orders ==> weight(orders[id]) >= 0
    ensures SumOf(orders, weight) >= 0
    ensures forall id :: id in orders ==> weight(orders[id]) <= SumOf(orders, weight)
    decreases |orders|
  {
    if exists id :: id in orders {
      var id :| id in orders && SumOf(orders, weight) == weight(orders[id]) + SumOf(orders - {id}, weight);
      SumBounds(orders - {id}, weight);
      forall k | k in orders ensures weight(orders[k]) <= SumOf(orders, weight) {
        if k != id { assert k in orders - {id}; }
      }
    }
  }

  lemma EscrowSumNonNegative(orders: map<Hash, Order>)
    requires forall id :: id in orders ==> Held(orders[id]) >= 0
    ensures EscrowSum(orders) >= 0
    ensures forall id :: id in orders ==> Held(orders[id]) <= EscrowSum(orders)
  {
    hide Held;
    SumBounds(orders, Held);
  }

  lemma HeldBounds(c: Config, s: State, id: Hash)
    requires OrdersOk(c, s) && id in s.orders
    ensures 0 <= Held(s.orders[id]) <= EscrowSum(s.orders)
    ensures s.orders[id].terms.amount > 0
  {
    hide OneOutcome, Timeline, EscrowSum;
    EscrowSumNonNegative(s.orders);
  }

  /**
   In every reachable state the reserve counter is the sum of the open escrows and the net of all
   transfers ever made, and the vault's balance covers it.
   */
  lemma Conservation(c: Config, s: State)
    requires Deployed(c) && Reachable(c, s)
    ensures s.reserved == EscrowSum(s.orders) == NetInflow(c, s.moves)
    ensures 0 <= s.reserved <= Balance(s, c.vault)
  {
    hide Held, EscrowSum, NetInflow, Reachable, Deployed, OrderOk;
    ReachableInv(c, s);
    assert forall id :: id in s.orders ==> Held(s.orders[id]) >= 0 by {
      forall id | id in s.orders ensures Held(s.orders[id]) >= 0 { HeldBounds(c, s, id); }
    }
    EscrowSumNonNegative(s.orders);
  }

  /**
   The transfers made for an order are one pull of its amount from the provider when it was
   escrowed, and, exactly when it is closed, one release of the same amount: to the recipient of a
   settled deposit, to the provider for a settled withdrawal or a cancelled deposit, and to the
   refund address of a refunded withdrawal. Nothing is ever moved for an unknown order.
   */
  lemma ReleasedOnceInFull(c: Config, s: State, id: Hash)
    requires Deployed(c) && Reachable(c, s)
    ensures id !in s.orders ==> MovesOf(s.moves, id) == []
    ensures id in s.orders ==>
      var o := s.orders[id];
      var pull := Move(id, c.provider, c.vault, o.terms.amount);
      MovesOf(s.moves, id) ==
        if o.settledAt.Some? && o.terms.direction.Deposit? then [pull, Move(id, c.vault, o.terms.recipient, o.terms.amount)]
        else if o.settledAt.Some? || o.cancelledAt.Some? then [pull, Move(id, c.vault, c.provider, o.terms.amount)]
        else if o.refundedAt.Some? then [pull, Move(id, c.vault, o.terms.refundTo, o.terms.amount)]
        else if o.escrowed then [pull]
        else []
  {
    hide Reachable, Deployed, MovesOf, AcceptableTerms, EscrowSum, NetInflow;
    ReachableInv(c, s);
    if id in s.orders {
      assert OrderOk(c, s.now, id, s.orders[id]);
    }
  }

  // ------------------------------------------------------------------- races and timeline

  /** At most one terminal mark, never an undoing one beside a payout or receipt, and the exact timelines. */
  lemma RaceAndTimeline(c: Config, s: State, id: Hash)
    requires Deployed(c) && Reachable(c, s) && id in s.orders
    ensures var o := s.orders[id];
            && !(o.settledAt.Some? && o.refundedAt.Some?)
            && !(o.settledAt.Some? && o.cancelledAt.Some?)
            && !(o.refundedAt.Some? && o.cancelledAt.Some?)
            && (o.payout.Some? || o.receipt.Some? ==> o.refundedAt.None? && o.cancelledAt.None?)
    ensures var o := s.orders[id];
            o.settledAt.Some? && o.terms.direction.Withdrawal? ==>
              && o.funding.Some? && o.payout.Some? && o.receipt.Some?
              && o.createdAt <= o.funding.value.recordedAt <= o.payout.value
                 <= o.receipt.value.receivedAt <= o.settledAt.value <= s.now
              && o.payout.value < o.terms.deadline
    ensures var o := s.orders[id];
            o.settledAt.Some? && o.terms.direction.Deposit? ==>
              && o.receipt.Some?
              && o.createdAt <= o.receipt.value.receivedAt <= o.settledAt.value < o.terms.deadline <= c.policy.validUntil
  {
    hide Reachable, Deployed, AcceptableTerms, EscrowSum, NetInflow;
    ReachableInv(c, s);
    assert OrderOk(c, s.now, id, s.orders[id]);
  }

  predicate SameEvent(a: Order, b: Order) {
    a.receipt.Some? && b.receipt.Some? && a.receipt.value.eventId == b.receipt.value.eventId
  }

  predicate SameFunding(a: Order, b: Order) {
    a.funding.Some? && b.funding.Some? && a.funding.value.operationId == b.funding.value.operationId
  }

  /** Bank event ids and funding operation ids each belong to one order. */
  lemma IndexesAreInjective(c: Config, s: State, a: Hash, b: Hash)
    requires Deployed(c) && Reachable(c, s) && a in s.orders && b in s.orders
    ensures SameEvent(s.orders[a], s.orders[b]) || SameFunding(s.orders[a], s.orders[b]) ==> a == b
  {
    hide Reachable, Deployed, OrderOk, EscrowSum, NetInflow;
    ReachableInv(c, s);
  }

  // -------------------------------------------------------------------- what never changes

  predicate Kept<T(==)>(a: Option<T>, b: Option<T>) {
    a.Some? ==> b == a
  }

  /** A later form of the same order: fields are written once, and a closed order is final. */
  predicate OrderExtends(a: Order, b: Order) {
    && b.terms == a.terms && b.createdAt == a.createdAt
    && Kept(a.receipt, b.receipt) && Kept(a.payout, b.payout) && Kept(a.funding, b.funding)
    && Kept(a.settledAt, b.settledAt) && Kept(a.refundedAt, b.refundedAt) && Kept(a.cancelledAt, b.cancelledAt)
    && (Terminal(a) ==> b == a)
  }

  ghost predicate Extends(s: State, t: State) {
    && s.now <= t.now
    && (forall id :: id in s.orders ==> id in t.orders && OrderExtends(s.orders[id], t.orders[id]))
    && (forall e :: e in s.receipts ==> e in t.receipts && t.receipts[e] == s.receipts[e])
    && (forall op :: op in s.fundings ==> op in t.fundings && t.fundings[op] == s.fundings[op])
    && (forall who :: who in s.grants ==>
          && who in t.grants
          && s.grants[who].proofTime <= t.grants[who].proofTime
          && s.grants[who].validUntil <= t.grants[who].validUntil)
    && s.moves <= t.moves
  }

  lemma ExtendsTransitive(s: State, t: State, u: State)
    requires Extends(s, t) && Extends(t, u)
    ensures Extends(s, u)
  {
    assert forall id :: id in s.orders ==> OrderExtends(t.orders[id], u.orders[id]);
    assert forall who :: who in s.grants ==> who in t.grants;
  }

  lemma EvolvesExtends(c: Config, now: nat, call: Call, o: Order, after: Order)
    requires !call.Submit? && Evolves(c, now, call, Some(o), after)
    requires OneOutcome(o)
    ensures OrderExtends(o, after)
  {
    hide AcceptableTerms;
  }

  lemma SameOrderExtends(o: Order)
    ensures OrderExtends(o, o)
  {
  }

  lemma EffectExtends(c: Config, s: State, call: Call, t: State)
    requires !call.Submit? && Effect(c, s, call, t) && OrdersOk(c, s)
    ensures Extends(s, t)
  {
    hide Evolves, OneOutcome, Timeline, AcceptableTerms, TransfersOf, OrderExtends, Held, HeldBefore, Balance;
    forall id | id in s.orders ensures id in t.orders && OrderExtends(s.orders[id], t.orders[id]) {
      if id == call.id {
        assert OrderOk(c, s.now, id, s.orders[id]);
        EvolvesExtends(c, s.now, call, s.orders[id], t.orders[id]);
      } else {
        SameOrderExtends(s.orders[id]);
      }
    }
  }

  lemma NewerIsLonger(c: PolicyConfig, stored: Grant, g: Grant)
    requires OfPolicy(c, stored) && OfPolicy(c, g)
    ensures stored.proofTime <= Newer(Some(stored), g).proofTime
    ensures stored.validUntil <= Newer(Some(stored), g).validUntil
  {
  }

  lemma SubmitExtends(c: Config, h: Host, s: State, subject: Hash, lengthsOk: bool, inputs: seq<Word>)
    requires GrantsOk(c, s)
    ensures Extends(s, SubmitCall(c, h, s, subject, lengthsOk, inputs).state)
  {
    hide SubmitCall, OfPolicy, Newer;
    SubmitEffect(c, h, s, subject, lengthsOk, inputs);
    var t := SubmitCall(c, h, s, subject, lengthsOk, inputs).state;
    if t != s {
      var g :| OfPolicy(c.policy, g) && g.proofTime <= s.now
               && t == s.(grants := s.grants[subject := Newer(StoredGrant(s, subject), g)]);
      if subject in s.grants {
        NewerIsLonger(c.policy, s.grants[subject], g);
      }
    }
  }

  lemma SameRecordsExtend(s: State, t: State)
    requires s.now <= t.now && t == s.(now := t.now, balances := t.balances)
    ensures Extends(s, t)
  {
    hide Terminal;
  }

  lemma EnvironmentExtends(c: Config, s: State, e: Event)
    requires !e.Invoke?
    ensures Extends(s, Step(c, s, e))
  {
    hide Apply, Credited, Balance, Extends;
    SameRecordsExtend(s, Step(c, s, e));
  }

  lemma StepExtends(c: Config, s: State, e: Event)
    requires Deployed(c) && Inv(c, s)
    ensures Extends(s, Step(c, s, e))
  {
    hide Deployed, OrderOk, ReceiptIndexOk, FundingIndexOk, MovesOk, ReserveOk, Effect, OfPolicy, SubmitCall, Extends,
         CreateCall, FundCall, AuthorizeCall, RecordCall, SettleCall, RefundCall, CancelCall;
    if !e.Invoke? {
      EnvironmentExtends(c, s, e);
    } else if e.call.Submit? {
      SubmitExtends(c, e.host, s, e.call.subject, e.call.lengthsOk, e.call.inputs);
    } else {
      StoredPaysOutside(c, s, e.call.id);
      CallEffect(c, e.host, s, e.call);
      if Apply(c, e.host, s, e.call).state != s {
        EffectExtends(c, s, e.call, Apply(c, e.host, s, e.call).state);
      } else {
        ExtendsReflexive(s);
      }
    }
  }

  /**
   Over every run, stored facts are permanent: orders keep their terms and every mark once made,
   index entries keep their order, and a subject's eligibility never ends earlier.
   */
  lemma {:induction false} RunExtends(c: Config, s: State, es: seq<Event>)
    requires Deployed(c) && Inv(c, s)
    ensures Inv(c, Run(c, s, es)) && Extends(s, Run(c, s, es))
    decreases |es|
  {
    ProviderOutside(c);
    hide Deployed, Inv, Step, Extends;
    if es == [] {
      ExtendsReflexive(s);
    } else {
      StepExtends(c, s, es[0]);
      StepKeepsInv(c, s, es[0]);
      RunExtends(c, Step(c, s, es[0]), es[1..]);
      ExtendsTransitive(s, Step(c, s, es[0]), Run(c, s, es));
    }
  }

  lemma ExtendsReflexive(s: State)
    ensures Extends(s, s)
  {
  }

  lemma OrderLater(c: Config, s: State, t: State, id: Hash)
    requires Inv(c, t) && Extends(s, t) && id in s.orders
    ensures id in t.orders && OrderExtends(s.orders[id], t.orders[id]) && OrderOk(c, t.now, id, t.orders[id])
  {
    hide OrderExtends, OrderOk, ReceiptIndexOk, FundingIndexOk, MovesOk, ReserveOk, GrantsOk;
  }

  /** Once a payout is authorized or a receipt is recorded, no continuation refunds or cancels. */
  lemma NeverUndoneLater(c: Config, s: State, es: seq<Event>, id: Hash)
    requires Deployed(c) && Reachable(c, s) && id in s.orders
    requires s.orders[id].payout.Some? || s.orders[id].receipt.Some?
    ensures id in Run(c, s, es).orders
    ensures Run(c, s, es).orders[id].refundedAt.None? && Run(c, s, es).orders[id].cancelledAt.None?
  {
    hide *;
    ReachableInv(c, s);
    RunExtends(c, s, es);
    OrderLater(c, s, Run(c, s, es), id);
    PaidIsNotUndone(c, Run(c, s, es).now, id, s.orders[id], Run(c, s, es).orders[id]);
  }

  lemma PaidIsNotUndone(c: Config, now: nat, id: Hash, a: Order, b: Order)
    requires OrderExtends(a, b) && OrderOk(c, now, id, b) && (a.payout.Some? || a.receipt.Some?)
    ensures b.refundedAt.None? && b.cancelledAt.None?
  {
    hide AcceptableTerms, Timeline;
  }

  // ------------------------------------------------------------------------------ replays

  /** The lasting trace that a successful call leaves behind. */
  predicate Completed(s: State, call: Call)
    requires !call.Submit?
  {
    && call.id in s.orders
    && var o := s.orders[call.id];
    match call
    case Create(_, terms) => o.terms == terms
    case Fund(_, operationId) => o.funding.Some? && o.funding.value.operationId == operationId
    case Authorize(_) => o.payout.Some?
    case Record(_, receipt) => o.receipt == Some(receipt)
    case Settle(_) => o.settledAt.Some?
    case Refund(_) => o.refundedAt.Some?
    case Cancel(_) => o.cancelledAt.Some?
  }

  lemma ReserveKeepsOrders(c: Config, h: Host, s: State, id: Hash, amount: int)
    ensures ReserveFrom(c, h, s, id, amount).Ok? ==> ReserveFrom(c, h, s, id, amount).value.orders == s.orders
  {
  }

  lemma ReleaseStores(c: Config, h: Host, s: State, id: Hash, o: Order, destination: Address)
    ensures var r := Release(c, h, s, id, o, destination);
            r.reply.Done? ==> id in r.state.orders && r.state.orders[id] == o.(escrowed := false)
  {
  }

  lemma CreateCompletes(c: Config, h: Host, s: State, id: Hash, terms: Terms)
    requires CreateCall(c, h, s, id, terms).reply.Done?
    ensures Completed(CreateCall(c, h, s, id, terms).state, Create(id, terms))
  {
    hide AcceptableTerms, ReserveFrom;
    ReserveKeepsOrders(c, h, s, id, terms.amount);
  }

  lemma FundCompletes(c: Config, h: Host, s: State, id: Hash, operationId: Hash)
    requires FundCall(c, h, s, id, operationId).reply.Done?
    ensures Completed(FundCall(c, h, s, id, operationId).state, Fund(id, operationId))
  {
    hide ReserveFrom;
    ReserveKeepsOrders(c, h, s, id, s.orders[id].terms.amount);
  }

  lemma SettleCompletes(c: Config, h: Host, s: State, id: Hash)
    requires SettleCall(c, h, s, id).reply.Done?
    ensures Completed(SettleCall(c, h, s, id).state, Settle(id))
  {
    hide ActiveGrant, Release;
    var o := s.orders[id];
    ReleaseStores(c, h, s, id, o.(settledAt := Some(s.now)),
                  if o.terms.direction.Deposit? then o.terms.recipient else c.provider);
  }

  lemma UndoCompletes(c: Config, h: Host, s: State, id: Hash)
    ensures RefundCall(c, h, s, id).reply.Done? ==> Completed(RefundCall(c, h, s, id).state, Refund(id))
    ensures CancelCall(c, h, s, id).reply.Done? ==> Completed(CancelCall(c, h, s, id).state, Cancel(id))
  {
    hide Release;
    if id in s.orders {
      ReleaseStores(c, h, s, id, s.orders[id].(refundedAt := Some(s.now)), s.orders[id].terms.refundTo);
      ReleaseStores(c, h, s, id, s.orders[id].(cancelledAt := Some(s.now)), c.provider);
    }
  }

  lemma MarkCompletes(c: Config, h: Host, s: State, id: Hash, receipt: Receipt)
    ensures AuthorizeCall(c, h, s, id).reply.Done? ==> Completed(AuthorizeCall(c, h, s, id).state, Authorize(id))
    ensures RecordCall(c, h, s, id, receipt).reply.Done? ==>
              Completed(RecordCall(c, h, s, id, receipt).state, Record(id, receipt))
  {
    hide ActiveGrant, Balance;
  }

  lemma SuccessCompletes(c: Config, h: Host, s: State, call: Call)
    requires !call.Submit?
    requires Apply(c, h, s, call).reply.Done?
    ensures Completed(Apply(c, h, s, call).state, call)
  {
    hide Completed, CreateCall, FundCall, AuthorizeCall, RecordCall, SettleCall, RefundCall, CancelCall;
    match call
    case Create(id, terms) => CreateCompletes(c, h, s, id, terms);
    case Fund(id, operationId) => FundCompletes(c, h, s, id, operationId);
    case Authorize(id) => MarkCompletes(c, h, s, id, Receipt(0, 0, 0, 0, 0));
    case Record(id, receipt) => MarkCompletes(c, h, s, id, receipt);
    case Settle(id) => SettleCompletes(c, h, s, id);
    case Refund(id) => UndoCompletes(c, h, s, id);
    case Cancel(id) => UndoCompletes(c, h, s, id);
  }

  lemma CompletedLasts(s: State, t: State, call: Call)
    requires !call.Submit? && Completed(s, call) && Extends(s, t)
    ensures Completed(t, call)
  {
    hide Terminal;
    assert OrderExtends(s.orders[call.id], t.orders[call.id]);
  }

  lemma CompletedIsNoOp(c: Config, h: Host, s: State, call: Call)
    requires !call.Submit? && Completed(s, call)
    requires call.Fund? || call.Authorize? ==> s.orders[call.id].terms.direction.Withdrawal?
    ensures Apply(c, h, s, call).state == s
    ensures h.provider && h.notary ==> Apply(c, h, s, call).reply == Done(s.orders[call.id])
  {
  }

  /**
   A call that once succeeded, repeated with the same arguments after any further run and under any
   host answers, changes nothing at all; properly signed, it answers with the current order.
   */
  lemma ReplayChangesNothing(c: Config, h: Host, s: State, call: Call, es: seq<Event>, again: Host)
    requires Deployed(c) && Reachable(c, s) && !call.Submit?
    requires Apply(c, h, s, call).reply.Done?
    ensures var t := Run(c, Apply(c, h, s, call).state, es);
            && Apply(c, again, t, call).state == t
            && call.id in t.orders
            && (again.provider && again.notary ==> Apply(c, again, t, call).reply == Done(t.orders[call.id]))
  {
    ProviderOutside(c);
    hide Reachable, Deployed, Inv, Apply, Run, Extends, Completed;
    ReachableInv(c, s);
    CallKeepsInv(c, h, s, call);
    SuccessCompletes(c, h, s, call);
    var t := Run(c, Apply(c, h, s, call).state, es);
    RunExtends(c, Apply(c, h, s, call).state, es);
    CompletedLasts(Apply(c, h, s, call).state, t, call);
    CompletedDirection(c, t, call);
    CompletedIsNoOp(c, again, t, call);
  }

  lemma CompletedDirection(c: Config, s: State, call: Call)
    requires !call.Submit? && Completed(s, call) && Inv(c, s)
    ensures call.id in s.orders
    ensures call.Fund? || call.Authorize? ==> s.orders[call.id].terms.direction.Withdrawal?
  {
    hide AcceptableTerms, EscrowSum, NetInflow, MovesOf;
    assert OrderOk(c, s.now, call.id, s.orders[call.id]);
  }

  lemma GrantedStores(c: Config, h: Host, s: State, subject: Hash, lengthsOk: bool, inputs: seq<Word>)
    requires SubmitCall(c, h, s, subject, lengthsOk, inputs).reply.Granted?
    ensures |inputs| == 8 + |Expected(c.policy, c.challengeOf(subject))|
    ensures var t := SubmitCall(c, h, s, subject, lengthsOk, inputs).state;
            subject in t.grants && t.grants[subject].proofTime >= inputs[2]
  {
    hide Expected, Matches, Min;
  }

  /** A proof that was once accepted, submitted again at any later time, changes nothing. */
  lemma ReplayedProofChangesNothing(c: Config, h: Host, s: State, subject: Hash, lengthsOk: bool, inputs: seq<Word>,
                                    es: seq<Event>, again: Host)
    requires Deployed(c) && Reachable(c, s)
    requires SubmitCall(c, h, s, subject, lengthsOk, inputs).reply.Granted?
    ensures var t := Run(c, SubmitCall(c, h, s, subject, lengthsOk, inputs).state, es);
            SubmitCall(c, again, t, subject, lengthsOk, inputs).state == t
  {
    hide Reachable, Deployed, Inv, Run, SubmitCall, Expected, Extends;
    ReachableInv(c, s);
    SubmitKeepsInv(c, h, s, subject, lengthsOk, inputs);
    GrantedStores(c, h, s, subject, lengthsOk, inputs);
    var u := SubmitCall(c, h, s, subject, lengthsOk, inputs).state;
    RunExtends(c, u, es);
    var t := Run(c, u, es);
    GrantLater(u, t, subject);
    StaleProof(c, again, t, subject, lengthsOk, inputs);
  }

  lemma GrantLater(s: State, t: State, subject: Hash)
    requires Extends(s, t) && subject in s.grants
    ensures subject in t.grants && s.grants[subject].proofTime <= t.grants[subject].proofTime
  {
    hide OrderExtends;
  }

  lemma StaleProof(c: Config, h: Host, t: State, subject: Hash, lengthsOk: bool, inputs: seq<Word>)
    requires |inputs| == 8 + |Expected(c.policy, c.challengeOf(subject))|
    requires subject in t.grants && t.grants[subject].proofTime >= inputs[2]
    ensures SubmitCall(c, h, t, subject, lengthsOk, inputs).state == t
  {
    hide Expected, Matches, Min;
    assert t.grants[subject := t.grants[subject]] == t.grants;
  }
}
