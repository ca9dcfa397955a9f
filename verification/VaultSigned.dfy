/** Every mark of an order goes back to a call that the right operators signed. */
module VaultSigned {
  import opened Wrappers
  import opened Vault
  import opened VaultSafety
  import opened VaultTheorems
  import opened VaultEligibility

  /** The call by which this event moved the order from `before` to `after`, signed as it must be. */
  predicate Signed(e: Event, id: Hash, before: Option<Order>, after: Order) {
    && e.Invoke?
    && (before.None? ==> e.call == Create(id, after.terms) && e.host.provider)
    && (before.Some? ==>
          && var o := before.value;
          && (after.funding != o.funding ==>
                after.funding.Some? && e.call == Fund(id, after.funding.value.operationId) && e.host.provider && e.host.notary)
          && (after.payout != o.payout ==> e.call == Authorize(id) && e.host.notary)
          && (after.receipt != o.receipt ==>
                after.receipt.Some? && e.call == Record(id, after.receipt.value) && e.host.notary)
          && (after.settledAt != o.settledAt ==> e.call == Settle(id))
          && (after.refundedAt != o.refundedAt ==> e.call == Refund(id) && e.host.provider && e.host.notary)
          && (after.cancelledAt != o.cancelledAt ==> e.call == Cancel(id) && e.host.provider && e.host.notary))
  }

  predicate ByProvider(call: Call) {
    call.Create? || call.Fund? || call.Refund? || call.Cancel?
  }

  predicate ByNotary(call: Call) {
    call.Fund? || call.Authorize? || call.Record? || call.Refund? || call.Cancel?
  }

  /** Nothing happens without the signatures that the call asks for. */
  lemma UnsignedChangesNothing(c: Config, h: Host, s: State, call: Call)
    requires (ByProvider(call) && !h.provider) || (ByNotary(call) && !h.notary)
    ensures Apply(c, h, s, call).state == s
  {
  }

  lemma EvolvesByItsCall(c: Config, h: Host, now: nat, call: Call, before: Option<Order>, after: Order)
    requires !call.Submit? && VaultSafety.Evolves(c, now, call, before, after)
    requires ByProvider(call) ==> h.provider
    requires ByNotary(call) ==> h.notary
    ensures Signed(Invoke(h, call), call.id, before, after)
  {
    hide AcceptableTerms, GoodReceipt, Terminal, Undoable;
  }

  lemma StepIsSigned(c: Config, s: State, e: Event, id: Hash)
    requires Deployed(c) && Inv(c, s) && id in Step(c, s, e).orders
    ensures id in s.orders ==> Step(c, s, e).orders[id] == s.orders[id]
                               || Signed(e, id, Some(s.orders[id]), Step(c, s, e).orders[id])
    ensures id !in s.orders ==> Signed(e, id, None, Step(c, s, e).orders[id])
  {
    hide Deployed, OrderOk, ReceiptIndexOk, FundingIndexOk, MovesOk, ReserveOk, GrantsOk, Apply, Evolves, Signed, Held, HeldBefore,
         Balance, TransfersOf, Credited;
    if e.Invoke? {
      if e.call.Submit? {
        SubmitKeepsOrders(c, s, e);
      } else if Apply(c, e.host, s, e.call).state != s {
        StoredPaysOutside(c, s, e.call.id);
        CallEffect(c, e.host, s, e.call);
        SignedOrNothing(c, e.host, s, e.call);
        EvolvesByItsCall(c, e.host, s.now, e.call, Lookup(s.orders, e.call.id), Step(c, s, e).orders[e.call.id]);
      }
    }
  }

  lemma SignedOrNothing(c: Config, h: Host, s: State, call: Call)
    requires Apply(c, h, s, call).state != s
    ensures ByProvider(call) ==> h.provider
    ensures ByNotary(call) ==> h.notary
  {
    hide Apply;
    if (ByProvider(call) && !h.provider) || (ByNotary(call) && !h.notary) {
      UnsignedChangesNothing(c, h, s, call);
    }
  }

  lemma SubmitKeepsOrders(c: Config, s: State, e: Event)
    requires e.Invoke? && e.call.Submit?
    ensures Step(c, s, e).orders == s.orders
  {
    hide SubmitCall;
    SubmitEffect(c, e.host, s, e.call.subject, e.call.lengthsOk, e.call.inputs);
  }

  predicate Called(es: seq<Event>, call: Call, provider: bool, notary: bool) {
    exists i :: 0 <= i < |es| && es[i].Invoke? && es[i].call == call
                && (provider ==> es[i].host.provider) && (notary ==> es[i].host.notary)
  }

  lemma CalledLater(es: seq<Event>, e: Event, call: Call, provider: bool, notary: bool)
    requires Called(es, call, provider, notary)
    ensures Called(es + [e], call, provider, notary)
  {
    var i :| 0 <= i < |es| && es[i].Invoke? && es[i].call == call
             && (provider ==> es[i].host.provider) && (notary ==> es[i].host.notary);
    assert (es + [e])[i] == es[i];
  }

  lemma CalledNow(es: seq<Event>, e: Event, provider: bool, notary: bool)
    requires e.Invoke? && (provider ==> e.host.provider) && (notary ==> e.host.notary)
    ensures Called(es + [e], e.call, provider, notary)
  {
    assert (es + [e])[|es|] == e;
  }

  /** All that an order shows was called for, with the signatures of the operators it binds. */
  predicate Vouched(es: seq<Event>, id: Hash, o: Order) {
    && Called(es, Create(id, o.terms), true, false)
    && (o.funding.Some? ==> Called(es, Fund(id, o.funding.value.operationId), true, true))
    && (o.payout.Some? ==> Called(es, Authorize(id), false, true))
    && (o.receipt.Some? ==> Called(es, Record(id, o.receipt.value), false, true))
    && (o.settledAt.Some? ==> Called(es, Settle(id), false, false))
    && (o.refundedAt.Some? ==> Called(es, Refund(id), true, true))
    && (o.cancelledAt.Some? ==> Called(es, Cancel(id), true, true))
  }

  lemma VouchedLater(es: seq<Event>, e: Event, id: Hash, o: Order)
    requires Vouched(es, id, o)
    ensures Vouched(es + [e], id, o)
  {
    hide Called;
    CalledLater(es, e, Create(id, o.terms), true, false);
    if o.funding.Some? { CalledLater(es, e, Fund(id, o.funding.value.operationId), true, true); }
    if o.payout.Some? { CalledLater(es, e, Authorize(id), false, true); }
    if o.receipt.Some? { CalledLater(es, e, Record(id, o.receipt.value), false, true); }
    if o.settledAt.Some? { CalledLater(es, e, Settle(id), false, false); }
    if o.refundedAt.Some? { CalledLater(es, e, Refund(id), true, true); }
    if o.cancelledAt.Some? { CalledLater(es, e, Cancel(id), true, true); }
  }

  lemma VouchedChange(es: seq<Event>, e: Event, id: Hash, before: Option<Order>, after: Order)
    requires Signed(e, id, before, after)
    requires before.Some? ==> Vouched(es, id, before.value) && after.terms == before.value.terms
    requires before.None? ==> after == Order(after.terms, after.createdAt, None, after.escrowed, None, None, None, None, None)
    ensures Vouched(es + [e], id, after)
  {
    hide Called;
    if before.None? {
      CalledNow(es, e, true, false);
    } else {
      var o := before.value;
      VouchedLater(es, e, id, o);
      if after.funding != o.funding || after.refundedAt != o.refundedAt || after.cancelledAt != o.cancelledAt {
        CalledNow(es, e, true, true);
      }
      if after.payout != o.payout || after.receipt != o.receipt { CalledNow(es, e, false, true); }
      if after.settledAt != o.settledAt { CalledNow(es, e, false, false); }
    }
  }

  lemma NewOrderIsPlain(c: Config, s: State, e: Event, id: Hash)
    requires Deployed(c) && Inv(c, s) && id in Step(c, s, e).orders
    ensures var o := Step(c, s, e).orders[id];
            id !in s.orders ==> o == Order(o.terms, o.createdAt, None, o.escrowed, None, None, None, None, None)
    ensures id in s.orders ==> Step(c, s, e).orders[id].terms == s.orders[id].terms
  {
    hide Deployed, OrderOk, ReceiptIndexOk, FundingIndexOk, MovesOk, ReserveOk, GrantsOk, Apply, Held, HeldBefore, AcceptableTerms,
         Balance, TransfersOf, Credited, GoodReceipt, Terminal, Undoable;
    if e.Invoke? {
      if e.call.Submit? {
        SubmitKeepsOrders(c, s, e);
      } else {
        StoredPaysOutside(c, s, e.call.id);
        CallEffect(c, e.host, s, e.call);
      }
    }
  }

  /**
   Over every run each order and each of its marks goes back to a call of that run for exactly this
   order, terms, receipt or operation, signed by the provider for creation, by the notary for a payout or
   receipt, and by both for a funding, refund or cancel. Settling needs nobody.
   */
  lemma {:induction false} EveryMarkWasSigned(c: Config, s0: State, es: seq<Event>, id: Hash)
    requires Deployed(c) && Initial(s0) && id in Run(c, s0, es).orders
    ensures Vouched(es, id, Run(c, s0, es).orders[id])
    decreases |es|
  {
    hide Deployed, Inv, Step, Vouched, Signed;
    if es != [] {
      var front, e := es[..|es| - 1], es[|es| - 1];
      assert es == front + [e];
      RunSnoc(c, s0, front, e);
      hide Run;
      var s := Run(c, s0, front);
      InitialInv(c, s0);
      RunKeepsInv(c, s0, front);
      StepIsSigned(c, s, e, id);
      NewOrderIsPlain(c, s, e, id);
      if id in s.orders {
        EveryMarkWasSigned(c, s0, front, id);
        if Step(c, s, e).orders[id] == s.orders[id] {
          VouchedLater(front, e, id, s.orders[id]);
        } else {
          VouchedChange(front, e, id, Some(s.orders[id]), Step(c, s, e).orders[id]);
        }
      } else {
        VouchedChange(front, e, id, None, Step(c, s, e).orders[id]);
      }
    }
  }
}
