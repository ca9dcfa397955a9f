/**
 Exactly when each call succeeds in a reachable state. The reserve guards never decide: the vault always
 covers what it owes.
 */
module VaultCalls {
  import opened Wrappers
  import opened Policy
  import opened Vault
  import opened VaultSafety
  import opened VaultTheorems
  import opened VaultTerms

  /** The facts of one stored order that the guards rest on. */
  lemma OrderFacts(c: Config, s: State, id: Hash)
    requires Deployed(c) && Inv(c, s) && id in s.orders
    ensures OneOutcome(s.orders[id]) && Timeline(c, s.now, s.orders[id])
    ensures 0 < s.orders[id].terms.amount && s.reserved <= Balance(s, c.vault)
    ensures s.orders[id].escrowed ==> s.orders[id].terms.amount <= s.reserved
    ensures s.orders[id].receipt.Some? ==>
              s.orders[id].receipt.value.eventId in s.receipts && s.receipts[s.orders[id].receipt.value.eventId] == id
  {
    hide FundingIndexOk, MovesOk, GrantsOk, EscrowSum, NetInflow, Deployed;
    HeldBounds(c, s, id);
    assert OrderOk(c, s.now, id, s.orders[id]);
  }

  lemma ReleaseExactly(c: Config, h: Host, s: State, id: Hash, o: Order, destination: Address)
    requires 0 < o.terms.amount <= s.reserved <= Balance(s, c.vault)
    ensures Release(c, h, s, id, o, destination).reply.Done? <==> h.transferOk
  {
  }

  /** A deposit is cancelled, or was before, by both operators while the bank owes nothing for it. */
  lemma CancelExactly(c: Config, h: Host, s: State, id: Hash)
    requires Deployed(c) && Inv(c, s)
    ensures CancelCall(c, h, s, id).reply.Done?
            <==> && h.provider && h.notary && id in s.orders
                 && var o := s.orders[id];
                 o.cancelledAt.Some? || (o.terms.direction.Deposit? && o.escrowed && o.receipt.None? && h.transferOk)
  {
    hide Deployed, Inv, Release, Balance, AcceptableTerms, GoodReceipt;
    if id in s.orders {
      OrderFacts(c, s, id);
      if s.orders[id].escrowed { ReleaseExactly(c, h, s, id, s.orders[id].(cancelledAt := Some(s.now)), c.provider); }
    }
  }

  /** A withdrawal is refunded, or was before, by both operators while no payout was authorized. */
  lemma RefundExactly(c: Config, h: Host, s: State, id: Hash)
    requires Deployed(c) && Inv(c, s)
    ensures RefundCall(c, h, s, id).reply.Done?
            <==> && h.provider && h.notary && id in s.orders
                 && var o := s.orders[id];
                 o.refundedAt.Some? || (o.terms.direction.Withdrawal? && o.escrowed && o.payout.None? && h.transferOk)
  {
    hide Deployed, Inv, Release, Balance, AcceptableTerms;
    if id in s.orders {
      OrderFacts(c, s, id);
      if s.orders[id].escrowed {
        ReleaseExactly(c, h, s, id, s.orders[id].(refundedAt := Some(s.now)), s.orders[id].terms.refundTo);
      }
    }
  }

  /** A payout is authorized, or was before, by the notary for an escrowed withdrawal of an eligible customer. */
  lemma AuthorizeExactly(c: Config, h: Host, s: State, id: Hash)
    requires Deployed(c) && Inv(c, s)
    ensures AuthorizeCall(c, h, s, id).reply.Done?
            <==> && h.notary && id in s.orders
                 && var o := s.orders[id];
                 && o.terms.direction.Withdrawal?
                 && (o.payout.Some?
                     || (&& o.escrowed && s.now < o.terms.deadline && s.now < c.policy.validUntil && h.verifierPinned
                         && o.terms.subject in s.grants && s.now < s.grants[o.terms.subject].validUntil))
  {
    hide Deployed, Inv, Balance, AcceptableTerms;
    if id in s.orders { OrderFacts(c, s, id); }
  }

  /** A withdrawal is funded once, under a new operation id, or answers a repeat of that. */
  lemma FundExactly(c: Config, h: Host, s: State, id: Hash, operationId: Hash)
    requires Deployed(c) && Inv(c, s)
    ensures FundCall(c, h, s, id, operationId).reply.Done?
            <==> && h.provider && h.notary && id in s.orders
                 && var o := s.orders[id];
                 && o.terms.direction.Withdrawal?
                 && (if o.funding.Some? then o.funding.value.operationId == operationId
                     else
                       && operationId != 0 && operationId !in s.fundings
                       && h.transferOk && o.terms.amount <= Balance(s, c.provider) && s.reserved + o.terms.amount <= I128_MAX)
  {
    hide Deployed, Inv, Balance, AcceptableTerms, GoodReceipt, ReserveFrom;
    if id in s.orders {
      OrderFacts(c, s, id);
      ProviderOutside(c);
      ReserveFromExactly(c, h, s, id, s.orders[id].terms.amount);
    }
  }

  /** A receipt is recorded once, exactly as the order was quoted, or answers a repeat of that. */
  lemma RecordExactly(c: Config, h: Host, s: State, id: Hash, receipt: Receipt)
    requires Deployed(c) && Inv(c, s)
    ensures RecordCall(c, h, s, id, receipt).reply.Done?
            <==> && h.notary && id in s.orders
                 && var o := s.orders[id];
                 if o.receipt.Some? then o.receipt.value == receipt
                 else
                   && o.escrowed && receipt.eventId != 0 && receipt.eventId !in s.receipts
                   && receipt.quoteHash == o.terms.quoteHash && receipt.tryMinor == o.terms.tryMinor
                   && receipt.bankDestinationHash == o.terms.bankDestinationHash && receipt.receivedAt <= s.now
                   && (o.terms.direction.Deposit? ==> o.createdAt <= receipt.receivedAt && o.terms.subject in s.grants)
                   && (o.terms.direction.Withdrawal? ==> o.payout.Some? && o.payout.value <= receipt.receivedAt)
  {
    hide Deployed, Inv, Balance, AcceptableTerms, GoodReceipt;
    if id in s.orders { OrderFacts(c, s, id); }
  }

  /** Anyone settles a receipted withdrawal at any time, and a receipted deposit of an eligible customer in time. */
  lemma SettleExactly(c: Config, h: Host, s: State, id: Hash)
    requires Deployed(c) && Inv(c, s)
    ensures SettleCall(c, h, s, id).reply.Done?
            <==> && id in s.orders
                 && var o := s.orders[id];
                 || o.settledAt.Some?
                 || (&& o.receipt.Some? && o.escrowed && h.transferOk
                     && (o.terms.direction.Deposit? ==>
                           && s.now < o.terms.deadline && s.now < c.policy.validUntil && h.verifierPinned
                           && o.terms.subject in s.grants && s.now < s.grants[o.terms.subject].validUntil))
  {
    hide Deployed, Inv, Release, Balance, AcceptableTerms;
    if id in s.orders {
      OrderFacts(c, s, id);
      var o := s.orders[id];
      if o.escrowed {
        ReleaseExactly(c, h, s, id, o.(settledAt := Some(s.now)),
                       if o.terms.direction.Deposit? then o.terms.recipient else c.provider);
      }
    }
  }

  /** A proof is accepted exactly if it is valid, current and carries what the policy asks of this subject. */
  lemma SubmitExactly(c: Config, h: Host, s: State, subject: Hash, lengthsOk: bool, inputs: seq<Word>)
    ensures SubmitCall(c, h, s, subject, lengthsOk, inputs).reply.Granted?
            <==> && subject != 0 && lengthsOk && s.now < c.policy.validUntil && h.verifierPinned && h.proofValid
                 && Carries(c.policy, c.challengeOf(subject), inputs)
                 && inputs[2] <= s.now < inputs[2] + c.policy.maxProofAge <= U64_MAX
    ensures SubmitCall(c, h, s, subject, lengthsOk, inputs).reply.Granted? ==>
              var t := SubmitCall(c, h, s, subject, lengthsOk, inputs).state;
              && t == s.(grants := s.grants[subject := t.grants[subject]])
              && (if subject in s.grants && s.grants[subject].proofTime >= inputs[2] then t == s
                  else t.grants[subject].proofTime == inputs[2])
  {
    hide Expected, Constraints, ParameterCount, Check;
    ExpectedIsParameters(c.policy, c.challengeOf(subject));
    if |inputs| == 8 + |Expected(c.policy, c.challengeOf(subject))| {
      AcceptedExactly(c.policy, c.challengeOf(subject), 0, c.policy.validUntil, s.now, inputs);
    }
    if subject in s.grants { assert s.grants[subject := s.grants[subject]] == s.grants; }
  }

  // ------------------------------------------------------------------------- refusals

  predicate NeedsGrant(call: Call, o: Order) {
    call.Authorize? || ((call.Settle? || call.Record?) && o.terms.direction.Deposit?)
  }

  /** What each error says of the call it answers. */
  predicate Explained(c: Config, h: Host, s: State, call: Call, e: GateError)
    requires !call.Submit?
  {
    var known := call.id in s.orders;
    match e
    case Unauthorized =>
      if call.Authorize? || call.Record? then !h.notary
      else if call.Create? then !h.provider
      else !call.Settle? && !(h.provider && h.notary)
    case OrderMissing => !call.Create? && !known
    case OrderConflict => call.Create? && known && s.orders[call.id].terms != call.terms
    case WrongVerifier => !h.verifierPinned && (call.Create? || (known && NeedsGrant(call, s.orders[call.id])))
    case Expired =>
      if call.Create? then s.now >= c.policy.validUntil
      else
        && known && NeedsGrant(call, s.orders[call.id])
        && var t := s.orders[call.id].terms;
        || s.now >= c.policy.validUntil || s.now >= t.deadline
        || (t.subject in s.grants && s.now >= s.grants[t.subject].validUntil)
    case EligibilityMissing =>
      known && NeedsGrant(call, s.orders[call.id]) && s.orders[call.id].terms.subject !in s.grants
    case InvalidTerms => call.Create? && !known
    case FundingUsed => call.Fund? && known && call.operationId in s.fundings && s.orders[call.id].funding.None?
    case ReceiptUsed => call.Record? && known && call.receipt.eventId in s.receipts && s.orders[call.id].receipt.None?
    case InvalidReceipt =>
      && call.Record? && known
      && var o := s.orders[call.id];
      if o.receipt.Some? then o.receipt.value != call.receipt
      else
        || call.receipt.eventId == 0 || call.receipt.quoteHash != o.terms.quoteHash || call.receipt.tryMinor != o.terms.tryMinor
        || call.receipt.bankDestinationHash != o.terms.bankDestinationHash || call.receipt.receivedAt > s.now
        || (o.terms.direction.Deposit? && call.receipt.receivedAt < o.createdAt)
        || (o.payout.Some? && call.receipt.receivedAt < o.payout.value)
    case InvalidState =>
      && known
      && var o := s.orders[call.id];
      && (match call
          case Cancel(_) => o.terms.direction.Withdrawal? || !o.escrowed || o.receipt.Some?
          case Refund(_) => o.terms.direction.Deposit? || !o.escrowed || o.payout.Some?
          case Authorize(_) => o.terms.direction.Deposit? || !o.escrowed
          case Fund(_, operationId) => o.terms.direction.Deposit? || operationId == 0 || o.funding.Some?
          case Record(_, _) => !o.escrowed || (o.terms.direction.Withdrawal? && o.payout.None?)
          case Settle(_) => !o.escrowed || o.receipt.None?
          case _ => false)
    case TransferFailed => !h.transferOk || (Pulls(s, call).Some? && Balance(s, c.provider) < Pulls(s, call).value)
    case Arithmetic => Pulls(s, call).Some? && s.reserved + Pulls(s, call).value > I128_MAX
    case _ => false
  }

  /** What a call would take from the provider. */
  function Pulls(s: State, call: Call): Option<int> {
    if call.Create? then Some(call.terms.amount)
    else if call.Fund? && call.id in s.orders then Some(s.orders[call.id].terms.amount) else None
  }

  lemma UndoRefusals(c: Config, h: Host, s: State, call: Call)
    requires Deployed(c) && Inv(c, s) && (call.Cancel? || call.Refund?)
    ensures Apply(c, h, s, call).reply.Failed? ==> Explained(c, h, s, call, Apply(c, h, s, call).reply.error)
  {
    hide Deployed, Inv, Balance, AcceptableTerms;
    if call.id in s.orders { OrderFacts(c, s, call.id); }
  }

  lemma AuthorizeRefusals(c: Config, h: Host, s: State, call: Call)
    requires Deployed(c) && Inv(c, s) && call.Authorize?
    ensures Apply(c, h, s, call).reply.Failed? ==> Explained(c, h, s, call, Apply(c, h, s, call).reply.error)
  {
    hide Deployed, Inv, Balance, AcceptableTerms;
    if call.id in s.orders { OrderFacts(c, s, call.id); }
  }

  lemma FundRefusals(c: Config, h: Host, s: State, call: Call)
    requires Deployed(c) && Inv(c, s) && call.Fund?
    ensures Apply(c, h, s, call).reply.Failed? ==> Explained(c, h, s, call, Apply(c, h, s, call).reply.error)
  {
    hide Deployed, Inv, AcceptableTerms, GoodReceipt;
    ProviderOutside(c);
    if call.id in s.orders { OrderFacts(c, s, call.id); }
  }

  lemma RecordRefusals(c: Config, h: Host, s: State, call: Call)
    requires Deployed(c) && Inv(c, s) && call.Record?
    ensures Apply(c, h, s, call).reply.Failed? ==> Explained(c, h, s, call, Apply(c, h, s, call).reply.error)
  {
    hide Deployed, Inv, Balance, AcceptableTerms, GoodReceipt;
    if call.id in s.orders { OrderFacts(c, s, call.id); }
  }

  lemma SettleRefusals(c: Config, h: Host, s: State, call: Call)
    requires Deployed(c) && Inv(c, s) && call.Settle?
    ensures Apply(c, h, s, call).reply.Failed? ==> Explained(c, h, s, call, Apply(c, h, s, call).reply.error)
  {
    hide Deployed, Inv, Balance, AcceptableTerms;
    if call.id in s.orders { OrderFacts(c, s, call.id); }
  }

  lemma CreateRefusals(c: Config, h: Host, s: State, call: Call)
    requires Deployed(c) && Inv(c, s) && call.Create?
    ensures Apply(c, h, s, call).reply.Failed? ==> Explained(c, h, s, call, Apply(c, h, s, call).reply.error)
  {
    hide Inv;
    ProviderOutside(c);
    ReserveCovered(c, s);
  }

  lemma ReserveCovered(c: Config, s: State)
    requires Deployed(c) && Inv(c, s)
    ensures s.reserved <= Balance(s, c.vault)
  {
    hide OrderOk, ReceiptIndexOk, FundingIndexOk, MovesOk, GrantsOk, Deployed;
  }

  /**
   In every reachable state an error means what it says, and the reserve guards and the index checks of
   a settlement never fail: no call is refused for InsufficientReserve.
   */
  lemma RefusalsExplained(c: Config, h: Host, s: State, call: Call)
    requires Deployed(c) && Inv(c, s) && !call.Submit?
    ensures Apply(c, h, s, call).reply.Failed? ==> Explained(c, h, s, call, Apply(c, h, s, call).reply.error)
  {
    hide *;
    match call
    case Create(_, _) => CreateRefusals(c, h, s, call);
    case Fund(_, _) => FundRefusals(c, h, s, call);
    case Authorize(_) => AuthorizeRefusals(c, h, s, call);
    case Record(_, _) => RecordRefusals(c, h, s, call);
    case Settle(_) => SettleRefusals(c, h, s, call);
    case Refund(_) => UndoRefusals(c, h, s, call);
    case Cancel(_) => UndoRefusals(c, h, s, call);
  }
}
