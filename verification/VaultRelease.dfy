/** Which escrows can always be released, and the one case that cannot. */
module VaultRelease {
  import opened Wrappers
  import opened Policy
  import opened Vault
  import opened VaultSafety
  import opened VaultTheorems

  /** Operators sign and the transfer succeeds; nothing is asked of the verifier. */
  predicate Helpful(h: Host) {
    h.provider && h.notary && h.transferOk
  }

  function RunCalls(c: Config, h: Host, s: State, calls: seq<Call>): State
    decreases |calls|
  {
    if calls == [] then s else RunCalls(c, h, Apply(c, h, s, calls[0]).state, calls[1..])
  }

  /** A receipt for the order that the vault accepts now. */
  function ReceiptNow(s: State, o: Order, eventId: Hash): Receipt {
    Receipt(eventId, o.terms.quoteHash, o.terms.tryMinor, s.now, o.terms.bankDestinationHash)
  }

  /** The calls that release an escrowed order whose receipt is not that of a deposit. */
  function Rescue(s: State, id: Hash, eventId: Hash): seq<Call>
    requires id in s.orders
  {
    var o := s.orders[id];
    if o.terms.direction.Deposit? then [Cancel(id)]
    else if o.payout.None? then [Refund(id)]
    else if o.receipt.None? then [Record(id, ReceiptNow(s, o, eventId)), Settle(id)]
    else [Settle(id)]
  }

  /** Release succeeds when the reserve covers the amount and the destination is outside the vault. */
  lemma ReleaseSucceeds(c: Config, h: Host, s: State, id: Hash, o: Order, destination: Address)
    requires h.transferOk && 0 <= o.terms.amount <= s.reserved <= Balance(s, c.vault) && destination != c.vault
    ensures var t := Release(c, h, s, id, o, destination).state;
            && id in t.orders && t.orders[id] == o.(escrowed := false)
            && t.moves == s.moves + [Move(id, c.vault, destination, o.terms.amount)]
            && t.now == s.now
  {
  }

  lemma EscrowIsCovered(c: Config, s: State, id: Hash)
    requires Deployed(c) && Inv(c, s) && id in s.orders && s.orders[id].escrowed
    ensures 0 < s.orders[id].terms.amount <= s.reserved <= Balance(s, c.vault)
    ensures c.provider != c.vault && s.orders[id].terms.recipient != c.vault && s.orders[id].terms.refundTo != c.vault
    ensures OneOutcome(s.orders[id]) && !Terminal(s.orders[id])
    ensures Timeline(c, s.now, s.orders[id])
  {
    hide ReceiptIndexOk, FundingIndexOk, MovesOk, GrantsOk, EscrowSum, NetInflow;
    HeldBounds(c, s, id);
    assert OrderOk(c, s.now, id, s.orders[id]);
  }

  /** With an indexed receipt and the payout or grant its direction asks for, settling is releasing. */
  lemma SettleIsRelease(c: Config, h: Host, s: State, id: Hash)
    requires id in s.orders && s.orders[id].escrowed && s.orders[id].receipt.Some? && !Terminal(s.orders[id])
    requires s.orders[id].receipt.value.eventId in s.receipts && s.receipts[s.orders[id].receipt.value.eventId] == id
    requires s.orders[id].terms.direction.Withdrawal? ==> s.orders[id].payout.Some?
    requires s.orders[id].terms.direction.Deposit? ==>
               s.now < s.orders[id].terms.deadline && ActiveGrant(c, h, s, s.orders[id].terms.subject).Ok?
    ensures var o := s.orders[id];
            SettleCall(c, h, s, id) == Release(c, h, s, id, o.(settledAt := Some(s.now)),
                                               if o.terms.direction.Deposit? then o.terms.recipient else c.provider)
  {
    hide Release;
  }

  lemma PaidOutReceipt(c: Config, now: nat, o: Order)
    requires Timeline(c, now, o) && o.receipt.Some? && o.terms.direction.Withdrawal?
    ensures o.payout.Some?
  {
  }

  lemma SettleReleases(c: Config, h: Host, s: State, id: Hash)
    requires Deployed(c) && Inv(c, s) && Helpful(h)
    requires id in s.orders && s.orders[id].escrowed && s.orders[id].receipt.Some?
    requires s.orders[id].terms.direction.Withdrawal?
    ensures var t := SettleCall(c, h, s, id).state;
            && id in t.orders && t.orders[id] == s.orders[id].(escrowed := false, settledAt := Some(s.now))
            && t.moves == s.moves + [Move(id, c.vault, c.provider, s.orders[id].terms.amount)]
  {
    hide Inv, Deployed, Release, Balance, SettleCall, ActiveGrant, Terminal, OneOutcome, Timeline;
    EscrowIsCovered(c, s, id);
    IndexedReceipt(c, s, id);
    PaidOutReceipt(c, s.now, s.orders[id]);
    SettleIsRelease(c, h, s, id);
    ReleaseSucceeds(c, h, s, id, s.orders[id].(settledAt := Some(s.now)), c.provider);
  }

  lemma IndexedReceipt(c: Config, s: State, id: Hash)
    requires Inv(c, s) && id in s.orders && s.orders[id].receipt.Some?
    ensures s.orders[id].receipt.value.eventId in s.receipts
    ensures s.receipts[s.orders[id].receipt.value.eventId] == id
  {
    hide OrdersOk, FundingIndexOk, MovesOk, ReserveOk, GrantsOk;
  }

  lemma RecordSucceeds(c: Config, h: Host, s: State, id: Hash, eventId: Hash)
    requires Deployed(c) && Inv(c, s) && Helpful(h)
    requires id in s.orders && s.orders[id].escrowed && s.orders[id].receipt.None? && s.orders[id].payout.Some?
    requires eventId != 0 && eventId !in s.receipts
    ensures var r := ReceiptNow(s, s.orders[id], eventId); var t := RecordCall(c, h, s, id, r).state;
            && t.orders == s.orders[id := s.orders[id].(receipt := Some(r))]
            && t.now == s.now && t.moves == s.moves
  {
    EscrowIsCovered(c, s, id);
    hide Inv, Deployed, Balance;
  }

  /** From `s` to `t`: the order is closed and its full amount went to its destination. */
  predicate PaidOut(c: Config, s: State, id: Hash, t: State)
    requires id in s.orders
  {
    && id in t.orders && !t.orders[id].escrowed && Terminal(t.orders[id])
    && t.orders[id].terms == s.orders[id].terms
    && t.moves == s.moves + [Move(id, c.vault, Destination(c, t.orders[id]), s.orders[id].terms.amount)]
  }

  lemma CancelReleases(c: Config, h: Host, s: State, id: Hash)
    requires Deployed(c) && Inv(c, s) && Helpful(h) && id in s.orders && s.orders[id].escrowed
    requires s.orders[id].terms.direction.Deposit? && s.orders[id].receipt.None?
    ensures PaidOut(c, s, id, CancelCall(c, h, s, id).state)
  {
    EscrowIsCovered(c, s, id);
    ReleaseSucceeds(c, h, s, id, s.orders[id].(cancelledAt := Some(s.now)), c.provider);
    hide Inv, Deployed, Release, Balance;
  }

  lemma RefundReleases(c: Config, h: Host, s: State, id: Hash)
    requires Deployed(c) && Inv(c, s) && Helpful(h) && id in s.orders && s.orders[id].escrowed
    requires s.orders[id].terms.direction.Withdrawal? && s.orders[id].payout.None?
    ensures PaidOut(c, s, id, RefundCall(c, h, s, id).state)
  {
    EscrowIsCovered(c, s, id);
    ReleaseSucceeds(c, h, s, id, s.orders[id].(refundedAt := Some(s.now)), s.orders[id].terms.refundTo);
    hide Inv, Deployed, Release, Balance;
  }

  lemma SettlePaysOut(c: Config, h: Host, s: State, id: Hash)
    requires Deployed(c) && Inv(c, s) && Helpful(h)
    requires id in s.orders && s.orders[id].escrowed && s.orders[id].receipt.Some?
    requires s.orders[id].terms.direction.Withdrawal?
    ensures PaidOut(c, s, id, SettleCall(c, h, s, id).state)
  {
    hide Inv, Deployed, SettleCall;
    SettleReleases(c, h, s, id);
  }

  lemma RecordThenSettle(c: Config, h: Host, s: State, id: Hash, eventId: Hash)
    requires Deployed(c) && Inv(c, s) && Helpful(h)
    requires id in s.orders && s.orders[id].escrowed && s.orders[id].receipt.None? && s.orders[id].payout.Some?
    requires s.orders[id].terms.direction.Withdrawal?
    requires eventId != 0 && eventId !in s.receipts
    ensures var u := RecordCall(c, h, s, id, ReceiptNow(s, s.orders[id], eventId)).state;
            PaidOut(c, s, id, SettleCall(c, h, u, id).state)
  {
    hide Inv, Deployed, Apply, SettleCall, RecordCall, PaidOut;
    ProviderOutside(c);
    RecordSucceeds(c, h, s, id, eventId);
    var record := Record(id, ReceiptNow(s, s.orders[id], eventId));
    CallKeepsInv(c, h, s, record);
    RecordIsApply(c, h, s, id, record.receipt);
    var u := RecordCall(c, h, s, id, record.receipt).state;
    SettlePaysOut(c, h, u, id);
    PaidOutFrom(c, s, u, id, SettleCall(c, h, u, id).state);
  }

  lemma RecordIsApply(c: Config, h: Host, s: State, id: Hash, r: Receipt)
    ensures Apply(c, h, s, Record(id, r)) == RecordCall(c, h, s, id, r)
  {
    hide RecordCall;
  }

  lemma PaidOutFrom(c: Config, s: State, u: State, id: Hash, t: State)
    requires id in s.orders && id in u.orders && u.orders[id].terms == s.orders[id].terms && u.moves == s.moves
    requires PaidOut(c, u, id, t)
    ensures PaidOut(c, s, id, t)
  {
  }

  /**
   From every reachable state, at any later time, every escrowed order other than a receipted
   deposit is closed and paid out in full by at most two operator calls, given an unused event id.
   */
  lemma EscrowCanBeReleased(c: Config, h: Host, s: State, id: Hash, eventId: Hash)
    requires Deployed(c) && Reachable(c, s) && Helpful(h)
    requires id in s.orders && s.orders[id].escrowed
    requires !(s.orders[id].terms.direction.Deposit? && s.orders[id].receipt.Some?)
    requires eventId != 0 && eventId !in s.receipts
    ensures |Rescue(s, id, eventId)| <= 2
    ensures PaidOut(c, s, id, RunCalls(c, h, s, Rescue(s, id, eventId)))
  {
    hide Reachable, Inv, Deployed, PaidOut, SettleCall, RecordCall, CancelCall, RefundCall, RunCalls, OneOutcome, Helpful;
    ReachableInv(c, s);
    ProviderOutside(c);
    EscrowIsCovered(c, s, id);
    var o := s.orders[id];
    if o.terms.direction.Deposit? {
      CancelReleases(c, h, s, id);
      SingleCall(c, h, s, Cancel(id));
    } else if o.payout.None? {
      RefundReleases(c, h, s, id);
      SingleCall(c, h, s, Refund(id));
    } else if o.receipt.None? {
      RecordThenSettle(c, h, s, id, eventId);
      TwoCalls(c, h, s, Record(id, ReceiptNow(s, o, eventId)), Settle(id));
    } else {
      SettlePaysOut(c, h, s, id);
      SingleCall(c, h, s, Settle(id));
    }
  }

  lemma TwoCalls(c: Config, h: Host, s: State, first: Call, second: Call)
    ensures RunCalls(c, h, s, [first, second]) == Apply(c, h, Apply(c, h, s, first).state, second).state
  {
    hide Apply;
    var u := Apply(c, h, s, first).state;
    SingleCall(c, h, u, second);
    assert [first, second][1..] == [second];
    assert RunCalls(c, h, s, [first, second]) == RunCalls(c, h, u, [second]);
  }

  lemma SingleCall(c: Config, h: Host, s: State, call: Call)
    ensures RunCalls(c, h, s, [call]) == Apply(c, h, s, call).state
  {
    hide Apply;
    assert RunCalls(c, h, Apply(c, h, s, call).state, []) == Apply(c, h, s, call).state;
  }

  // ------------------------------------------------------------ deposits with a receipt

  predicate ReceiptedDeposit(s: State, id: Hash) {
    && id in s.orders
    && s.orders[id].terms.direction.Deposit? && s.orders[id].receipt.Some? && s.orders[id].escrowed
  }

  /** A receipted deposit at or after its deadline. */
  predicate Stuck(s: State, id: Hash) {
    ReceiptedDeposit(s, id) && !Terminal(s.orders[id]) && s.now >= s.orders[id].terms.deadline
  }

  lemma StuckStaysOneStep(c: Config, s: State, e: Event, id: Hash)
    requires Deployed(c) && Inv(c, s) && Stuck(s, id)
    ensures Stuck(Step(c, s, e), id) && Step(c, s, e).orders[id] == s.orders[id]
  {
    hide Deployed, OrderOk, ReceiptIndexOk, FundingIndexOk, MovesOk, ReserveOk, GrantsOk, AcceptableTerms, Destination, Balance, CreateCall, FundCall, AuthorizeCall, RecordCall, SettleCall, RefundCall, CancelCall, SubmitCall;
    if e.Invoke? {
      if e.call.Submit? {
        SubmitEffect(c, e.host, s, e.call.subject, e.call.lengthsOk, e.call.inputs);
      } else {
        StoredPaysOutside(c, s, e.call.id);
        CallEffect(c, e.host, s, e.call);
      }
    }
  }

  /** No continuation of any kind ever changes or releases it. */
  lemma {:induction false} StuckForever(c: Config, s: State, es: seq<Event>, id: Hash)
    requires Deployed(c) && Inv(c, s) && Stuck(s, id)
    ensures Stuck(Run(c, s, es), id) && Run(c, s, es).orders[id] == s.orders[id]
    decreases |es|
  {
    hide Step, Stuck, Deployed, Inv;
    if es != [] {
      StuckStaysOneStep(c, s, es[0], id);
      StepKeepsInv(c, s, es[0]);
      StuckForever(c, Step(c, s, es[0]), es[1..], id);
    }
  }

  /** The proof time that is acceptable now and whose grant outlives now. */
  function FreshProofTime(c: Config, now: nat): int {
    if now + c.policy.maxProofAge <= U64_MAX then now else U64_MAX - c.policy.maxProofAge
  }

  /** Public inputs of a proof for the subject that match the policy. */
  function FreshInputs(c: Config, now: nat, subject: Hash): seq<Word>
    requires 0 <= FreshProofTime(c, now)
  {
    [c.policy.certificateRoot, c.policy.circuitRoot, FreshProofTime(c, now), c.policy.domainHash, c.policy.scopeHash]
    + Expected(c.policy, c.challengeOf(subject)) + [2, 1, 0]
  }

  lemma FreshInputsPass(c: Config, now: nat, subject: Hash)
    requires Deployed(c) && now < U64_MAX
    ensures 0 <= FreshProofTime(c, now) <= now
    ensures var inputs := FreshInputs(c, now, subject);
            && |inputs| == 8 + |Expected(c.policy, c.challengeOf(subject))|
            && var r := Check(c.policy, c.challengeOf(subject), 0, c.policy.validUntil, now, inputs);
            && r.Ok? && r.value.proofTime == FreshProofTime(c, now)
            && (now < c.policy.validUntil ==> now < r.value.validUntil)
  {
    hide Expected;
    var expected := Expected(c.policy, c.challengeOf(subject));
    assert FreshInputs(c, now, subject)[5..5 + |expected|] == expected;
  }

  /** Verifier pinned and proof accepted, besides a helpful host. */
  predicate Verifying(h: Host) {
    Helpful(h) && h.verifierPinned && h.proofValid
  }

  lemma SubmitGrants(c: Config, h: Host, s: State, subject: Hash)
    requires Deployed(c) && Inv(c, s) && Verifying(h)
    requires s.now < c.policy.validUntil && subject != 0
    ensures 0 <= FreshProofTime(c, s.now)
    ensures var t := SubmitCall(c, h, s, subject, true, FreshInputs(c, s.now, subject)).state;
            && t == s.(grants := t.grants) && ActiveGrant(c, h, t, subject).Ok?
  {
    hide Expected, Check, FreshInputs, FreshProofTime, Deployed, OrdersOk, ReceiptIndexOk, FundingIndexOk, MovesOk, ReserveOk;
    FreshInputsPass(c, s.now, subject);
    CheckedIsOfPolicy(c.policy, c.challengeOf(subject), s.now, FreshInputs(c, s.now, subject));
    var g := Check(c.policy, c.challengeOf(subject), 0, c.policy.validUntil, s.now, FreshInputs(c, s.now, subject)).value;
    if subject in s.grants && s.grants[subject].proofTime >= g.proofTime {
      assert OfPolicy(c.policy, s.grants[subject]);
    }
  }

  lemma DepositSettleReleases(c: Config, h: Host, s: State, id: Hash)
    requires Deployed(c) && Inv(c, s) && Helpful(h) && ReceiptedDeposit(s, id)
    requires s.now < s.orders[id].terms.deadline && ActiveGrant(c, h, s, s.orders[id].terms.subject).Ok?
    ensures var t := SettleCall(c, h, s, id).state;
            && id in t.orders && t.orders[id] == s.orders[id].(escrowed := false, settledAt := Some(s.now))
            && t.moves == s.moves + [Move(id, c.vault, s.orders[id].terms.recipient, s.orders[id].terms.amount)]
  {
    hide Inv, Deployed, Release, Balance, SettleCall, ActiveGrant, Terminal, OneOutcome, Timeline;
    EscrowIsCovered(c, s, id);
    IndexedReceipt(c, s, id);
    SettleIsRelease(c, h, s, id);
    ReleaseSucceeds(c, h, s, id, s.orders[id].(settledAt := Some(s.now)), s.orders[id].terms.recipient);
  }

  /** Before its deadline, a fresh proof and a settle call pay a receipted deposit to its recipient. */
  lemma ReceiptedDepositCanSettle(c: Config, h: Host, s: State, id: Hash)
    requires Deployed(c) && Inv(c, s) && Verifying(h)
    requires ReceiptedDeposit(s, id) && s.now < s.orders[id].terms.deadline
    ensures 0 <= FreshProofTime(c, s.now)
    ensures var subject := s.orders[id].terms.subject;
            var t := RunCalls(c, h, s, [Submit(subject, true, FreshInputs(c, s.now, subject)), Settle(id)]);
            && id in t.orders && !t.orders[id].escrowed && t.orders[id].settledAt.Some?
            && t.moves == s.moves + [Move(id, c.vault, s.orders[id].terms.recipient, s.orders[id].terms.amount)]
  {
    hide Inv, Deployed, Balance, FreshProofTime, FreshInputs, SubmitCall, SettleCall, ActiveGrant;
    EscrowIsCovered(c, s, id);
    SubjectPresent(c, s, id);
    var subject := s.orders[id].terms.subject;
    SubmitGrants(c, h, s, subject);
    var submit := Submit(subject, true, FreshInputs(c, s.now, subject));
    CallKeepsInv(c, h, s, submit);
    var u := Apply(c, h, s, submit).state;
    DepositSettleReleases(c, h, u, id);
    TwoCalls(c, h, s, submit, Settle(id));
  }

  lemma SubjectPresent(c: Config, s: State, id: Hash)
    requires Inv(c, s) && id in s.orders
    ensures s.orders[id].terms.subject != 0 && s.orders[id].terms.deadline <= c.policy.validUntil
  {
    hide ReceiptIndexOk, FundingIndexOk, MovesOk, ReserveOk, GrantsOk, OneOutcome, Timeline;
    assert OrderOk(c, s.now, id, s.orders[id]);
  }

  // ----------------------------------------------------------- exactly which escrows are stuck

  function Invocations(h: Host, calls: seq<Call>): seq<Event>
    decreases |calls|
  {
    if calls == [] then [] else [Invoke(h, calls[0])] + Invocations(h, calls[1..])
  }

  lemma {:induction false} InvocationsRun(c: Config, h: Host, s: State, calls: seq<Call>)
    ensures Run(c, s, Invocations(h, calls)) == RunCalls(c, h, s, calls)
    decreases |calls|
  {
    hide Apply;
    if calls != [] {
      InvocationsRun(c, h, Apply(c, h, s, calls[0]).state, calls[1..]);
      assert Invocations(h, calls)[1..] == Invocations(h, calls[1..]);
      assert Invocations(h, calls)[0] == Invoke(h, calls[0]);
    }
  }

  ghost predicate Releasable(c: Config, s: State, id: Hash)
  {
    exists es :: id in Run(c, s, es).orders && !Run(c, s, es).orders[id].escrowed
  }

  /**
   An escrowed order of a reachable state can still be released by some continuation if and only if
   it is not a receipted deposit whose deadline has passed.
   */
  lemma FrozenExactly(c: Config, s: State, id: Hash, eventId: Hash)
    requires Deployed(c) && Reachable(c, s)
    requires id in s.orders && s.orders[id].escrowed
    requires eventId != 0 && eventId !in s.receipts
    ensures Releasable(c, s, id)
            <==> !(s.orders[id].terms.direction.Deposit? && s.orders[id].receipt.Some? && s.now >= s.orders[id].terms.deadline)
  {
    ProviderOutside(c);
    ReachableInv(c, s);
    hide Reachable, Inv, Deployed, Run, RunCalls, Balance, FreshProofTime, FreshInputs;
    EscrowIsCovered(c, s, id);
    var h := Host(true, true, true, true, true);
    if Stuck(s, id) {
      forall es ensures !(id in Run(c, s, es).orders && !Run(c, s, es).orders[id].escrowed) {
        StuckForever(c, s, es, id);
      }
    } else if ReceiptedDeposit(s, id) {
      ReceiptedDepositCanSettle(c, h, s, id);
      var subject := s.orders[id].terms.subject;
      InvocationsRun(c, h, s, [Submit(subject, true, FreshInputs(c, s.now, subject)), Settle(id)]);
    } else {
      EscrowCanBeReleased(c, h, s, id, eventId);
      InvocationsRun(c, h, s, Rescue(s, id, eventId));
    }
  }
}
