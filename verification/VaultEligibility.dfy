/** No value moves for a subject without a proved, current grant. */
module VaultEligibility {
  import opened Policy
  import opened Vault
  import opened VaultSafety
  import opened VaultTheorems

  /** A bank obligation, or the settlement of a deposit, is only made under an active grant of the subject. */
  lemma ValueNeedsGrant(c: Config, h: Host, s: State, call: Call)
    requires (call.Authorize? || call.Settle?) && call.id in s.orders
    requires call.Authorize? || s.orders[call.id].terms.direction.Deposit?
    requires Apply(c, h, s, call).state != s
    ensures var subject := s.orders[call.id].terms.subject;
            && h.verifierPinned && s.now < c.policy.validUntil
            && subject in s.grants && s.now < s.grants[subject].validUntil
  {
    hide Release, AcceptableTerms;
  }

  lemma DepositReceiptNeedsGrant(c: Config, h: Host, s: State, call: Call)
    requires call.Record? && call.id in s.orders && s.orders[call.id].terms.direction.Deposit?
    requires Apply(c, h, s, call).state != s
    ensures s.orders[call.id].terms.subject in s.grants
  {
  }

  /** The grant that covered each step is still on record, and still ends after that step. */
  predicate Covered(s: State, o: Order) {
    && (o.payout.Some? || (o.terms.direction.Deposit? && o.receipt.Some?) ==> o.terms.subject in s.grants)
    && (o.payout.Some? ==> o.payout.value < s.grants[o.terms.subject].validUntil)
    && (o.terms.direction.Deposit? && o.settledAt.Some? ==>
          o.terms.subject in s.grants && o.settledAt.value < s.grants[o.terms.subject].validUntil)
  }

  ghost predicate AllCovered(s: State) {
    forall id :: id in s.orders ==> Covered(s, s.orders[id])
  }

  /** The order that a call changed is covered, given that it was before. */
  lemma ChangedIsCovered(c: Config, h: Host, s: State, call: Call)
    requires !call.Submit? && Effect(c, s, call, Apply(c, h, s, call).state) && Apply(c, h, s, call).state != s
    requires call.id in s.orders ==> Covered(s, s.orders[call.id])
    ensures var t := Apply(c, h, s, call).state; Covered(t, t.orders[call.id])
  {
    hide Apply, AcceptableTerms, Balance, Destination;
    if call.id in s.orders {
      if call.Authorize? || (call.Settle? && s.orders[call.id].terms.direction.Deposit?) {
        ValueNeedsGrant(c, h, s, call);
      }
      if call.Record? && s.orders[call.id].terms.direction.Deposit? {
        DepositReceiptNeedsGrant(c, h, s, call);
      }
    }
  }

  lemma StepKeepsCovered(c: Config, s: State, e: Event)
    requires Deployed(c) && Inv(c, s) && AllCovered(s)
    ensures AllCovered(Step(c, s, e))
  {
    hide Deployed, OrderOk, ReceiptIndexOk, FundingIndexOk, MovesOk, ReserveOk, GrantsOk, Apply, Evolves;
    if e.Invoke? {
      var t := Apply(c, e.host, s, e.call).state;
      if e.call.Submit? {
        SubmitKeepsCovered(c, e.host, s, e.call);
      } else if t != s {
        StoredPaysOutside(c, s, e.call.id);
        CallEffect(c, e.host, s, e.call);
        ChangedIsCovered(c, e.host, s, e.call);
      }
    }
  }

  lemma SubmitKeepsCovered(c: Config, h: Host, s: State, call: Call)
    requires call.Submit? && Inv(c, s) && AllCovered(s)
    ensures AllCovered(Apply(c, h, s, call).state)
  {
    hide SubmitCall, OrdersOk, ReceiptIndexOk, FundingIndexOk, MovesOk, ReserveOk, OrderExtends;
    SubmitExtends(c, h, s, call.subject, call.lengthsOk, call.inputs);
    SubmitEffect(c, h, s, call.subject, call.lengthsOk, call.inputs);
    var t := SubmitCall(c, h, s, call.subject, call.lengthsOk, call.inputs).state;
    assert t.orders == s.orders;
    forall id | id in t.orders ensures Covered(t, t.orders[id]) {
      assert Covered(s, s.orders[id]);
    }
  }

  lemma {:induction false} RunKeepsCovered(c: Config, s: State, es: seq<Event>)
    requires Deployed(c) && Inv(c, s) && AllCovered(s)
    ensures AllCovered(Run(c, s, es))
    decreases |es|
  {
    hide Deployed, Inv, AllCovered, Step;
    if es != [] {
      StepKeepsInv(c, s, es[0]);
      StepKeepsCovered(c, s, es[0]);
      RunKeepsCovered(c, Step(c, s, es[0]), es[1..]);
    }
  }

  /**
   In every reachable state each payout authorization and each settled deposit was made before the
   end of its subject's recorded grant, and each receipted deposit has a grant on record.
   */
  lemma NoValueWithoutGrant(c: Config, s: State, id: Hash)
    requires Deployed(c) && Reachable(c, s) && id in s.orders
    ensures var o := s.orders[id];
            && (o.payout.Some? ==>
                  o.terms.subject in s.grants && o.payout.value < s.grants[o.terms.subject].validUntil)
            && (o.terms.direction.Deposit? && o.settledAt.Some? ==>
                  o.terms.subject in s.grants && o.settledAt.value < s.grants[o.terms.subject].validUntil)
            && (o.terms.direction.Deposit? && o.receipt.Some? ==> o.terms.subject in s.grants)
  {
    hide Inv, Deployed, Run, OrderOk;
    var s0, es :| Initial(s0) && s == Run(c, s0, es);
    InitialInv(c, s0);
    assert AllCovered(s0);
    RunKeepsCovered(c, s0, es);
    assert Covered(s, s.orders[id]);
  }

  // ---------------------------------------------------------------- where grants come from

  /** Submitting `inputs` at `s` under `h` proves exactly the grant `g` for `subject`. */
  predicate Proves(c: Config, h: Host, s: State, call: Call, subject: Hash, g: Grant) {
    && call.Submit? && call.subject == subject && subject != 0 && call.lengthsOk && h.verifierPinned && h.proofValid
    && s.now < c.policy.validUntil
    && |call.inputs| == 8 + |Expected(c.policy, c.challengeOf(subject))|
    && Check(c.policy, c.challengeOf(subject), 0, c.policy.validUntil, s.now, call.inputs) == Ok(g)
  }

  ghost predicate Proved(c: Config, s0: State, es: seq<Event>, subject: Hash, g: Grant) {
    exists i :: 0 <= i < |es| && es[i].Invoke? && Proves(c, es[i].host, Run(c, s0, es[..i]), es[i].call, subject, g)
  }

  lemma NewGrantIsProved(c: Config, s: State, e: Event, subject: Hash)
    requires subject in Step(c, s, e).grants
    requires subject !in s.grants || Step(c, s, e).grants[subject] != s.grants[subject]
    requires e.Invoke? && !e.call.Submit? ==> Step(c, s, e).grants == s.grants
    ensures e.Invoke? && Proves(c, e.host, s, e.call, subject, Step(c, s, e).grants[subject])
  {
    hide Check, Expected, CreateCall, FundCall, AuthorizeCall, RecordCall, SettleCall, RefundCall, CancelCall;
  }

  lemma OtherCallsKeepGrants(c: Config, s: State, e: Event)
    requires Deployed(c) && Inv(c, s) && e.Invoke? && !e.call.Submit?
    ensures Step(c, s, e).grants == s.grants
  {
    hide Deployed, OrderOk, ReceiptIndexOk, FundingIndexOk, MovesOk, ReserveOk, GrantsOk, Apply, Evolves;
    StoredPaysOutside(c, s, e.call.id);
    CallEffect(c, e.host, s, e.call);
  }

  lemma {:induction false} RunSnoc(c: Config, s: State, es: seq<Event>, e: Event)
    ensures Run(c, s, es + [e]) == Step(c, Run(c, s, es), e)
    decreases |es|
  {
    hide Step;
    if es == [] {
      assert ([] + [e])[0] == e && ([] + [e])[1..] == [];
      assert Run(c, Step(c, s, e), []) == Step(c, s, e);
    } else {
      assert (es + [e])[0] == es[0] && (es + [e])[1..] == es[1..] + [e];
      RunSnoc(c, Step(c, s, es[0]), es[1..], e);
    }
  }

  /**
   Every grant on record is exactly what some earlier submission of the run proved: public inputs that
   match the policy for that subject, under the pinned verifier and its positive verdict.
   */
  lemma {:induction false} EveryGrantWasProved(c: Config, s0: State, es: seq<Event>, subject: Hash)
    requires Deployed(c) && Initial(s0) && subject in Run(c, s0, es).grants
    ensures Proved(c, s0, es, subject, Run(c, s0, es).grants[subject])
    decreases |es|
  {
    hide Deployed, Inv, Step, Proves;
    if es != [] {
      var front, e := es[..|es| - 1], es[|es| - 1];
      assert es == front + [e];
      RunSnoc(c, s0, front, e);
      hide Run;
      var s := Run(c, s0, front);
      InitialInv(c, s0);
      RunKeepsInv(c, s0, front);
      if e.Invoke? && !e.call.Submit? {
        OtherCallsKeepGrants(c, s, e);
      }
      var g := Step(c, s, e).grants[subject];
      if subject in s.grants && s.grants[subject] == g {
        EveryGrantWasProved(c, s0, front, subject);
        ProvedLater(c, s0, front, e, subject, g);
      } else {
        NewGrantIsProved(c, s, e, subject);
        assert es[..|es| - 1] == front;
      }
    }
  }

  lemma ProvedLater(c: Config, s0: State, es: seq<Event>, e: Event, subject: Hash, g: Grant)
    requires Proved(c, s0, es, subject, g)
    ensures Proved(c, s0, es + [e], subject, g)
  {
    hide Run, Proves;
    var i :| 0 <= i < |es| && es[i].Invoke? && Proves(c, es[i].host, Run(c, s0, es[..i]), es[i].call, subject, g);
    assert (es + [e])[i] == es[i] && (es + [e])[..i] == es[..i];
  }

  /** The proof behind a grant: submitted for this subject at time `at`, carrying what the policy asks of it. */
  predicate Behind(c: Config, e: Event, at: nat, subject: Hash, g: Grant) {
    && e.Invoke? && e.call.Submit? && e.call.subject == subject && subject != 0 && e.call.lengthsOk
    && e.host.verifierPinned && e.host.proofValid && at < c.policy.validUntil
    && Carries(c.policy, c.challengeOf(subject), e.call.inputs)
    && g.proofTime == e.call.inputs[2] <= at < g.proofTime + c.policy.maxProofAge
  }

  lemma ProvesCarries(c: Config, e: Event, s: State, subject: Hash, g: Grant)
    requires e.Invoke? && Proves(c, e.host, s, e.call, subject, g)
    ensures Behind(c, e, s.now, subject, g)
  {
    hide Check, Expected, Carries;
    AcceptedExactly(c.policy, c.challengeOf(subject), 0, c.policy.validUntil, s.now, e.call.inputs);
  }

  /**
   Behind every grant on record there is a submission of the run whose proof carried both roots, the
   domain and scope, the nullifier fields and exactly the policy's commitments, the binding to this very
   subject among them, and was fresh when submitted.
   */
  lemma EveryGrantCarriesItsProof(c: Config, s0: State, es: seq<Event>, subject: Hash)
    requires Deployed(c) && Initial(s0) && subject in Run(c, s0, es).grants
    ensures exists i :: 0 <= i < |es| && Behind(c, es[i], Run(c, s0, es[..i]).now, subject, Run(c, s0, es).grants[subject])
  {
    hide Deployed, Initial, Run, Proves, Behind;
    var g := Run(c, s0, es).grants[subject];
    EveryGrantWasProved(c, s0, es, subject);
    var i :| 0 <= i < |es| && es[i].Invoke? && Proves(c, es[i].host, Run(c, s0, es[..i]), es[i].call, subject, g);
    ProvesCarries(c, es[i], Run(c, s0, es[..i]), subject, g);
  }

  /** No proof stands behind the grants of two subjects. */
  lemma NoProofGrantsTwo(c: Config, a: Event, b: Event, at: nat, later: nat, one: Hash, other: Hash, g: Grant, h: Grant)
    requires Injective(c.policy.bindingOf) && Injective(c.challengeOf)
    requires Behind(c, a, at, one, g) && Behind(c, b, later, other, h) && a.call.inputs == b.call.inputs
    ensures one == other
  {
    hide Carries;
    ProofHasOneChallenge(c.policy, c.challengeOf(one), c.challengeOf(other), a.call.inputs);
  }

  /** And the vault never grants two subjects on the same public inputs, whenever and by whomever submitted. */
  lemma SameProofSameSubject(c: Config, h: Host, k: Host, s: State, t: State, one: Hash, other: Hash, inputs: seq<Word>)
    requires Injective(c.policy.bindingOf) && Injective(c.challengeOf)
    requires SubmitCall(c, h, s, one, true, inputs).reply.Granted? && SubmitCall(c, k, t, other, true, inputs).reply.Granted?
    ensures one == other
  {
    hide Check, Expected, Carries, Newer;
    AcceptedExactly(c.policy, c.challengeOf(one), 0, c.policy.validUntil, s.now, inputs);
    AcceptedExactly(c.policy, c.challengeOf(other), 0, c.policy.validUntil, t.now, inputs);
    ProofHasOneChallenge(c.policy, c.challengeOf(one), c.challengeOf(other), inputs);
  }
}
