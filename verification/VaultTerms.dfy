/** What every stored order guarantees, which new orders are accepted, and whom a settled deposit pays. */
module VaultTerms {
  import opened Wrappers
  import opened Policy
  import opened Vault
  import opened VaultSafety
  import opened VaultTheorems
  import opened VaultEligibility

  /**
   In every reachable state every stored order has the terms that the contract promises: parties that
   are accounts, the customer's own subject, amounts, times and hashes within the limits.
   */
  lemma StoredTerms(c: Config, s: State, id: Hash)
    requires Deployed(c) && Reachable(c, s) && id in s.orders
    ensures var o := s.orders[id]; var t := o.terms;
            && id != 0 && t.subject != 0 && t.quoteHash != 0 && t.nonce != 0
            && t.subject == c.subjectOf(t.recipient)
            && t.refundTo == t.recipient && c.isAccount(t.recipient) && t.recipient != c.vault
            && 0 < t.amount <= c.maxAmount && 0 < t.tryMinor <= c.maxTryMinor
            && o.createdAt <= s.now && o.createdAt < t.deadline <= o.createdAt + c.maxOrderLifetime
            && t.deadline <= c.policy.validUntil
            && (t.direction.Deposit? ==> t.bankDestinationHash == 0)
            && (t.direction.Withdrawal? ==> t.bankDestinationHash != 0)
  {
    hide Reachable, OneOutcome, EscrowSum, NetInflow;
    ReachableInv(c, s);
    assert OrderOk(c, s.now, id, s.orders[id]);
  }

  lemma ReserveFromExactly(c: Config, h: Host, s: State, id: Hash, amount: int)
    requires c.provider != c.vault && amount > 0 && s.reserved <= Balance(s, c.vault)
    ensures ReserveFrom(c, h, s, id, amount).Ok?
            <==> h.transferOk && amount <= Balance(s, c.provider) && s.reserved + amount <= I128_MAX
    ensures ReserveFrom(c, h, s, id, amount).Ok? ==> ReserveFrom(c, h, s, id, amount).value.orders == s.orders
  {
  }

  /**
   A new order is accepted if and only if the provider signs, the policy is current, the verifier is the
   pinned one, its terms are as above, and, for a deposit, the provider can pay the escrow. It is stored
   as it stands, without any mark.
   */
  lemma CreateExactly(c: Config, h: Host, s: State, id: Hash, t: Terms)
    requires Deployed(c) && Inv(c, s) && id !in s.orders
    ensures var r := CreateCall(c, h, s, id, t);
            r.reply.Done? <==>
              && h.provider && h.verifierPinned && s.now < c.policy.validUntil
              && id != 0 && t.subject != 0 && t.quoteHash != 0 && t.nonce != 0
              && t.subject == c.subjectOf(t.recipient)
              && t.refundTo == t.recipient && c.isAccount(t.recipient)
              && 0 < t.amount <= c.maxAmount && 0 < t.tryMinor <= c.maxTryMinor
              && s.now < t.deadline <= s.now + c.maxOrderLifetime && t.deadline <= c.policy.validUntil
              && (t.direction.Deposit? ==>
                    && t.bankDestinationHash == 0
                    && h.transferOk && t.amount <= Balance(s, c.provider) && s.reserved + t.amount <= I128_MAX)
              && (t.direction.Withdrawal? ==> t.bankDestinationHash != 0)
    ensures var r := CreateCall(c, h, s, id, t);
            r.reply.Done? ==> id in r.state.orders
                              && r.state.orders[id] == Order(t, s.now, None, t.direction.Deposit?, None, None, None, None, None)
  {
    hide Deployed, OrdersOk, ReceiptIndexOk, FundingIndexOk, MovesOk, GrantsOk, EscrowSum, NetInflow, ReserveFrom, Balance;
    ProviderOutside(c);
    if t.amount > 0 { ReserveFromExactly(c, h, s, id, t.amount); }
  }

  /**
   The tokens of a settled deposit went, in full, to an account whose own subject had a grant on record
   that ended after the settlement.
   */
  lemma SettledDepositPaysProved(c: Config, s: State, id: Hash)
    requires Deployed(c) && Reachable(c, s) && id in s.orders
    requires s.orders[id].terms.direction.Deposit? && s.orders[id].settledAt.Some?
    ensures var o := s.orders[id]; var payee := o.terms.recipient;
            && Move(id, c.vault, payee, o.terms.amount) in s.moves
            && c.isAccount(payee) && c.subjectOf(payee) in s.grants
            && o.settledAt.value < s.grants[c.subjectOf(payee)].validUntil
  {
    hide Reachable, Deployed, MovesOf;
    StoredTerms(c, s, id);
    NoValueWithoutGrant(c, s, id);
    ReleasedOnceInFull(c, s, id);
    var o := s.orders[id];
    assert MovesOf(s.moves, id)[1] == Move(id, c.vault, o.terms.recipient, o.terms.amount);
    MovesOfAreMoves(s.moves, id);
  }

  lemma {:induction false} MovesOfAreMoves(moves: seq<Move>, id: Hash)
    ensures forall m :: m in MovesOf(moves, id) ==> m in moves && m.id == id
  {
    if moves != [] { MovesOfAreMoves(moves[..|moves| - 1], id); }
  }

  // ------------------------------------------------------------------------- the width

  lemma ReserveStaysInWidth(c: Config, h: Host, s: State, call: Call)
    requires s.reserved <= I128_MAX
    ensures Apply(c, h, s, call).state.reserved <= I128_MAX
  {
    hide AcceptableTerms, ActiveGrant, Check, Expected, Newer, Undoable, Terminal, Balance, Credited;
  }

  lemma {:induction false} RunStaysInWidth(c: Config, s: State, es: seq<Event>)
    requires s.reserved <= I128_MAX
    ensures Run(c, s, es).reserved <= I128_MAX
    decreases |es|
  {
    hide Apply, Credited, Balance;
    if es != [] {
      if es[0].Invoke? { ReserveStaysInWidth(c, es[0].host, s, es[0].call); }
      RunStaysInWidth(c, Step(c, s, es[0]), es[1..]);
    }
  }

  /** The reserve counter never leaves the contract's 128-bit integers. */
  lemma ReserveFits(c: Config, s: State)
    requires Deployed(c) && Reachable(c, s)
    ensures 0 <= s.reserved <= I128_MAX
  {
    hide Run, Deployed, EscrowSum, NetInflow, Held;
    Conservation(c, s);
    var s0, es :| Initial(s0) && s == Run(c, s0, es);
    RunStaysInWidth(c, s0, es);
  }
}
