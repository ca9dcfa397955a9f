/** The contract as it runs: storage updated in place, token transfers through another contract. */
module VaultContract {
  import opened Wrappers
  import opened Policy
  import opened Vault
  import opened VaultSafety

  /** The asset contract, as far as the vault uses it. */
  class Token {
    var balances: map<Address, nat>
    ghost var moves: seq<Move>

    constructor ()
      ensures balances == map[] && moves == []
    {
      balances, moves := map[], [];
    }

    function BalanceOf(a: Address): (b: nat)
      reads this
    {
      if a in balances then balances[a] else 0
    }

    method Transfer(h: Host, ghost id: Hash, from: Address, to: Address, amount: int) returns (done: bool)
      modifies this
      ensures done <==> h.transferOk && 0 <= amount <= old(BalanceOf(from))
      ensures !done ==> unchanged(this)
      ensures done ==> 0 <= amount <= old(BalanceOf(from))
      ensures done ==> balances == Credited(old(balances)[from := old(BalanceOf(from)) - amount], to, amount)
      ensures done ==> moves == old(moves) + [Move(id, from, to, amount)]
    {
      if !h.transferOk || amount < 0 || BalanceOf(from) < amount {
        return false;
      }
      balances := balances[from := BalanceOf(from) - amount];
      balances := balances[to := BalanceOf(to) + amount];
      moves := moves + [Move(id, from, to, amount)];
      return true;
    }
  }

  /**
   What a contract function must do against the specified outcome of its call. On an error the host
   discards every write, so only the error itself is promised.
   */
  ghost predicate Agrees(r: Policy.Result<Order>, before: State, after: State, specified: Outcome) {
    && (r.Ok? ==> specified == Outcome(after, Done(r.value)))
    && (r.Err? ==> specified == Outcome(before, Failed(r.error)))
  }

  /** A release written out over the fields that it changes. */
  lemma ReleaseIs(c: Config, h: Host, s: State, id: Hash, o: Order, destination: Address)
    ensures Vault.Release(c, h, s, id, o, destination)
            == if s.reserved < o.terms.amount || Balance(s, c.vault) < s.reserved then Outcome(s, Failed(InsufficientReserve))
               else if !h.transferOk || o.terms.amount < 0 then Outcome(s, Failed(TransferFailed))
               else Outcome(s.(orders := s.orders[id := o.(escrowed := false)], reserved := s.reserved - o.terms.amount,
                               balances := Credited(s.balances[c.vault := Balance(s, c.vault) - o.terms.amount], destination,
                                                    o.terms.amount),
                               moves := s.moves + [Move(id, c.vault, destination, o.terms.amount)]),
                            Done(o.(escrowed := false)))
  {
    hide Credited;
  }

  class SepAnchor {
    const config: Config
    const token: Token
    var orders: map<Hash, Order>
    var receipts: map<Hash, Hash>
    var fundings: map<Hash, Hash>
    var grants: map<Hash, Grant>
    var reserved: int

    constructor (config: Config, token: Token)
      ensures this.config == config && this.token == token
      ensures orders == map[] && receipts == map[] && fundings == map[] && grants == map[] && reserved == 0
    {
      this.config, this.token := config, token;
      orders, receipts, fundings, grants, reserved := map[], map[], map[], map[], 0;
    }

    /** The abstract state at ledger time `now`. */
    ghost function At(now: nat): State
      reads this, token
    {
      State(now, orders, receipts, fundings, grants, reserved, token.balances, token.moves)
    }

    method LoadOrder(id: Hash) returns (r: Policy.Result<Order>)
      ensures r == if id in orders then Ok(orders[id]) else Err(OrderMissing)
    {
      if id !in orders {
        return Err(OrderMissing);
      }
      return Ok(orders[id]);
    }

    method Release(h: Host, ghost now: nat, id: Hash, o: Order, destination: Address) returns (r: Policy.Result<Order>)
      modifies this, token
      ensures Agrees(r, old(At(now)), At(now), Vault.Release(config, h, old(At(now)), id, o, destination))
    {
      hide Vault.Release, Credited;
      ReleaseIs(config, h, At(now), id, o, destination);
      var total := reserved;
      if total < o.terms.amount || token.BalanceOf(config.vault) < total {
        return Err(InsufficientReserve);
      }
      var remaining := total - o.terms.amount;
      var closed := o.(escrowed := false);
      orders := orders[id := closed];
      reserved := remaining;
      var done := token.Transfer(h, id, config.vault, destination, o.terms.amount);
      if !done {
        return Err(TransferFailed);
      }
      return Ok(closed);
    }

    method ReserveFrom(h: Host, ghost now: nat, ghost id: Hash, amount: int) returns (r: Policy.Result<()>)
      modifies `reserved, token
      ensures var specified := Vault.ReserveFrom(config, h, old(At(now)), id, amount);
              && (r.Ok? ==> specified == Ok(At(now)))
              && (r.Err? ==> specified == Err(r.error))
    {
      var total := reserved + amount;
      if total > I128_MAX {
        return Err(Arithmetic);
      }
      var done := token.Transfer(h, id, config.provider, config.vault, amount);
      if !done {
        return Err(TransferFailed);
      }
      if token.BalanceOf(config.vault) < total {
        return Err(InsufficientReserve);
      }
      reserved := total;
      return Ok(());
    }

    method Cancel(h: Host, now: nat, id: Hash) returns (r: Policy.Result<Order>)
      modifies this, token
      ensures Agrees(r, old(At(now)), At(now), CancelCall(config, h, old(At(now)), id))
    {
      hide Vault.Release;
      if !h.provider || !h.notary {
        return Err(Unauthorized);
      }
      var found := LoadOrder(id);
      if found.Err? {
        return found;
      }
      var order := found.value;
      if order.cancelledAt.Some? {
        return Ok(order);
      }
      if order.terms.direction.Withdrawal? || Terminal(order) || !order.escrowed || order.payout.Some? || order.receipt.Some? {
        return Err(InvalidState);
      }
      order := order.(cancelledAt := Some(now));
      r := Release(h, now, id, order, config.provider);
    }

    method Refund(h: Host, now: nat, id: Hash) returns (r: Policy.Result<Order>)
      modifies this, token
      ensures Agrees(r, old(At(now)), At(now), RefundCall(config, h, old(At(now)), id))
    {
      hide Vault.Release;
      if !h.provider || !h.notary {
        return Err(Unauthorized);
      }
      var found := LoadOrder(id);
      if found.Err? {
        return found;
      }
      var order := found.value;
      if order.refundedAt.Some? {
        return Ok(order);
      }
      if order.terms.direction.Deposit? || Terminal(order) || !order.escrowed || order.payout.Some? || order.receipt.Some? {
        return Err(InvalidState);
      }
      order := order.(refundedAt := Some(now));
      r := Release(h, now, id, order, order.terms.refundTo);
    }

    method ActiveEligibility(h: Host, now: nat, subject: Hash) returns (r: Policy.Result<Grant>)
      ensures r == ActiveGrant(config, h, At(now), subject)
    {
      if now >= config.policy.validUntil {
        return Err(Expired);
      }
      if !h.verifierPinned {
        return Err(WrongVerifier);
      }
      if subject !in grants {
        return Err(EligibilityMissing);
      }
      var grant := grants[subject];
      if now >= grant.validUntil {
        return Err(Expired);
      }
      return Ok(grant);
    }

    method AuthorizePayout(h: Host, now: nat, id: Hash) returns (r: Policy.Result<Order>)
      modifies `orders
      ensures Agrees(r, old(At(now)), At(now), AuthorizeCall(config, h, old(At(now)), id))
    {
      hide ActiveGrant;
      if !h.notary {
        return Err(Unauthorized);
      }
      var found := LoadOrder(id);
      if found.Err? {
        return found;
      }
      var order := found.value;
      if order.terms.direction.Deposit? {
        return Err(InvalidState);
      }
      if order.payout.Some? {
        return Ok(order);
      }
      if Terminal(order) || !order.escrowed || order.receipt.Some? {
        return Err(InvalidState);
      }
      var eligibility := ActiveEligibility(h, now, order.terms.subject);
      if eligibility.Err? {
        return Err(eligibility.error);
      }
      if now >= order.terms.deadline || now >= eligibility.value.validUntil {
        return Err(Expired);
      }
      if reserved < order.terms.amount || token.BalanceOf(config.vault) < reserved {
        return Err(InsufficientReserve);
      }
      order := order.(payout := Some(now));
      orders := orders[id := order];
      return Ok(order);
    }

    method FundWithdrawal(h: Host, now: nat, id: Hash, operationId: Hash) returns (r: Policy.Result<Order>)
      modifies this, token
      ensures Agrees(r, old(At(now)), At(now), FundCall(config, h, old(At(now)), id, operationId))
    {
      hide Vault.ReserveFrom;
      ReserveKeepsRest(config, h, At(now), id);
      if !h.provider || !h.notary {
        return Err(Unauthorized);
      }
      var found := LoadOrder(id);
      if found.Err? {
        return found;
      }
      var order := found.value;
      if order.terms.direction.Deposit? {
        return Err(InvalidState);
      }
      if order.funding.Some? {
        if order.funding.value.operationId == operationId {
          return Ok(order);
        }
        return Err(InvalidState);
      }
      if Terminal(order) || order.escrowed || order.payout.Some? || operationId == 0 {
        return Err(InvalidState);
      }
      if operationId in fundings {
        return Err(FundingUsed);
      }
      var reservation := ReserveFrom(h, now, id, order.terms.amount);
      if reservation.Err? {
        return Err(reservation.error);
      }
      order := order.(escrowed := true, funding := Some(Funding(operationId, now)));
      fundings := fundings[operationId := id];
      orders := orders[id := order];
      return Ok(order);
    }

    method RecordReceipt(h: Host, now: nat, id: Hash, receipt: Receipt) returns (r: Policy.Result<Order>)
      modifies `orders, `receipts
      ensures Agrees(r, old(At(now)), At(now), RecordCall(config, h, old(At(now)), id, receipt))
    {
      if !h.notary {
        return Err(Unauthorized);
      }
      var found := LoadOrder(id);
      if found.Err? {
        return found;
      }
      var order := found.value;
      if order.receipt.Some? {
        if order.receipt.value == receipt {
          return Ok(order);
        }
        return Err(InvalidReceipt);
      }
      if Terminal(order) || !order.escrowed {
        return Err(InvalidState);
      }
      var earliest: nat;
      if order.terms.direction.Deposit? {
        if order.terms.subject !in grants {
          return Err(EligibilityMissing);
        }
        earliest := order.createdAt;
      } else {
        if order.payout.None? {
          return Err(InvalidState);
        }
        earliest := order.payout.value;
      }
      if receipt.eventId == 0 || receipt.quoteHash != order.terms.quoteHash
         || receipt.tryMinor != order.terms.tryMinor
         || receipt.bankDestinationHash != order.terms.bankDestinationHash
         || receipt.receivedAt < earliest || receipt.receivedAt > now {
        return Err(InvalidReceipt);
      }
      if receipt.eventId in receipts {
        return Err(ReceiptUsed);
      }
      receipts := receipts[receipt.eventId := id];
      order := order.(receipt := Some(receipt));
      orders := orders[id := order];
      return Ok(order);
    }

    method Settle(h: Host, now: nat, id: Hash) returns (r: Policy.Result<Order>)
      modifies this, token
      ensures Agrees(r, old(At(now)), At(now), SettleCall(config, h, old(At(now)), id))
    {
      hide Vault.Release, ActiveGrant;
      var found := LoadOrder(id);
      if found.Err? {
        return found;
      }
      var order := found.value;
      if order.settledAt.Some? {
        return Ok(order);
      }
      if Terminal(order) || order.receipt.None? || !order.escrowed {
        return Err(InvalidState);
      }
      var destination: Address;
      if order.terms.direction.Deposit? {
        var eligibility := ActiveEligibility(h, now, order.terms.subject);
        if eligibility.Err? {
          return Err(eligibility.error);
        }
        if now >= eligibility.value.validUntil || now >= order.terms.deadline {
          return Err(Expired);
        }
        destination := order.terms.recipient;
      } else {
        if order.payout.None? {
          return Err(InvalidState);
        }
        destination := config.provider;
      }
      var eventId := order.receipt.value.eventId;
      if eventId !in receipts || receipts[eventId] != id {
        return Err(InvalidState);
      }
      order := order.(settledAt := Some(now));
      r := Release(h, now, id, order, destination);
    }

    method CreateOrder(h: Host, now: nat, id: Hash, terms: Terms) returns (r: Policy.Result<Order>)
      modifies this, token
      ensures Agrees(r, old(At(now)), At(now), CreateCall(config, h, old(At(now)), id, terms))
    {
      hide Vault.ReserveFrom;
      ReserveKeepsRest(config, h, At(now), id);
      if !h.provider {
        return Err(Unauthorized);
      }
      if id in orders {
        if orders[id].terms != terms {
          return Err(OrderConflict);
        }
        return Ok(orders[id]);
      }
      if now >= config.policy.validUntil {
        return Err(Expired);
      }
      if !h.verifierPinned {
        return Err(WrongVerifier);
      }
      if !AcceptableTerms(config, now, id, terms) {
        return Err(InvalidTerms);
      }
      var escrowed := terms.direction.Deposit?;
      if escrowed {
        var reservation := ReserveFrom(h, now, id, terms.amount);
        if reservation.Err? {
          return Err(reservation.error);
        }
      }
      var order := Order(terms, now, None, escrowed, None, None, None, None, None);
      orders := orders[id := order];
      return Ok(order);
    }

    method SubmitEligibility(h: Host, now: nat, subject: Hash, lengthsOk: bool, inputs: seq<Word>)
      returns (r: Policy.Result<Grant>)
      modifies `grants
      ensures SubmitCall(config, h, old(At(now)), subject, lengthsOk, inputs)
           == if r.Ok? then Outcome(At(now), Granted(r.value)) else Outcome(old(At(now)), Failed(r.error))
    {
      hide Expected, Check;
      if now >= config.policy.validUntil {
        return Err(Expired);
      }
      if !h.verifierPinned {
        return Err(WrongVerifier);
      }
      if !lengthsOk || |inputs| != 8 + |Expected(config.policy, config.challengeOf(subject))| {
        return Err(InvalidProof);
      }
      if subject == 0 {
        return Err(InvalidSubject);
      }
      var eligibility := CheckEligibility(config.policy, config.challengeOf(subject), 0, config.policy.validUntil, now, inputs);
      if eligibility.Err? {
        return eligibility;
      }
      if !h.proofValid {
        return Err(InvalidProof);
      }
      if subject in grants {
        var existing := grants[subject];
        if existing.proofTime >= eligibility.value.proofTime {
          assert grants[subject := existing] == grants;
          return Ok(existing);
        }
      }
      grants := grants[subject := eligibility.value];
      return eligibility;
    }

    /**
     One host invocation: dispatch, and discard all writes when the contract answers with an error.
     It does exactly what the specification of the call says, so it keeps the vault's invariant.
     */
    method Invoke(h: Host, now: nat, call: Call) returns (reply: Reply)
      modifies this, token
      ensures Outcome(At(now), reply) == Apply(config, h, old(At(now)), call)
      ensures Deployed(config) && old(Inv(config, At(now))) ==> Inv(config, At(now))
    {
      hide CreateCall, FundCall, AuthorizeCall, RecordCall, SettleCall, RefundCall, CancelCall, SubmitCall, Inv, Deployed;
      var savedOrders, savedReceipts, savedFundings, savedGrants := orders, receipts, fundings, grants;
      var savedReserved, savedBalances := reserved, token.balances;
      ghost var savedMoves := token.moves;
      ghost var before := At(now);
      if Deployed(config) && Inv(config, before) {
        CallKeepsInv(config, h, before, call);
      }
      var r: Policy.Result<Order>;
      match call {
        case Create(id, terms) => r := CreateOrder(h, now, id, terms);
        case Fund(id, operationId) => r := FundWithdrawal(h, now, id, operationId);
        case Authorize(id) => r := AuthorizePayout(h, now, id);
        case Record(id, receipt) => r := RecordReceipt(h, now, id, receipt);
        case Settle(id) => r := Settle(h, now, id);
        case Refund(id) => r := Refund(h, now, id);
        case Cancel(id) => r := Cancel(h, now, id);
        case Submit(subject, lengthsOk, inputs) =>
          var granted := SubmitEligibility(h, now, subject, lengthsOk, inputs);
          if granted.Ok? {
            return Granted(granted.value);
          }
          r := Err(granted.error);
      }
      if r.Ok? {
        return Done(r.value);
      }
      orders, receipts, fundings, grants, reserved := savedOrders, savedReceipts, savedFundings, savedGrants, savedReserved;
      token.balances, token.moves := savedBalances, savedMoves;
      assert At(now) == before;
      return Failed(r.error);
    }
  }

  /** A reservation touches only the reserve, the balances and the transfer history. */
  lemma ReserveKeepsRest(c: Config, h: Host, s: State, id: Hash)
    ensures forall amount :: var r := Vault.ReserveFrom(c, h, s, id, amount);
              r.Ok? ==> r.value == s.(reserved := r.value.reserved, balances := r.value.balances, moves := r.value.moves)
  {
  }
}
