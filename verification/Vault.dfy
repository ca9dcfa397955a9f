/** The settlement vault: its state, its calls, and the environment around it. */
module Vault {
  import opened Wrappers
  import opened Policy

  type Hash = nat     // 32-byte values; 0 is the all-zero one
  type Address = nat

  const I128_MAX: int := 0x7fff_ffff_ffff_ffff_ffff_ffff_ffff_ffff

  datatype Direction = Deposit | Withdrawal

  datatype Terms = Terms(
    subject: Hash,
    recipient: Address,
    refundTo: Address,
    direction: Direction,
    quoteHash: Hash,
    bankDestinationHash: Hash,
    tryMinor: nat,
    amount: int,
    deadline: nat,
    nonce: Hash)

  datatype Receipt = Receipt(eventId: Hash, quoteHash: Hash, tryMinor: nat, receivedAt: nat, bankDestinationHash: Hash)

  datatype Funding = Funding(operationId: Hash, recordedAt: nat)

  datatype Order = Order(
    terms: Terms,
    createdAt: nat,
    receipt: Option<Receipt>,
    escrowed: bool,
    payout: Option<nat>,
    funding: Option<Funding>,
    settledAt: Option<nat>,
    refundedAt: Option<nat>,
    cancelledAt: Option<nat>)

  /** The immutable configuration, with the host facts the contract asks about addresses and hashes. */
  datatype Config = Config(
    vault: Address,
    provider: Address,
    notary: Address,
    policy: PolicyConfig,
    maxOrderLifetime: nat,
    maxAmount: int,
    maxTryMinor: nat,
    isAccount: Address -> bool,
    subjectOf: Address -> Hash,
    challengeOf: Hash -> Word)

  /** What `validate_config` leaves true of the deployment that later proofs need. */
  predicate Deployed(c: Config) {
    && c.isAccount(c.provider) && !c.isAccount(c.vault)
    && c.maxAmount > 0 && 0 < c.policy.maxProofAge <= U64_MAX && c.policy.validUntil <= U64_MAX
  }

  /** One token transfer made by the contract for an order. */
  datatype Move = Move(id: Hash, from: Address, to: Address, amount: int)

  datatype State = State(
    now: nat,
    orders: map<Hash, Order>,
    receipts: map<Hash, Hash>,
    fundings: map<Hash, Hash>,
    grants: map<Hash, Grant>,
    reserved: int,
    balances: map<Address, nat>,
    moves: seq<Move>)

  /** What the host answers during one call: signatures, verifier identity and verdict, token success. */
  datatype Host = Host(provider: bool, notary: bool, verifierPinned: bool, proofValid: bool, transferOk: bool)

  datatype Call =
    | Create(id: Hash, terms: Terms)
    | Fund(id: Hash, operationId: Hash)
    | Authorize(id: Hash)
    | Record(id: Hash, receipt: Receipt)
    | Settle(id: Hash)
    | Refund(id: Hash)
    | Cancel(id: Hash)
    | Submit(subject: Hash, lengthsOk: bool, inputs: seq<Word>)

  datatype Reply = Done(order: Order) | Granted(grant: Grant) | Failed(error: GateError)

  datatype Outcome = Outcome(state: State, reply: Reply)

  function Terminal(o: Order): bool {
    o.settledAt.Some? || o.refundedAt.Some? || o.cancelledAt.Some?
  }

  // ----------------------------------------------------------------------------- token

  function Balance(s: State, a: Address): nat {
    if a in s.balances then s.balances[a] else 0
  }

  function Credited(balances: map<Address, nat>, to: Address, amount: nat): map<Address, nat> {
    balances[to := (if to in balances then balances[to] else 0) + amount]
  }

  /** A token transfer: debit, then credit. */
  function Transfer(s: State, id: Hash, from: Address, to: Address, amount: int): State
    requires 0 <= amount <= Balance(s, from)
  {
    s.(balances := Credited(s.balances[from := Balance(s, from) - amount], to, amount),
       moves := s.moves + [Move(id, from, to, amount)])
  }

  /** `reserve_from`: pull the amount into custody and count it as reserved. */
  function ReserveFrom(c: Config, h: Host, s: State, id: Hash, amount: int): Result<State>
  {
    if s.reserved + amount > I128_MAX then Err(Arithmetic)
    else if !h.transferOk || amount < 0 || Balance(s, c.provider) < amount then Err(TransferFailed)
    else
      var t := Transfer(s, id, c.provider, c.vault, amount);
      if Balance(t, c.vault) < s.reserved + amount then Err(InsufficientReserve)
      else Ok(t.(reserved := s.reserved + amount))
  }

  /** `release`: store the closed order, lower the reserve and pay its full amount out. */
  function Release(c: Config, h: Host, s: State, id: Hash, o: Order, destination: Address): Outcome {
    if s.reserved < o.terms.amount || Balance(s, c.vault) < s.reserved then
      Outcome(s, Failed(InsufficientReserve))
    else if !h.transferOk || o.terms.amount < 0 then
      Outcome(s, Failed(TransferFailed))
    else
      var closed := o.(escrowed := false);
      var t := s.(orders := s.orders[id := closed], reserved := s.reserved - o.terms.amount);
      Outcome(Transfer(t, id, c.vault, destination, o.terms.amount), Done(closed))
  }

  // ---------------------------------------------------------------------------- calls

  function FailWith(s: State, e: GateError): Outcome {
    Outcome(s, Failed(e))
  }

  /** Escrowed, open, and without any bank obligation or evidence. */
  function Undoable(o: Order): bool {
    !Terminal(o) && o.escrowed && o.payout.None? && o.receipt.None?
  }

  function CancelCall(c: Config, h: Host, s: State, id: Hash): Outcome {
    if !h.provider || !h.notary then FailWith(s, Unauthorized)
    else if id !in s.orders then FailWith(s, OrderMissing)
    else
      var o := s.orders[id];
      if o.cancelledAt.Some? then Outcome(s, Done(o))
      else if o.terms.direction.Withdrawal? || !Undoable(o) then FailWith(s, InvalidState)
      else Release(c, h, s, id, o.(cancelledAt := Some(s.now)), c.provider)
  }

  function RefundCall(c: Config, h: Host, s: State, id: Hash): Outcome {
    if !h.provider || !h.notary then FailWith(s, Unauthorized)
    else if id !in s.orders then FailWith(s, OrderMissing)
    else
      var o := s.orders[id];
      if o.refundedAt.Some? then Outcome(s, Done(o))
      else if o.terms.direction.Deposit? || !Undoable(o) then FailWith(s, InvalidState)
      else Release(c, h, s, id, o.(refundedAt := Some(s.now)), o.terms.refundTo)
  }

  function ActiveGrant(c: Config, h: Host, s: State, subject: Hash): Result<Grant> {
    if s.now >= c.policy.validUntil then Err(Expired)
    else if !h.verifierPinned then Err(WrongVerifier)
    else if subject !in s.grants then Err(EligibilityMissing)
    else if s.now >= s.grants[subject].validUntil then Err(Expired)
    else Ok(s.grants[subject])
  }

  function AuthorizeCall(c: Config, h: Host, s: State, id: Hash): Outcome {
    if !h.notary then FailWith(s, Unauthorized)
    else if id !in s.orders then FailWith(s, OrderMissing)
    else
      var o := s.orders[id];
      if o.terms.direction.Deposit? then FailWith(s, InvalidState)
      else if o.payout.Some? then Outcome(s, Done(o))
      else if Terminal(o) || !o.escrowed || o.receipt.Some? then FailWith(s, InvalidState)
      else
        var grant := ActiveGrant(c, h, s, o.terms.subject);
        if grant.Err? then FailWith(s, grant.error)
        else if s.now >= o.terms.deadline || s.now >= grant.value.validUntil then FailWith(s, Expired)
        else if s.reserved < o.terms.amount || Balance(s, c.vault) < s.reserved then FailWith(s, InsufficientReserve)
        else
          var authorized := o.(payout := Some(s.now));
          Outcome(s.(orders := s.orders[id := authorized]), Done(authorized))
  }

  function FundCall(c: Config, h: Host, s: State, id: Hash, operationId: Hash): Outcome
  {
    if !h.provider || !h.notary then FailWith(s, Unauthorized)
    else if id !in s.orders then FailWith(s, OrderMissing)
    else
      var o := s.orders[id];
      if o.terms.direction.Deposit? then FailWith(s, InvalidState)
      else if o.funding.Some? then
        if o.funding.value.operationId == operationId then Outcome(s, Done(o)) else FailWith(s, InvalidState)
      else if Terminal(o) || o.escrowed || o.payout.Some? || operationId == 0 then FailWith(s, InvalidState)
      else if operationId in s.fundings then FailWith(s, FundingUsed)
      else
        var r := ReserveFrom(c, h, s, id, o.terms.amount);
        if r.Err? then FailWith(s, r.error)
        else
          var funded := o.(escrowed := true, funding := Some(Funding(operationId, s.now)));
          var t := r.value;
          Outcome(t.(fundings := t.fundings[operationId := id], orders := t.orders[id := funded]), Done(funded))
  }

  function RecordCall(c: Config, h: Host, s: State, id: Hash, receipt: Receipt): Outcome {
    if !h.notary then FailWith(s, Unauthorized)
    else if id !in s.orders then FailWith(s, OrderMissing)
    else
      var o := s.orders[id];
      if o.receipt.Some? then
        if o.receipt.value == receipt then Outcome(s, Done(o)) else FailWith(s, InvalidReceipt)
      else if Terminal(o) || !o.escrowed then FailWith(s, InvalidState)
      else if o.terms.direction.Deposit? && o.terms.subject !in s.grants then FailWith(s, EligibilityMissing)
      else if o.terms.direction.Withdrawal? && o.payout.None? then FailWith(s, InvalidState)
      else
        var earliest := if o.terms.direction.Deposit? then o.createdAt else o.payout.value;
        if receipt.eventId == 0 || receipt.quoteHash != o.terms.quoteHash
           || receipt.tryMinor != o.terms.tryMinor
           || receipt.bankDestinationHash != o.terms.bankDestinationHash
           || receipt.receivedAt < earliest || receipt.receivedAt > s.now then FailWith(s, InvalidReceipt)
        else if receipt.eventId in s.receipts then FailWith(s, ReceiptUsed)
        else
          var received := o.(receipt := Some(receipt));
          Outcome(s.(receipts := s.receipts[receipt.eventId := id], orders := s.orders[id := received]), Done(received))
  }

  function SettleCall(c: Config, h: Host, s: State, id: Hash): Outcome {
    if id !in s.orders then FailWith(s, OrderMissing)
    else
      var o := s.orders[id];
      if o.settledAt.Some? then Outcome(s, Done(o))
      else if Terminal(o) || o.receipt.None? || !o.escrowed then FailWith(s, InvalidState)
      else
        var grant := ActiveGrant(c, h, s, o.terms.subject);
        if o.terms.direction.Deposit? && grant.Err? then FailWith(s, grant.error)
        else if o.terms.direction.Deposit? && (s.now >= grant.value.validUntil || s.now >= o.terms.deadline) then
          FailWith(s, Expired)
        else if o.terms.direction.Withdrawal? && o.payout.None? then FailWith(s, InvalidState)
        else if o.receipt.value.eventId !in s.receipts || s.receipts[o.receipt.value.eventId] != id then
          FailWith(s, InvalidState)
        else
          Release(c, h, s, id, o.(settledAt := Some(s.now)),
                  if o.terms.direction.Deposit? then o.terms.recipient else c.provider)
  }

  predicate AcceptableTerms(c: Config, now: nat, id: Hash, t: Terms) {
    && id != 0 && t.subject != 0
    && c.isAccount(t.refundTo) && t.refundTo == t.recipient
    && t.subject == c.subjectOf(t.recipient)
    && t.quoteHash != 0 && t.nonce != 0
    && c.isAccount(t.recipient)
    && 0 < t.amount <= c.maxAmount
    && 0 < t.tryMinor <= c.maxTryMinor
    && now < t.deadline <= c.policy.validUntil
    && t.deadline - now <= c.maxOrderLifetime
    && (t.direction.Deposit? <==> t.bankDestinationHash == 0)
  }

  function NewOrder(now: nat, t: Terms): Order {
    Order(t, now, None, t.direction.Deposit?, None, None, None, None, None)
  }

  function CreateCall(c: Config, h: Host, s: State, id: Hash, terms: Terms): Outcome
  {
    if !h.provider then FailWith(s, Unauthorized)
    else if id in s.orders then
      if s.orders[id].terms != terms then FailWith(s, OrderConflict) else Outcome(s, Done(s.orders[id]))
    else if s.now >= c.policy.validUntil then FailWith(s, Expired)
    else if !h.verifierPinned then FailWith(s, WrongVerifier)
    else if !AcceptableTerms(c, s.now, id, terms) then FailWith(s, InvalidTerms)
    else
      var o := NewOrder(s.now, terms);
      if terms.direction.Withdrawal? then Outcome(s.(orders := s.orders[id := o]), Done(o))
      else
        var r := ReserveFrom(c, h, s, id, terms.amount);
        if r.Err? then FailWith(s, r.error)
        else Outcome(r.value.(orders := r.value.orders[id := o]), Done(o))
  }

  function SubmitCall(c: Config, h: Host, s: State, subject: Hash, lengthsOk: bool, inputs: seq<Word>): Outcome {
    if s.now >= c.policy.validUntil then FailWith(s, Expired)
    else if !h.verifierPinned then FailWith(s, WrongVerifier)
    else if !lengthsOk || |inputs| != 8 + |Expected(c.policy, c.challengeOf(subject))| then FailWith(s, InvalidProof)
    else if subject == 0 then FailWith(s, InvalidSubject)
    else
      var r := Check(c.policy, c.challengeOf(subject), 0, c.policy.validUntil, s.now, inputs);
      if r.Err? then FailWith(s, r.error)
      else if !h.proofValid then FailWith(s, InvalidProof)
      else
        var stored := if subject in s.grants then Some(s.grants[subject]) else None;
        var g := Newer(stored, r.value);
        Outcome(s.(grants := s.grants[subject := g]), Granted(g))
  }

  function Apply(c: Config, h: Host, s: State, call: Call): Outcome
  {
    match call
    case Create(id, terms) => CreateCall(c, h, s, id, terms)
    case Fund(id, operationId) => FundCall(c, h, s, id, operationId)
    case Authorize(id) => AuthorizeCall(c, h, s, id)
    case Record(id, receipt) => RecordCall(c, h, s, id, receipt)
    case Settle(id) => SettleCall(c, h, s, id)
    case Refund(id) => RefundCall(c, h, s, id)
    case Cancel(id) => CancelCall(c, h, s, id)
    case Submit(subject, lengthsOk, inputs) => SubmitCall(c, h, s, subject, lengthsOk, inputs)
  }

  // ----------------------------------------------------------------------------- runs

  /** A call, the passing of time, or token movements that do not take from the vault. */
  datatype Event =
    | Invoke(host: Host, call: Call)
    | Wait(until: nat)
    | Credit(to: Address, amount: nat)
    | Debit(from: Address, amount: nat)

  function Step(c: Config, s: State, e: Event): State
  {
    match e
    case Invoke(h, call) => Apply(c, h, s, call).state
    case Wait(until) => if s.now <= until < U64_MAX then s.(now := until) else s
    case Credit(to, amount) => s.(balances := Credited(s.balances, to, amount))
    case Debit(from, amount) =>
      if from == c.vault || amount > Balance(s, from) then s
      else s.(balances := s.balances[from := Balance(s, from) - amount])
  }

  function Run(c: Config, s: State, es: seq<Event>): State
    decreases |es|
  {
    if es == [] then s else Run(c, Step(c, s, es[0]), es[1..])
  }

  /** The state right after deployment; tokens may lie anywhere. */
  predicate Initial(s: State) {
    && s.now < U64_MAX
    && s.orders == map[] && s.receipts == map[] && s.fundings == map[] && s.grants == map[]
    && s.reserved == 0 && s.moves == []
  }
}
