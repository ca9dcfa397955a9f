/** What every reachable state of the vault satisfies. */
module VaultSafety {
  import opened Wrappers
  import opened Policy
  import opened Vault

  // ---------------------------------------------------------------- the ledger of one order

  /** The tokens an order currently holds in custody. */
  function Held(o: Order): int {
    if o.escrowed then o.terms.amount else 0
  }

  predicate EverEscrowed(o: Order) {
    o.terms.direction.Deposit? || o.funding.Some?
  }

  /** Where the tokens of a closed order must have gone. */
  function Destination(c: Config, o: Order): Address {
    if o.settledAt.Some? then (if o.terms.direction.Deposit? then o.terms.recipient else c.provider)
    else if o.refundedAt.Some? then o.terms.refundTo
    else c.provider
  }

  /** The complete transfer history an order must have: one pull in, and one full release once closed. */
  function ExpectedMoves(c: Config, id: Hash, o: Order): seq<Move> {
    (if EverEscrowed(o) then [Move(id, c.provider, c.vault, o.terms.amount)] else [])
    + (if Terminal(o) then [Move(id, c.vault, Destination(c, o), o.terms.amount)] else [])
  }

  function MovesOf(moves: seq<Move>, id: Hash): seq<Move> {
    if moves == [] then []
    else
      var rest := MovesOf(moves[..|moves| - 1], id);
      if moves[|moves| - 1].id == id then rest + [moves[|moves| - 1]] else rest
  }

  /** What the recorded transfers brought into the vault, minus what they took out. */
  function NetInflow(c: Config, moves: seq<Move>): int {
    if moves == [] then 0
    else
      var m := moves[|moves| - 1];
      NetInflow(c, moves[..|moves| - 1])
      + (if m.to == c.vault then m.amount else 0) - (if m.from == c.vault then m.amount else 0)
  }

  /** The sum over all orders of a weight of each. */
  ghost function SumOf(orders: map<Hash, Order>, weight: Order -> int): int
    decreases |orders|
  {
    if exists id :: id in orders then
      var id :| id in orders;
      weight(orders[id]) + SumOf(orders - {id}, weight)
    else 0
  }

  lemma {:induction false} SumSplit(orders: map<Hash, Order>, weight: Order -> int, id: Hash)
    requires id in orders
    ensures SumOf(orders, weight) == weight(orders[id]) + SumOf(orders - {id}, weight)
    decreases |orders|
  {
    var first :| first in orders && SumOf(orders, weight) == weight(orders[first]) + SumOf(orders - {first}, weight);
    if first != id {
      SumSplit(orders - {first}, weight, id);
      SumSplit(orders - {id}, weight, first);
      assert orders - {first} - {id} == orders - {id} - {first};
    }
  }

  ghost function EscrowSum(orders: map<Hash, Order>): int {
    SumOf(orders, Held)
  }

  lemma EscrowSumSplit(orders: map<Hash, Order>, id: Hash)
    requires id in orders
    ensures EscrowSum(orders) == Held(orders[id]) + EscrowSum(orders - {id})
  {
    hide Held;
    SumSplit(orders, Held, id);
  }

  function Lookup(orders: map<Hash, Order>, id: Hash): Option<Order> {
    if id in orders then Some(orders[id]) else None
  }

  function HeldBefore(before: Option<Order>): int {
    if before.Some? then Held(before.value) else 0
  }

  lemma EscrowSumUpdate(orders: map<Hash, Order>, id: Hash, o: Order)
    ensures EscrowSum(orders[id := o]) == EscrowSum(orders) - HeldBefore(Lookup(orders, id)) + Held(o)
  {
    hide Held;
    EscrowSumSplit(orders[id := o], id);
    if id in orders {
      EscrowSumSplit(orders, id);
      assert orders[id := o] - {id} == orders - {id};
    } else {
      assert orders[id := o] - {id} == orders;
    }
  }

  // ------------------------------------------------------------------- shape of an order

  predicate GoodReceipt(o: Order, r: Receipt) {
    && r.eventId != 0
    && r.quoteHash == o.terms.quoteHash && r.tryMinor == o.terms.tryMinor
    && r.bankDestinationHash == o.terms.bankDestinationHash
    && (if o.terms.direction.Deposit? then o.createdAt <= r.receivedAt
        else o.payout.Some? && o.payout.value <= r.receivedAt)
  }

  /** At most one terminal mark, and none of the undoing ones beside a payout or a receipt. */
  predicate OneOutcome(o: Order) {
    && !(o.settledAt.Some? && o.refundedAt.Some?)
    && !(o.settledAt.Some? && o.cancelledAt.Some?)
    && !(o.refundedAt.Some? && o.cancelledAt.Some?)
    && (o.refundedAt.Some? || o.cancelledAt.Some? ==> o.payout.None? && o.receipt.None?)
    && (o.escrowed <==> EverEscrowed(o) && !Terminal(o))
    && (Terminal(o) ==> EverEscrowed(o))
  }

  /** The order of events in an order's life, up to `now`. */
  predicate Timeline(c: Config, now: nat, o: Order) {
    && o.createdAt < o.terms.deadline <= c.policy.validUntil
    && o.createdAt <= now
    && (o.receipt.Some? ==> GoodReceipt(o, o.receipt.value) && o.receipt.value.receivedAt <= now)
    && (o.settledAt.Some? ==> o.receipt.Some? && o.receipt.value.receivedAt <= o.settledAt.value <= now)
    && (if o.terms.direction.Deposit? then
          && o.payout.None? && o.funding.None? && o.refundedAt.None?
          && (o.settledAt.Some? ==> o.settledAt.value < o.terms.deadline)
          && (o.cancelledAt.Some? ==> o.createdAt <= o.cancelledAt.value <= now)
        else
          && o.cancelledAt.None?
          && (o.funding.Some? ==> o.funding.value.operationId != 0 && o.createdAt <= o.funding.value.recordedAt <= now)
          && (o.payout.Some? ==>
                o.funding.Some? && o.funding.value.recordedAt <= o.payout.value < o.terms.deadline && o.payout.value <= now)
          && (o.refundedAt.Some? ==> o.funding.Some? && o.funding.value.recordedAt <= o.refundedAt.value <= now))
  }

  predicate OrderOk(c: Config, now: nat, id: Hash, o: Order) {
    AcceptableTerms(c, o.createdAt, id, o.terms) && OneOutcome(o) && Timeline(c, now, o)
  }

  // ------------------------------------------------------------------ what one call may do

  /** The change a successful, non-repeated call makes to its order. */
  predicate Evolves(c: Config, now: nat, call: Call, before: Option<Order>, after: Order) {
    match call
    case Create(id, terms) =>
      before.None? && now < c.policy.validUntil && AcceptableTerms(c, now, id, terms) && after == NewOrder(now, terms)
    case Fund(id, operationId) =>
      && before.Some?
      && var o := before.value;
      && o.terms.direction.Withdrawal? && o.funding.None? && !Terminal(o) && !o.escrowed && o.payout.None?
      && operationId != 0
      && after == o.(escrowed := true, funding := Some(Funding(operationId, now)))
    case Authorize(id) =>
      && before.Some?
      && var o := before.value;
      && o.terms.direction.Withdrawal? && o.payout.None? && o.receipt.None? && !Terminal(o) && o.escrowed
      && now < o.terms.deadline
      && after == o.(payout := Some(now))
    case Record(id, receipt) =>
      && before.Some?
      && var o := before.value;
      && o.receipt.None? && !Terminal(o) && o.escrowed
      && GoodReceipt(o, receipt) && receipt.receivedAt <= now
      && after == o.(receipt := Some(receipt))
    case Settle(id) =>
      && before.Some?
      && var o := before.value;
      && !Terminal(o) && o.receipt.Some? && o.escrowed
      && (o.terms.direction.Deposit? ==> now < o.terms.deadline)
      && (o.terms.direction.Withdrawal? ==> o.payout.Some?)
      && after == o.(escrowed := false, settledAt := Some(now))
    case Refund(id) =>
      && before.Some? && before.value.terms.direction.Withdrawal? && Undoable(before.value)
      && after == before.value.(escrowed := false, refundedAt := Some(now))
    case Cancel(id) =>
      && before.Some? && before.value.terms.direction.Deposit? && Undoable(before.value)
      && after == before.value.(escrowed := false, cancelledAt := Some(now))
    case Submit(_, _, _) => false
  }

  /** The one transfer that goes with a change of custody. */
  function TransfersOf(c: Config, id: Hash, before: Option<Order>, after: Order): seq<Move> {
    if after.escrowed && (before.None? || !before.value.escrowed) then
      [Move(id, c.provider, c.vault, after.terms.amount)]
    else if !after.escrowed && before.Some? && before.value.escrowed then
      [Move(id, c.vault, Destination(c, after), after.terms.amount)]
    else []
  }

  /** The whole effect of such a call on the state, given the changed order. */
  predicate Effect(c: Config, s: State, call: Call, t: State)
    requires !call.Submit?
  {
    && call.id in t.orders
    && var before, after := Lookup(s.orders, call.id), t.orders[call.id];
    && Evolves(c, s.now, call, before, after)
    && t.now == s.now && t.grants == s.grants
    && t.orders == s.orders[call.id := after]
    && t.reserved == s.reserved - HeldBefore(before) + Held(after)
    && Balance(t, c.vault) == Balance(s, c.vault) - HeldBefore(before) + Held(after)
    && t.moves == s.moves + TransfersOf(c, call.id, before, after)
    && (if call.Record? then
          call.receipt.eventId !in s.receipts && t.receipts == s.receipts[call.receipt.eventId := call.id]
        else t.receipts == s.receipts)
    && (if call.Fund? then
          call.operationId !in s.fundings && t.fundings == s.fundings[call.operationId := call.id]
        else t.fundings == s.fundings)
  }

  lemma ReleaseEffect(c: Config, h: Host, s: State, id: Hash, o: Order, destination: Address)
    requires destination != c.vault
    ensures var r := Release(c, h, s, id, o, destination);
            || (r.state == s && r.reply.Failed?)
            || (&& r.reply == Done(o.(escrowed := false))
                && r.state == s.(orders := s.orders[id := o.(escrowed := false)],
                                 reserved := s.reserved - o.terms.amount,
                                 moves := s.moves + [Move(id, c.vault, destination, o.terms.amount)],
                                 balances := r.state.balances)
                && Balance(r.state, c.vault) == Balance(s, c.vault) - o.terms.amount)
  {
  }

  lemma CancelEffect(c: Config, h: Host, s: State, id: Hash)
    requires c.provider != c.vault
    ensures var t := CancelCall(c, h, s, id).state; t == s || Effect(c, s, Cancel(id), t)
  {
    hide Release;
    if id in s.orders {
      ReleaseEffect(c, h, s, id, s.orders[id].(cancelledAt := Some(s.now)), c.provider);
    }
  }

  lemma RefundEffect(c: Config, h: Host, s: State, id: Hash)
    requires id in s.orders ==> s.orders[id].terms.refundTo != c.vault
    ensures var t := RefundCall(c, h, s, id).state; t == s || Effect(c, s, Refund(id), t)
  {
    hide Release;
    if id in s.orders {
      ReleaseEffect(c, h, s, id, s.orders[id].(refundedAt := Some(s.now)), s.orders[id].terms.refundTo);
    }
  }

  lemma SettleEffect(c: Config, h: Host, s: State, id: Hash)
    requires c.provider != c.vault && (id in s.orders ==> s.orders[id].terms.recipient != c.vault)
    ensures var t := SettleCall(c, h, s, id).state; t == s || Effect(c, s, Settle(id), t)
  {
    hide Release, ActiveGrant;
    if id in s.orders {
      var o := s.orders[id];
      var destination := if o.terms.direction.Deposit? then o.terms.recipient else c.provider;
      ReleaseEffect(c, h, s, id, o.(settledAt := Some(s.now)), destination);
    }
  }

  lemma AuthorizeEffect(c: Config, h: Host, s: State, id: Hash)
    ensures var t := AuthorizeCall(c, h, s, id).state; t == s || Effect(c, s, Authorize(id), t)
  {
    hide ActiveGrant;
  }

  lemma RecordEffect(c: Config, h: Host, s: State, id: Hash, receipt: Receipt)
    ensures var t := RecordCall(c, h, s, id, receipt).state; t == s || Effect(c, s, Record(id, receipt), t)
  {
  }

  lemma ReserveEffect(c: Config, h: Host, s: State, id: Hash, amount: int)
    requires c.provider != c.vault
    ensures var r := ReserveFrom(c, h, s, id, amount);
            r.Ok? ==>
              && r.value == s.(reserved := s.reserved + amount,
                               moves := s.moves + [Move(id, c.provider, c.vault, amount)],
                               balances := r.value.balances)
              && Balance(r.value, c.vault) == Balance(s, c.vault) + amount
  {
  }

  lemma FundEffect(c: Config, h: Host, s: State, id: Hash, operationId: Hash)
    requires c.provider != c.vault
    ensures var t := FundCall(c, h, s, id, operationId).state; t == s || Effect(c, s, Fund(id, operationId), t)
  {
    hide ReserveFrom;
    if id in s.orders {
      ReserveEffect(c, h, s, id, s.orders[id].terms.amount);
    }
  }

  /** An accepted order adds itself and, for a deposit, its escrow. */
  lemma NewOrderEffect(c: Config, s: State, id: Hash, terms: Terms, t: State)
    requires id !in s.orders && s.now < c.policy.validUntil && AcceptableTerms(c, s.now, id, terms)
    requires var o := NewOrder(s.now, terms);
             && t == s.(orders := s.orders[id := o], reserved := t.reserved, balances := t.balances, moves := t.moves)
             && t.reserved == s.reserved + Held(o) && Balance(t, c.vault) == Balance(s, c.vault) + Held(o)
             && t.moves == if o.escrowed then s.moves + [Move(id, c.provider, c.vault, terms.amount)] else s.moves
    ensures Effect(c, s, Create(id, terms), t)
  {
    hide AcceptableTerms, Balance;
  }

  lemma CreateEffect(c: Config, h: Host, s: State, id: Hash, terms: Terms)
    requires c.provider != c.vault
    ensures var t := CreateCall(c, h, s, id, terms).state; t == s || Effect(c, s, Create(id, terms), t)
  {
    hide ReserveFrom, AcceptableTerms, Effect;
    ReserveEffect(c, h, s, id, terms.amount);
    var t := CreateCall(c, h, s, id, terms).state;
    if id !in s.orders && t != s {
      NewOrderEffect(c, s, id, terms, t);
    }
  }

  predicate PaysOutside(c: Config, o: Order) {
    o.terms.recipient != c.vault && o.terms.refundTo != c.vault
  }

  /** Every order call either changes nothing or has exactly the effect above. */
  lemma CallEffect(c: Config, h: Host, s: State, call: Call)
    requires Deployed(c) && !call.Submit?
    requires call.id in s.orders ==> PaysOutside(c, s.orders[call.id])
    ensures var t := Apply(c, h, s, call).state; t == s || Effect(c, s, call, t)
  {
    hide Deployed, Effect, CreateCall, FundCall, AuthorizeCall, RecordCall, SettleCall, RefundCall, CancelCall;
    ProviderOutside(c);
    match call
    case Create(id, terms) => CreateEffect(c, h, s, id, terms);
    case Fund(id, operationId) => FundEffect(c, h, s, id, operationId);
    case Authorize(id) => AuthorizeEffect(c, h, s, id);
    case Record(id, receipt) => RecordEffect(c, h, s, id, receipt);
    case Settle(id) => SettleEffect(c, h, s, id);
    case Refund(id) => RefundEffect(c, h, s, id);
    case Cancel(id) => CancelEffect(c, h, s, id);
  }

  /** A submitted proof changes at most the grant of its subject, to the newer of the stored and the proved one. */
  lemma SubmitEffect(c: Config, h: Host, s: State, subject: Hash, lengthsOk: bool, inputs: seq<Word>)
    ensures var t := SubmitCall(c, h, s, subject, lengthsOk, inputs).state;
            t == s ||
            exists g :: OfPolicy(c.policy, g) && g.proofTime <= s.now
                        && t == s.(grants := s.grants[subject := Newer(StoredGrant(s, subject), g)])
  {
    hide Check, OfPolicy, Newer, Expected;
    var r := SubmitCall(c, h, s, subject, lengthsOk, inputs);
    if r.reply.Granted? {
      CheckedIsOfPolicy(c.policy, c.challengeOf(subject), s.now, inputs);
      var checked := Check(c.policy, c.challengeOf(subject), 0, c.policy.validUntil, s.now, inputs);
      CheckedTime(c, subject, s.now, inputs);
      assert r.state == s.(grants := s.grants[subject := Newer(StoredGrant(s, subject), checked.value)]);
    }
  }

  function StoredGrant(s: State, subject: Hash): Option<Grant> {
    if subject in s.grants then Some(s.grants[subject]) else None
  }

  lemma CheckedTime(c: Config, subject: Hash, now: nat, inputs: seq<Word>)
    requires |inputs| == 8 + |Expected(c.policy, c.challengeOf(subject))|
    requires Check(c.policy, c.challengeOf(subject), 0, c.policy.validUntil, now, inputs).Ok?
    ensures Check(c.policy, c.challengeOf(subject), 0, c.policy.validUntil, now, inputs).value.proofTime <= now
  {
    hide Expected, Matches, Min;
  }

  // ---------------------------------------------------------------------- the invariant

  ghost predicate OrdersOk(c: Config, s: State) {
    forall id :: id in s.orders ==> OrderOk(c, s.now, id, s.orders[id])
  }

  ghost predicate ReceiptIndexOk(s: State) {
    && (forall id :: id in s.orders && s.orders[id].receipt.Some? ==>
          s.orders[id].receipt.value.eventId in s.receipts && s.receipts[s.orders[id].receipt.value.eventId] == id)
    && (forall e :: e in s.receipts ==>
          && s.receipts[e] in s.orders
          && s.orders[s.receipts[e]].receipt.Some? && s.orders[s.receipts[e]].receipt.value.eventId == e)
  }

  ghost predicate FundingIndexOk(s: State) {
    && (forall id :: id in s.orders && s.orders[id].funding.Some? ==>
          s.orders[id].funding.value.operationId in s.fundings && s.fundings[s.orders[id].funding.value.operationId] == id)
    && (forall op :: op in s.fundings ==>
          && s.fundings[op] in s.orders
          && s.orders[s.fundings[op]].funding.Some? && s.orders[s.fundings[op]].funding.value.operationId == op)
  }

  ghost predicate MovesOk(c: Config, s: State) {
    forall id :: MovesOf(s.moves, id) == if id in s.orders then ExpectedMoves(c, id, s.orders[id]) else []
  }

  ghost predicate ReserveOk(c: Config, s: State) {
    s.reserved == EscrowSum(s.orders) == NetInflow(c, s.moves) && s.reserved <= Balance(s, c.vault)
  }

  ghost predicate GrantsOk(c: Config, s: State) {
    forall subject :: subject in s.grants ==>
      OfPolicy(c.policy, s.grants[subject]) && s.grants[subject].proofTime <= s.now
  }

  ghost predicate Inv(c: Config, s: State) {
    s.now < U64_MAX && OrdersOk(c, s) && ReceiptIndexOk(s) && FundingIndexOk(s) && MovesOk(c, s) && ReserveOk(c, s) && GrantsOk(c, s)
  }

  lemma OrderOkLater(c: Config, now: nat, later: nat, id: Hash, o: Order)
    requires OrderOk(c, now, id, o) && now <= later
    ensures OrderOk(c, later, id, o)
  {
    hide AcceptableTerms, OneOutcome;
  }

  /** Each allowed change turns a well-formed order into a well-formed order. */
  lemma EvolvesKeepsShape(c: Config, now: nat, call: Call, before: Option<Order>, after: Order)
    requires !call.Submit? && Evolves(c, now, call, before, after)
    requires before.Some? ==> OrderOk(c, now, call.id, before.value)
    ensures OrderOk(c, now, call.id, after)
  {
  }

  lemma EffectKeepsOrders(c: Config, s: State, call: Call, t: State)
    requires !call.Submit? && Effect(c, s, call, t) && OrdersOk(c, s)
    ensures OrdersOk(c, t)
  {
    hide OrderOk, Evolves;
    EvolvesKeepsShape(c, s.now, call, Lookup(s.orders, call.id), t.orders[call.id]);
  }

  /** Only a recorded receipt and a funding are new facts of the indexes. */
  lemma EvolvesFacts(c: Config, now: nat, call: Call, before: Option<Order>, after: Order)
    requires !call.Submit? && Evolves(c, now, call, before, after)
    ensures after.receipt == if call.Record? then Some(call.receipt) else if before.Some? then before.value.receipt else None
    ensures after.funding == if call.Fund? then Some(Funding(call.operationId, now))
                             else if before.Some? then before.value.funding else None
    ensures call.Record? ==> before.Some? && before.value.receipt.None?
    ensures call.Fund? ==> before.Some? && before.value.funding.None?
  {
    hide AcceptableTerms, GoodReceipt, Terminal;
  }

  lemma EffectKeepsReceiptIndex(c: Config, s: State, call: Call, t: State)
    requires !call.Submit? && Effect(c, s, call, t) && ReceiptIndexOk(s)
    ensures ReceiptIndexOk(t)
  {
    hide Evolves, Held, HeldBefore, Balance, TransfersOf;
    EvolvesFacts(c, s.now, call, Lookup(s.orders, call.id), t.orders[call.id]);
  }

  lemma EffectKeepsFundingIndex(c: Config, s: State, call: Call, t: State)
    requires !call.Submit? && Effect(c, s, call, t) && FundingIndexOk(s)
    ensures FundingIndexOk(t)
  {
    hide Evolves, Held, HeldBefore, Balance, TransfersOf;
    EvolvesFacts(c, s.now, call, Lookup(s.orders, call.id), t.orders[call.id]);
  }

  lemma MovesOfAppend(moves: seq<Move>, more: seq<Move>, id: Hash)
    requires |more| <= 1
    ensures MovesOf(moves + more, id) == MovesOf(moves, id) + MovesOf(more, id)
  {
    if more == [] {
      assert moves + more == moves;
    } else {
      assert (moves + more)[..|moves + more| - 1] == moves;
      assert more[..0] == [];
    }
  }

  /** The transfer of a change is exactly what the order's expected history grows by. */
  lemma TransfersExtendHistory(c: Config, now: nat, call: Call, before: Option<Order>, after: Order)
    requires !call.Submit? && Evolves(c, now, call, before, after)
    requires before.Some? ==> OneOutcome(before.value)
    ensures ExpectedMoves(c, call.id, after)
            == (if before.Some? then ExpectedMoves(c, call.id, before.value) else []) + TransfersOf(c, call.id, before, after)
  {
    hide AcceptableTerms;
  }

  lemma EffectKeepsMoves(c: Config, s: State, call: Call, t: State)
    requires !call.Submit? && Effect(c, s, call, t) && OrdersOk(c, s) && MovesOk(c, s)
    ensures MovesOk(c, t)
  {
    hide Evolves, AcceptableTerms, ExpectedMoves, OneOutcome, Timeline, Held, HeldBefore;
    var before := Lookup(s.orders, call.id);
    var more := TransfersOf(c, call.id, before, t.orders[call.id]);
    assert before.Some? ==> OrderOk(c, s.now, call.id, before.value);
    TransfersExtendHistory(c, s.now, call, before, t.orders[call.id]);
    forall id ensures MovesOf(t.moves, id) == if id in t.orders then ExpectedMoves(c, id, t.orders[id]) else [] {
      MovesOfAppend(s.moves, more, id);
      TransfersAreItsOwn(c, call.id, before, t.orders[call.id], id);
    }
  }

  lemma TransfersAreItsOwn(c: Config, id: Hash, before: Option<Order>, after: Order, other: Hash)
    ensures var more := TransfersOf(c, id, before, after);
            MovesOf(more, other) == if other == id then more else []
  {
    hide Destination;
    var more := TransfersOf(c, id, before, after);
    if more != [] {
      assert more[..0] == [];
      assert MovesOf(more[..0], other) == [];
    }
  }

  lemma NetInflowAppend(c: Config, moves: seq<Move>, m: Move)
    ensures NetInflow(c, moves + [m]) == NetInflow(c, moves)
            + (if m.to == c.vault then m.amount else 0) - (if m.from == c.vault then m.amount else 0)
  {
    assert (moves + [m])[..|moves + [m]| - 1] == moves;
  }

  /** A well-formed order never pays the vault itself. */
  lemma DestinationOutside(c: Config, now: nat, id: Hash, o: Order)
    requires Deployed(c) && OrderOk(c, now, id, o)
    ensures Destination(c, o) != c.vault
  {
  }

  /** The signed amount of a change's transfer is what the order's custody changes by. */
  lemma TransferAmount(c: Config, now: nat, call: Call, before: Option<Order>, after: Order, moves: seq<Move>)
    requires c.provider != c.vault && Destination(c, after) != c.vault
    requires !call.Submit? && Evolves(c, now, call, before, after)
    ensures NetInflow(c, moves + TransfersOf(c, call.id, before, after)) == NetInflow(c, moves) - HeldBefore(before) + Held(after)
  {
    hide AcceptableTerms, Destination, NetInflow;
    EvolvesKeepsAmount(c, now, call, before, after);
    hide Evolves;
    var more := TransfersOf(c, call.id, before, after);
    if more == [] {
      assert moves + more == moves;
    } else {
      NetInflowAppend(c, moves, more[0]);
    }
  }

  lemma EffectKeepsReserve(c: Config, s: State, call: Call, t: State)
    requires Deployed(c) && !call.Submit? && Effect(c, s, call, t) && OrdersOk(c, s) && ReserveOk(c, s)
    ensures ReserveOk(c, t)
  {
    hide OrderOk, AcceptableTerms, Destination, Deployed, Evolves, EscrowSum, Held, HeldBefore, NetInflow, Balance, TransfersOf;
    var before, after := Lookup(s.orders, call.id), t.orders[call.id];
    EscrowSumUpdate(s.orders, call.id, after);
    EvolvesKeepsShape(c, s.now, call, before, after);
    DestinationOutside(c, s.now, call.id, after);
    ProviderOutside(c);
    TransferAmount(c, s.now, call, before, after, s.moves);
  }

  lemma ProviderOutside(c: Config)
    requires Deployed(c)
    ensures c.provider != c.vault
  {
  }

  lemma EvolvesKeepsAmount(c: Config, now: nat, call: Call, before: Option<Order>, after: Order)
    requires !call.Submit? && Evolves(c, now, call, before, after)
    ensures before.Some? ==> after.terms == before.value.terms
    ensures before.None? ==> !Terminal(after)
  {
    hide AcceptableTerms;
  }

  lemma CallKeepsInv(c: Config, h: Host, s: State, call: Call)
    requires Deployed(c) && Inv(c, s)
    ensures Inv(c, Apply(c, h, s, call).state)
  {
    hide Deployed, OrdersOk, ReceiptIndexOk, FundingIndexOk, MovesOk, ReserveOk, Effect, OfPolicy, SubmitCall,
         CreateCall, FundCall, AuthorizeCall, RecordCall, SettleCall, RefundCall, CancelCall;
    ProviderOutside(c);
    var t := Apply(c, h, s, call).state;
    if call.Submit? {
      SubmitKeepsInv(c, h, s, call.subject, call.lengthsOk, call.inputs);
    } else {
      StoredPaysOutside(c, s, call.id);
      CallEffect(c, h, s, call);
      if t != s {
        EffectKeepsOrders(c, s, call, t);
        EffectKeepsReceiptIndex(c, s, call, t);
        EffectKeepsFundingIndex(c, s, call, t);
        EffectKeepsMoves(c, s, call, t);
        EffectKeepsReserve(c, s, call, t);
        EffectKeepsTime(c, s, call, t);
      }
    }
  }

  lemma StoredPaysOutside(c: Config, s: State, id: Hash)
    requires Deployed(c) && OrdersOk(c, s)
    ensures id in s.orders ==> PaysOutside(c, s.orders[id])
  {
    hide OneOutcome, Timeline;
    if id in s.orders {
      assert OrderOk(c, s.now, id, s.orders[id]);
    }
  }

  lemma EffectKeepsTime(c: Config, s: State, call: Call, t: State)
    requires !call.Submit? && Effect(c, s, call, t)
    ensures t.now == s.now && t.grants == s.grants
  {
  }

  lemma SubmitKeepsInv(c: Config, h: Host, s: State, subject: Hash, lengthsOk: bool, inputs: seq<Word>)
    requires Inv(c, s)
    ensures Inv(c, SubmitCall(c, h, s, subject, lengthsOk, inputs).state)
  {
    hide Inv, OfPolicy, SubmitCall, Newer;
    SubmitEffect(c, h, s, subject, lengthsOk, inputs);
    var t := SubmitCall(c, h, s, subject, lengthsOk, inputs).state;
    if t != s {
      var g :| OfPolicy(c.policy, g) && g.proofTime <= s.now
               && t == s.(grants := s.grants[subject := Newer(StoredGrant(s, subject), g)]);
      GrantKeepsInv(c, s, subject, g);
    }
  }

  lemma GrantKeepsInv(c: Config, s: State, subject: Hash, g: Grant)
    requires Inv(c, s) && OfPolicy(c.policy, g) && g.proofTime <= s.now
    ensures Inv(c, s.(grants := s.grants[subject := Newer(StoredGrant(s, subject), g)]))
  {
    hide OrderOk, OfPolicy, MovesOf, NetInflow, EscrowSum, ExpectedMoves, ReceiptIndexOk, FundingIndexOk;
    var t := s.(grants := s.grants[subject := Newer(StoredGrant(s, subject), g)]);
    SameIndexes(s, t);
  }

  lemma SameIndexes(s: State, t: State)
    requires ReceiptIndexOk(s) && FundingIndexOk(s)
    requires t.orders == s.orders && t.receipts == s.receipts && t.fundings == s.fundings
    ensures ReceiptIndexOk(t) && FundingIndexOk(t)
  {
  }

  lemma WaitKeepsInv(c: Config, s: State, until: nat)
    requires Inv(c, s) && s.now <= until < U64_MAX
    ensures Inv(c, s.(now := until))
  {
    hide OrderOk, OfPolicy, MovesOf, NetInflow, EscrowSum, ExpectedMoves, ReceiptIndexOk, FundingIndexOk;
    SameIndexes(s, s.(now := until));
    forall id | id in s.orders ensures OrderOk(c, until, id, s.orders[id]) {
      OrderOkLater(c, s.now, until, id, s.orders[id]);
    }
  }

  /** Token movements that do not take from the vault. */
  lemma MovementKeepsInv(c: Config, s: State, t: State)
    requires Inv(c, s) && t == s.(balances := t.balances) && Balance(t, c.vault) >= Balance(s, c.vault)
    ensures Inv(c, t)
  {
    hide OrderOk, OfPolicy, MovesOf, NetInflow, EscrowSum, ExpectedMoves, Balance, ReceiptIndexOk, FundingIndexOk;
    SameIndexes(s, t);
  }

  lemma StepKeepsInv(c: Config, s: State, e: Event)
    requires Deployed(c) && Inv(c, s)
    ensures Inv(c, Step(c, s, e))
  {
    hide Deployed, Inv, Apply;
    match e
    case Invoke(h, call) => CallKeepsInv(c, h, s, call);
    case Wait(until) => if s.now <= until < U64_MAX { WaitKeepsInv(c, s, until); }
    case Credit(_, _) => MovementKeepsInv(c, s, Step(c, s, e));
    case Debit(_, _) => MovementKeepsInv(c, s, Step(c, s, e));
  }

  lemma {:induction false} RunKeepsInv(c: Config, s: State, es: seq<Event>)
    requires Deployed(c) && Inv(c, s)
    ensures Inv(c, Run(c, s, es))
    decreases |es|
  {
    hide Deployed, Inv, Step;
    if es != [] {
      StepKeepsInv(c, s, es[0]);
      RunKeepsInv(c, Step(c, s, es[0]), es[1..]);
    }
  }

  lemma InitialInv(c: Config, s: State)
    requires Initial(s)
    ensures Inv(c, s)
  {
    assert EscrowSum(s.orders) == 0;
  }

  /** Every state any run can reach from deployment. */
  ghost predicate Reachable(c: Config, s: State) {
    exists s0, es :: Initial(s0) && s == Run(c, s0, es)
  }

  lemma ReachableInv(c: Config, s: State)
    requires Deployed(c) && Reachable(c, s)
    ensures Inv(c, s)
  {
    hide Inv, Initial, Run;
    var s0, es :| Initial(s0) && s == Run(c, s0, es);
    InitialInv(c, s0);
    RunKeepsInv(c, s0, es);
  }
}
