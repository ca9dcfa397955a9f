/** Ingestion of incoming payments: each is classified once, and at most one funds a withdrawal. */
module Ingest {
  import opened Wrappers
  import opened Decimal
  import V = Vault

  type Id = V.Hash
  type Address = V.Address

  /** A payment as the node reports it; the memo is already decoded to an order id, the time to milliseconds. */
  datatype Payment = Payment(
    operationId: string,
    pagingToken: string,
    transactionHash: string,
    from: Address,
    to: Address,
    asset: nat,
    amount: string,
    memo: Option<Id>,
    createdAt: Option<int>)

  /** What the engine keeps of its confirmed copy of the native order. */
  datatype Chain = Chain(createdAt: nat, escrowed: bool, funded: bool, terminal: bool)

  datatype Intent = Intent(
    subject: Address,
    withdrawal: bool,
    contract: nat,
    terms: Option<V.Terms>,
    chain: Option<Chain>,
    recovery: Option<Reason>)

  datatype Reason = NotAWithdrawal | WrongParties | WrongAmount | OutsideWindow | AlreadyFunded

  /** A classified payment; no reason means accepted. */
  datatype Entry = Entry(payment: Payment, intent: Option<Id>, reason: Option<Reason>)

  datatype Receiver = Receiver(contract: nat, account: Address, asset: nat)

  datatype Db = Db(intents: map<Id, Intent>, payments: seq<Entry>, cursor: Option<string>)

  predicate IsHash(s: string) {
    |s| == 64 && forall i :: 0 <= i < 64 ==> IsDigit(s[i]) || 'a' <= s[i] <= 'f'
  }

  predicate WellIdentified(p: Payment) {
    Numeral(p.operationId) && Numeral(p.pagingToken) && IsHash(p.transactionHash)
  }

  predicate Known(payments: seq<Entry>, operationId: string) {
    exists i :: 0 <= i < |payments| && payments[i].payment.operationId == operationId
  }

  predicate AcceptedFor(e: Entry, id: Id) {
    e.reason.None? && e.intent == Some(id)
  }

  predicate HasAccepted(payments: seq<Entry>, id: Id) {
    exists i :: 0 <= i < |payments| && AcceptedFor(payments[i], id)
  }

  predicate InWindow(row: Intent, p: Payment)
    requires row.terms.Some? && row.chain.Some?
  {
    && p.createdAt.Some?
    && row.chain.value.createdAt * 1000 <= p.createdAt.value < row.terms.value.deadline * 1000
  }

  predicate ExactAmount(row: Intent, p: Payment)
    requires row.terms.Some?
  {
    Numeral(p.amount) && Value(p.amount) == row.terms.value.amount
  }

  function RowOf(db: Db, p: Payment): Option<Id> {
    if p.memo.Some? && p.memo.value in db.intents then p.memo else None
  }

  /** The first objection to a payment, in the order the checks are made. */
  function Objection(r: Receiver, db: Db, p: Payment): Option<Reason> {
    var id := RowOf(db, p);
    if id.None? then Some(NotAWithdrawal)
    else
      var row := db.intents[id.value];
      if row.terms.None? || row.chain.None? || !row.withdrawal then Some(NotAWithdrawal)
      else if row.contract != r.contract || p.from != row.subject || p.to != r.account || p.asset != r.asset then
        Some(WrongParties)
      else if !ExactAmount(row, p) then Some(WrongAmount)
      else if !InWindow(row, p) || row.chain.value.terminal then Some(OutsideWindow)
      else if HasAccepted(db.payments, id.value) || row.chain.value.funded then Some(AlreadyFunded)
      else None
  }

  /** The withdrawal already has its payment, or is closed. */
  predicate Canonical(db: Db, id: Id)
    requires id in db.intents
  {
    || HasAccepted(db.payments, id)
    || (db.intents[id].chain.Some? && (db.intents[id].chain.value.funded || db.intents[id].chain.value.terminal))
  }

  function Classify(r: Receiver, db: Db, p: Payment): Db {
    var id := RowOf(db, p);
    var reason := Objection(r, db, p);
    var next := db.(payments := db.payments + [Entry(p, id, reason)]);
    if id.Some? && reason.Some? && !Canonical(next, id.value)
       && p.from == db.intents[id.value].subject && p.to == r.account && p.asset == r.asset then
      next.(intents := next.intents[id.value := next.intents[id.value].(recovery := reason)])
    else next
  }

  function IngestOne(r: Receiver, db: Db, p: Payment): Db {
    if Known(db.payments, p.operationId) then db else Classify(r, db, p)
  }

  /** A page in order; a malformed identity aborts the whole transaction. */
  function IngestPayments(r: Receiver, db: Db, page: seq<Payment>): Option<Db>
    decreases |page|
  {
    if page == [] then Some(db)
    else if !WellIdentified(page[0]) then None
    else IngestPayments(r, IngestOne(r, db, page[0]), page[1..])
  }

  function IngestPage(r: Receiver, db: Db, page: seq<Payment>, cursor: Option<string>): Option<Db> {
    var done := IngestPayments(r, db, page);
    if done.None? || cursor.None? then done
    else if !Numeral(cursor.value) then None
    else Some(done.value.(cursor := cursor))
  }

  // ---------------------------------------------------------------------- the service

  class Ingress {
    const receiver: Receiver
    var intents: map<Id, Intent>
    var payments: seq<Entry>
    var cursor: Option<string>

    constructor (receiver: Receiver)
      ensures this.receiver == receiver && Current() == Db(map[], [], None)
    {
      this.receiver := receiver;
      intents, payments, cursor := map[], [], None;
    }

    ghost function Current(): Db
      reads this
    {
      Db(intents, payments, cursor)
    }

    method FindKnown(operationId: string) returns (known: bool)
      ensures known <==> Known(payments, operationId)
    {
      for i := 0 to |payments|
        invariant forall k :: 0 <= k < i ==> payments[k].payment.operationId != operationId
      {
        if payments[i].payment.operationId == operationId {
          return true;
        }
      }
      return false;
    }

    method FindAccepted(id: Id) returns (found: bool)
      ensures found <==> HasAccepted(payments, id)
    {
      for i := 0 to |payments|
        invariant forall k :: 0 <= k < i ==> !AcceptedFor(payments[k], id)
      {
        if AcceptedFor(payments[i], id) {
          return true;
        }
      }
      return false;
    }

    /** The body of the loop for a payment not seen before. */
    method Store(p: Payment)
      modifies this
      ensures Current() == Classify(receiver, old(Current()), p)
    {
      ghost var before := Current();
      var id := if p.memo.Some? && p.memo.value in intents then p.memo else None;
      var reason: Option<Reason> := None;
      if id.None? || intents[id.value].terms.None? || intents[id.value].chain.None? || !intents[id.value].withdrawal {
        reason := Some(NotAWithdrawal);
      } else {
        var row := intents[id.value];
        var accepted := FindAccepted(id.value);
        if row.contract != receiver.contract || p.from != row.subject || p.to != receiver.account || p.asset != receiver.asset {
          reason := Some(WrongParties);
        } else if !ExactAmount(row, p) {
          reason := Some(WrongAmount);
        } else if !InWindow(row, p) || row.chain.value.terminal {
          reason := Some(OutsideWindow);
        } else if accepted || row.chain.value.funded {
          reason := Some(AlreadyFunded);
        }
      }
      assert reason == Objection(receiver, before, p) && id == RowOf(before, p);
      payments := payments + [Entry(p, id, reason)];
      if id.Some? && reason.Some? {
        var row := intents[id.value];
        var accepted := FindAccepted(id.value);
        var canonical := accepted || (row.chain.Some? && (row.chain.value.funded || row.chain.value.terminal));
        if !canonical && p.from == row.subject && p.to == receiver.account && p.asset == receiver.asset {
          intents := intents[id.value := row.(recovery := reason)];
        }
      }
    }

    /** `ingest` on one fetched page, as one database transaction. */
    method Ingest(page: seq<Payment>, next: Option<string>) returns (ok: bool)
      modifies this
      ensures ok <==> IngestPage(receiver, old(Current()), page, next).Some?
      ensures Current() == if ok then IngestPage(receiver, old(Current()), page, next).value else old(Current())
    {
      hide Classify, Known, WellIdentified, Numeral;
      ghost var before := Current();
      var savedIntents, savedPayments, savedCursor := intents, payments, cursor;
      for i := 0 to |page|
        invariant IngestPayments(receiver, before, page) == IngestPayments(receiver, Current(), page[i..])
      {
        if !WellIdentified(page[i]) {
          intents, payments, cursor := savedIntents, savedPayments, savedCursor;
          return false;
        }
        assert page[i..][0] == page[i] && page[i..][1..] == page[i + 1..];
        var known := FindKnown(page[i].operationId);
        if !known {
          Store(page[i]);
        }
      }
      if next.Some? {
        if !Numeral(next.value) {
          intents, payments, cursor := savedIntents, savedPayments, savedCursor;
          return false;
        }
        cursor := next;
      }
      return true;
    }
  }

  // -------------------------------------------------------------- what ingestion keeps

  /** What the rest of the engine may do to a row: accepted terms and the order's birth are fixed. */
  predicate Evolves(a: Intent, b: Intent) {
    && a.subject == b.subject && a.withdrawal == b.withdrawal && a.contract == b.contract
    && (a.terms.Some? ==> b.terms == a.terms)
    && (a.chain.Some? ==> b.chain.Some? && b.chain.value.createdAt == a.chain.value.createdAt)
  }

  /** What acceptance certifies about a payment and its withdrawal. */
  predicate Meets(r: Receiver, row: Intent, p: Payment) {
    && row.withdrawal && row.terms.Some? && row.chain.Some? && row.contract == r.contract
    && p.from == row.subject && p.to == r.account && p.asset == r.asset
    && ExactAmount(row, p) && InWindow(row, p)
  }

  ghost predicate EntriesOk(r: Receiver, db: Db) {
    && (forall i, j :: 0 <= i < j < |db.payments| ==>
          db.payments[i].payment.operationId != db.payments[j].payment.operationId)
    && (forall i :: 0 <= i < |db.payments| && db.payments[i].reason.None? ==>
          && db.payments[i].intent.Some? && db.payments[i].intent.value in db.intents
          && Meets(r, db.intents[db.payments[i].intent.value], db.payments[i].payment))
    && (forall i, j :: 0 <= i < j < |db.payments| && db.payments[i].reason.None? && db.payments[j].reason.None? ==>
          db.payments[i].intent != db.payments[j].intent)
  }

  /** Later database states keep every classification and only evolve rows. */
  ghost predicate Extends(a: Db, b: Db) {
    && a.payments <= b.payments
    && (forall id :: id in a.intents ==> id in b.intents && Evolves(a.intents[id], b.intents[id]))
  }

  /**
   A payment is accepted if and only if its memo names a withdrawal of this deployment with accepted terms
   and a confirmed order, which is open and has no payment yet, and it went from the customer to the
   receiver, in the asset and exactly the amount agreed, not before the order and before its deadline.
   */
  lemma AcceptedExactly(r: Receiver, db: Db, p: Payment)
    ensures RowOf(db, p).Some? ==> RowOf(db, p).value in db.intents
    ensures Objection(r, db, p).None? <==>
            && RowOf(db, p).Some?
            && var id := RowOf(db, p).value;
            && p.memo == Some(id) && Meets(r, db.intents[id], p)
            && !db.intents[id].chain.value.terminal && !db.intents[id].chain.value.funded
            && !HasAccepted(db.payments, id)
  {
    hide HasAccepted, Digits, Value;
  }

  /** What it means that a payment meets a withdrawal. */
  lemma MeetsExactly(r: Receiver, row: Intent, p: Payment)
    ensures Meets(r, row, p)
            <==> && row.withdrawal && row.terms.Some? && row.chain.Some? && row.contract == r.contract
                 && p.from == row.subject && p.to == r.account && p.asset == r.asset
                 && Numeral(p.amount) && Value(p.amount) == row.terms.value.amount
                 && p.createdAt.Some?
                 && row.chain.value.createdAt * 1000 <= p.createdAt.value < row.terms.value.deadline * 1000
  {
    hide Digits, Value;
  }

  /**
   A refused payment from the customer to the receiver, in the asset, sends its withdrawal to recovery
   with the reason of the refusal if and only if the withdrawal has no payment yet and is not closed.
   Nothing else about any row changes.
   */
  lemma RecoveryExactly(r: Receiver, db: Db, p: Payment, id: Id)
    requires id in db.intents
    ensures id in Classify(r, db, p).intents
    ensures var row := db.intents[id];
            var refused := p.memo == Some(id) && Objection(r, db, p).Some?
                           && p.from == row.subject && p.to == r.account && p.asset == r.asset;
            var waiting := !HasAccepted(db.payments, id)
                           && (row.chain.Some? ==> !row.chain.value.funded && !row.chain.value.terminal);
            Classify(r, db, p).intents[id] == if refused && waiting then row.(recovery := Objection(r, db, p)) else row
  {
    hide Objection, HasAccepted;
    if Objection(r, db, p).Some? {
      RefusedIsNotAccepted(db.payments, Entry(p, RowOf(db, p), Objection(r, db, p)), id);
    }
  }

  lemma RefusedIsNotAccepted(payments: seq<Entry>, e: Entry, id: Id)
    requires e.reason.Some?
    ensures HasAccepted(payments + [e], id) <==> HasAccepted(payments, id)
  {
    var more := payments + [e];
    if HasAccepted(payments, id) {
      var i :| 0 <= i < |payments| && AcceptedFor(payments[i], id);
      assert more[i] == payments[i];
    }
  }

  /** A reason names the first thing that was wrong: what comes before it in the list was right. */
  lemma ReasonMeans(r: Receiver, db: Db, p: Payment)
    requires Objection(r, db, p).Some? && Objection(r, db, p) != Some(NotAWithdrawal)
    ensures p.memo.Some? && p.memo.value in db.intents && var row := db.intents[p.memo.value];
            && row.withdrawal && row.terms.Some? && row.chain.Some?
            && match Objection(r, db, p).value
               case WrongParties =>
                 row.contract != r.contract || p.from != row.subject || p.to != r.account || p.asset != r.asset
               case WrongAmount =>
                 && row.contract == r.contract && p.from == row.subject && p.to == r.account && p.asset == r.asset
                 && (Numeral(p.amount) ==> Value(p.amount) != row.terms.value.amount)
               case OutsideWindow =>
                 && row.contract == r.contract && p.from == row.subject && p.to == r.account && p.asset == r.asset
                 && Numeral(p.amount) && Value(p.amount) == row.terms.value.amount
                 && (p.createdAt.None? || p.createdAt.value < row.chain.value.createdAt * 1000
                     || p.createdAt.value >= row.terms.value.deadline * 1000 || row.chain.value.terminal)
               case AlreadyFunded => Meets(r, row, p) && (HasAccepted(db.payments, p.memo.value) || row.chain.value.funded)
               case NotAWithdrawal => false
  {
    hide HasAccepted, Digits, Value;
  }

  lemma MeetsLater(r: Receiver, a: Intent, b: Intent, p: Payment)
    requires Meets(r, a, p) && Evolves(a, b)
    ensures Meets(r, b, p)
  {
    hide Digits, Value;
  }

  /** Classifying appends one entry and touches at most the recovery mark of one row. */
  lemma ClassifyFrame(r: Receiver, db: Db, p: Payment)
    ensures Classify(r, db, p).payments == db.payments + [Entry(p, RowOf(db, p), Objection(r, db, p))]
    ensures Extends(db, Classify(r, db, p))
  {
    hide Objection, HasAccepted;
  }

  lemma ClassifyKeeps(r: Receiver, db: Db, p: Payment)
    requires EntriesOk(r, db) && !Known(db.payments, p.operationId)
    ensures EntriesOk(r, Classify(r, db, p))
  {
    ClassifyFrame(r, db, p);
    if Objection(r, db, p).None? {
      AcceptedExactly(r, db, p);
    }
    var t, n := Classify(r, db, p), |db.payments|;
    hide Classify, Objection, Meets, Evolves, RowOf;
    forall i | 0 <= i < |t.payments| && t.payments[i].reason.None?
      ensures t.payments[i].intent.Some? && t.payments[i].intent.value in t.intents
      ensures Meets(r, t.intents[t.payments[i].intent.value], t.payments[i].payment)
    {
      var id := t.payments[i].intent.value;
      MeetsLater(r, db.intents[id], t.intents[id], t.payments[i].payment);
    }
    forall i | 0 <= i < n && t.payments[i].reason.None? && t.payments[n].reason.None?
      ensures t.payments[i].intent != t.payments[n].intent
    {
      assert AcceptedFor(db.payments[i], db.payments[i].intent.value);
    }
  }

  lemma {:induction false} PaymentsKeep(r: Receiver, db: Db, page: seq<Payment>)
    requires EntriesOk(r, db)
    ensures var done := IngestPayments(r, db, page); done.Some? ==> EntriesOk(r, done.value) && Extends(db, done.value)
    decreases |page|
  {
    hide Classify, Known, WellIdentified, EntriesOk, Evolves;
    if page == [] || !WellIdentified(page[0]) {
      ExtendsReflexive(db);
    } else {
      var next := IngestOne(r, db, page[0]);
      if Known(db.payments, page[0].operationId) {
        ExtendsReflexive(db);
      } else {
        ClassifyFrame(r, db, page[0]);
        ClassifyKeeps(r, db, page[0]);
      }
      PaymentsKeep(r, next, page[1..]);
      var done := IngestPayments(r, next, page[1..]);
      if done.Some? {
        ExtendsTransitive(db, next, done.value);
      }
    }
  }

  lemma ExtendsReflexive(a: Db)
    ensures Extends(a, a)
  {
  }

  lemma ExtendsTransitive(a: Db, b: Db, c: Db)
    requires Extends(a, b) && Extends(b, c)
    ensures Extends(a, c)
  {
    assert forall id :: id in a.intents ==> Evolves(b.intents[id], c.intents[id]);
  }

  lemma AcceptedLater(a: seq<Entry>, b: seq<Entry>, id: Id)
    requires a <= b && HasAccepted(a, id)
    ensures HasAccepted(b, id)
  {
    var i :| 0 <= i < |a| && AcceptedFor(a[i], id);
    assert b[i] == a[i];
  }

  lemma UpdateKeeps(r: Receiver, db: Db, id: Id, row: Intent)
    requires EntriesOk(r, db) && (id in db.intents ==> Evolves(db.intents[id], row))
    ensures EntriesOk(r, db.(intents := db.intents[id := row]))
    ensures Extends(db, db.(intents := db.intents[id := row]))
  {
    hide Meets;
    var t := db.(intents := db.intents[id := row]);
    forall i | 0 <= i < |db.payments| && db.payments[i].reason.None?
      ensures Meets(r, t.intents[db.payments[i].intent.value], db.payments[i].payment)
    {
      var k := db.payments[i].intent.value;
      if k == id { MeetsLater(r, db.intents[k], row, db.payments[i].payment); }
    }
  }

  lemma PageIsPayments(r: Receiver, db: Db, page: seq<Payment>, cursor: Option<string>)
    requires IngestPage(r, db, page, cursor).Some?
    ensures IngestPayments(r, db, page).Some?
    ensures var done := IngestPayments(r, db, page).value;
            IngestPage(r, db, page, cursor).value == if cursor.Some? then done.(cursor := cursor) else done
  {
    hide IngestPayments, Numeral;
  }

  lemma CursorIsAside(r: Receiver, before: Db, db: Db, cursor: Option<string>)
    requires EntriesOk(r, db) && Extends(before, db)
    ensures EntriesOk(r, db.(cursor := cursor)) && Extends(before, db.(cursor := cursor))
  {
    hide Meets, Evolves;
  }

  // ------------------------------------------------------------------ totals and pages

  function AcceptedTotal(payments: seq<Entry>): nat
    decreases |payments|
  {
    if payments == [] then 0
    else
      var e := payments[|payments| - 1];
      AcceptedTotal(payments[..|payments| - 1])
      + (if e.reason.None? && Numeral(e.payment.amount) then Value(e.payment.amount) else 0)
  }

  /** A page is refused exactly for a payment whose identity is not digits, digits and 64 lower-case hex digits. */
  lemma {:induction false} RefusedExactly(r: Receiver, db: Db, page: seq<Payment>)
    ensures IngestPayments(r, db, page).None?
            <==> exists i :: 0 <= i < |page|
                   && !(&& page[i].operationId != "" && Digits(page[i].operationId)
                        && page[i].pagingToken != "" && Digits(page[i].pagingToken)
                        && |page[i].transactionHash| == 64
                        && forall k :: 0 <= k < 64 ==> '0' <= page[i].transactionHash[k] <= '9'
                                                       || 'a' <= page[i].transactionHash[k] <= 'f')
    decreases |page|
  {
    hide IngestOne, Digits;
    if page != [] && WellIdentified(page[0]) {
      RefusedExactly(r, IngestOne(r, db, page[0]), page[1..]);
      assert forall i :: 0 < i < |page| ==> page[i] == page[1..][i - 1];
    }
  }

  /** Two consecutive pages classify as one page holding both. */
  lemma {:induction false} PagesCompose(r: Receiver, db: Db, a: seq<Payment>, b: seq<Payment>)
    ensures IngestPayments(r, db, a + b)
            == match IngestPayments(r, db, a) case None => None case Some(d) => IngestPayments(r, d, b)
    decreases |a|
  {
    hide IngestOne, WellIdentified;
    if a == [] {
      assert a + b == b;
    } else {
      assert (a + b)[0] == a[0] && (a + b)[1..] == a[1..] + b;
      if WellIdentified(a[0]) {
        PagesCompose(r, IngestOne(r, db, a[0]), a[1..], b);
      }
    }
  }

  /** Payments already in the table, in any page and any order, change nothing. */
  lemma {:induction false} KnownPaymentsChangeNothing(r: Receiver, db: Db, page: seq<Payment>)
    requires forall i :: 0 <= i < |page| ==> WellIdentified(page[i]) && Known(db.payments, page[i].operationId)
    ensures IngestPayments(r, db, page) == Some(db)
    decreases |page|
  {
    hide WellIdentified, Known, Classify;
    if page != [] {
      KnownPaymentsChangeNothing(r, db, page[1..]);
    }
  }

  lemma {:induction false} PageBecomesKnown(r: Receiver, db: Db, page: seq<Payment>)
    requires EntriesOk(r, db) && IngestPayments(r, db, page).Some?
    ensures var d := IngestPayments(r, db, page).value;
            && EntriesOk(r, d) && db.payments <= d.payments
            && forall i :: 0 <= i < |page| ==> WellIdentified(page[i]) && Known(d.payments, page[i].operationId)
    decreases |page|
  {
    hide WellIdentified, Classify, EntriesOk, Evolves;
    if page != [] {
      var next := IngestOne(r, db, page[0]);
      if !Known(db.payments, page[0].operationId) {
        ClassifyFrame(r, db, page[0]);
        ClassifyKeeps(r, db, page[0]);
        assert next.payments[|db.payments|].payment.operationId == page[0].operationId;
      }
      PageBecomesKnown(r, next, page[1..]);
      KnownLater(next.payments, IngestPayments(r, db, page).value.payments, page[0].operationId);
      assert forall i :: 1 <= i < |page| ==> page[i] == page[1..][i - 1];
    }
  }

  lemma KnownLater(a: seq<Entry>, b: seq<Entry>, operationId: string)
    requires a <= b && Known(a, operationId)
    ensures Known(b, operationId)
  {
    var i :| 0 <= i < |a| && a[i].payment.operationId == operationId;
    assert b[i] == a[i];
  }

  /** A withdrawal that has its payment is never sent to recovery by later payments. */
  lemma {:induction false} FundedRowIsUntouched(r: Receiver, db: Db, page: seq<Payment>, id: Id)
    requires id in db.intents && HasAccepted(db.payments, id)
    ensures var done := IngestPayments(r, db, page);
            done.Some? ==> id in done.value.intents && done.value.intents[id] == db.intents[id]
    decreases |page|
  {
    hide WellIdentified, Known, Objection;
    if page != [] && WellIdentified(page[0]) {
      var next := IngestOne(r, db, page[0]);
      if next != db {
        AcceptedLater(db.payments, db.payments + [Entry(page[0], RowOf(db, page[0]), Objection(r, db, page[0]))], id);
      }
      FundedRowIsUntouched(r, next, page[1..], id);
    }
  }
}
