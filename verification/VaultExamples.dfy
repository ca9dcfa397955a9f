/** Concrete runs of the vault, showing that the states the theorems single out do occur. */
module VaultExamples {
  import opened Wrappers
  import opened Policy
  import opened Vault
  import opened VaultSafety
  import opened VaultRelease

  function DemoConfig(): Config {
    Config(0, 1, 2, PolicyConfig(1, 1, 1, 1, 1, (w: Word) => w, None, None, None, 100, 1000), 500, 500, 500,
           (a: Address) => a != 0, (a: Address) => a + 100, (s: Hash) => s)
  }

  function DemoTerms(): Terms {
    Terms(105, 5, 5, Deposit, 1, 0, 40, 30, 100, 1)
  }

  function DemoWithdrawal(): Terms {
    DemoTerms().(direction := Withdrawal, bankDestinationHash := 8)
  }

  function DemoStart(): State {
    State(10, map[], map[], map[], map[], 0, map[1 := 50], [])
  }

  function DemoReceipt(): Receipt {
    Receipt(9, 1, 40, 10, 0)
  }

  const DEMO_HOST: Host := Host(true, true, true, true, true)

  lemma RunCons(c: Config, s: State, e: Event, rest: seq<Event>)
    ensures Run(c, s, [e] + rest) == Run(c, Step(c, s, e), rest)
  {
    hide Step;
    assert ([e] + rest)[0] == e && ([e] + rest)[1..] == rest;
  }

  lemma RunNone(c: Config, s: State)
    ensures Run(c, s, []) == s
  {
  }

  /** A fresh proof of the customer's, and what it stores. */
  function DemoSubmit(): Event
    requires 0 <= FreshProofTime(DemoConfig(), 10)
  {
    Invoke(DEMO_HOST, Submit(105, true, FreshInputs(DemoConfig(), 10, 105)))
  }

  function DemoGranted(): State {
    DemoStart().(grants := map[105 := Grant(10, 110)])
  }

  lemma DemoGrant()
    ensures 0 <= FreshProofTime(DemoConfig(), 10)
    ensures Step(DemoConfig(), DemoStart(), DemoSubmit()) == DemoGranted()
  {
    hide Expected, FreshInputs, Matches;
    var c := DemoConfig();
    FreshInputsPass(c, 10, 105);
  }

  lemma DemoCreate(terms: Terms)
    requires terms == DemoTerms() || terms == DemoWithdrawal()
    ensures var t := CreateCall(DemoConfig(), DEMO_HOST, DemoGranted(), 7, terms).state;
            && t.now == 10 && t.grants == DemoGranted().grants && t.receipts == map[] && t.fundings == map[]
            && t.orders == map[7 := NewOrder(10, terms)]
            && (terms.direction.Withdrawal? ==> t.balances == map[1 := 50] && t.reserved == 0)
  {
  }

  lemma DemoRecord(s: State)
    requires s.now == 10 && s.receipts == map[] && 105 in s.grants
    requires 7 in s.orders && s.orders[7] == NewOrder(10, DemoTerms())
    ensures var t := RecordCall(DemoConfig(), DEMO_HOST, s, 7, DemoReceipt()).state;
            t.now == 10 && 7 in t.orders && t.orders[7] == NewOrder(10, DemoTerms()).(receipt := Some(DemoReceipt()))
  {
  }

  /** A proof and an order: the state with the new order, and the two events that lead to it. */
  lemma DemoOpen(terms: Terms) returns (submit: Event, create: Event, s: State)
    requires terms == DemoTerms() || terms == DemoWithdrawal()
    ensures Deployed(DemoConfig()) && Initial(DemoStart())
    ensures submit.Invoke? && submit.call.Submit? && create == Invoke(DEMO_HOST, Create(7, terms))
    ensures s == Step(DemoConfig(), Step(DemoConfig(), DemoStart(), submit), create)
    ensures s.now == 10 && s.receipts == map[] && s.fundings == map[] && s.grants == map[105 := Grant(10, 110)]
    ensures s.orders == map[7 := NewOrder(10, terms)]
    ensures terms.direction.Withdrawal? ==> s.balances == map[1 := 50] && s.reserved == 0
  {
    hide CreateCall, SubmitCall, FreshInputs, NewOrder;
    DemoGrant();
    DemoCreate(terms);
    submit := DemoSubmit();
    create := Invoke(DEMO_HOST, Create(7, terms));
    s := Step(DemoConfig(), DemoGranted(), create);
  }

  /** A reachable deposit with a receipt whose deadline has passed: its escrow is stuck for ever. */
  lemma StuckDepositExists() returns (s: State)
    ensures Deployed(DemoConfig()) && Reachable(DemoConfig(), s) && Stuck(s, 7)
    ensures s.orders[7].terms.amount == 30 && s.orders[7].escrowed
  {
    var c := DemoConfig();
    var submit, create, open := DemoOpen(DemoTerms());
    hide Step, Run, Initial, Deployed;
    var record, wait := Invoke(DEMO_HOST, Record(7, DemoReceipt())), Wait(100);
    var received := Step(c, open, record);
    RecordStep(c, open);
    WaitStep(c, received);
    s := Step(c, received, wait);
    var e3 := [wait] + [];
    var e2 := [record] + e3;
    var e1 := [create] + e2;
    RunNone(c, s);
    RunCons(c, received, wait, []);
    RunCons(c, open, record, e3);
    RunCons(c, Step(c, DemoStart(), submit), create, e2);
    RunCons(c, DemoStart(), submit, e1);
    assert Initial(DemoStart()) && s == Run(c, DemoStart(), [submit] + e1);
  }

  lemma RecordStep(c: Config, s: State)
    requires c == DemoConfig() && s.now == 10 && s.receipts == map[] && 105 in s.grants
    requires 7 in s.orders && s.orders[7] == NewOrder(10, DemoTerms())
    ensures var t := Step(c, s, Invoke(DEMO_HOST, Record(7, DemoReceipt())));
            t.now == 10 && 7 in t.orders && t.orders[7] == NewOrder(10, DemoTerms()).(receipt := Some(DemoReceipt()))
  {
    hide RecordCall;
    DemoRecord(s);
  }

  lemma WaitStep(c: Config, s: State)
    requires s.now == 10 && 7 in s.orders
    requires s.orders[7] == NewOrder(10, DemoTerms()).(receipt := Some(DemoReceipt()))
    ensures Step(c, s, Wait(100)) == s.(now := 100) && Stuck(Step(c, s, Wait(100)), 7)
  {
    hide Apply;
  }
}
