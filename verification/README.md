# A verified model of the ZKPassport anchor

The repository is a Stellar anchor: customers exchange Turkish lira at a bank for USDC on chain. This
project models its hard parts in Dafny and proves what they are for.

**The settlement vault** (`Vault`, `VaultSafety`, `VaultTheorems`, `VaultRelease`, `VaultEligibility`,
`VaultTerms`, `VaultSigned`, `VaultCalls`, `VaultContract`, `VaultExamples`, `Policy`). The contract is a
class whose methods follow the Rust calls statement by statement, including the token contract it calls and
the host's rollback of a failed invocation. Each method is proved equal to a function on abstract states,
and the theorems are about runs of that function under an arbitrary environment: any calls with any
signatures and verifier verdicts, time passing, and any token movement that does not take from the vault.
They cover conservation, one full release per order to the right destination, races and timelines,
permanence, replays, and exactly which escrows can get stuck; `VaultEligibility` adds that no value moves
without a proved and current grant, and that every grant on record was proved by some submission of the
run, whose proof carried all that the policy asks of this very subject. `VaultTerms` says what every stored
order agreed to, `VaultSigned` that every mark goes back to a signed call, and `VaultCalls` exactly when
each call succeeds in a reachable state and what each refusal means. `VaultExamples` reaches a stuck escrow
by a concrete run. `Policy` holds the matching of a proof's public inputs and the grant that is kept.

**The off-chain engine** (`Engine`, `EngineProgress`, `EngineLog`, `Bridge`, `Deposits`, `Payouts`,
`Ingest`, `Sweep`). `Engine` is the action log as a machine whose steps are single observable effects, with
a crash possible between any two, an RPC node that may lag and keeps its history for a fixed window of
time, lost answers, and a network that may apply a submitted envelope at any moment inside its time bounds.
`EngineProgress` proves exactly when an action in flight can still be settled. `EngineLog` is the engine's
own code with its loops, proved to be a run of that machine; what it writes down and answers is stated over
the outside world alone, which is given as its turn at every request. `Bridge` puts one order's vault
state, with all its past states, beside the action log and the engine's row; a call of the engine reaches
the vault only as a logged envelope that the network applies. `Bridge` and `Deposits` prove when a bank
credit and an undo exclude each other, and `Payouts` exactly when a credited withdrawal can still be
recorded and settled. `Ingest` is payment ingestion as a class; `Sweep` puts the vault beside its database
and bounds what is swept into escrow by what was paid.

**The proof verifier's algebra** (`Field`, `Polynomial`, `Sumcheck`, `GateSeparator`, `Relations`,
`Wiring`, `Lookup`, `ZeroCheck`, `Shplemini`, `Gemini`, `HonestOpening`, `HonestVerifier`, `Shplonk`,
`OpeningSound`, `Verifier`, `Transcript`, `Bytes`). `Verifier` puts the parts together: what the verifier
accepts are committed columns that satisfy the circuit on every row, unless a challenge was a root of a
nonzero polynomial that was fixed before it, and few challenges are; and honest messages are accepted.
`ZeroCheck` joins the sumcheck, the gate separator and the batching: what the summed relation says of the
rows, over any subrelations, with the one lookup subrelation that carries no separator treated as such.
`Shplonk` and `OpeningSound` prove the batch opening sound, against a prover that commits to whatever
polynomials it likes. `Wiring` and `Lookup` say what the grand product and the log-derivative sum are for:
copied cells agree, and entries looked up are in the table. Everything is over an arbitrary prime (above 7
where the source interpolates over 0 to 7) and any number of rounds. A field element is an integer
representative and equality is congruence. Group elements are their discrete logarithms, so a commitment to
a polynomial is its value at the setup's secret point, and the pairing test is a linear equation in that
point.

**Quoting and check digits** (`Decimal`, `Money`, `Quotes`, `Iban`).

`Wrappers` holds the option type.

Three findings follow the code where a reader might expect more:

- For deposits, the engine may store a bank event while a cancel envelope is still in flight, although
  `advance` reconciles the order's actions first: it ignores that one stays undecided. From any open
  deposit that can end with the customer credited at the bank and the order cancelled
  (`Deposits.CreditedDepositCanBeCancelled`). `Deposits.CreditedDepositExactly` says when: at any moment at
  which the event may be stored, storing it can end that way if and only if the action log holds a prepared
  or pending cancel of the order whose envelope succeeded or can still be applied. A test of the log alone
  would exclude it (`Deposits.NoPendingCancelIsSafe`). Withdrawals are always safe.
- A submission that is lost, followed by an outage longer than the RPC history, leaves its action in flight
  for ever, and then no action of any order is prepared again (`EngineProgress.LostActionBlocksEverything`;
  `EngineProgress.LostSubmissionBlocks` reaches it for every window). `EngineProgress.SettleableExactly`
  says when an action in flight can still be settled. A withdrawal that was credited at the bank and has no
  receipt yet can then never be settled; it can in every other case
  (`Payouts.CreditedWithdrawalSettlesExactly`).
- A deposit with a recorded receipt whose deadline has passed can never be released or changed again
  (`VaultRelease.StuckForever`); it is the only such case (`VaultRelease.FrozenExactly`), and it does occur
  (`VaultExamples.StuckDepositExists`).

The batching weights are the successive powers of one challenge, as the loop at
`contracts/zkpassport-verifier/src/transcript.rs:98-105` computes them; the comment above
`scale_and_batch_subrelations` writes the last exponent differently.

Assumptions made of the environment: hashes and commitments are opaque values, the token has no clawback,
an RPC node never reports what did not happen, answers a lookup only for the ledgers it holds and holds
none older than its window, a confirmed order read is the order at some earlier moment, the reported ledger
time is not ahead of the ledger, and the operators' keys sign through the engine only: both for the funding
of withdrawals (`Sweep`), and the notary for any call on the order (`Bridge`, `Deposits`, `Payouts`). Where
`Payouts` records an event, its random id is no other order's and the operators can sign new envelopes.

## Model

| member | source | states |
|---|---|---|
| VaultContract.Token.Transfer | contracts/sep-anchor/src/lib.rs:514-520 | a token transfer succeeds exactly when the host lets it and the balance covers it; it debits then credits, and a refused one changes nothing |
| VaultContract.SepAnchor.Release | contracts/sep-anchor/src/lib.rs:496-522 | releasing stores the closed order, lowers the reserve and pays its full amount, or fails with the specified error |
| VaultContract.SepAnchor.ReserveFrom | contracts/sep-anchor/src/lib.rs:584-595 | reserving pulls the amount from the provider and counts it, with the overflow, transfer and coverage errors in order |
| VaultContract.SepAnchor.Cancel | contracts/sep-anchor/src/lib.rs:115-134 | new state and answer are those of the specified cancel call |
| VaultContract.SepAnchor.Refund | contracts/sep-anchor/src/lib.rs:135-155 | new state and answer are those of the specified refund call |
| VaultContract.SepAnchor.AuthorizePayout | contracts/sep-anchor/src/lib.rs:156-185 | new state and answer are those of the specified authorization; only orders change |
| VaultContract.SepAnchor.FundWithdrawal | contracts/sep-anchor/src/lib.rs:186-226 | new state and answer are those of the specified funding call |
| VaultContract.SepAnchor.RecordReceipt | contracts/sep-anchor/src/lib.rs:227-280 | new state and answer are those of the specified receipt call; only orders and the receipt index change |
| VaultContract.SepAnchor.Settle | contracts/sep-anchor/src/lib.rs:281-327 | new state and answer are those of the specified settlement |
| VaultContract.SepAnchor.CreateOrder | contracts/sep-anchor/src/lib.rs:328-381 | new state and answer are those of the specified creation |
| VaultContract.SepAnchor.ActiveEligibility | contracts/sep-anchor/src/lib.rs:523-547 | the grant is answered only under a current policy, the pinned verifier and before the grant's expiry |
| VaultContract.SepAnchor.SubmitEligibility | contracts/sep-anchor/src/lib.rs:403-442 | new grants and answer are those of the specified submission, using the search-and-remove matcher |
| VaultContract.SepAnchor.Invoke | contracts/sep-anchor/src/lib.rs:92-458 | one invocation, with rollback of a failed one, is exactly one specified call, and keeps the vault invariant |
| VaultSafety.CallEffect | contracts/sep-anchor/src/lib.rs:115-381 | every order call changes nothing or has one exact effect on orders, reserve, vault balance, transfers and indexes |
| VaultSafety.SubmitEffect | contracts/sep-anchor/src/lib.rs:403-442 | a submission changes at most its subject's grant, to the newer of stored and proved |
| VaultSafety.EvolvesKeepsShape | contracts/sep-anchor/src/lib.rs:115-381 | each permitted change keeps an order's terms, single outcome and timeline well formed |
| VaultSafety.CallKeepsInv | contracts/sep-anchor/src/lib.rs:92-458 | every call, succeeding or failing, keeps the whole invariant |
| VaultSafety.ReachableInv | contracts/sep-anchor/src/lib.rs:92-458 | the invariant holds in every reachable state |
| VaultTheorems.Conservation | contracts/sep-anchor/src/lib.rs:496-522 | in every reachable state the reserve is the sum of open escrows and the net of all transfers, is not negative, and the vault's balance covers it |
| VaultTheorems.ReleasedOnceInFull | contracts/sep-anchor/src/lib.rs:115-155 | an order's complete transfer history is one pull and, exactly when closed, one full release to the destination its direction and outcome dictate |
| VaultTheorems.RaceAndTimeline | contracts/sep-anchor/src/lib.rs:115-327 | at most one of settled, refunded, cancelled; none of the latter two beside a payout or receipt; the exact order of times of settled withdrawals and deposits |
| VaultTheorems.IndexesAreInjective | contracts/sep-anchor/src/lib.rs:186-280 | two orders never share a bank event id or a funding operation id |
| VaultTheorems.RunExtends | contracts/sep-anchor/src/lib.rs:92-458 | over every run terms, marks and index entries are permanent, closed orders final, transfers only appended, and no grant ends earlier |
| VaultTheorems.NeverUndoneLater | contracts/sep-anchor/src/lib.rs:115-155 | after a payout authorization or receipt no continuation refunds or cancels the order |
| VaultTheorems.ReplayChangesNothing | contracts/sep-anchor/src/lib.rs:115-381 | any order call that once succeeded changes nothing when repeated after any run under any host, and if signed answers the current order |
| VaultTheorems.ReplayedProofChangesNothing | contracts/sep-anchor/src/lib.rs:403-442 | an accepted proof submitted again at any later time changes nothing |
| VaultRelease.EscrowCanBeReleased | contracts/sep-anchor/src/lib.rs:115-327 | from every reachable state every escrow but a receipted deposit is paid out in full by at most two operator calls |
| VaultRelease.ReceiptedDepositCanSettle | contracts/sep-anchor/src/lib.rs:281-327 | before its deadline a receipted deposit is paid to its recipient by a fresh proof and a settle call |
| VaultRelease.StuckForever | contracts/sep-anchor/src/lib.rs:281-327 | a receipted deposit at or past its deadline is never changed or released by any continuation |
| VaultRelease.FrozenExactly | contracts/sep-anchor/src/lib.rs:115-327 | an escrow can still be released if and only if it is not a receipted deposit past its deadline |
| VaultExamples.StuckDepositExists | contracts/sep-anchor/src/lib.rs:281-327 | a concrete run (proof, creation, receipt, wait) reaches a deposit stuck with its whole escrow |
| VaultTerms.StoredTerms | contracts/sep-anchor/src/lib.rs:328-381 | in every reachable state each stored order's subject is that of its recipient, who is also the refund address and an account; its amounts, deadline and lifetime are within the limits, its hashes set, and a bank destination is present exactly for withdrawals |
| VaultTerms.CreateExactly | contracts/sep-anchor/src/lib.rs:328-381 | a call creates an order if and only if it is signed, the policy is current, the verifier pinned, the id new and not zero, every term is within its guard and, for a deposit, the provider can pay; with all guards written out |
| VaultTerms.SettledDepositPaysProved | contracts/sep-anchor/src/lib.rs:281-327 | a settled deposit was paid in full to an address whose own subject had a grant on record ending after the settlement, and nowhere else |
| VaultTerms.ReserveFits | contracts/sep-anchor/src/lib.rs:584-595 | the reserve never leaves the range of its 128-bit counter |
| VaultSigned.EveryMarkWasSigned | contracts/sep-anchor/src/lib.rs:115-381 | every order, funding, payout, receipt, settlement, refund and cancel of a reachable state goes back to a call of the run with the same arguments, signed by the roles that the call demands |
| VaultCalls.CancelExactly | contracts/sep-anchor/src/lib.rs:115-134 | in a reachable state a cancel succeeds if and only if both operators sign, the order is an escrowed deposit without a receipt and the transfer succeeds, or it was cancelled before |
| VaultCalls.RefundExactly | contracts/sep-anchor/src/lib.rs:135-155 | a refund succeeds if and only if both operators sign, the order is an escrowed withdrawal without a payout and the transfer succeeds, or it was refunded before |
| VaultCalls.AuthorizeExactly | contracts/sep-anchor/src/lib.rs:156-185 | a payout is authorized if and only if the notary signs for an escrowed withdrawal before its deadline, under a current policy, the pinned verifier and a current grant, or it was before |
| VaultCalls.FundExactly | contracts/sep-anchor/src/lib.rs:186-226 | a withdrawal is funded if and only if both sign, it is unfunded, the operation id is new and not zero and the provider can pay, or the same funding is repeated |
| VaultCalls.RecordExactly | contracts/sep-anchor/src/lib.rs:227-280 | a receipt is recorded if and only if the notary signs, the order is escrowed, the event id new, and hashes, amount, destination, time and grant fit, or the same receipt is repeated |
| VaultCalls.SettleExactly | contracts/sep-anchor/src/lib.rs:281-327 | a settlement by anyone succeeds if and only if the order has a receipt, is escrowed and the transfer succeeds, and, for a deposit, policy, verifier, grant and deadline are current, or it was settled before |
| VaultCalls.SubmitExactly | contracts/sep-anchor/src/lib.rs:403-442 | a proof is granted if and only if it is valid and fresh under a current policy and the pinned verifier and carries what the policy asks of this subject; it replaces only an older grant |
| VaultCalls.RefusalsExplained | contracts/sep-anchor/src/lib.rs:92-458 | in every reachable state each error of an order call has its own cause, and no call is ever refused for an insufficient reserve |
| VaultEligibility.NoValueWithoutGrant | contracts/sep-anchor/src/lib.rs:156-327 | in every reachable state each authorized payout and settled deposit precedes the end of its subject's recorded grant, and each receipted deposit has one |
| VaultEligibility.EveryGrantWasProved | contracts/sep-anchor/src/lib.rs:403-442 | every grant on record is exactly what some earlier submission of the run proved for that subject |
| VaultEligibility.EveryGrantCarriesItsProof | contracts/sep-anchor/src/lib.rs:403-442 | behind every grant on record is a submission of the run whose proof carried both roots, domain, scope and nullifier fields and exactly the policy's commitments, bound to this subject, and was fresh |
| VaultEligibility.NoProofGrantsTwo | contracts/sep-anchor/src/lib.rs:403-442 | with injective commitments no proof stands behind the grants of two subjects |
| VaultEligibility.SameProofSameSubject | contracts/sep-anchor/src/lib.rs:403-442 | the vault never grants two subjects on the same public inputs, at whatever times |
| Policy.NarrowBytesIsNarrowU64 | contracts/anchor-policy/src/lib.rs:124-133 | the byte test accepts exactly the 32-byte values that fit 64 bits, unchanged |
| Policy.MatchCommitments | contracts/anchor-policy/src/lib.rs:165-171 | the search-and-remove loop accepts exactly the permutations of the expected list, duplicates counted |
| Policy.CheckEligibility | contracts/anchor-policy/src/lib.rs:134-191 | the loop-based check decides every branch and error as the specification, which states matching as multiset equality |
| Policy.AcceptedExactly | contracts/anchor-policy/src/lib.rs:134-191 | a proof is accepted if and only if it carries the two roots, domain, scope, nullifier fields and exactly the expected commitments as a multiset, and its time is past, late enough and within the maximum age |
| Policy.ProofHasOneChallenge | contracts/anchor-policy/src/lib.rs:159-171 | with an injective binding the same inputs are accepted for one challenge only |
| Policy.AcceptedProofIsFresh | contracts/anchor-policy/src/lib.rs:152-190 | an accepted proof is within the maximum age, and its grant outlives now exactly while the policy does |
| Policy.StoresGreatest | contracts/sep-anchor/src/lib.rs:430-441 | after any accepted proofs the stored grant is one of them with the greatest proof time |
| Policy.OrderIndependent | contracts/sep-anchor/src/lib.rs:430-441 | the stored grant does not depend on the order of submission |
| Policy.ExpiryMonotone | contracts/sep-anchor/src/lib.rs:430-441 | the stored expiry never decreases |
| Policy.ValidCountries | contracts/anchor-policy/src/lib.rs:214-227 | accepts exactly the lists of at most ten upper-case codes in strictly ascending order |
| Policy.AlphabeticalOrder | contracts/anchor-policy/src/lib.rs:214-227 | upper case means letters from A to Z, and the order of codes is that of the alphabet |
| Engine.VerdictTrue | src/anchor-gate-rpc.ts:409-428 | a success or failure verdict from an honest node is true and, for failure, final |
| Engine.MissProvesDeathExactly | src/anchor-gate-rpc.ts:421-427 | a miss may be read as failure, for every ledger consistent with it, if and only if the history window covers the envelope's time bounds |
| Engine.StepKeeps | src/sep-anchor.ts:249-317 | every effect, crash, ledger close or lost answer keeps the log, status and persistence invariants |
| Engine.AtMostOneSuccess | src/sep-anchor.ts:269-317 | over every run, of all envelopes of one action key only the newest can ever succeed on the ledger |
| Engine.OneInFlight | src/sep-anchor.ts:283-288 | at most one action is in flight globally |
| Engine.SubmittedWasPersisted | src/sep-anchor.ts:308-317 | an envelope the network first sees was in the log before |
| Engine.RecordedOutcomeIsFinal | src/sep-anchor-storage.ts:110-122 | a recorded outcome agrees with the ledger in every continuation and is never revised |
| EngineProgress.SettleableExactly | src/anchor-gate-rpc.ts:409-428 | from any idle state an action in flight can still be settled, in some run, if and only if its application is inside the history window, or its envelope can still be applied, or the window still covers its recorded lower time bound when its upper one has passed |
| EngineProgress.LostActionBlocksEverything | src/sep-anchor.ts:269-288 | an action in flight that can no longer be settled stays in flight in every continuation, and no action of any intent is ever logged again |
| EngineProgress.LostSubmissionBlocks | src/sep-anchor.ts:308-317 | for every history window a concrete run with a lost submission reaches such an action |
| EngineProgress.ActionCanSucceed | src/sep-anchor.ts:269-317 | with nothing in flight and no earlier success, any new applicable envelope leads in some run to a recorded success |
| EngineLog.ActionLog.SubmitAndSave | src/sep-anchor.ts:255-262 | the row ends as success or failure exactly as the ledger applied the envelope, if an answer comes from a node that still holds that ledger, and pending otherwise; a delivered envelope is submitted; nothing else in the log changes |
| EngineLog.ActionLog.Deliver | src/sep-anchor.ts:255-262 | the status answered for a sent envelope is what the ledger made of it if the answering node holds it, and pending otherwise |
| EngineLog.OutcomeMeans | src/sep-anchor.ts:255-262 | in every run, an answer from a node whose window holds the ledger that applied the envelope gives success exactly if it was applied successfully, and a lost answer leaves it pending |
| EngineLog.ActionLog.Lookup | src/anchor-gate-rpc.ts:409-428 | a lookup has no status exactly when its answer is lost; otherwise that of the ledger if the node holds it, and on a miss failure exactly when the window covers the time bounds, else pending |
| EngineLog.ActionLog.ReconcileAll | src/sep-anchor.ts:249-268 | reconciling a list stops only at a lost lookup, and otherwise every listed open row was asked for and answered |
| EngineLog.ActionLog.Reconcile | src/sep-anchor.ts:249-268 | a settled row costs nothing; an open one is looked up, abandoning the pass exactly when that lookup is lost, is decided by what the lookup shows, and is sent again if still open on replay; all of it a run of the machine |
| EngineLog.ActionLog.Review | src/sep-anchor.ts:417-420 | stops only at a lost lookup, and otherwise has asked for every listed open row and been answered; no row is added and no other changed |
| EngineLog.ActionLog.Perform | src/sep-anchor.ts:269-317 | throws only on a lost lookup; otherwise every row in flight was asked for and answered, true is answered exactly if the newest row of the action is a success, the new envelope is logged exactly if nothing stayed in flight and it is new, and its row ends as the ledger and the answering node say |
| Bridge.CreditedWithdrawalIsNeverRefunded | src/sep-anchor.ts:468-488 | once a bank event is stored for a withdrawal the vault never refunds it in any continuation, however stale the engine's copy |
| Bridge.RefundedWithdrawalIsNeverCredited | src/sep-anchor.ts:1191-1223 | once a withdrawal is refunded no continuation stores a bank event |
| Bridge.StoredEventIsRecordable | src/sep-anchor.ts:468-496 | a stored event of either direction meets the vault's quote, amount, destination, time and grant guards, so recording it succeeds while the order is open and the id unused |
| Bridge.StoredEventWasRequested | src/sep-anchor.ts:468-474 | in every run an event is stored only after a bank request that no refund has withdrawn since |
| Bridge.StoresExactly | src/sep-anchor.ts:468-488 | an event is stored exactly for an order that a fresh copy shows open and requested, after its payout for a withdrawal and under a grant for a deposit |
| Bridge.UndoBeginsExactly | src/sep-anchor.ts:1191-1218 | a refund or cancel begins exactly for an order that a fresh copy shows escrowed, open, without payout and receipt, with no stored event and no undecided action |
| Deposits.CreditedDepositExactly | src/sep-anchor.ts:468-488 | wherever a deposit's event may be stored, storing it can end credited and cancelled if and only if the action log holds a prepared or pending cancel of the order whose envelope succeeded or can still be applied |
| Deposits.NoPendingCancelIsSafe | src/sep-anchor.ts:468-488 | with no prepared or pending cancel of the order in the log, no continuation of storing the event cancels the order |
| Deposits.CreditedDepositCanBeCancelled | src/sep-anchor.ts:1141-1220 | from any open deposit with nothing in flight, some run the code can take (a cancel whose answer is lost, then `simulateBank` with both its reconciliation passes, each sending the cancel again without an answer, and the stored event) ends credited and cancelled |
| Deposits.OpenDepositExists | src/sep-anchor.ts:468-488 | a concrete run reaches an open deposit with a cancel to send, so the failing case occurs |
| Payouts.StoredEventCanSettle | src/sep-anchor.ts:489-509 | from every reachable desk with a stored event for a withdrawal and an engine that is not lost, whatever is in flight, some continuation records exactly that event and settles the order |
| Payouts.CreditedWithdrawalSettlesExactly | src/sep-anchor.ts:489-509 | a credited withdrawal can still be settled, in some continuation, if and only if its receipt is recorded or the engine is not lost |
| Payouts.CreditedWithdrawalExists | src/sep-anchor.ts:457-488 | a concrete run funds, authorizes and credits a withdrawal whose receipt is still to be recorded, with new envelopes at hand |
| Ingest.Ingress.Store | src/sep-anchor.ts:344-409 | a new payment is classified by the first objection and marks at most its own unfunded withdrawal for recovery |
| Ingest.Ingress.Ingest | src/sep-anchor.ts:324-416 | a page is applied as a whole in order, or, on a malformed identity or cursor, not at all |
| Ingest.AcceptedExactly | src/sep-anchor.ts:346-386 | a payment is accepted if and only if it identifies and exactly meets an open withdrawal of this deployment that has no payment yet |
| Ingest.MeetsExactly | src/sep-anchor.ts:346-386 | what meeting a withdrawal means, written out: parties, asset, exact amount in base units, not before the order and before its deadline |
| Ingest.RecoveryExactly | src/sep-anchor.ts:393-409 | a refused payment from the customer to the receiver in the asset sends its withdrawal to recovery, with that reason, if and only if the withdrawal has no payment and is not closed; no other row changes |
| Ingest.ReasonMeans | src/sep-anchor.ts:355-386 | each reason of a refusal names the first thing that was wrong: its cause holds, and what is checked before it was right |
| Ingest.RefusedExactly | src/sep-anchor.ts:333-344 | the payments of a page are refused if and only if some operation id or paging token is not digits or some hash is not 64 lower-case hex digits |
| Sweep.ClassifiedOnceForever | src/sep-anchor-storage.ts:134-152 | over all runs each operation id is classified at most once and never revised |
| Sweep.AcceptedPaymentIsExact | src/sep-anchor.ts:355-386 | an accepted payment matches sender, receiver, asset, exact amount and time window of the vault order it pays, which has no other |
| Sweep.SweptNeverExceedsAccepted | src/sep-anchor.ts:436-456 | over all runs, with stale copies and any number of signed calls, the amounts of all vault orders ever funded add up to at most the payments accepted |
| Sweep.FundingComesFromItsPayment | src/sep-anchor.ts:442-454 | every funded vault order carries the operation id of an accepted payment for that order, of exactly its amount |
| Sweep.FundsExactly | src/sep-anchor.ts:436-456 | a funding call is signed exactly for an open withdrawal with an accepted payment, not in recovery and by the last copy neither escrowed nor funded, and names the first such payment |
| Sweep.SweepExists | src/sep-anchor.ts:436-456 | a concrete run accepts a payment and funds its withdrawal in the vault |
| Sweep.RepeatedPageMovesOnlyTheCursor | src/sep-anchor.ts:333-416 | a page made of payments already ingested changes nothing but the cursor it carries, and a malformed cursor still refuses it, whatever happened in between |
| Ingest.PagesCompose | src/sep-anchor.ts:333-416 | two consecutive pages classify as one page holding both |
| Ingest.FundedRowIsUntouched | src/sep-anchor.ts:393-409 | later payments never send a withdrawal that has its payment to recovery |
| Field.BatchInverse | contracts/zkpassport-verifier/src/field.rs:116-143 | for every length writes each input's inverse in place with one inversion, and fails exactly when an input is zero |
| Polynomial.InterpolantUnique | contracts/zkpassport-verifier/src/sumcheck.rs:81-120 | the value interpolated from the points is that of any polynomial of that degree through them |
| Sumcheck.WeightsAreNodeProducts | contracts/zkpassport-verifier/src/sumcheck.rs:20-61 | each hard-coded weight is the product of the differences of its node to the others, modulo the scalar field |
| Sumcheck.WeightsFitDomain | contracts/zkpassport-verifier/src/sumcheck.rs:20-61 | at the concrete modulus the table is congruent to the weights that the interpolation and the round check ask for |
| Sumcheck.ComputeNextTargetSum | contracts/zkpassport-verifier/src/sumcheck.rs:81-120 | at every challenge, domain points included, answers the interpolated value and never meets a zero denominator |
| Sumcheck.VerifySumcheck | contracts/zkpassport-verifier/src/sumcheck.rs:149-205 | accepts exactly when the size matches, every round sum equals its target and the final relation equals the last target |
| Sumcheck.SumcheckSound | contracts/zkpassport-verifier/src/sumcheck.rs:149-205 | if the cube sum is not the starting target and every check passes, some round's univariate was wrong yet agreed at its challenge |
| Sumcheck.FewLuckyChallenges | contracts/zkpassport-verifier/src/sumcheck.rs:149-205 | at most seven challenges can hide a given wrong univariate |
| Sumcheck.SumcheckComplete | contracts/zkpassport-verifier/src/sumcheck.rs:149-205 | the honest prover of a true sum passes every round and the final check |
| Transcript.SplitChallenge | contracts/zkpassport-verifier/src/transcript.rs:26-39 | the byte-level split yields the low 127 bits and the bits above them; the two arrays recombine to the digest if and only if its topmost bit is clear, so for every reduced digest |
| GateSeparator.AlphaPowers | contracts/zkpassport-verifier/src/transcript.rs:98-105 | the subrelation weights are the successive powers of one challenge |
| GateSeparator.GateChallenges | contracts/zkpassport-verifier/src/transcript.rs:107-114 | the gate challenges are the powers with exponents 1, 2, 4 and so on |
| GateSeparator.SeparatorIsPowerExtension | contracts/zkpassport-verifier/src/sumcheck.rs:187-192 | after any number of rounds the separator is the multilinear extension of the powers of the gate challenge at the round challenges |
| GateSeparator.ExtensionAtRow | contracts/zkpassport-verifier/src/sumcheck.rs:129-136 | on a row's own bits that extension is the row's power |
| Relations.AccumulatePermutation | contracts/zkpassport-verifier/src/relations.rs:65-110 | writes the grand-product recurrence and the two boundary products into its three slots and no other |
| Relations.PermutationTelescopes | contracts/zkpassport-verifier/src/relations.rs:65-110 | if the three subrelations vanish on every row, the numerators' product is delta times the denominators', zero grand products included |
| Relations.ComputePublicInputDelta | contracts/zkpassport-verifier/src/verifier.rs:136-175 | answers the ratio of the two products over inputs then limbs, failing exactly when a denominator factor is zero |
| Relations.PermutationWithPublicInputs | contracts/zkpassport-verifier/src/relations.rs:65-110 | when delta is the ratio of the public-input products and the permutation subrelations vanish, the wire products balance against the public-input products |
| Relations.CompleteParameters | contracts/zkpassport-verifier/src/verifier.rs:103-112 | completes the relation parameters so that every trace whose permutation subrelations vanish balances inputs and limbs, and fails exactly on a zero denominator factor |
| Wiring.RowProducts | contracts/zkpassport-verifier/src/relations.rs:65-110 | the numerator and denominator of a row are the products over its four wires of wire plus label times beta plus gamma, zero exactly at the negated cells |
| Wiring.BalancedIsCells | contracts/zkpassport-verifier/src/relations.rs:65-110 | the products balance if and only if the cells labelled by ids and those labelled by sigmas, public inputs included, give products that agree at gamma |
| Wiring.SameCellsExactly | contracts/zkpassport-verifier/src/relations.rs:65-110 | with permuted labels the cells on both sides are the same if and only if every copy holds |
| Wiring.CopiesBalance | contracts/zkpassport-verifier/src/relations.rs:65-110 | when every demanded copy holds, the trace balances its public inputs at all challenges |
| Wiring.BrokenCopyIsSeen | contracts/zkpassport-verifier/src/relations.rs:65-110 | when some copy is broken, all but n beta challenges leave fewer than n gamma challenges at which any grand product at all satisfies the subrelations, n being the number of cells |
| Lookup.AccumulateLookup | contracts/zkpassport-verifier/src/relations.rs:115-148 | writes the inverse, sum and tag subrelations into their three slots, the sum alone without separator, and no other slot |
| Lookup.ClearedValue | contracts/zkpassport-verifier/src/relations.rs:115-148 | clearing the denominators of a sum of fractions gives the stated polynomial, whatever poles coincide |
| Lookup.LookedUpIsListed | contracts/zkpassport-verifier/src/relations.rs:115-148 | when the lookup subrelations hold, every entry that a selected row looks up is listed in some row, or beta or gamma was a root of a nonzero polynomial of the columns |
| Relations.AccumulateDeltaRange | contracts/zkpassport-verifier/src/relations.rs:153-178 | writes the four range products of neighbouring wire differences and no other slot |
| Relations.RangeVanishesIff | contracts/zkpassport-verifier/src/relations.rs:153-178 | on an active row a range subrelation vanishes exactly for differences 0 to 3 |
| Relations.RangeRowsExactly | contracts/zkpassport-verifier/src/relations.rs:153-178 | on consecutive active rows the range subrelations vanish if and only if no step from wire to wire, in their order and across rows, exceeds 3 |
| Relations.RangeClimbs | contracts/zkpassport-verifier/src/relations.rs:153-178 | then the wire at place j exceeds the first by at most 3 j |
| Relations.ScaleAndBatch | contracts/zkpassport-verifier/src/relations.rs:440-446 | batching with successive powers is evaluating the polynomial whose coefficients are the subrelations |
| Relations.BatchingSeparates | contracts/zkpassport-verifier/src/relations.rs:440-446 | a violated subrelation is hidden by fewer challenges than there are subrelations |
| ZeroCheck.CubeSumIsBatch | contracts/zkpassport-verifier/src/relations.rs:451-485 | the sum of the batched relation with its separator over the cube is a polynomial in the batching challenge: the coefficient of a subrelation is the polynomial of its values on the rows at the gate challenge, and that of the lookup sum its sum over the rows |
| ZeroCheck.SatisfiedSumsToZero | contracts/zkpassport-verifier/src/relations.rs:451-485 | when every subrelation vanishes on every row, and the lookup sum over all rows together, the cube sums to zero at all challenges |
| ZeroCheck.FewBadChallenges | contracts/zkpassport-verifier/src/relations.rs:451-485 | when that fails anywhere, all but fewer than 2^n gate challenges leave fewer than m batching challenges at which the cube sums to zero |
| ZeroCheck.AcceptedSumsToZero | contracts/zkpassport-verifier/src/sumcheck.rs:149-205 | an accepted sumcheck over the batched relation means that the cube sums to zero at the challenges, or that some round was lucky |
| Shplemini.CollectDenominators | contracts/zkpassport-verifier/src/shplemini.rs:80-95 | the flat batch holds every Gemini, fold and opening denominator at its slot |
| Shplemini.EvaluationScalars | contracts/zkpassport-verifier/src/shplemini.rs:127-165 | the merged scalars carry both batches' weights and the claimed evaluations are batched by powers of rho |
| Shplemini.ReconstructFolds | contracts/zkpassport-verifier/src/shplemini.rs:236-256 | the backward loop computes the fold value of every level |
| Shplemini.MsmIsOpeningEquation | contracts/zkpassport-verifier/src/shplemini.rs:97-292 | the single multi-scalar multiplication equals the plain sum of weighted opening claims |
| Shplemini.VerifyShplemini | contracts/zkpassport-verifier/src/shplemini.rs:39-295 | rejects on a wrong size or any zero denominator, and otherwise accepts exactly when the opening equation holds |
| Gemini.FoldIdentity | contracts/zkpassport-verifier/src/shplemini.rs:240-256 | one fold relates the values at x and -x to the folded polynomial's value at the square |
| Gemini.FoldsToMultilinear | contracts/zkpassport-verifier/src/shplemini.rs:240-256 | folding out any number of variables keeps the multilinear evaluation |
| Gemini.FoldsReconstructed | contracts/zkpassport-verifier/src/shplemini.rs:240-256 | from honest negative evaluations the loop yields each fold's value at its positive point, starting from the multilinear evaluation |
| HonestOpening.BatchedEvaluation | contracts/zkpassport-verifier/src/shplemini.rs:127-146 | the batched claimed evaluations are the multilinear evaluation of the batched polynomial, shifts included |
| HonestOpening.ClaimBalances | contracts/zkpassport-verifier/src/shplemini.rs:97-292 | one honest claim contributes zero to the opening equation |
| HonestOpening.HonestOpeningAccepted | contracts/zkpassport-verifier/src/shplemini.rs:39-295 | for any number of rounds, with honest messages and no zero denominator, the opening equation holds |
| HonestVerifier.EquationsAgree | contracts/zkpassport-verifier/src/shplemini.rs:80-95 | the opening equation does not depend on which inverses of the denominators were computed |
| HonestVerifier.VerifyHonestOpening | contracts/zkpassport-verifier/src/shplemini.rs:39-295 | the verifier answers Ok on every honest opening of any number of rounds whose denominators can be inverted |
| Shplonk.BatchIsSound | contracts/zkpassport-verifier/src/shplemini.rs:97-292 | if the one batched equation holds at the secret point, every claim is true, or nu is zero, or z or the secret is a root of a nonzero polynomial that was fixed before it; for any claims, quotient and opening proof |
| Shplonk.FewLucky | contracts/zkpassport-verifier/src/shplemini.rs:97-292 | fewer challenges are roots of a nonzero polynomial than it has coefficients |
| OpeningSound.FoldsAreHonest | contracts/zkpassport-verifier/src/shplemini.rs:236-256 | if no fold differs from the one before it folded, every fold is the honest one, up to the constant at the end, whatever degrees were committed to |
| OpeningSound.OpeningIsSound | contracts/zkpassport-verifier/src/shplemini.rs:39-295 | for any number of rounds and any committed polynomials, if the opening equation holds, all claimed evaluations, shifted ones included, are those of the committed columns, or a challenge was lucky |
| OpeningSound.VerifyAnyOpening | contracts/zkpassport-verifier/src/shplemini.rs:39-295 | what the opening verifier accepts is true of the committed columns, unless a challenge was lucky |
| Verifier.AcceptedCircuitHolds | contracts/zkpassport-verifier/src/verifier.rs:80-122 | if sumcheck and opening accept, the committed columns satisfy every subrelation on every row, and the lookup sum in total, or a challenge was lucky; for any subrelations |
| Verifier.HonestProofAccepted | contracts/zkpassport-verifier/src/verifier.rs:80-122 | of columns that satisfy the circuit, the honest messages are accepted by both halves |
| Verifier.CircuitIsWired | contracts/zkpassport-verifier/src/relations.rs:65-110 | columns that satisfy the circuit have a wiring that is provable at these challenges, public inputs included |
| Verifier.CircuitLooksUp | contracts/zkpassport-verifier/src/relations.rs:115-148 | in columns that satisfy the circuit every selected row looks up a listed entry, or a challenge was lucky |
| Verifier.RelationsOfColumns | contracts/zkpassport-verifier/src/types.rs:54-96 | which columns hold the wires, labels, table lines and looked-up entries of a row, the steps of the wires being taken from the next row |
| Verifier.Verify | contracts/zkpassport-verifier/src/verifier.rs:103-112 | delta, sumcheck and opening in this order: what is accepted satisfies the circuit, its wiring with the public inputs and its lookups, or a challenge was lucky |
| Money.ParseFormat | src/money.ts:21-36 | parsing a formatted non-negative amount returns it, for any number of decimals |
| Money.NegativeNeverParses | src/money.ts:21-36 | a formatted negative amount is always refused |
| Money.FormatInjective | src/money.ts:29-36 | different amounts have different texts |
| Money.ParseMeaning | src/money.ts:21-27 | a parsed amount is the written number scaled by the decimals, exactly |
| Money.ParsesExactly | src/money.ts:21-27 | a text is read if and only if it is digits, or digits, one point and at most as many digits as there are decimals; with more it is refused as too precise |
| Money.FormatShape | src/money.ts:29-36 | a formatted amount has no idle zero in front and exactly its decimals behind the point |
| Money.ConversionsInUnits | src/money.ts:49-82 | each of the four conversions is the greatest or least amount at which the customer does not gain, in powers of ten of the decimals in which lira, USDC and rate are written |
| Money.UnitPrices | src/money.ts:49-82 | one lira is 100 kurus and one USDC 10^7 stroops, and at rate r it yields r in whole kurus |
| Money.ScaleIs | src/money.ts:51 | the conversion factor is ten to the decimals of USDC less those of lira plus those of the rate |
| Money.UsdcBuysAtLeast | src/money.ts:49-82 | an amount of USDC yields at least k kurus exactly when it reaches the ceiling quote for k |
| Money.UsdcCostsAtMost | src/money.ts:49-82 | an amount of USDC costs at most k kurus exactly when it does not exceed what k kurus buy |
| Money.BuysLawExactly | src/money.ts:49-82 | over all integers the first law holds for an amount, whatever the kurus, if and only if it is not negative or the rate is 1 and it is a whole multiple of 10^11 |
| Money.SpreadDirection | src/money.ts:67-70 | a non-negative spread puts buy at or above mid and sell at or below; a negative one puts buy below |
| Money.SpreadSize | src/money.ts:67-70 | buy and sell are mid times ten thousand plus or minus the spread, over ten thousand, rounded down |
| Quotes.SolveAmounts | src/sep-quotes.ts:119-137 | the four fixed-side branches compute the specified sold and bought amounts and errors |
| Quotes.FixedAmountIsKept | src/sep-quotes.ts:119-176 | a quote exchanges exactly the amount that the request names on its fixed side, a positive one on the other, and moves lira and USDC within their own limits |
| Quotes.LimitsByCurrency | src/sep-quotes.ts:162-171 | a limit is exceeded exactly when the exchange moves more lira, or more USDC, than that currency's limit |
| Quotes.QuotedExactly | src/sep-quotes.ts:76-185 | a quote is issued if and only if one readable amount is named, the requested expiry is at least a second off, rate and amounts are positive, both limits hold and the policy is alive by both clocks |
| Quotes.RoundingIsTight | src/sep-quotes.ts:119-137 | rounding costs less than one unit: one more bought, or one less sold, would be unfair at the rate |
| Quotes.QuoteIsFair | src/sep-quotes.ts:116-148 | every quote at a non-negative spread gives the customer at most the mid-rate value |
| Quotes.NoSequenceGains | src/sep-quotes.ts:116-148 | no sequence of quotes at one mid, in any modes, amounts and non-negative spreads, increases the worth of kurus and stroops together, each with its decimals |
| Quotes.SpreadProtectsExactly | src/money.ts:67-70 | every purchase at the buy rate is fair at mid if and only if the spread is not negative |
| Quotes.FeeIsNeverClamped | src/sep-quotes.ts:40-44 | the fee is exactly sold minus mid value, never clamped, and sold minus fee is the mid price to within one unit, in the decimals of the currencies |
| Quotes.ExpiryIsSound | src/sep-quotes.ts:104-195 | over the three readings of the clock an issued quote ends after the policy was checked, is alive when made out exactly unless the policy ended meanwhile, lasts a quarter of an hour by default, at most one hour, at least a minute unless the policy ends sooner, and follows a requested expiry to within a second and the time spent waiting |
| Quotes.QuoteBook.Create | src/sep-quotes.ts:70-212 | answers the specified exchange, expiry or refusal and stores the texts of the exchange and of both rates, or stores nothing on an error |
| Quotes.QuoteBook.ReadFee | src/sep-quotes.ts:30-68 | the fee text read back from stored text denotes exactly sold minus mid value, or zero where that is negative, which needs a negative spread |
| Iban.Mod97 | src/turkey.ts:6-10 | the streaming remainder is the remainder of the whole number |
| Iban.CheckIban | src/turkey.ts:16-25 | the running check decides exactly the remainder-one condition on the rearranged number |
| Iban.MakeTrIban | src/turkey.ts:33-40 | for exactly the well-formed parts answers a valid IBAN holding them, with check digits 02 to 98 |
| Iban.AcceptedExactly | src/turkey.ts:16-25 | a text is accepted if and only if it is two letters, two digits and 11 to 30 digits or letters, and the number it spells, letters from 10 to 35 and the first four at the end, leaves 1 modulo 97 |
| Iban.CheckDigitsAreUnique | src/turkey.ts:33-40 | of 02 to 98 exactly one pair of check digits is valid for an account |
| Iban.DocumentedExample | src/turkey.ts:16-31 | a published account number is accepted, and refused with another last digit |
| Iban.OneDigitIsDetected | src/turkey.ts:16-31 | changing any one digit after TR of a valid IBAN makes it invalid |
| Iban.AnySwapIsDetected | src/turkey.ts:16-31 | swapping any two different digits after TR, adjacent or not, across the rearrangement too, makes it invalid |

## Left out

- The older contract `contracts/anchor-gate`: its order life cycle is the vault's without refunds, cancels and funding, and would repeat the same proofs.
- Keccak, SHA-256, XDR, proof and key decoding, and the Fiat-Shamir transcript itself: hashes and commitments are opaque values and challenges are parameters.
- Elliptic-curve arithmetic and pairings: group elements are discrete logarithms, so group encodings and subgroup checks are not captured.
- Probabilistic soundness: only the deterministic statements behind it are proved, each with the polynomial of which a bad challenge must be a root.
- The arithmetic, elliptic, memory, non-native and Poseidon relations: `ZeroCheck` and `Verifier` take the subrelations as arbitrary functions of the entities.
- The pairing of the recursive accumulator, the last step of `verify`, and the decoding of its limbs.
- Primality of the scalar modulus: the algebra holds for every prime, and only the weight table and the challenge split are checked at the concrete modulus.
- Archival and lifetime extension of contract storage, the read-only contract calls, and `validate_config` beyond what later proofs use of it.
- Signature checking: roles are booleans of the host, and `require_auth` failing is the error Unauthorized.
- `Bridge` and `Deposits` follow `sync`, `advance`, `simulateBank` and `refund` for one order as steps on values, and `Sweep` follows `sync`, `advance` and page ingestion likewise; the promise queue that serialises them is the interleaving of those steps.
- Engine.StepKeeps: network sequence numbers are not modelled, so the ledger may apply more than the real one could.
- Sweep.AcceptedPaymentIsExact: memo decoding and date parsing are done before the model, and a time that does not parse is absent.
- Trimming, whitespace removal and upper-casing of texts, JavaScript number prices, date parsing and printing, the customer and native-configuration lookups of a quote, identity numbers and deposit references.
- Status, message and reference selection of the views, HTTP routes, sessions, proof requests, sanctions feeds, and the legacy ramp.
