# Commit-coordination chaincode, modelled in Dafny

This project models the Hyperledger Fabric chaincode `InitialChaincode.go`.
The chaincode coordinates a commit decision among several peers on top of the
ledger's key/value state:

- `addTransaction` creates a transaction in which every peer and the final
  decision are pending (`"P"`). Its deadline is five minutes after creation.
- `makePeerDecision` records one peer's vote and may settle the final decision.
- `queryFinalDecision` re-evaluates the votes. When they settle the outcome,
  it writes the abort back to the ledger as a side effect of the read.
- `queryTransaction` and `getRegisteredPeers` only read.
- `registerPeer` appends to a flat peer list stored under the reserved key
  `"RegisteredPeers"`.
- `Invoke` routes an operation name to one of the above.

Each operation is a pure function from the ledger before the call, the current
time and the request arguments to the ledger after the call and the answer.
The ledger is a `map<string, StoredValue>`. A stored value is a transaction
record, the registry's peer list, or `Corrupt` (bytes that decode to neither).
Transactions and the registry share one key space.

Modules:

- `Types` (types.dfy) holds the records and constants of the chaincode.
  Decisions stay strings: votes are stored verbatim, and `""` counts as pending
  just like `"P"`.
- `Ledger` (ledger.dfy) holds the store, the answer shapes and the existence
  check. `Ledger.Exists` models `checkTransactionIDExistence`: a key exists
  exactly when something is stored under it.
- `Evaluation` (evaluation.dfy) holds the vote evaluation rule
  (`checkPeersVoted`) as written. Next to it is an all-peer rule, which is the
  evident intent of the function's own comment at InitialChaincode.go:222:
  decide once the peers have finished voting.
- `Coordinator` (coordinator.dfy) holds the operations and the dispatch.
- `Invariants` (invariants.dfy) holds the ledger invariant and properties of
  arbitrary sequences of invocations.
- `Scenarios` (scenarios.dfy) holds properties that relate consecutive
  operations.

Behaviour of the code as written, which the model keeps:

- The evaluation loop returns from every branch of its body, so only the first
  peer is ever inspected. The rule can only report "undecided" or "abort".
  Consequently no transaction is ever committed, not even one with a single
  peer that voted `"C"` (`Evaluation.UnanimousCommitNotRecognised`,
  `Invariants.NoTransactionEverCommits`). The return of "C" after the loop
  (InitialChaincode.go:240) is reached only when the loop body never runs,
  which the empty-list check at InitialChaincode.go:225-227 already rules out.
  The deadline test (InitialChaincode.go:233) is likewise reached only through
  the first peer. Once the first peer's vote is anything other than "", "P" or
  "A", the transaction stays pending at every time, however long the other
  peers stall (`Scenarios.FirstVoteBlocksTimeout`,
  `Scenarios.FirstCommitVoteNeverSettles`).
- An abort vote is acknowledged but never written to the ledger
  (`Scenarios.AbortVoteIsLost`). The abort is set on the in-memory record and
  the function returns before the write (InitialChaincode.go:200-203).
- `queryFinalDecision` re-evaluates the votes whatever the stored final
  decision is. It can only ever write an abort, so an aborted record stays as
  it is (`Invariants.AbortedRecordFrozen`).
- `registerPeer` accepts duplicates and empty identifiers.
- A transaction may be created under the registry key while that key is free.
  After that, registration fails for good, whatever runs in between
  (`Invariants.RegistryBlockedForever`, `Scenarios.RegistryKeyTakenByTransaction`).
- Writes go to the identifier stored inside the record, not to the key that was
  read. In every ledger the chaincode builds, the two agree
  (`Invariants.WellFormed`).

## Model

| member | source | states |
|---|---|---|
| Ledger.Exists | InitialChaincode.go:295-304 | The existence check answers true exactly when something is stored under the key, whatever its kind: a transaction, the registry list or undecodable bytes. It answers false when the key is unused. |
| Ledger.LoadTransaction | InitialChaincode.go:162-172 | Loading yields a transaction exactly when the key holds a transaction record, and then yields that record. A missing key, the registry list or undecodable bytes yield nothing. |
| Ledger.SaveTransaction | InitialChaincode.go:211-217 | Writing a transaction stores it under its own identifier, adds that key if it was new, and leaves every other key as it was. |
| Evaluation.ScanPeers | InitialChaincode.go:229-240 | The loop reports commit exactly when the list is empty. For a non-empty list it never reports commit, it is settled exactly when it reports abort, and its verdict equals the verdict for the first peer alone. |
| Evaluation.CheckPeersVoted | InitialChaincode.go:223-241 | With no peers the result is (false, ""). Otherwise the outcome is settled exactly when the first peer voted "A", or its vote is unset or "P" and now is strictly past the deadline. A settled outcome is always "A", an unsettled one "P", and "C" is never reported. |
| Evaluation.FirstPeerOnly | InitialChaincode.go:229-238 | Two transactions with the same first vote and the same deadline get the same verdict, whatever their other peers are. |
| Evaluation.DecidedStaysDecided | InitialChaincode.go:231-234 | A settled verdict stays settled, with the same decision, at every later time. |
| Evaluation.LiteralDecisionIsIntended | InitialChaincode.go:229-240 | Whenever the first-peer rule settles the outcome, the all-peer rule (any abort aborts; an outstanding vote aborts after the deadline) settles it the same way. |
| Evaluation.UnanimousCommitNotRecognised | InitialChaincode.go:229-240 | When every peer voted "C", the all-peer rule commits but the chaincode's rule reports (false, "P") at every time. |
| Coordinator.ResetVotes | InitialChaincode.go:129-132 | The reset peer list has the submitted length, keeps every peer's identifier at its position, and sets every decision to "P". |
| Coordinator.CreateTransaction | InitialChaincode.go:118-142 | Creation succeeds exactly when the identifier is non-empty and unused and the peer list is non-empty. An empty or taken identifier is reported before an empty peer list. A failure leaves the ledger unchanged. On success exactly one key, the identifier, is added. Its record holds the submitted peer identifiers in order, every vote "P", final decision "P" and deadline now + 300 s. No other key changes. |
| Coordinator.AddTransaction | InitialChaincode.go:106-116 | No argument, or an argument that does not decode, fails without touching the ledger. Otherwise the result is the creation of the decoded transaction. |
| Coordinator.QueryTransaction | InitialChaincode.go:85-103 | The ledger never changes. Anything but exactly one argument fails. With one argument, the call succeeds exactly when the key is present, and then returns the stored value unchanged, whatever its kind. |
| Coordinator.GetRegisteredPeers | InitialChaincode.go:345-354 | Never fails and never writes. Returns nothing when the registry key is unused and the stored value otherwise; a stored peer list is returned as is. |
| Coordinator.FirstMatch | InitialChaincode.go:184-194 | Finds the first peer whose identifier equals the voter's, and reports none exactly when no peer has it. |
| Coordinator.ApplyVote | InitialChaincode.go:158-219 | Failures leave the ledger unchanged. An empty or unknown identifier fails, and so does a value that is not a transaction. A transaction whose final decision is neither "" nor "P" answers success and changes nothing. A pending transaction with no peers fails. Otherwise the vote succeeds exactly when some peer carries the voter's identifier, and fails with peer-not-found when none does. An "A" vote never changes the ledger. Any other successful vote rewrites only the record's own key. Only the first matching peer's decision changes, to the submitted string verbatim. The identifier, deadline and all other peers stay the same. The final decision becomes "A" exactly when the updated votes settle the outcome. |
| Coordinator.MakePeerDecision | InitialChaincode.go:146-156 | No argument, or an argument that does not decode, fails without touching the ledger. Otherwise the result is the decoded vote applied. |
| Coordinator.QueryFinalDecision | InitialChaincode.go:243-292 | Failures leave the ledger unchanged. Missing argument, unknown key and a non-transaction value fail. The call succeeds exactly when the key holds a transaction with a non-empty identifier. It then answers that identifier and the final decision, "A" if the votes settle the outcome and the stored one otherwise. The ledger changes only in the settled case, and then only that record's final decision, to "A". |
| Coordinator.RegisterPeer | InitialChaincode.go:307-343 | Failures leave the ledger unchanged. The call succeeds exactly when an argument is given and the registry key is unused or holds a peer list. On success the registry is the previous list (empty if unused) with one entry for the argument appended at the end. No other key changes. |
| Coordinator.Invoke | InitialChaincode.go:62-82 | An unknown operation name fails without touching the ledger. A failing invocation never changes the ledger. No invocation removes a key. The two plain reads never write. Each known name runs exactly its operation with the same arguments. |
| Invariants.InvokePreservesWellFormed | InitialChaincode.go:62-82 | Every invocation keeps the ledger well-formed. |
| Invariants.RunPreservesWellFormed | InitialChaincode.go:105-343 | Any sequence of invocations keeps the ledger well-formed. |
| Invariants.ExistenceIsPermanent | InitialChaincode.go:295-304 | Once the existence check answers true for a key, it answers true for that key after any sequence of invocations. In particular, a used transaction identifier can never be created again. |
| Invariants.NoTransactionEverCommits | InitialChaincode.go:126 | From an empty ledger, after any sequence of invocations, every stored final decision is "P" or "A", never "C". |
| Invariants.InvokeKeepsAbortedRecord | InitialChaincode.go:174-176 | In a well-formed ledger (every ledger the chaincode builds), a single invocation leaves an aborted transaction's record exactly as it was. |
| Invariants.AbortedRecordFrozen | InitialChaincode.go:174-176 | In a well-formed ledger (every ledger the chaincode builds), once a transaction is aborted, no sequence of invocations changes its record. |
| Invariants.ApplyVoteKeepsShape | InitialChaincode.go:182-198 | In a well-formed ledger (every ledger the chaincode builds), a vote keeps every stored transaction, with the same identifier, deadline and peer identifiers in order. Only decisions change. |
| Invariants.InvokeKeepsShape | InitialChaincode.go:182-198 | In a well-formed ledger (every ledger the chaincode builds), a single invocation keeps every stored transaction, with the same identifier, deadline and peer identifiers in order. |
| Invariants.InvokeKeepsRegistryBlocked | InitialChaincode.go:307-343 | When the registry key holds a transaction record, it still holds one after any single invocation, in any ledger. |
| Invariants.RegistryBlockedForever | InitialChaincode.go:324-329 | Once the registry key holds a transaction record, after any sequence of invocations it still does, and registering any peer then fails without writing. |
| Invariants.ShapeFixedForever | InitialChaincode.go:182-198 | In a well-formed ledger (every ledger the chaincode builds), over any sequence of invocations, a stored transaction keeps its identifier, its deadline and its peer identifiers in order. |
| Scenarios.CreateThenQuery | InitialChaincode.go:126-140 | Reading a transaction right after creating it returns a record with final decision "P", the submitted peers all at "P", and deadline creation time + 300 s. |
| Scenarios.DuplicateCreationFails | InitialChaincode.go:118-120 | After a successful creation, creating the same identifier again, with any payload and at any time, fails and leaves the ledger unchanged. |
| Scenarios.StalledFirstPeerTimesOut | InitialChaincode.go:269-281 | When the first peer has not voted and the deadline has passed, a final-decision query answers "A" and stores the record with final decision "A". |
| Scenarios.TimeoutForcesAbort | InitialChaincode.go:126-127 | A transaction queried without votes later than 300 s after its creation reads as "A", and the ledger records the abort. |
| Scenarios.FreshTransactionPending | InitialChaincode.go:233-236 | Up to its deadline, a fresh transaction reads as "P", and the query writes nothing. |
| Scenarios.AbortVoteIsLost | InitialChaincode.go:200-203 | An "A" vote by the first peer of a fresh transaction answers success and leaves the ledger as it was, so before the deadline the transaction still reads "P". |
| Scenarios.UnknownPeerRejected | InitialChaincode.go:196-198 | A vote from an identifier the transaction does not name fails with peer-not-found and leaves the ledger unchanged. |
| Scenarios.LateVoteAborts | InitialChaincode.go:205-217 | The second peer's non-abort vote, cast after the deadline of a fresh transaction, is written with that vote and with final decision "A". |
| Scenarios.FirstVoteBlocksTimeout | InitialChaincode.go:229-236 | When a transaction's first peer holds a vote other than "", "P" or "A", a final-decision query at any time answers the stored decision and writes nothing, whatever the deadline and the other peers' votes. |
| Scenarios.FirstPeerCommitWritten | InitialChaincode.go:182-217 | A "C" vote by the first peer of a pending transaction succeeds, is written to that peer, and leaves the final decision "P". |
| Scenarios.FirstCommitVoteNeverSettles | InitialChaincode.go:229-238 | With any number of peers, the first peer's "C" vote on a fresh transaction is written, and a final-decision query at any later time reads "P" and writes nothing, even if no other peer ever votes. |
| Scenarios.LoneCommitVoteNeverSettles | InitialChaincode.go:229-238 | The only peer's "C" vote on a fresh transaction is written, yet a final-decision query at any later time still reads "P". |
| Scenarios.RegistryAccumulates | InitialChaincode.go:312-340 | Registering p1 and then p2 on a ledger without a registry lists exactly [p1, p2], in that order. |
| Scenarios.RegistryKeyTakenByTransaction | InitialChaincode.go:324-329 | A transaction created under the registry key makes every later registration fail without writing, after any sequence of further invocations, and the registry read then returns a transaction record. |
| Scenarios.QueryFinalDecisionIdempotent | InitialChaincode.go:269-283 | Repeating a final-decision query at the same time gives the same answer and the same ledger, for any stored transaction record, including one whose identifier differs from its key. |

## Left out

- Fabric host integration is not modelled: `shim.Start`, `main`, `Init` and the construction of `sc.Response`. Answers are the `Response` datatype, and error messages become `Error` constructors.
- JSON is not modelled. The decoding of a request argument is the `Codec` parameter, which gives `None` for malformed input. Stored values are assumed to round-trip losslessly. A value that does not decode as the kind expected at a key is `Corrupt`, or is the other kind. Marshalling cannot fail for these records, so those error branches are absent.
- Ledger read errors (`GetState` returning an error) are not modelled, and writes always succeed. Note that `registerPeer` treats a read error like an absent registry and would restart the list from a single entry. The model has no read errors, so that path does not arise.
- The second nil check after loading in `makePeerDecision` (InitialChaincode.go:164) cannot fire, because the existence check just before it read the same ledger within one invocation.
- Wall-clock time is a parameter: `now` is an integer number of seconds, the five-minute window is 300, and "after" is strict `>`. UTC conversion and sub-second precision are not modelled.
- Concurrent invocations and the lost-update race between a read and its write-back are not modelled. Their interleaving depends on the host ledger. `Invariants.Run` applies invocations one after another.
- The loop-exit return of "C" in the evaluation rule (InitialChaincode.go:240) is kept in `Evaluation.ScanPeers`, but it cannot be reached from `CheckPeersVoted`.
