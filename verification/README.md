# Verified model of the LUMI agent's protocol core

This Dafny project models the parts of the repository where a mistake costs money or
breaks a public promise, and proves what the code promises about them:

- **The tclk contract machine** (`Frames`, `Deals`, `Transcripts`, `TranscriptTheorems`,
  `Protocol`, `Reasons`, `Connector`, `Settlement`): decoding and validation of frames, the escrow machine, the fold over
  arbitrary transcripts whose times need not be ordered, and the frames our own
  connector builds for that fold.
- **Canonical JSON** (`Json`, `JsonDecode`, `JsonSyntax`, `JsonReading`, `FrameLines`, `CanonicalJson`,
  `CanonicalShape`, `AsciiAgreement`): the text under every contract id, what singles it out, which
  texts and lines are read, and where the two printers of the repository agree.
- **Runs, approvals and events** (`Runs`, `Retries`, `Outbox`, `Approvals`, `Events`, `EventLogs`): claims,
  leases, recovery and retries; continuation of approved actions by many workers with a
  crash between any two steps; the event log and its streaming readers.
- **Numbers and codecs** (`Arithmetic`, `Sets`, `Fermat`, `Primality`, `Divisors`,
  `Numerals`, `Base58`, `Terms`): the solver's loops, base58 and account
  keys, and the scanner that cuts the terms object out of a line.
- **Gates and budgets** (`Windows`, `AgentGate`, `Assembler`, `Coordinator`, `RunEndings`, `Ledger`):
  the accept quota, context assembly, the action loop and the capped spend ledger.
- **Signing order** (`Signing`): nonces and the canonical string.

Objects whose methods change fields are classes, loops are methods, and each such method
is tied by its contract to a specification function; the theorems are about those
functions. Hash and keyed hash are uninterpreted functions; only the shape of a digest is
assumed, and where a collision would be needed the lemma says so. Unicode categories are a
parameter. Times are integers. Surroundings that decide something (a network call, a policy
decision, a clock reading, a failing transaction) are inputs, quantified over.

## Where the code differs from what it says

- `apps/scheduler/br_fold.py` calls its fold fail-closed and never throwing. A frame whose
  `type`, or a receipt whose `outcome`, is an array or object raises a TypeError that ends
  the fold. The model follows the code; `RaisesExactly`, `StopsExactly` and `RaisedExactly`
  give the exact condition.
- `build_reveal` writes neither `from` nor `contract`, so no fold accepts its line
  (`BuiltRevealRejected`). `"receipt"` is not among the connector's frame kinds.
- The connector escapes every character from 0x7f on, the fold does not; `ContractTextsAgree`
  gives the exact condition under which both hash the same text.
- A cancel before any accept leaves the contract without an id, after which nothing, receipts
  included, is accepted (`CancelledBeforeAccept`).
- Patterns ending in `$` also match before one final newline; the model keeps that.
- `_next_prime(0)` is 3 (`NextPrime`).
- `next_nonce_db` stores millisecond nonces in a 32-bit column, so on PostgreSQL every draw
  at a present-day clock fails (`StoredSucceeds`, `PresentDayFails`). With a column wide
  enough, as on SQLite, a nonce raised above the room's row is not reported back to the
  in-process generator, which can issue it again; mixing the two is safe exactly when no
  draw is raised (`MixingExactly`, `MixedRepeat`).
- `_MonotonicNonce.ensure_greater` would wait for its own lock on a candidate that is not an
  integer; its caller checks the candidate first, and the model starts after that check.
- Recovery reads all executing runs once and tests each row as read, at a later clock reading,
  and writes by id. A holder that renewed in between loses its run all the same
  (`StaleReadSeizes`; `SeizesExactly` and `LeaseExactly` give the exact conditions).
- Two scheduler processes whose passes overlap can give one run two successors
  (`OverlapSplits`). Without revivals that happens exactly when a test fails a run on a retry
  count it has no longer (`SingleExactly`), never with one scheduler process
  (`SingleInStep`). Chains stay within three retries even so (`ChainsEnd`).
- In `attempt_spend` a payment whose answer is lost is recorded as blocked, one whose answer
  cannot be read raises, and a client found unavailable is called all the same. So the ledger
  is truthful exactly when what the client reports agrees with the money (`PaymentRecorded`,
  `HiddenPayments`, `LostAnswersUnbounded`).
- The ledger is read before an attempt and written after it without a lock, so overlapping
  attempts can pass the cap (`SameReading`, `StaleReadPasses`).
- The accept path ships its deliverable without asking whether the contract was shipped
  before; only distinct contract ids keep that to one (`DeliveredOnce`, `SameContractCollides`).
- `append_run_event_safe` with no retries allowed writes nothing and raises nothing.
- In the coordinator a tool call whose event could not be stored counts both as a success
  and as an error, and a pause outranks every other end of a run.

## Model

| member | source | states |
|---|---|---|
| Transcripts.FoldRecords | apps/scheduler/br_fold.py:339-388 | the loop that updates one contract in place returns the status, rejections and early stop of the fold specified record by record |
| Deals.Deal.constructor | apps/scheduler/br_fold.py:186-198 | a valid offer opens a proposed contract with exactly the offering side filled in |
| Deals.Deal.Apply | apps/scheduler/br_fold.py:201-323 | a frame is validated and handed to its branch; the state moves only when every guard of that branch passes, and then only in the fields of its transition |
| Deals.Deal.Accept | apps/scheduler/br_fold.py:212-238 | the tests of an accept in order, and the party, id and statement it then fills in |
| Deals.Deal.Lock | apps/scheduler/br_fold.py:240-254 | the tests of a lock in order, and the rail and reference it then fills in |
| Deals.Deal.Reveal | apps/scheduler/br_fold.py:256-271 | the tests of a reveal in order, and the secret it then fills in |
| Deals.Deal.Refund | apps/scheduler/br_fold.py:273-285 | the tests of a refund in order; only the status moves |
| Deals.Deal.Cancel | apps/scheduler/br_fold.py:287-295 | the tests of a cancel in order; only the status moves |
| Deals.Deal.Notice | apps/scheduler/br_fold.py:297-321 | receipts and heartbeats are judged and change nothing |
| TranscriptTheorems.EveryRecordJudged | apps/scheduler/br_fold.py:339-388 | accepted and rejected indices are increasing, disjoint and together all indices |
| TranscriptTheorems.RejectedErasable | apps/scheduler/br_fold.py:339-388 | deleting every rejected record leaves the same final contract and no rejection |
| TranscriptTheorems.KeptAreAccepted | apps/scheduler/br_fold.py:339-388 | the records kept by that deletion are those at the accepted indices |
| TranscriptTheorems.EffectSane | apps/scheduler/br_fold.py:201-323 | every accepted frame keeps the contract's invariant: parties, id and lock fields match the status |
| TranscriptTheorems.LifecycleFollowed | apps/scheduler/br_fold.py:201-323 | in any transcript the accepted status changes are a prefix of offer-accept-lock-reveal or -refund, or offer-[accept]-cancel |
| TranscriptTheorems.Explained | apps/scheduler/br_fold.py:339-388 | every open contract has accepted records that brought it where it is, in order, each from the right sender in the right room and itself carrying the contract's id, rail, reference or secret |
| TranscriptTheorems.ClaimedMeans | apps/scheduler/br_fold.py:256-271 | claimed implies four accepted records in order: offer, accept before expiry, a payer's lock naming the contract's offered rail and reference, a payee's reveal before the refund window carrying the secret that opens a 64-digit statement; payer and payee differ |
| TranscriptTheorems.RefundedMeans | apps/scheduler/br_fold.py:273-285 | refunded implies accepted records in order: offer, accept, a payer's lock naming the contract's rail and reference, a payer's refund naming the contract once the refund window is open |
| TranscriptTheorems.PartiesPosted | apps/scheduler/br_fold.py:175-176 | the parties of a contract are exactly the senders of its accepted offer and accept records |
| TranscriptTheorems.CancelledMeans | apps/scheduler/br_fold.py:287-295 | cancelled implies an accepted cancel by the sender of the offer record or of the accept record, from proposed or accepted, in the room where the contract then lived, and nothing changed since |
| TranscriptTheorems.ReceiptTruthful | apps/scheduler/br_fold.py:297-312 | an accepted receipt comes from the sender of the offer record or of the accept record, in the deal room, names the final status and contradicts neither rail nor reference |
| TranscriptTheorems.HeartbeatMeans | apps/scheduler/br_fold.py:314-321 | an accepted heartbeat comes from one of those two, in the room of the deal it names, while it is accepted or locked |
| TranscriptTheorems.TerminalAbsorbs | apps/scheduler/br_fold.py:287-323 | whatever is appended, a claimed, refunded or cancelled contract does not change |
| TranscriptTheorems.CancelledBeforeAccept | apps/scheduler/br_fold.py:287-312 | after a cancel without accept no record at all is accepted |
| TranscriptTheorems.VerifiedOpens | apps/scheduler/br_fold.py:75-82 | a verified secret is 32 bytes whose digest is the statement, which then has 64 digits |
| TranscriptTheorems.RaisesExactly | apps/scheduler/br_fold.py:98-172 | validation escapes with a TypeError exactly on an array or object where a set membership is tested |
| TranscriptTheorems.StopsExactly | apps/scheduler/br_fold.py:354-386 | a record stops the fold exactly when it is such a frame, of its sender, in the expected room, with a contract open |
| TranscriptTheorems.RaisedExactly | apps/scheduler/br_fold.py:339-388 | the fold is cut short exactly when some record of the transcript stops it |
| Protocol.WellFormedExactly | apps/scheduler/br_fold.py:98-172 | the chain of checks lets through exactly the frames that the field table and patterns, spelt out, describe |
| Protocol.RailsMatch | apps/scheduler/br_fold.py:179-183 | a rail is offered exactly when some offered one equals it up to the case of its letters |
| Protocol.UnlocksExactly | apps/scheduler/br_fold.py:75-82 | a secret opens a statement exactly when it spells 32 bytes whose digest the statement is |
| Protocol.FrameRefines | apps/scheduler/br_fold.py:201-323 | the guards, in the room the fold expects, pass exactly the frames that follow from the accepted frames alone: which kinds came before, who sent them, when, and what they name |
| Protocol.FoldRefines | apps/scheduler/br_fold.py:339-388 | over any transcript not cut short, the fold accepts exactly the records that the protocol, stated without contract state, admits, and ends with the contract those records describe |
| Reasons.RejectedTruly | apps/scheduler/br_fold.py:98-323 | the reason a record is turned down for is true of its frame and the contract it met |
| Reasons.RejectionsTrue | apps/scheduler/br_fold.py:339-388 | so is every entry of the fold's list, at the position and with the frame type it names |
| Connector.ListedTypeStops | apps/scheduler/br_fold.py:102-103 | one short line with an array for its type stops the fold of any open contract |
| Text.HexRoundTrip | apps/scheduler/br_fold.py:75-82 | reading back the hexadecimal digits of any bytes gives the bytes |
| Connector.KindsExactly | packages/connectors/tclk.py:40-40 | the connector's frame kinds are the fold's, receipts left out |
| Connector.ParseBuilt | packages/connectors/tclk.py:108-180 | parsing a built frame returns its kind and fields, and fails exactly when a field named type carries no frame kind |
| Connector.FoldDecodesBuilt | apps/scheduler/br_fold.py:326-336 | the fold decodes a built line to the very fields it was built from |
| Connector.DomainTextInjective | packages/connectors/tclk.py:256-259 | the domain-tagged text determines tag and payload |
| Connector.ContractTextInjective | packages/connectors/tclk.py:267-273 | equal text under a contract id means equal offer and accept core, and is never text under an offer id |
| Connector.ContractTextsAgree | packages/connectors/tclk.py:240-273 | connector and fold hash the same contract text if and only if offer and core stay below 0x7f |
| Connector.ContractIdsAgree | apps/scheduler/br_fold.py:66-68 | the two ids agree below 0x7f, and agreement elsewhere exhibits a collision |
| Connector.SameContractCollides | apps/scheduler/br_fold.py:66-68 | two different pairs of offer and accept core share a contract id only by a collision of the hash |
| Connector.RoomsAgree | packages/connectors/tclk.py:276-279 | both deal-room derivations agree on ids that begin with 0x |
| Connector.HashlockOpens | packages/connectors/tclk.py:211-224 | the derived preimage opens the derived statement under the fold's verifier |
| Connector.AgentAcceptJudged | packages/connectors/tclk.py:288-302 | the fold accepts the agent's accept of an unexpired payer-side hash-lock offer of another identity |
| Connector.AgentHeartbeatJudged | packages/connectors/tclk.py:305-310 | the heartbeat posted in the derived deal room is accepted next and changes nothing |
| Connector.AgentInteroperates | packages/connectors/tclk.py:211-310 | appended to any transcript with such an offer open, accept and heartbeat are both accepted and the stored statement is opened by the derived preimage |
| Connector.BuiltRevealRejected | packages/connectors/tclk.py:323-325 | the built reveal is rejected from every sender in every state |
| Settlement.AlwaysNamed | apps/scheduler/br_fold.py:112-143 | parties and contract id of every open contract have the protocol's shape |
| Settlement.OfferOpens | apps/scheduler/br_fold.py:360-373 | any valid offer posted by its sender in the offer room opens a contract |
| Settlement.LockJudged | apps/scheduler/br_fold.py:240-254 | the payer's lock on an offered rail is accepted if and only if the refund window is not open yet |
| Settlement.EndJudged | apps/scheduler/br_fold.py:256-285 | at every moment exactly one of the payee's opening reveal and the payer's refund is accepted |
| Settlement.DealSettles | apps/scheduler/br_fold.py:240-285 | after any transcript that leaves a deal accepted, a lock and then one of the two ends settle it without a rejection, whatever the time of the end |
| Settlement.AgentIsPaid | packages/connectors/tclk.py:211-310 | the agent's accept and heartbeat, a lock and a reveal of the derived preimage in time lead from an open offer to a claimed deal |
| Json.SortedKeysIncreasing | packages/connectors/tclk.py:251-253 | the listed keys are exactly the keys, each once, in code point order |
| JsonReading.DecodesExactly | apps/scheduler/br_fold.py:326-336 | a text is read as a value if and only if it is a text of the RFC 8259 grammar, with any white space and escapes, that means the value: integers only, surrogates paired, the last of equal keys winning |
| FrameLines.FrameExactly | apps/scheduler/br_fold.py:326-336 | a line carries a frame if and only if it is the tag, white space and the text of an object with those fields, white space around it allowed |
| JsonDecode.StringRoundTrip | packages/connectors/tclk.py:240-242 | every string over Unicode scalars reads back from its quoted text, in both escaping modes |
| JsonDecode.IntRoundTrip | packages/connectors/tclk.py:247-248 | every integer reads back from its text, whatever follows it |
| CanonicalJson.ValueRoundTrip | packages/connectors/tclk.py:245-253 | reading the canonical text of any value, in any context, gives the value and the rest |
| CanonicalJson.DecodeCanonical | packages/connectors/tclk.py:245-253 | the decoder inverts the printer on every float-free value |
| CanonicalJson.CanonicalInjective | packages/connectors/tclk.py:245-253 | equal canonical text means equal values, up to key order |
| CanonicalShape.EscapeExactly | packages/connectors/tclk.py:240-242 | a character is printed as the shortest text that reads as it in the mode, hexadecimal digits in lower case |
| CanonicalShape.CanonicalShortest | packages/connectors/tclk.py:245-253 | no text of a value, in the mode, is shorter than its canonical text |
| CanonicalShape.ObjectText | packages/connectors/tclk.py:251-253 | an object's text lists its members by increasing key with bare commas and colons, and there is one such listing |
| CanonicalShape.ArrayText | packages/connectors/tclk.py:249-250 | an array's text lists its elements in order with bare commas |
| CanonicalShape.LexExactly | packages/connectors/tclk.py:251-253 | key order is decided by the first differing code point, or by the shorter text |
| AsciiAgreement.ModesAgree | apps/scheduler/br_fold.py:53-55 | the escaping and the plain printer give the same text if and only if all strings stay below 0x7f |
| Fermat.TimesPermutes | apps/scheduler/tclk_solver.py:39-40 | multiplication by a unit permutes the residues modulo a prime |
| Fermat.FermatLittle | apps/scheduler/tclk_solver.py:39-42 | Fermat's little theorem, for every prime |
| Fermat.SquareRootsOfOne | apps/scheduler/tclk_solver.py:43-48 | modulo a prime only 1 and -1 square to 1 |
| Primality.Round | apps/scheduler/tclk_solver.py:40-48 | one base is passed exactly when its power is 1 or some square before the last is -1 |
| Primality.PrimeAccepted | apps/scheduler/tclk_solver.py:29-49 | no prime is ever rejected, however large |
| Primality.ExactBelow1681 | apps/scheduler/tclk_solver.py:29-49 | below 41 squared the test is exact |
| Primality.IsPrime | apps/scheduler/tclk_solver.py:29-49 | the loops decide the specified test, accept every prime, and are exact below 1681 |
| Primality.PrimeAbove | apps/scheduler/tclk_solver.py:52-58 | above every number there is a prime, so the search for the next one ends |
| Primality.NextPrime | apps/scheduler/tclk_solver.py:52-58 | the search ends above n on an accepted number and skips a prime if and only if n is 0 |
| Primality.CountPrimes | apps/scheduler/tclk_solver.py:106-108 | the count below n is never less than the number of primes, and equal to it up to 1681 |
| Divisors.TauPrimePower | apps/scheduler/tclk_solver.py:111-119 | the divisor count is multiplicative at a prime power not dividing the rest |
| Divisors.CountDivisors | apps/scheduler/tclk_solver.py:109-119 | for every n above 0 the loop returns the number of divisors of n |
| Divisors.LargestPrimeFactor | apps/scheduler/tclk_solver.py:97-105 | for every n from 2 on the loop returns the largest prime factor |
| Runs.RunTable.Claim | apps/worker/worker.py:131-147 | a claim succeeds exactly on a queued run or an executing one whose lease is missing or over, and then writes holder and lease |
| Runs.RunTable.Heartbeat | apps/worker/worker.py:251-262 | only the recorded holder renews |
| Runs.RunTable.BeginPass | apps/scheduler/scheduler.py:111-119 | a pass reads every executing run, without locking it |
| Runs.RunTable.TestRow | apps/scheduler/scheduler.py:120-181 | the row as read is tested at its own clock reading; a stuck one is failed by id, whatever the row is by then, and gets a successor or a dead letter |
| Runs.RunTable.RecoverStuckRuns | apps/scheduler/scheduler.py:108-182 | a pass with nothing in between reads once and tests every row it read, in order, each at its own instant |
| Runs.SeizesExactly | apps/scheduler/scheduler.py:120-138 | a pass fails a run if and only if the lease as read is below the test instant or the heartbeat as read below the pass's start less fifteen minutes |
| Runs.LeaseExactly | apps/worker/worker.py:131-262 | while the holder renews within each lease, the run is taken from it if and only if some pass tests it after the lease that pass had read |
| Runs.LeaseExcludes | apps/worker/worker.py:131-147 | with renewals in time and every pass testing within the lease it read, no other claim succeeds and recovery never fails the run |
| Runs.StaleReadSeizes | apps/scheduler/scheduler.py:112-139 | the failing input: read at 10 s, renewed at 20 s, failed at 31 s with the lease running to 50 s |
| Runs.LeaseEnds | apps/worker/worker.py:139-142 | without renewal a claim becomes possible exactly when the lease is over |
| Runs.ClaimOpens | apps/worker/worker.py:131-147 | queued runs, successors of recovery among them, can always be claimed; finished, waiting, paused and just recovered ones never |
| Retries.ChainsEnd | apps/scheduler/scheduler.py:142-181 | over any history, with any number of schedulers and readings however stale, no chain of automatic retries is longer than three |
| Retries.SingleInStep | apps/scheduler/scheduler.py:108-143 | with one scheduler process every test that fails a run has read the retry count the run still has |
| Retries.TestWeight | apps/scheduler/scheduler.py:142-181 | a failing test puts the allowance of the count it had read in the place of the run's own, in the family of that run and in no other |
| Outbox.FailureEffect | apps/scheduler/scheduler.py:134-181 | a failing test either queues a new run and a message that names it 30, 60 or 120 seconds later, or writes a dead letter, as the retry count it read says |
| Outbox.OneMessageEach | apps/scheduler/scheduler.py:159-178 | over any history the messages name the automatic successors, each once and in order |
| Outbox.EachPublished | apps/scheduler/scheduler.py:159-178 | every message was published by the test that queued the run it names, at the wait of that run's retry count after its clock reading |
| Retries.FamilyBalance | apps/scheduler/scheduler.py:142-181 | over any history the runs of a root with those they may still give rise to are what the root began with and what stale failing tests have added, no more and no less |
| Retries.FamiliesEnd | apps/scheduler/scheduler.py:142-181 | a root has at most eight runs, itself included, even when failed runs are revived, and at most as many more as stale failing tests have added |
| Retries.RecoveredOnce | apps/scheduler/scheduler.py:142-181 | without revivals, and with failing tests on current readings, recovery fails a run at most once and makes one thing of it: a single successor below the limit, a single dead letter beyond it |
| Retries.SingleExactly | apps/scheduler/scheduler.py:112-181 | without revivals no run gets two successors and no dead letter is written twice if and only if every test that failed a run had read the retry count the run still had |
| Retries.DeadLetterLast | apps/scheduler/scheduler.py:142-157 | without revivals and stale failing tests a dead-lettered run is the third successor of a root that began with no retries, and correspondingly earlier of one that began with more |
| Retries.RetriesEnd | apps/scheduler/scheduler.py:142-181 | without revivals and stale failing tests each root and its automatic successors are at most four runs |
| Retries.OverlapSplits | apps/scheduler/scheduler.py:112-143 | the failing input: two passes that both read a run before either tests it give it two successors |
| Approvals.Store.Close | apps/worker/worker.py:347-354 | a run is closed only while it is still executing |
| Approvals.Store.Continue | apps/worker/worker.py:312-414 | the continuation transaction plans, stops, consumes or gives up as the newest approval demands |
| Approvals.Store.Finalize | apps/worker/worker.py:428-468 | the outcome is written to the execution row, when there is one, and to the run |
| Approvals.ContinuationEffect | apps/worker/worker.py:312-414 | a continuation either consumes one approval that had no execution, or changes no approval and at most marks one execution ambiguous |
| Approvals.ContinuationTells | apps/worker/worker.py:312-414 | which approval is called, when the run is closed and how, and when it is planned, with the latest approval in each status deciding |
| Approvals.FinalizationTells | apps/worker/worker.py:428-468 | a call that returned and was reported ends succeeded and completes the run, an error ends ambiguous and fails it, and nothing else changes |
| Approvals.RunEnds | apps/worker/worker.py:312-468 | a worker completes a run only on an execution whose call returned and fails it only on an ambiguous one |
| Approvals.StepSafe | apps/worker/worker.py:312-469 | every step of any worker, and a crash between any two, keeps the safety invariant |
| Approvals.AlwaysSafe | apps/worker/worker.py:312-469 | the invariant holds in every reachable state of any interleaving |
| Approvals.CalledAtMostOnce | apps/worker/worker.py:401-427 | the tool of an approval is called at most once, only after its consumption, and exactly once if its execution is marked succeeded |
| Approvals.OutcomesTold | apps/worker/worker.py:428-468 | over any history an execution marked succeeded had its one call return, and one whose call did not return is in flight or ambiguous |
| Approvals.ApprovedRunCompletes | apps/worker/worker.py:312-468 | a worker that does not crash carries a queued run with an approval in force to completion, calling its tool once |
| Approvals.PlannedWithoutApproval | apps/worker/worker.py:154-161 | a run that reaches the planner has neither an approved nor a consumed approval |
| Approvals.StepKeepsSettled | apps/worker/worker.py:329-397 | no step calls the tool of an approval consumed and in nobody's hands |
| Approvals.SettledForGood | apps/worker/worker.py:329-397 | after a crash its tool is never called again, over any later history |
| Events.NextIsCount | packages/observability/events.py:46-51 | the highest number plus one is the number of earlier events of the run |
| Events.NumbersDense | packages/observability/events.py:46-51 | the numbers of a run are exactly 0, 1, 2, and so on |
| Events.FetchIsNext | apps/api/app.py:1491-1498 | a poll returns the next fifty rows after the cursor, or all of them |
| Events.BetweenCuts | apps/api/app.py:1491-1498 | the rows between two cursors are one stretch of the log |
| Events.Progress | apps/api/app.py:1515-1523 | each poll delivers fifty rows or catches up with what was committed |
| Events.Stream | apps/api/app.py:1511-1523 | over any growing log the generator has sent every row after its start up to its cursor, once, in order, and keeps pace |
| EventLogs.EventLog.AppendInSession | packages/observability/events.py:24-60 | an append waits for the lock, or reads the next number and inserts under it |
| EventLogs.EventLog.CommitTransaction | packages/observability/events.py:71-74 | commit publishes the pending rows and frees the lock |
| EventLogs.EventLog.RollbackTransaction | packages/observability/events.py:71-74 | rollback drops them without rewinding the counter |
| EventLogs.EventLog.AppendSafe | packages/observability/events.py:63-84 | it waits while another transaction holds the lock; otherwise the row is committed once if some attempt is fine and all before it were integrity errors, and not at all if none is |
| EventLogs.LandedExactly | packages/observability/events.py:63-84 | some attempt is fine and all before it integrity errors exactly when the loop lands its row |
| EventLogs.LogStep | packages/observability/events.py:24-60 | every statement of every transaction keeps numbers dense and global numbers rising |
| EventLogs.AppendLands | packages/observability/events.py:24-60 | a transaction that meets no other appends one event, numbered by the run's earlier events, above all global numbers |
| EventLogs.LockExcludes | packages/observability/events.py:24-60 | while one transaction holds the lock no statement of another changes the log |
| EventLogs.LogOrdered | packages/observability/events.py:24-60 | over any interleaving each run is numbered 0 to n-1 and every commit lies above all earlier ones |
| EventLogs.ReaderStep | apps/api/app.py:1511-1523 | polling, sending, receiving and reconnecting keep a reader exact |
| EventLogs.StreamExact | apps/api/app.py:1480-1523 | every reader, across reconnections, was sent and received exactly what was committed after its start up to its cursors |
| EventLogs.ReaderMoves | apps/api/app.py:1491-1523 | a poll queues the next fifty rows or all, which go out and arrive one by one; a reconnection resumes after the last one received |
| EventLogs.EventArrives | apps/api/app.py:1511-1523 | an event appended in any reachable state reaches an up-to-date reader by one poll |
| EventLogs.HistoryGrows | packages/observability/events.py:24-60 | committed events are never changed, removed or reordered |
| Numerals.DigitsOfValue | apps/tools/flop_rail_check.py:58-77 | a number forgets nothing about its numeral but leading zeros, in any base |
| Numerals.TranscodeInverse | apps/tools/flop_rail_check.py:58-77 | changing base and back, with leading zeros counted, is the identity |
| Numerals.ByteLength | apps/tools/flop_rail_check.py:65-65 | the rounded bit length is the length of the base-256 numeral, so the conversion never overflows |
| Base58.Decode | apps/tools/flop_rail_check.py:58-67 | the loop computes the specified decoding and refuses exactly the texts outside the alphabet |
| Base58.Encode | apps/tools/flop_rail_check.py:70-77 | the loop computes the specified encoding |
| Base58.DecodeEncode | apps/tools/flop_rail_check.py:58-77 | decoding undoes encoding on every byte string |
| Base58.EncodeDecode | apps/tools/flop_rail_check.py:58-77 | encoding undoes decoding on every text over the alphabet |
| Base58.AlphabetExactly | apps/tools/flop_rail_check.py:40-77 | the alphabet is the digits and letters without 0, I, O and l, in code point order |
| Base58.EncodedMeans | apps/tools/flop_rail_check.py:70-77 | the text is the bytes' number in base 58 with a one for each leading zero byte |
| Base58.DidToAccount | apps/tools/flop_rail_check.py:80-90 | each error and the key in the order in which they are tested |
| Base58.AccountExactly | apps/tools/flop_rail_check.py:80-90 | a did yields a key if and only if it is the did of that 32-byte key |
| Terms.TermsRaw | apps/earn/close1.py:93-118 | the scanner loop finds the first marker and the end of the object after it, raises without a brace, and finds nothing when braces stay open |
| Terms.ScanValue | apps/earn/close1.py:101-117 | any value of the JSON grammar leaves depth and string state as they were |
| Terms.ScanTop | apps/earn/close1.py:101-117 | the scan of an object text ends exactly on its last character |
| Terms.TermsExact | apps/earn/close1.py:93-118 | for every JSON object, any prefix without a marker and any suffix, the object's text comes back character for character |
| Terms.TruncatedMissing | apps/earn/close1.py:93-118 | a line cut off inside the object yields nothing |
| AgentGate.Agent.RateOk | apps/scheduler/agent_scorer.py:939-951 | old stamps are dropped and the room is judged on the rest |
| AgentGate.Agent.PruneActive | apps/scheduler/agent_scorer.py:926-937 | exactly the deals older than the time to live are dropped |
| AgentGate.Agent.HandleOffer | apps/scheduler/agent_scorer.py:499-528 | the gates in the order of the code, and what each refusal leaves behind |
| AgentGate.Agent.Commit | apps/scheduler/agent_scorer.py:553-654 | the slot, stamp and delivery of a committed offer, given back when producer, post or later work fails |
| AgentGate.Agent.HandleLock | apps/scheduler/agent_scorer.py:1097-1118 | a matched deal is locked once and its answer shipped unless it was already |
| AgentGate.PrunedExactly | apps/scheduler/agent_scorer.py:926-937 | a deal is kept, unchanged, exactly while it is within its time to live |
| AgentGate.PostsExactly | apps/scheduler/agent_scorer.py:499-580 | an accept is posted if and only if every gate is open, the gates spelt out by what is remembered |
| AgentGate.LockExactly | apps/scheduler/agent_scorer.py:1097-1118 | a lock ships if and only if the deal is due and neither remembered nor recorded as delivered, and always locks the deal |
| AgentGate.NoCapNoPosts | packages/connectors/tclk.py:416-425 | without a positive cap nothing is ever posted, whatever the reserve |
| AgentGate.ActiveBounded | apps/scheduler/agent_scorer.py:504-507 | active deals never exceed the configured maximum |
| AgentGate.AcceptedOnce | apps/scheduler/agent_scorer.py:515-521 | over any history one author and nonce is accepted at most once |
| AgentGate.DeliveredOnce | apps/scheduler/agent_scorer.py:1253-1263 | no deliverable is posted twice, whichever path ships it, if and only if no offer that goes through carries a contract id already shipped |
| AgentGate.SharedIdShipsTwice | apps/scheduler/agent_scorer.py:553-654 | the failing input: two offers under one contract id |
| AgentGate.QuotaHolds | apps/scheduler/agent_scorer.py:939-951 | under a non-decreasing clock the remembered stamps are the latest posts and every window ending at a post respects its ceiling |
| AgentGate.HourlyQuota | packages/connectors/tclk.py:416-425 | in no hour, wherever it begins, are there more accepts than cap plus reserve, nor more than the cap up to one that is not a validation |
| Windows.WithinSuffix | apps/scheduler/agent_scorer.py:949-949 | on non-decreasing stamps the filter keeps exactly the recent suffix |
| Assembler.ContextAssembler.constructor | packages/context_engine/assembler.py:110-115 | the budget is the request or the minimum, whichever is larger |
| Assembler.ContextAssembler.Add | packages/context_engine/assembler.py:117-151 | a segment is appended and marked untrusted by flag or kind; none is overwritten |
| Assembler.ContextAssembler.Group | packages/context_engine/assembler.py:168-170 | each kind's segments in order, kinds by first appearance |
| Assembler.ContextAssembler.Arrange | packages/context_engine/assembler.py:161-180 | the dictionary loops compute the specified order |
| Assembler.ContextAssembler.Assemble | packages/context_engine/assembler.py:153-197 | the loop selects as specified and rewrites the reason of exactly the skipped segments |
| Assembler.OrderingPermutes | packages/context_engine/assembler.py:161-180 | the order is a permutation of the added segments |
| Assembler.OrderingCriticalFirst | packages/context_engine/assembler.py:171-180 | policy and goal segments precede all others |
| Assembler.SortStable | packages/context_engine/assembler.py:177-178 | unlisted segments fall in relevance and keep their order within one relevance |
| Assembler.SequenceOrder | packages/context_engine/assembler.py:161-180 | segments stand in the order of the nine listed kinds, unlisted kinds last, those of one listed kind as they were added |
| Assembler.WithinBudget | packages/context_engine/assembler.py:182-197 | selected tokens stay within the larger of budget and critical tokens, untrusted ones within a quarter |
| Assembler.SkippedUnfit | packages/context_engine/assembler.py:182-197 | every skipped segment still would not fit the final selection |
| Assembler.AssemblyGuarantees | packages/context_engine/assembler.py:153-197 | permutation, subsequence, both budgets and maximality together, for any segments |
| Coordinator.CircuitBreaker.RecordFailure | packages/agent_core/coordinator.py:28-34 | a failure joins the recent ones of its tool and the answer compares their number with the threshold |
| Coordinator.OpensExactly | packages/agent_core/coordinator.py:28-34 | the circuit opens exactly when the last five failures in a row fall within the cooldown |
| Coordinator.RunCoordinator.CheckGuard | packages/agent_core/coordinator.py:84-110 | the guard passes exactly within every limit |
| Coordinator.RunCoordinator.CallTool | packages/agent_core/coordinator.py:251-277 | counters, entries and breaker after a success, an error and an unrecorded success |
| Coordinator.RunCoordinator.TakeTurn | packages/agent_core/coordinator.py:187-277 | one pass of the loop makes the specified step |
| Coordinator.RunCoordinator.Run | packages/agent_core/coordinator.py:167-311 | status, entries and attempts of the whole loop are those specified; an empty plan fails at once |
| Coordinator.AttemptsDisciplined | packages/agent_core/coordinator.py:167-311 | tools are called for a prefix of the plan, in order, never one denied or awaiting approval; all calls stay within the iteration budget and those that succeeded, which is what the code counts, within the call budget; the run ends in one of five statuses |
| Coordinator.CompletesExactly | packages/agent_core/coordinator.py:279-311 | a run completes if and only if the plan has an action and every action was allowed, in time, successful and within budget with nobody asking to pause or stop |
| RunEndings.EndsExactly | packages/agent_core/coordinator.py:167-311 | each of the five endings, if and only if: by the turn at which the loop first halts and why, and the flags in force, a pause outranking a kill and both outranking the rest |
| RunEndings.CallsExactly | packages/agent_core/coordinator.py:187-277 | the tools called are those of the actions up to that turn, and the entries are what their calls leave, in order |
| Ledger.SpendCap | apps/earn/flop_compute.py:104-110 | the cap is the product rounded down, between 0 and the principal, and is refused exactly outside its domain |
| Ledger.Attempt | apps/earn/flop_compute.py:265-317 | a spend row means a positive amount within what the cap leaves, which the available client was asked for and confirmed |
| Ledger.RefusalsExactly | apps/earn/flop_compute.py:281-317 | each refusal exactly when its check is the first to fail, without a call or money moving before the client is reached |
| Ledger.PaymentRecorded | apps/earn/flop_compute.py:300-317 | money that moves in a call is recorded if and only if the client had been found available and confirms; the row is truthful exactly when the call does not get that far or those two agree with the money |
| Ledger.HiddenPayments | apps/earn/flop_gateway.py:73-84 | the failing inputs: an answer lost after the payment, one that cannot be read, and a client found unavailable that pays |
| Ledger.MoneyBalances | apps/earn/flop_compute.py:265-327 | over any sequence of attempts the ledger and the money differ by exactly the unrecorded payments and the spends without payment |
| Ledger.HonestLedger | apps/earn/flop_compute.py:265-327 | nothing moves unrecorded and nothing is recorded unmoved if and only if every attempt that reaches the client gets an answer that agrees with the money; then the ledger records exactly what moved, and the money keeps the cap |
| Ledger.LostAnswersUnbounded | apps/earn/flop_compute.py:309-316 | when answers are lost the same payment can be repeated without bound and never counts against the cap |
| Ledger.Summarize | apps/earn/flop_compute.py:346-385 | the loop computes the specified roll-up and counts all blocked rows |
| Ledger.SummaryConcat | apps/earn/flop_compute.py:346-385 | summarizing two ledgers end to end is merging their summaries |
| Ledger.BreakdownsAdd | apps/earn/flop_compute.py:356-385 | the breakdowns by call and by reason add up to the totals |
| Ledger.SummaryExactly | apps/earn/flop_compute.py:346-385 | each entry of the roll-up is a sum over the rows, and it raises exactly on a creditable settlement with a negative locked part |
| Ledger.CreditBound | apps/earn/flop_compute.py:113-117 | three locked units unlock one, with at most two lost per credited settlement |
| Ledger.CapKept | apps/earn/flop_compute.py:285-320 | over any sequence of attempts spending never passes the cap unless it stood above it, and the ledger only grows |
| Ledger.SameReading | apps/earn/flop_compute.py:521-533 | attempts judged on one reading of the ledger keep the cap if and only if the requests that pass every check and are confirmed together ask for no more than the reading left, or there is none |
| Ledger.StaleReadPasses | apps/earn/flop_compute.py:521-533 | the failing input: two purchases of 60 under a cap of 75 |
| Ledger.Book.Record | apps/earn/flop_compute.py:320-327 | recording appends one row |
| Ledger.Book.BuyRepeatedly | apps/earn/flop_compute.py:496-519 | the running total stays the ledger's, the cap holds at every turn, and the loop stops at the first row that is not a spend |
| Signing.SweepText | packages/connectors/technocore.py:66-91 | the branches of the loop sweep exactly the invisible characters |
| Signing.SweepIdempotent | packages/connectors/technocore.py:66-91 | sweeping again, even after cutting, changes nothing |
| Signing.SweptClean | packages/connectors/technocore.py:66-91 | a character becomes a space exactly for its category or its code point, and is kept otherwise |
| Signing.PayloadInjective | packages/connectors/technocore.py:94-101 | room, nonce and swept text can be read back from the signed string |
| Signing.PatternsExactly | packages/connectors/technocore.py:94-101 | room names and nonces are exactly the texts their patterns, spelt out, describe |
| Signing.NonceSource.Next | packages/connectors/technocore.py:116-126 | the nonce drawn becomes the last one |
| Signing.NonceSource.EnsureGreater | packages/connectors/technocore.py:128-138 | likewise for a candidate from outside |
| Signing.LeastNonces | packages/connectors/technocore.py:116-138 | each nonce is the least number above the last one that reaches the clock or the candidate |
| Signing.IssuedRise | packages/connectors/technocore.py:107-138 | nonces strictly increase over any draws and any clock |
| Signing.SignedOnce | packages/connectors/technocore.py:94-138 | no two strings signed with one generator's nonces are equal |
| Signing.NonceLength | packages/connectors/technocore.py:122-124 | a drawn nonce fits nineteen digits, and so can be signed, if and only if the last one was below the limit |
| Signing.NonceTable.NextNonce | packages/connectors/technocore.py:291-325 | the drawn nonce is raised above the room's row, or the draw fails on the column's width |
| Signing.StoredSucceeds | packages/connectors/technocore.py:291-325 | a stored draw succeeds if and only if the generator's value fits the column and the room's row is below its largest value |
| Signing.PresentDayFails | packages/connectors/technocore.py:291-325 | with a 32-bit column every draw at a present-day clock fails |
| Signing.StoredLeast | packages/connectors/technocore.py:291-325 | a stored nonce is the least number that reaches the generator's and is above the room's row |
| Signing.StoredRise | packages/connectors/technocore.py:291-325 | a room's stored nonces strictly increase over any processes and restarts |
| Signing.RaisedExactly | packages/connectors/technocore.py:291-325 | a stored draw is raised above the generator's value if and only if the room's row is not below that value and not at the column's limit |
| Signing.MixedRise | packages/connectors/technocore.py:105-325 | over any mix of plain, outside and stored draws in which none is raised, the nonces of a process strictly increase |
| Signing.RepeatsExactly | packages/connectors/technocore.py:478-487 | after any such history the generator can issue one of its nonces again if and only if that nonce lies above its own last value |
| Signing.MixingExactly | packages/connectors/technocore.py:478-487 | no moment of a history can be followed by a repetition if and only if no stored draw of it was raised |
| Signing.MixedRepeat | packages/connectors/technocore.py:478-487 | the failing input, with a 64-bit column at a present-day clock: a raised stored draw and a plain one half a minute later give the same nonce |
| Signing.PostsExactly | packages/connectors/technocore.py:466-477 | a post goes out if and only if room and nonce are well formed and the swept text is not blank |
| Signing.BodyIsSigned | packages/connectors/technocore.py:471-496 | the posted text is the swept text cut at 4096 characters, and exactly the text under the signature |

## Left out

- Primality.IsPrime: from 1681 on only "no prime is rejected" is proved; that no composite passes needs a published bound on the listed bases.
- Primality.CountPrimes: exact up to 1681 only, for the same reason.
- CanonicalJson.ValueRoundTrip: floats are not among the values, and a text with a fraction or exponent fails to decode in the model.
- Transcripts.FoldRecords: a frame that carries a float counts as undecodable, for the same reason.
- JsonDecode.StringRoundTrip: characters are Unicode scalars, so unpaired surrogates, which Python strings may hold, are not modelled.
- AgentGate.HourlyQuota: counts the accepts whose post call returned, as the code does; a post that raised after reaching the server is not counted.
- AgentGate.AcceptedOnce: holds within one process, as the set of seen offers lives in memory.
- Runs.RunTable.TestRow: a pass is one transaction in the source; one that rolls back as a whole is not modelled, and what other transactions see of it before its commit is modelled as seen at once.
- Retries.RecoveredOnce: a dead letter is the run's own dead-letter event; a failed publication to the queue beside it is swallowed by the code and not modelled.
- Ledger.Attempt: does not state that a spend row means that money moved, which the code cannot ensure; HonestLedger states when it is so.
- Ledger.SpendCap: the ratio is a real number; rounding of its floating-point product is not modelled.
- Assembler.WithinBudget: a quarter of the budget is taken exactly.
- EventLogs.EventLog.AppendInSession: the PostgreSQL path only; the SQLite fallback numbers by maximum.
- Approvals.Store.Continue: the payload handed to the tool is not modelled, only which approval it belongs to.
- Coordinator.RunCoordinator.Run: an event sink that fails while storing the plan or an approval request aborts the run with an exception; the emitted events themselves are not modelled.
- Assembler.ContextAssembler.Assemble: segment texts, redaction and the joined prompt; a segment is its kind, tokens, relevance and trust.
- Signing.BodyIsSigned: the DID and signature patterns asserted before posting, retries and rate-limit waits.
- Ed25519, SHA-256, HMAC and UTF-8 encoding are uninterpreted; nothing is claimed about their strength.
- Recursion limits, integer digit limits and memory limits of the Python interpreter.
- Human-readable rejection texts: reasons are constructors with the values they mention, and where several are true the source's order decides which is given.
- Offer auditing, risk tiers, difficulty patterns, brief resolution, solver and producer: one input says whether they cleared an offer.
- The reveal's retries and the rebuilding of a deal from the audit row after a restart.
- Collatz steps, greatest common divisor, modular power and the pattern-based solvers of the job solver.
- Material row parsing and timestamp conversion of the protocol judge.
- Terminal run statuses are not absorbing: the last write of a slow worker is not fenced. No such claim is made.
- Delivery of outbox messages: twenty dead messages at the head hold up the rest. No liveness is claimed.
- Message acknowledgement: a worker may acknowledge a message at any time after its step, which the model's free redelivery covers.
- HTTP, Telegram, Redis, SQL syntax, authentication, dashboards and migrations.
