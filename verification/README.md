# FrankenSim: verified models

Dafny models of the parts of FrankenSim whose correctness rests on an argument over every input,
every run or every interleaving, with proofs of what those parts promise. Each model follows the
branches, bounds and constants of the code it cites. Code that updates state in place is a class or
a method with loops, proved against a function of its inputs or of the old state; what that function
promises is proved by lemmas.

Verify everything with `dafny verify dfyconfig.toml` (Dafny 4.11).

## What is modelled

- **Constellation admission** (`Admission*.dfy`). A request passes through diagnostic, admitted and
  terminal phases by seventeen kinds of transition under budgets, a deadline and an event limit.
  `AdmissionPolicy` is the construction of a context, `AdmissionProtocol` the transition function
  and runs, `AdmissionProfiles` the accepted declarations by command, `AdmissionOutcomes` what each
  call does in each phase and that success is within reach, `AdmissionRuns` and
  `AdmissionProvenance` the theorems about whole runs, `AdmissionCodec`, `AdmissionEnvelope` and
  `AdmissionRoundTrip` the canonical record and its decoding by replay, `AdmissionWire` the encoder
  and decoder as objects, field by field, and `AdmissionMachines` the machine as an object. A
  machine is *reachable* when replaying its history on its valid context gives it; every sequence of
  calls, refused ones included, ends in a reachable machine.
- **Dependency-graph receipts** (`Receipt*.dfy`). A canonical JSON subset with strings as in section 7
  of RFC 8259: validator, printer and strict parser. `ReceiptValidity` says which receipts are valid,
  `ReceiptJson` what an emitted string means. Texts are sequences of Unicode scalar values and a
  `BTreeSet` is its strictly ascending listing. Order on texts is by code point, which is the order of
  UTF-8 bytes.
- **PCM streams** (`Pcm*.dfy`). The bounded audio queue: a producer behind a semaphore, main-actor
  tasks that may arrive in any order, playback callbacks, and streams that replace each other. A run
  is any sequence of enabled steps. A wait that times out and finds the flag unset changes nothing
  and is not a step. A buffer that is still held is reported as played only after playback started.
- **Heatsink shell** (`Heatsink*.dfy`). Both plate generators as emissions of the boundary of a solid
  of lattice cells, over any strictly increasing breakpoints and any labelling of the fin cells.
- **Kuhn grid** (`Kuhn*.dfy`). Vertex numbering of the tetrahedral box grid, and the orientation,
  conformity, total volume and boundary counts of the rows and positions it stores.
- **Wildcard matching** (`Wildmatch.dfy`), **build-identity framing** (`BuildIdentity.dfy`),
  **pin drift** (`PinDrift.dfy`) over an acyclic commit graph, and the **consolidation sweep**
  (`Consolidation.dfy`).

`Wrappers.dfy`, `Bytes.dfy` and `Orderings.dfy` hold what several models share.

## Findings

- The receipt parser's closing comparison with the re-emitted text
  (`crates/fs-la/depgraph_receipt_format.rs:648-650`) can never fail:
  `ReceiptRoundTrip.ClosingComparisonIsRedundant`.
- The only way a record that decodes and replays can be non-canonical is a capability row out of slot
  order: `AdmissionRoundTrip.NonCanonicalExactlyWhenUnsorted`.
- The introduction of `xtask/src/consolidation.rs` (lines 14-16) calls any disposition of a reached
  crate stale, but the code charges only the three parked dispositions (lines 354-364). The model
  follows the code: `Consolidation.KeptCrateInUseIsNotCharged` is a review that passes against that
  sentence, and `Consolidation.OnlyParkedDispositionsGoStale` says exactly when the sentence holds.
- A PCM plan with one queue slot and more than one block can never be played to its end: playing the
  only queued block leaves the queue empty, which `ios/Sources/SimulationEngine.swift:250-254` takes for
  starvation. `PcmOutcomes.SingleSlotStarves` shows it, and `PcmOutcomes.PlayableExactly` that these are
  exactly the plans that fail. The plan in use (line 181) has 16 slots.

## Model

| member | source | states |
|---|---|---|
| `AdmissionPolicy.TryNewIgnoresRowOrder` | xtask/src/constellation_admission.rs:684-777 | a context is accepted or refused alike, with the same result, whatever order its path and executable rows are supplied in |
| `AdmissionPolicy.TryNewIsCanonical` | xtask/src/constellation_admission.rs:753-777 | an accepted context is accepted again unchanged, and equals its declaration exactly when both row lists are in ascending slot order |
| `AdmissionPolicy.ValidContextGrants` | xtask/src/constellation_admission.rs:684-751 | read-only commands and no others lack publication authority and stay offline, offline is exactly zero network caps, the deadline uses the cx clock, and a publication target is bound to exactly one declared path |
| `AdmissionPolicy.SortFixesAscending` | xtask/src/constellation_admission.rs:753-765 | sorting by slot changes nothing exactly when the rows were already ascending |
| `AdmissionProfiles.AcceptedWhenGood` | xtask/src/constellation_admission.rs:684-777 | a declaration is accepted exactly when no slot has two rows, clock and network budgets fit, a publication target is bound, and the path and executable slots are those of the command's profile |
| `AdmissionProfiles.ProfilesFitLimits` | xtask/src/constellation_admission.rs:685-692 | no acceptable declaration is refused for the number of its rows |
| `AdmissionProfiles.RefusalIsTrue` | xtask/src/constellation_admission.rs:684-777 | a refused declaration breaks the rule that it is refused for, for every rule of the construction |
| `AdmissionProtocol.DrainObligations.CheckedSub` | xtask/src/constellation_admission.rs:1186-1193 | progress is subtracted componentwise, and refused exactly when some component would go negative |
| `AdmissionRuns.AcceptanceIsExact` | xtask/src/constellation_admission.rs:1815-1874 | a call is accepted exactly when the phase guard accepts it, the tick rules pass, a slot is free and terminal headroom remains: the coarse kind table and the early retry refusals never decide alone |
| `AdmissionRuns.LogOfReachable` | xtask/src/constellation_admission.rs:1874-1894 | event i records call i with its sequence number, kind and tick, starts where event i-1 ended, and the last one ends in the current state |
| `AdmissionProtocol.RunsAreReachable` | xtask/src/constellation_admission.rs:1815-1895 | after any sequence of calls, refused ones included, the machine is one that replaying its own history gives: refused calls leave no trace |
| `AdmissionProtocol.ReplayKeepsContext` | xtask/src/constellation_admission.rs:1815-1895 | a replay never changes the context and appends exactly the replayed calls to the history |
| `AdmissionRuns.HeadroomRemains` | xtask/src/constellation_admission.rs:1861-1871 | in every reachable state at least the minimum number of terminal events still fits under the event limit |
| `AdmissionRuns.EscapeSucceeds` | xtask/src/constellation_admission.rs:1861-1871 | from every reachable state the tick-free escape plan is accepted and ends in a finalized attempt, whatever deadline, clock and budgets say |
| `AdmissionRuns.EscapePlan` | xtask/src/constellation_admission.rs:2454-2505 | the plan consists of tick-free refuse, declare, drain and finalize steps, and is as long as the minimum the machine reserves |
| `AdmissionRuns.EscapeIsShortest` | xtask/src/constellation_admission.rs:2454-2505 | no sequence of those steps shorter than the reserved minimum finalizes the attempt |
| `AdmissionRuns.PublicationAtMostOnce` | xtask/src/constellation_admission.rs:2240-2361 | over a whole run at most one authorization and one final publication are committed, and no retry follows an authorization |
| `AdmissionRuns.FinalStatesAcceptNothing` | xtask/src/constellation_admission.rs:1843-1860 | published, completed and finalized indeterminate machines accept no further call |
| `AdmissionRuns.FinalizedAttemptAcceptsOnlyRetry` | xtask/src/constellation_admission.rs:1092-1110 | a finalized attempt accepts nothing but a retry |
| `AdmissionRuns.BudgetsAreConserved` | xtask/src/constellation_admission.rs:2514-2573 | each consumption component equals the sum of all committed charges of its dimension over all attempts and never exceeds its cap; retries replenish nothing |
| `AdmissionRuns.RetriesCountAttempts` | xtask/src/constellation_admission.rs:2293-2341 | retries consumed, the attempt number and the number of committed retries are one number, within the retry cap |
| `AdmissionRuns.OfflineSpendsNoNetwork` | xtask/src/constellation_admission.rs:684-751 | an offline request has network consumption zero in every reachable state |
| `AdmissionRuns.ClockOfReachable` | xtask/src/constellation_admission.rs:1815-1839 | observed ticks never decrease over a run, none passes the deadline, and none exceeds the tick the machine holds |
| `AdmissionRuns.AttemptIdentitiesAreFresh` | xtask/src/constellation_admission.rs:2293-2336 | after k retries the 2(k+1) cx and cancellation identities are pairwise distinct and differ from the one clock, which never changes |
| `AdmissionRuns.FreshBindingIsNew` | xtask/src/constellation_admission.rs:2439-2444 | a binding that passes the reuse test against all earlier ones shares no identity with any of them |
| `AdmissionRuns.CancellationDrainsExactly` | xtask/src/constellation_admission.rs:2011-2067 | a finalized cancelled attempt has at least one drain since its request, and the drains sum componentwise to the requested obligations |
| `AdmissionProvenance.PublishedProvenance` | xtask/src/constellation_admission.rs:1906-1965 | a published run ends with begin, recheck, authorize and finalize back to back, after preflight and stability recheck of the same attempt; all three observations carry one snapshot and the context's anchor and generation, and the evidence names this request, attempt, target, fence and receipt |
| `AdmissionProvenance.CompletedProvenance` | xtask/src/constellation_admission.rs:2127-2180 | a completed read-only run ends with begin and completion, after preflight and recheck of the same attempt on one snapshot |
| `AdmissionProvenance.RefusalPrecedesEffects` | xtask/src/constellation_admission.rs:1995-2010 | in a diagnostic, refused or unanchored state the current attempt has not been admitted to anything since it began |
| `AdmissionOutcomes.PhaseTable` | xtask/src/constellation_admission.rs:1843-1861 | in time and with room, the calls refused as illegal are exactly those the phase does not listen to, phase by phase |
| `AdmissionOutcomes.LateCallsAreRefused` | xtask/src/constellation_admission.rs:1819-1842 | a full log, a clock that runs backwards and a passed deadline refuse with their own rules |
| `AdmissionOutcomes.PreflightDecides` | xtask/src/constellation_admission.rs:1905-1942 | a fresh attempt that sees the context's anchor is preflighted, and any other observation ends it as unanchored, unavailable or mismatched |
| `AdmissionOutcomes.RecheckDecides` | xtask/src/constellation_admission.rs:1944-1972 | a preflighted attempt becomes active exactly when the same snapshot and anchor are seen again, and is refused otherwise |
| `AdmissionOutcomes.RefuseDecides` | xtask/src/constellation_admission.rs:1996-2008 | each refusal reason ends a diagnostic attempt with its own rule |
| `AdmissionOutcomes.PollDecides` | xtask/src/constellation_admission.rs:1984-1995 | a poll passes exactly when the unpolled work is within the attempt's own bound |
| `AdmissionOutcomes.ChargeDecides` | xtask/src/constellation_admission.rs:1973-1983 | a charge is accepted exactly when it fits what is left and the network is permitted, and it alone is added |
| `AdmissionOutcomes.BeginReadOnlyDecides` | xtask/src/constellation_admission.rs:2123-2148 | active work closes read-only exactly when the request holds no publication authority |
| `AdmissionOutcomes.CompleteReadOnlyDecides` | xtask/src/constellation_admission.rs:2149-2182 | completion succeeds on the admitted snapshot and anchor and is indeterminate otherwise |
| `AdmissionOutcomes.BeginPublicationDecides` | xtask/src/constellation_admission.rs:2183-2200 | active work closes for publication exactly when the request holds the authority |
| `AdmissionOutcomes.PublicationRecheckDecides` | xtask/src/constellation_admission.rs:2201-2240 | the publication is ready on the admitted snapshot and anchor and indeterminate otherwise |
| `AdmissionOutcomes.AuthorizeDecides` | xtask/src/constellation_admission.rs:2241-2252 | a ready publication commits under its fence with the given receipt |
| `AdmissionOutcomes.FinalizePublicationDecides` | xtask/src/constellation_admission.rs:2253-2277 | publication succeeds exactly on evidence of this request, attempt, target, fence and receipt |
| `AdmissionOutcomes.PublicationFailedDecides` | xtask/src/constellation_admission.rs:2278-2292 | each publication failure makes the outcome indeterminate with its own rule |
| `AdmissionOutcomes.CancelDecides` | xtask/src/constellation_admission.rs:2009-2026 | an admitted attempt can be cancelled until its publication is authorized, and owes what was declared |
| `AdmissionOutcomes.DrainDecides` | xtask/src/constellation_admission.rs:2027-2046 | a drain takes off what it completed, and more than is owed is refused |
| `AdmissionOutcomes.FinalizeDecides` | xtask/src/constellation_admission.rs:2047-2079 | ending an attempt keeps the rule it ended for |
| `AdmissionOutcomes.FinalizeCancelledDecides` | xtask/src/constellation_admission.rs:2080-2101 | a cancelled attempt ends exactly after a drain that leaves nothing owed |
| `AdmissionOutcomes.DeclareDecides` | xtask/src/constellation_admission.rs:2102-2122 | each uncertainty makes an unfinished admitted or cancelled attempt indeterminate with its own rule |
| `AdmissionOutcomes.RetryDecides` | xtask/src/constellation_admission.rs:2293-2341 | a finished attempt is retried exactly on the request's clock, with identities new to the whole run and within the retry budget |
| `AdmissionOutcomes.AdmissionIsReached` | xtask/src/constellation_admission.rs:1905-1961 | two equal observations of the expected anchor admit every fresh attempt with room |
| `AdmissionOutcomes.PublicationIsReached` | xtask/src/constellation_admission.rs:2183-2277 | from every fresh anchored attempt with authority and room, six calls publish, whatever the identities |
| `AdmissionOutcomes.CompletionIsReached` | xtask/src/constellation_admission.rs:2123-2182 | from every fresh anchored attempt without that authority, four calls complete |
| `AdmissionOutcomes.SuccessIsPossible` | xtask/src/constellation_admission.rs:1815-1895 | a request has a run that publishes exactly when it is anchored with authority, and one that completes read-only exactly when it is anchored without |
| `AdmissionCodec.TransitionAt` | xtask/src/constellation_admission.rs:3377-3615 | a transition is read at an offset exactly when its own encoding stands there, for all seventeen kinds |
| `AdmissionCodec.TransitionSize` | xtask/src/constellation_admission.rs:3377-3517 | no transition takes more than 163 bytes |
| `AdmissionCodec.HistoryAt` | xtask/src/constellation_admission.rs:2363-2436 | a whole history is read exactly where its encoding stands |
| `AdmissionCodec.TagsFollowDeclarations` | xtask/src/constellation_admission.rs:1354-1390 | tags number each vocabulary in order of declaration, from 0, 16 or 32 |
| `AdmissionEnvelope.HeaderAt` | xtask/src/constellation_admission.rs:3033-3103 | the header is accepted exactly where magic, version, schema and domain stand |
| `AdmissionEnvelope.DeclarationAt` | xtask/src/constellation_admission.rs:3150-3303 | a context is read exactly where its encoding stands, within the row limits |
| `AdmissionEnvelope.FieldsExact` | xtask/src/constellation_admission.rs:2384-2415 | field decoding succeeds exactly on the envelopes of contexts within the row limits and histories within the event limit |
| `AdmissionRoundTrip.EncodingNeverFails` | xtask/src/constellation_admission.rs:2363-2382 | no reachable machine is too large to encode |
| `AdmissionRoundTrip.RoundTrip` | xtask/src/constellation_admission.rs:2363-2436 | decoding the record of a reachable machine returns that machine: context, state, consumption, attempt, cx, tick, history and events |
| `AdmissionRoundTrip.EveryRunRoundTrips` | xtask/src/constellation_admission.rs:1815-1895 | the same after any sequence of calls on a live machine |
| `AdmissionRoundTrip.DecodedIsLive` | xtask/src/constellation_admission.rs:2384-2436 | whatever decodes is the canonical record of some live machine |
| `AdmissionRoundTrip.EncodingIsInjective` | xtask/src/constellation_admission.rs:2363-2382 | different reachable machines have different records |
| `AdmissionRoundTrip.NonCanonicalExactlyWhenUnsorted` | xtask/src/constellation_admission.rs:2400-2436 | for bytes whose fields decode and whose history replays, the record is rejected as non-canonical exactly when its path or executable rows are out of slot order |
| `AdmissionWire.Encoder.AppendRows` | xtask/src/constellation_admission.rs:3150-3210 | the row loop appends the count and the rows in order |
| `AdmissionWire.Encoder.AppendContext` | xtask/src/constellation_admission.rs:3150-3210 | appends exactly the encoding of the context |
| `AdmissionWire.Encoder.AppendTransition` | xtask/src/constellation_admission.rs:3377-3517 | the fields appended one by one, under the kind's tag, are exactly the encoding of the transition |
| `AdmissionWire.Decoder.Header` | xtask/src/constellation_admission.rs:3085-3103 | moves the cursor past a correct header, or reports which part is wrong |
| `AdmissionWire.Decoder.Declaration` | xtask/src/constellation_admission.rs:3212-3303 | moves the cursor over one context, agreeing with the read function in value, offset and error |
| `AdmissionWire.Decoder.Transition` | xtask/src/constellation_admission.rs:3519-3615 | reading field by field agrees with the read function on every input, for all seventeen kinds: value, offset and first error |
| `AdmissionWire.Decoder.History` | xtask/src/constellation_admission.rs:2395-2415 | the decoding loop reads a counted history |
| `AdmissionMachines.AdmissionMachine.Apply` | xtask/src/constellation_admission.rs:1815-1895 | commits exactly what the step function gives, or refuses with its rule and leaves every field as it was |
| `AdmissionMachines.AdmissionMachine.Encode` | xtask/src/constellation_admission.rs:2363-2382 | produces the canonical record of the machine |
| `AdmissionMachines.Decode` | xtask/src/constellation_admission.rs:2384-2436 | decodes by replay on a fresh machine, agreeing with the record function in every outcome |
| `AdmissionMachines.ReplayOnFreshMachine` | xtask/src/constellation_admission.rs:2416-2436 | feeding a history to a fresh machine gives the replayed state, or stops at the first refusal |
| `ReceiptTokens.Hex4At` | crates/fs-la/depgraph_receipt_format.rs:444-456 | four lower-case digits are read as v exactly when they are the digits of v |
| `ReceiptTokens.CodePointAt` | crates/fs-la/depgraph_receipt_format.rs:470-499 | a unicode escape is read exactly where its canonical form stands; above the basic plane that is one surrogate pair |
| `ReceiptTokens.CharAt` | crates/fs-la/depgraph_receipt_format.rs:458-504 | every character has exactly one accepted spelling, the emitted one |
| `ReceiptTokens.StringAt` | crates/fs-la/depgraph_receipt_format.rs:285-311 | a string is read exactly where its emission stands and its size fits the bound |
| `ReceiptJson.StringMeansItsText` | crates/fs-la/depgraph_receipt_format.rs:285-311 | read with all escapes of section 7 of RFC 8259, an emitted string is its text |
| `ReceiptTokens.OptionalAt` | crates/fs-la/depgraph_receipt_format.rs:512-519 | an optional string is read exactly where its emission stands |
| `ReceiptTokens.BoolAt` | crates/fs-la/depgraph_receipt_format.rs:521-531 | a boolean is read exactly where its emission stands |
| `ReceiptTokens.SetAt` | crates/fs-la/depgraph_receipt_format.rs:533-555 | a sorted array is read exactly where its emission stands, with at most 1024 strictly ascending strings that each fit |
| `ReceiptFormat.RowOrderIsTotal` | crates/fs-la/depgraph_receipt_format.rs:66-93 | the derived order on package rows is a strict total order |
| `ReceiptFormat.RowScanIsExact` | crates/fs-la/depgraph_receipt_format.rs:259-275 | the row scan accepts exactly the strictly sorted lists of valid rows |
| `ReceiptFormat.ValidUnits` | crates/fs-la/depgraph_receipt_format.rs:224-283 | what a valid receipt guarantees of its units: bounds, order, validity, an fs-la unit, and the root unit when the root is fs-la |
| `ReceiptFormat.UnitListingIsCanonical` | crates/fs-la/depgraph_receipt_format.rs:259-281 | two valid receipts that agree up to listing the same units are equal |
| `ReceiptValidity.IdentityIsValidWhenGood` | crates/fs-la/depgraph_receipt_format.rs:181-222 | an identity is valid exactly when its name is a token, its version visible, its id readable and closed by name and version, and the id begins with the source or is spelled by the path digest |
| `ReceiptValidity.SelectionIsValidWhenGood` | crates/fs-la/depgraph_receipt_format.rs:234-252 | a selection is valid exactly when its target is a token, its features are selectors and there are none beside all-features |
| `ReceiptValidity.RowOrderIsLexicographic` | crates/fs-la/depgraph_receipt_format.rs:66-93 | rows compare field by field in order of declaration, texts by their first differing scalar |
| `ReceiptValidity.ReceiptIsValidWhenGood` | crates/fs-la/depgraph_receipt_format.rs:224-283 | validation succeeds exactly on receipts with a digest, a version, a good root and selection, 1 to 8192 good units in strict order, an fs-la unit, and the root among them if it is fs-la |
| `ReceiptValidity.RefusalIsTrue` | crates/fs-la/depgraph_receipt_format.rs:224-283 | a refused receipt has the fault that it is refused for |
| `ReceiptRoundTrip.IdentityAt` | crates/fs-la/depgraph_receipt_format.rs:557-575 | a package identity is read exactly where its emission stands |
| `ReceiptRoundTrip.RowsAt` | crates/fs-la/depgraph_receipt_format.rs:604-625 | the package array is read exactly where its emission stands, within the row bound |
| `ReceiptRoundTrip.ReceiptAt` | crates/fs-la/depgraph_receipt_format.rs:578-646 | a receipt is read exactly where its emission stands and its parts fit |
| `ReceiptRoundTrip.FieldsAreExact` | crates/fs-la/depgraph_receipt_format.rs:578-646 | the descent parser accepts exactly the canonical forms of receipts within its bounds |
| `ReceiptRoundTrip.ValidReceiptFits` | crates/fs-la/depgraph_receipt_format.rs:224-283 | validation is at least as strict as every bound of the parser |
| `ReceiptRoundTrip.ParseInvertsEmit` | crates/fs-la/depgraph_receipt_format.rs:345-389 | parsing an input gives a receipt exactly when emitting that receipt gives the input |
| `ReceiptRoundTrip.ClosingComparisonIsRedundant` | crates/fs-la/depgraph_receipt_format.rs:647-651 | whatever passes the descent parser and validation is canonical, so the closing comparison decides nothing |
| `ReceiptRoundTrip.EmissionIsInjective` | crates/fs-la/depgraph_receipt_format.rs:345-389 | different receipts never share a canonical form |
| `ReceiptProgram.CheckUnits` | crates/fs-la/depgraph_receipt_format.rs:259-282 | the loop over previous row and two flags agrees with the row rules, first fault included |
| `ReceiptProgram.CheckReceipt` | crates/fs-la/depgraph_receipt_format.rs:224-283 | agrees with the rules, first fault included; succeeds exactly on good receipts and names a fault the receipt has |
| `ReceiptProgram.Printer.PushChar` | crates/fs-la/depgraph_receipt_format.rs:287-309 | appends the canonical spelling of one character |
| `ReceiptProgram.Printer.PushJsonString` | crates/fs-la/depgraph_receipt_format.rs:285-311 | the character loop appends the emission of the string |
| `ReceiptProgram.Printer.PushStringArray` | crates/fs-la/depgraph_receipt_format.rs:321-330 | the separator loop appends the emission of the array |
| `ReceiptProgram.Printer.PushIdentity` | crates/fs-la/depgraph_receipt_format.rs:332-343 | appends the emission of the identity |
| `ReceiptProgram.Printer.PushPackages` | crates/fs-la/depgraph_receipt_format.rs:370-380 | the separator loop appends the emission of the package array |
| `ReceiptProgram.EmitText` | crates/fs-la/depgraph_receipt_format.rs:345-389 | validates, appends piece by piece and bounds the length: the emission, or the first error |
| `ReceiptProgram.Parser.Expect` | crates/fs-la/depgraph_receipt_format.rs:422-433 | moves past a token exactly when it stands at the cursor |
| `ReceiptProgram.Parser.FourHexDigits` | crates/fs-la/depgraph_receipt_format.rs:444-456 | the digit loop agrees with the read function |
| `ReceiptProgram.Parser.CodePoint` | crates/fs-la/depgraph_receipt_format.rs:470-489 | reads one code unit or a surrogate pair, agreeing in value, cursor and error |
| `ReceiptProgram.Parser.String` | crates/fs-la/depgraph_receipt_format.rs:458-510 | the character loop with its running size bound agrees with the read function in value, cursor and error |
| `ReceiptProgram.Parser.Strings` | crates/fs-la/depgraph_receipt_format.rs:533-555 | the array loop agrees with the read function in value, cursor and error |
| `ReceiptProgram.Parser.Identity` | crates/fs-la/depgraph_receipt_format.rs:557-575 | agrees with the read function in value, cursor and error |
| `ReceiptProgram.Parser.Packages` | crates/fs-la/depgraph_receipt_format.rs:604-625 | the row loop agrees with the read function in value, cursor and error |
| `ReceiptProgram.ParseText` | crates/fs-la/depgraph_receipt_format.rs:578-652 | the whole parser agrees with the parsing function in every outcome |
| `PcmProgress.RunsKeepInv` | ios/Sources/SimulationEngine.swift:203-256 | no interleaving drains an empty queue, and every reachable state satisfies the stream invariant |
| `PcmSafety.StepKeepsInv` | ios/Sources/SimulationEngine.swift:377-469 | each of the ten steps keeps the invariant and none traps |
| `PcmProgress.PermitsAreConserved` | ios/Sources/SimulationEngine.swift:277-322 | while a stream is wanted and unstopped, free permits and held, posted and queued blocks sum to the maximum; blocks alone never exceed it, and the queue is the set of held buffers |
| `PcmProgress.PostedBlocksAreNeverRefused` | ios/Sources/SimulationEngine.swift:215-224 | every block posted for the wanted stream finds room in the schedule: enqueueing never fails to reserve |
| `PcmProgress.CompletionMeansAllPlayed` | ios/Sources/SimulationEngine.swift:244-255 | a stream that ends as complete has played every block of its plan, with nothing in flight or held and its producer done |
| `PcmProgress.StaleStepsAreInert` | ios/Sources/SimulationEngine.swift:442-448 | late tasks, errors and callbacks of a replaced stream change neither the player nor its successor |
| `PcmProgress.NoAcquisitionAfterStop` | ios/Sources/SimulationEngine.swift:288-305 | once a stream is stopped it stays stopped, and over any continuation it posts at most the block already in hand |
| `PcmProgress.NeverStuck` | ios/Sources/SimulationEngine.swift:713-747 | in every reachable system where anything is left to happen, a step in which neither a packet nor the engine fails is enabled |
| `PcmProgress.InternalRunsAreBounded` | ios/Sources/SimulationEngine.swift:713-747 | without new requests every run is no longer than the work left at its start |
| `PcmProgress.QuietMeansOver` | ios/Sources/SimulationEngine.swift:442-469 | when nothing is left to happen the stream is over and holds no buffer |
| `PcmProgress.FillingReachesPlayback` | ios/Sources/SimulationEngine.swift:230-242 | once the wanted stream fills or plays, a run without packet or engine failure after which no further such step is enabled has started playback |
| `PcmProgress.PlaybackIsReached` | ios/Sources/SimulationEngine.swift:713-747 | from every such state there is a run without failures, no longer than the work left, that starts playback |
| `PcmOutcomes.PlaybackStartsWhenPrefilled` | ios/Sources/SimulationEngine.swift:230-233 | playback of the wanted stream starts with exactly the delivery that fills the queue or brings the whole of a shorter plan; if the engine fails then, the stream ends |
| `PcmOutcomes.PlayingStreamQueues` | ios/Sources/SimulationEngine.swift:377-412 | a block that arrives during playback is queued and nothing else changes |
| `PcmOutcomes.PlayedBlockDecides` | ios/Sources/SimulationEngine.swift:244-255 | a played block returns its permit; the stream completes with its last block, starves when nothing is left queued before that, and goes on otherwise |
| `PcmOutcomes.CancelKeepsThePlayingQueue` | ios/Sources/SimulationEngine.swift:414-426 | withdrawing a stream keeps what it holds exactly when it is playing, and stops its producer |
| `PcmOutcomes.WithdrawnStreamPlaysOut` | ios/Sources/SimulationEngine.swift:442-461 | a withdrawn stream can play every block it still holds, and has stopped exactly with the last |
| `PcmOutcomes.UnwantedBlockIsDropped` | ios/Sources/SimulationEngine.swift:723-726 | a block of an unwanted stream is dropped and its producer stopped |
| `PcmOutcomes.FailureEndsTheWantedStream` | ios/Sources/SimulationEngine.swift:739-744 | a failed packet ends its stream exactly when that is still wanted |
| `PcmOutcomes.BeginStartsAfresh` | ios/Sources/SimulationEngine.swift:360-375 | a new run is empty and wanted, and every earlier producer is stopped or done |
| `PcmOutcomes.ScheduleKeepsItsBounds` | ios/Sources/SimulationEngine.swift:215-255 | whatever is called in any order, the schedule keeps its bounds, loses no block, and reserves until stopped, full or at the end |
| `PcmOutcomes.EndIsReached` | ios/Sources/SimulationEngine.swift:713-747 | a wanted stream with a playable plan has a run without failures that plays it to the end |
| `PcmOutcomes.SingleSlotStarves` | ios/Sources/SimulationEngine.swift:250-254 | with one queue slot and more than one block, the first block played starves the stream |
| `PcmOutcomes.PlayableExactly` | ios/Sources/SimulationEngine.swift:180-192 | a wanted stream can be played to its end exactly when its plan has one block or its queue at least two slots |
| `PcmPlayer.PcmStreamSchedule.ReserveNextBlock` | ios/Sources/SimulationEngine.swift:215-224 | reserves exactly when not stopping, blocks remain and the queue has room |
| `PcmPlayer.PcmStreamSchedule.DidDrainBlock` | ios/Sources/SimulationEngine.swift:244-255 | moves one block from queued to drained and gives the verdict of the new schedule |
| `PcmPlayer.PcmStreamControl.Stop` | ios/Sources/SimulationEngine.swift:311-321 | sets the flag; only the call that sets it adds the wake permits |
| `PcmPlayer.PcmPlayback.Begin` | ios/Sources/SimulationEngine.swift:360-375 | replaces the stream, stopping the old control and dropping its buffers |
| `PcmPlayer.PcmPlayback.Enqueue` | ios/Sources/SimulationEngine.swift:377-412 | queues the block and starts playback exactly at the smaller of plan and queue bound, or fails without effect on an unaccepted or full stream |
| `PcmPlayer.PcmPlayback.StopAndDrain` | ios/Sources/SimulationEngine.swift:414-426 | stops the control, and ends at once exactly when playback has not started or nothing is held |
| `PcmPlayer.PcmPlayback.DidDrain` | ios/Sources/SimulationEngine.swift:442-461 | ignores unknown buffers; otherwise returns the permit, drains one block and ends or aborts the stream by the verdict |
| `PcmPlayer.PcmPlayback.Abort` | ios/Sources/SimulationEngine.swift:463-469 | stops the control, drops all buffers and reports the error |
| `HeatsinkShell.SideIsUnique` | examples/heatsink-fan/generate_heatsink_stl.py:153-158 | two boundary faces of the plate never share a directed triangle side |
| `HeatsinkShell.SideHasMate` | examples/heatsink-fan/generate_heatsink_stl.py:153-158 | every directed side is met by its reverse on some boundary face |
| `HeatsinkShell.NoCheckerboard` | examples/heatsink-fan/generate_heatsink_stl.py:127-151 | no two solid cells of the plate touch along an edge with both other cells around it empty |
| `HeatsinkFaces.FacesAreTheBoundary` | examples/heatsink-fan/generate_heatsink_stl.py:127-151 | the emitted faces are the boundary of the solid, each exactly once |
| `HeatsinkSurface.PlaceIsInjective` | examples/heatsink-fan/generate_heatsink_stl.py:106-108 | strictly increasing breakpoints keep lattice points apart in space |
| `HeatsinkSurface.BoundaryIsClosed` | examples/heatsink-fan/generate_heatsink_stl.py:153-158 | in any order of emission the facets use every directed edge exactly once and its reverse exactly once |
| `HeatsinkVolume.FaceVolume` | examples/heatsink-fan/generate_heatsink_stl.py:159-162 | the two facets of a face contribute twice its area times its signed offset |
| `HeatsinkVolume.AllWallsSum` | examples/heatsink-fan/generate_heatsink_stl.py:138-147 | the walls of the fins telescope: interfaces between neighbouring fins cancel |
| `HeatsinkVolume.SignedVolumeIsPlateVolume` | examples/heatsink-fan/generate_heatsink_stl.py:159-164 | the signed volume of the emitted facets is that of the base box and all fins |
| `HeatsinkNormals.BoundaryLooksOut` | examples/heatsink-fan/generate_heatsink_stl.py:52-61 | both facets of a boundary face wind around their declared axis, with solid just behind their middle and air just before it |
| `HeatsinkNormals.FacetsLookOut` | examples/heatsink-fan/generate_heatsink_stl.py:104-121 | so do all facets of any listing of boundary faces |
| `HeatsinkGenerator.CompleteVolume` | examples/heatsink-fan/generate_heatsink_stl.py:86-92 | the same for any complete listing of the boundary |
| `HeatsinkFins.FinCellsSpanTheFins` | examples/heatsink-fan/generate_heatsink_stl.py:123-127 | however chip cuts split them, the cells labelled by their middles are together as wide as the fins |
| `HeatsinkFins.PlateVolume` | examples/heatsink-fan/generate_heatsink_stl.py:163-164 | with the fixed dimensions six times the volume is that of the base box and nfins fins |
| `HeatsinkFins.PlainGridIsPlate` | examples/heatsink-fan/generate_heatsink_stl.py:43-48 | up to four fins fit the base, and the alternating labels are those of the cell middles |
| `HeatsinkGenerator.ShellBuilder.Quad` | examples/heatsink-fan/generate_heatsink_stl.py:111-121 | appends the two triangles of a quadrilateral, turned to look along its declared axis |
| `HeatsinkGenerator.ShellBuilder.HorizontalQuad` | examples/heatsink-fan/generate_heatsink_stl.py:132-133 | appends the facets of a bottom or top face, counter-clockwise from outside |
| `HeatsinkGenerator.ShellBuilder.FrontQuad` | examples/heatsink-fan/generate_heatsink_stl.py:134-137 | appends the facets of a front or back face, counter-clockwise from outside |
| `HeatsinkGenerator.ShellBuilder.WallQuad` | examples/heatsink-fan/generate_heatsink_stl.py:145-151 | appends the facets of a wall, counter-clockwise from outside |
| `HeatsinkGenerator.Census` | examples/heatsink-fan/generate_heatsink_stl.py:153-158 | the counting loop accepts exactly the lists where every directed edge occurs once and its reverse occurs |
| `HeatsinkGenerator.SignedVolume` | examples/heatsink-fan/generate_heatsink_stl.py:159-162 | the accumulating loop gives a sixth of the determinant sum |
| `HeatsinkGenerator.BuildChip` | examples/heatsink-fan/generate_heatsink_stl.py:96-170 | emits the whole boundary with every declared normal pointing out of the solid, passes its own edge census, and returns the volume of the plate |
| `HeatsinkGenerator.BuildPlain` | examples/heatsink-fan/generate_heatsink_stl.py:42-93 | the same for the plain plate with its own order of emission |
| `KuhnGrid.IdxIsInjective` | tools/vvref/solve_skfem.py:93-94 | different grid points have different vertex numbers |
| `KuhnGrid.IdxIsOnto` | tools/vvref/solve_skfem.py:93-94 | every number below the vertex count is the number of a grid point |
| `KuhnGrid.OrientationIsPositive` | tools/vvref/solve_skfem.py:99-111 | every path tetrahedron, as grid points in emitted order, has determinant hx hy hz after the swap of odd orderings |
| `KuhnConformity.OnlyTheMateShares` | tools/vvref/solve_skfem.py:97-111 | two tetrahedra have a face in common exactly when one is the other's mate across it |
| `KuhnConformity.SurfaceHasNoMate` | tools/vvref/solve_skfem.py:97-111 | a face lies on the box surface exactly when the cell beyond it is outside the grid |
| `KuhnRows.GridIsConforming` | tools/vvref/solve_skfem.py:97-112 | two faces have the same vertex numbers exactly when they are one face or mates; the mate is another tetrahedron, and outside the grid exactly when the face is on the box surface |
| `KuhnConformity.BoundaryCount` | tools/vvref/solve_skfem.py:233-239 | each box side carries twice the product of its two in-plane counts of tetrahedron faces |
| `KuhnRows.GridTetsCount` | tools/vvref/solve_skfem.py:96-112 | the list holds six tetrahedra per cell, each exactly once |
| `KuhnRows.RowsConform` | tools/vvref/solve_skfem.py:96-112 | every three vertices of a stored row belong to exactly two rows, or to one when they lie on a side of the box |
| `KuhnRows.SideFacesAreExact` | tools/vvref/solve_skfem.py:233-239 | the vertex triples of stored rows that lie on a side number twice the product of its two in-plane counts |
| `KuhnMesh.RowsAreOriented` | tools/vvref/solve_skfem.py:82-112 | every stored row refers to stored positions, and its three stored edge vectors have determinant hx hy hz |
| `KuhnMesh.RowsFillTheBox` | tools/vvref/solve_skfem.py:71-112 | the determinants of all rows sum to six times the volume of the box |
| `KuhnMesh.SideByPositions` | tools/vvref/solve_skfem.py:233-239 | vertices lie on a side exactly when their stored coordinates along it are 0 or the extent |
| `KuhnMesh.PathCorners` | tools/vvref/solve_skfem.py:100-106 | the inner loop walks the path of the axis ordering |
| `KuhnMesh.BuildTets` | tools/vvref/solve_skfem.py:96-112 | the nested loops append the rows of the list |
| `KuhnMesh.BuildPositions` | tools/vvref/solve_skfem.py:82-91 | the running row counter is the vertex number, so row idx(i,j,k) holds (i hx, j hy, k hz) |
| `KuhnMesh.KuhnBoxGrid` | tools/vvref/solve_skfem.py:71-112 | grid point (i,j,k) is stored at (i ex/nx, j ey/ny, k ez/nz), the first vertex at the origin and the last at the far corner; the rows are listed, positively oriented, fill the box and conform |
| `KuhnMesh.CornersOfBox` | tools/vvref/solve_skfem.py:76-91 | positions that are multiples of the steps start at the origin and end at (ex, ey, ez) |
| `KuhnMesh.ProbeFindsItsRow` | tools/vvref/solve_skfem.py:313-324 | the probe formula reads the stored row of its grid point |
| `Wildmatch.PiecesAreExact` | xtask/src/claims.rs:236-247 | splitting at the stars and dropping empty pieces preserves which paths match |
| `Wildmatch.EarliestIsEnough` | xtask/src/claims.rs:248-256 | taking the earliest occurrence of a middle literal never loses a match |
| `Wildmatch.LastLiteral` | xtask/src/claims.rs:257-262 | the last literal matches anywhere before a final star, and otherwise only at the end |
| `Wildmatch.Find` | xtask/src/claims.rs:251-256 | finds the earliest occurrence, or none if there is none |
| `Wildmatch.WildmatchStar` | xtask/src/claims.rs:229-262 | returns true exactly when the path is the pattern with any strings for its stars, and an error exactly on other metacharacters |
| `BuildIdentity.DecodePayload` | crates/fs-la/build_identity_support.rs:86-91 | decoding a payload gives its fields back |
| `BuildIdentity.PayloadIsInjective` | crates/fs-la/build_identity_support.rs:86-91 | equal payloads come from equal field sequences |
| `BuildIdentity.OptionalValuesNeverCollide` | crates/fs-la/build_identity_support.rs:93-106 | whatever surrounds it, an optional value is determined by the payload: absent, empty and literal differ |
| `BuildIdentity.PresenceIsSpelled` | crates/fs-la/build_identity_support.rs:93-106 | an optional value is a field saying present or absent, then the value |
| `BuildIdentity.DuplicateTestIsExact` | crates/fs-la/build_identity_support.rs:109-115 | comparing neighbours after sorting finds every duplicate path |
| `BuildIdentity.SortingForgetsOrder` | crates/fs-la/build_identity_support.rs:108-109 | the sorted listing depends only on the contents of the closure |
| `BuildIdentity.SourceFramingIsExact` | crates/fs-la/build_identity_support.rs:108-119 | two duplicate-free closures are framed alike exactly when they hold the same files |
| `BuildIdentity.FramedUnlessDuplicated` | crates/fs-la/build_identity_support.rs:110-115 | a closure is framed exactly when no path repeats |
| `BuildIdentity.ExternalFramingIsExact` | crates/fs-la/build_identity_support.rs:121-128 | the external part binds the lock and the closure |
| `BuildIdentity.ExternalNames` | crates/fs-la/build_identity_support.rs:108-128 | a decoded external payload holds the lock under its name, then each file once under its prefixed path, in strict order of names |
| `BuildIdentity.PayloadBuffer.PushField` | crates/fs-la/build_identity_support.rs:86-91 | appends one length-prefixed field |
| `BuildIdentity.PayloadBuffer.PushOptionalField` | crates/fs-la/build_identity_support.rs:93-106 | appends the presence field and the value if there is one |
| `BuildIdentity.PayloadBuffer.AppendSourceFields` | crates/fs-la/build_identity_support.rs:108-119 | appends the sorted closure, or reports a duplicate and appends nothing |
| `BuildIdentity.PayloadBuffer.AppendExternalIdentity` | crates/fs-la/build_identity_support.rs:121-128 | appends the lock and the closure |
| `PinDrift.AncestryIsAntisymmetric` | xtask/src/constellation_drift.rs:173-176 | commits that are ancestors of each other are equal, so the both-ways case is the pin itself |
| `PinDrift.RelationIsExact` | xtask/src/constellation_drift.rs:160-188 | on a full history each verdict holds exactly under its ancestor relation |
| `PinDrift.CountsAreExact` | xtask/src/constellation_drift.rs:144-154 | every count is at least one, and the counts account for the sizes of both histories |
| `PinDrift.CleanCheckoutIsChargedWhenBehind` | xtask/src/constellation_drift.rs:204-275 | a clean checkout is charged exactly when it lacks a commit of its pin's history; a dirty one always |
| `PinDrift.VerdictsAreExact` | xtask/src/constellation_drift.rs:160-275 | each verdict holds exactly under its condition on cleanliness, the pin, what is known of the history and ancestry |
| `PinDrift.UnreadableCheckouts` | xtask/src/constellation_drift.rs:277-335 | a checkout without a readable head or a known ancestry tells nothing, and one whose head moves or whose status is refused has drifted |
| `PinDrift.FileSiblings` | xtask/src/constellation_drift.rs:352-374 | the loop files every sibling once under its outcome |
| `PinDrift.Evaluate` | xtask/src/constellation_drift.rs:341-387 | a partial lock is refused outright; otherwise every sibling is filed once under its outcome, with one more note exactly when nothing was materialized |
| `PinDrift.ReportIsComplete` | xtask/src/constellation_drift.rs:341-387 | of the report of a run: under a whole lock every sibling gets exactly one verdict; there is no violation exactly when the lock is whole, every sibling has a row and none drifted; and it says it saw nothing exactly when it saw nothing |
| `Consolidation.SweptPathIsSeen` | xtask/src/consolidation.rs:138-150 | a finished sweep has followed every path from a root |
| `Consolidation.Reachable` | xtask/src/consolidation.rs:138-150 | terminates with exactly the crates of the tree reachable from the roots along paths in the tree |
| `Consolidation.CandidatePass` | xtask/src/consolidation.rs:287-338 | records the last disposition of each candidate and reports exactly the faults of each entry |
| `Consolidation.EntryFaultsAreExact` | xtask/src/consolidation.rs:287-338 | each kind of entry fault is reported exactly for the entries that have it |
| `Consolidation.CheckReview` | xtask/src/consolidation.rs:271-365 | reports exactly the entry faults, a missing or unreached control crate, every undispositioned crate and every falsely parked one |
| `Consolidation.NoDriftMeansCovered` | xtask/src/consolidation.rs:340-365 | of the report: no undispositioned crate is named exactly when every crate of the tree is in use or listed, and no falsely parked one exactly when nothing parked is in use |
| `Consolidation.PassingReview` | xtask/src/consolidation.rs:271-365 | the report is empty exactly when the control crate is in use, every entry is sound and alone for its crate, every other crate of the tree is in use, and no parked crate is |
| `Consolidation.OnlyParkedDispositionsGoStale` | xtask/src/consolidation.rs:354-364 | of the report: a reached crate is charged exactly when its recorded disposition, known or not, parks it; so every reached crate with a disposition is charged exactly when all of those are parked |
| `Consolidation.KeptCrateInUseIsNotCharged` | xtask/src/consolidation.rs:354-364 | a crate that is listed as KEEP and is in use draws no violation |

## Left out

- Allocation failure, `Debug`/`Display`, rule code strings and remedy tables of the admission file: no
  property beyond the table.
- Identities are numbers below 2^256 other than zero, standing for their 32 bytes least significant
  first; a nonzero number is exactly a nonzero byte string. Variants carry suffixes such as `Reason`
  and `Cause` where the same name serves several types.
- `AdmissionMachines.AdmissionMachine.Apply`: returns the rule of a refusal, not its remedies.
- Git, the file system, processes, clocks, UUIDs and BLAKE3: their results are inputs. In `PinDrift` a
  failed or refused observation is a value of `Observation`, and the commit graph is a map to parents.
- Receipt error messages are one constructor each, without the text and offset they print; the message
  for an invalid scalar value is not modelled because no accepted escape reaches it.
- `content_identity` of a receipt and `append_executable_identity`: a hash of bytes modelled here.
- AVAudioEngine, audio buffers and their allocation, SwiftUI views and the native packet computation:
  an engine start and a packet succeed or fail as the run chooses. That a weak reference is gone is not
  modelled.
- `PcmPlayer.PcmStreamControl.Stop`: waiting and the lock are not objects; acquisition is the steps
  `Take`, `CheckFlag` and `SeeStop` of `PcmProtocol`.
- Floating-point rounding of mesh coordinates: coordinates are exact reals. Building the sorted set of
  breakpoints, the chip footprint count and the STL text, rotation and shift are left out.
- Finite-element assembly, the sparse solve and Picard iteration: library calls without source here.
- `BuildIdentity.SortFields`: stands for the library's sort; the order among equal names is not fixed
  there, and a closure with equal names is a fault in either case.
- `Consolidation.CheckReview`: starts from parsed roots and candidates; the JSON shape, schema, protocol
  text and inventory counts are checks of single values. Violations are listed in any order of names.
- `BTreeMap` and `BTreeSet` iteration order in the consolidation sweep: edges are a list in any order.
- The claim-integrity, closures, portfolio and runner checks, and the constellation assessment: set
  membership and report text.
