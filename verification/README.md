# agent-runtime: verified model of its stateful core

A Dafny model of four parts of the agent-runtime repository, with the properties each part exists to keep.

- **Output redaction and spool** (`sandbox/output.go`): a streaming redactor that cuts a byte stream where no secret can be split, and a spool that keeps a bounded tail per stream, marks gaps and replays from a cursor. Files: `Redaction`, `RedactionReturn`, `RedactionEdges`, `RedactionClash`, `Redactor`, `Spool`, `OutputSpool`, `Replay`.
- **Operation ledger and scripted control** (`sandbox/core.go`, `sandbox/fake_control.go`, `sandbox/runtime_support.go`): admission with quotas across principals, idempotent retry against the persisted spec, the coupled lives of operation, process and spool, watch accounting, listing by pages, and scripted timelines on a manual clock. Files: `Admission`, `Sums`, `Ledger`, `LedgerSteps`, `LedgerRuns`, `CoreLedger`, `Watches`, `Paging`, `FakeControl`, `FakeControlClient`.
- **Single-assignment status and durable ownership** (`internal/agentspecbackfill*`, `internal/firecracker/direct_launch_ownership.go`): many controllers racing to store one terminal status by compare-and-swap, and a claim journal that must survive kills and power loss at any system call. Files: `Backfill`, `Agreement`, `ClaimJournal`.
- **Encodings** (`internal/agentspecbackfill/core.go`, `sandbox/core.go`, `temporalpayload`): canonical CBOR (sections 3 and 4.2.1 of RFC 8949), length-prefixed fields, and the size-selecting payload codec over an immutable blob store. Files: `BigEndian`, `Cbor`, `BackfillWire`, `CanonicalFields`, `PayloadCodec`.

Objects whose methods update fields are classes (`LiteralRedactor`, `OutputSpool`, `CoreLedger`, `FakeControlClient`, `MemoryBlobStore`); their methods are proved against functions on values, and the laws are proved about those functions. Protocols are step functions on a state, with theorems over every sequence of steps. `dafny verify dfyconfig.toml` checks everything.

## What the code does not do

Each of these is a property the code breaks on some input. The model keeps the code as it is and proves when the property does hold, exactly unless said otherwise.

- A create claim that has returned success can be lost: if the process dies, or the directory sync fails without effect, between the rename and the directory sync, the reopened owner grants the same claim again without writing anything, and power loss then undoes it (`KilledBeforeDirectorySync`, `DirectorySyncFails`). `RepeatedClaimKeptIffPinned` gives the exact condition on a state; `OneClaimUnlessInterrupted` says that without those two events the promise is kept whatever else happens.
- A released stream can contain a pattern that was redacted from it: "]z" on the input "]zz" releases "[REDACTED]z" (`SecretReleased`). For one pattern, `OneSecretNeverReleased` is the exact condition: the pattern must not be able to stand over a marker that its own replacement leaves. For a pattern among others, `SecretNeverReleased` needs only that this pattern cannot overlap a marker, whatever the others are, and `KeptIffOverlapFree` says that nothing weaker will do for every pattern that may follow it.
- With several patterns, streamed and one-shot output can differ when a later pattern can match across an end of a marker; `OverlapBreaksStreaming` is such an input. `StreamEqualsBatch` needs only that the patterns after the first cannot, and `StreamsIffEdgeFree` says that this is exactly what a pattern must satisfy to be safe behind every pattern no shorter than it. Patterns that share no byte with the marker satisfy both conditions (`DisjointIsOverlapFree`).
- A reconcile that loses the race does not always return the winner's verdict: with a clock behind the winner's completion time, or past the request's expiry for a verdict that expires with it, it fails (`LoserReturnsWinner`, with the exact condition in `StandsExactly`).
- The produced-output budget is checked with a wrapping 64-bit sum; `BudgetCheckExact` says for which limits the check is exact.
- A gap event names the earliest chunk still held, and replay starts after the event it names, so that chunk itself is skipped (`GapReplays`).
- The error of the spool constructor is dropped at acceptance, and policy validation does not look at the ratio that constructor demands: `SpoolExactlyWhenLimitsFit`, `UncheckedRatio`.
- The retained-output ratio is checked with a wrapping 64-bit product: a produced limit of 2^60 admits no retained limit (`SpoolLimitsExact`, `SpoolLimitsWrap`).
- An operation identifier of the greatest valid length derives a process identifier that is too long (`LongestIdDerivesInvalid`); derived identifiers are still distinct.

## Model

| member | source | states |
|---|---|---|
| `Redaction.IndexFirst` | sandbox/output.go:44-86 | an occurrence is found exactly when there is one, and it is the first |
| `Redaction.ChangesIffOccurs` | sandbox/output.go:98-108 | the changed flag is set exactly when some pattern occurs in the raw text, whatever earlier replacements leave behind |
| `Redaction.ReplaceAllMeans` | sandbox/output.go:98-108 | replacing a pattern keeps the text between its leftmost occurrences, none overlapping, byte for byte and puts one marker for each |
| `Redaction.NothingToRedact` | sandbox/output.go:98-108 | a text in which no pattern occurs is left as it is |
| `Redaction.Longest` | sandbox/output.go:88-96 | the greatest pattern length |
| `Redaction.ClearCut` | sandbox/output.go:44-78 | the greatest cut at or below a limit that no occurrence of any pattern straddles |
| `Redaction.ReleaseStaysClear` | sandbox/output.go:37-80 | a release point is straddled by no occurrence in any continuation of the stream |
| `Redaction.ReleaseIsGreatest` | sandbox/output.go:37-78 | every cut that no occurrence straddles and that leaves room for a longest pattern less one byte is at most the release point |
| `Redaction.LittleHeldBack` | sandbox/output.go:37-80 | of a text without an occurrence fewer bytes are held back than the longest pattern has |
| `Redaction.ReplaceAllSplits` | sandbox/output.go:98-108 | replacing one pattern distributes over any cut that pattern does not straddle |
| `Redaction.DisjointIsOverlapFree` | sandbox/output.go:98-108 | a pattern without a byte of the marker can neither overlap a marker nor match across its ends |
| `Redaction.StaysClear` | sandbox/output.go:98-108 | replacing one pattern on both sides of a clear cut leaves the cut clear for patterns that cannot match across an end of the marker |
| `Redaction.RedactSplits` | sandbox/output.go:98-108 | one-shot redaction distributes over clear cuts when the patterns after the first cannot match across an end of the marker |
| `Redaction.BytesConserved` | sandbox/output.go:37-86 | at every point of every chunking, the pending bytes are exactly the end of what was fed and the rest was released |
| `Redaction.FrontierClear` | sandbox/output.go:37-80 | no occurrence in the past or any future of the stream straddles the point released so far |
| `Redaction.StreamKeepsUp` | sandbox/output.go:37-80 | over every chunking of an input without an occurrence, fewer bytes are pending than the longest pattern has |
| `Redaction.FeedRefinesRedact` | sandbox/output.go:37-86 | under the same condition, what was released so far, followed by the one-shot redaction of the pending bytes and any continuation, is the one-shot redaction of everything |
| `Redaction.StreamEqualsBatch` | sandbox/output.go:37-107 | for every chunking of every input, all Write outputs and the final Flush together are the one-shot redaction of the whole, if the patterns after the first cannot match across an end of the marker; no condition for one pattern |
| `RedactionReturn.ReplaceAllRemoves` | sandbox/output.go:98-108 | a pattern that cannot reappear over a marker does not occur once replaced |
| `RedactionReturn.RedactRemoves` | sandbox/output.go:98-108 | one-shot redaction leaves no pattern that cannot reappear and, unless it is the last, cannot overlap a marker |
| `RedactionReturn.OneSecretNeverReleased` | sandbox/output.go:37-107 | for one pattern, no chunking of any input releases it if and only if it cannot be laid over a marker that replacing it leaves |
| `RedactionReturn.SecretReleased` | sandbox/output.go:98-108 | the pattern "]z" on the input "]zz": the released bytes contain it |
| `RedactionReturn.ReturnsInOutput` | sandbox/output.go:98-108 | a pattern that can reappear does so on the text spelled by its own head and tail |
| `RedactionReturn.SecretNeverReleased` | sandbox/output.go:37-107 | over every chunking a pattern that cannot overlap a marker is not in the released bytes, whatever the other patterns are |
| `RedactionReturn.NoPatternReleased` | sandbox/output.go:37-107 | if no pattern can overlap a marker, the released bytes taken together contain none, over every chunking |
| `RedactionEdges.KeptIffOverlapFree` | sandbox/output.go:37-107 | a pattern is never released whatever pattern no longer than it follows if and only if it cannot overlap a marker |
| `RedactionEdges.StreamsIffEdgeFree` | sandbox/output.go:37-107 | streamed and one-shot output agree on every input whatever pattern no shorter precedes if and only if the pattern cannot match across an end of a marker |
| `Redaction.StreamFlagsExact` | sandbox/output.go:37-107 | some released piece is flagged exactly when some pattern occurs in the raw input, across chunk boundaries too |
| `RedactionClash.OverlapBreaksStreaming` | sandbox/output.go:98-108 | a concrete input on which streamed and one-shot output differ because a pattern overlaps the marker |
| `Redactor.AdmitPatterns` | sandbox/output.go:19-35 | patterns are admitted exactly when none is empty and counts and bytes are within bounds, and come out longest first with binding order kept within each length; otherwise the refusal names whichever fault is met first |
| `Redactor.LiteralRedactor.Write` | sandbox/output.go:37-80 | releases the redaction of everything up to a safe cut and keeps exactly the rest; no later cut that leaves room for a longest pattern less one byte is safe |
| `Redactor.LiteralRedactor.Boundary` | sandbox/output.go:44-78 | the nested search ends, and at the greatest cut below its start that no occurrence straddles |
| `Redactor.LiteralRedactor.Flush` | sandbox/output.go:82-86 | releases the redaction of everything pending and leaves nothing |
| `Redactor.LiteralRedactor.LongestPattern` | sandbox/output.go:88-96 | the greatest pattern length |
| `Redactor.LiteralRedactor.Replace` | sandbox/output.go:98-108 | one-shot redaction with its changed flag |
| `SandboxTypes.BudgetCheckExact` | sandbox/output.go:161-166 | on either stream the wrapping budget check refuses exactly the writes that overrun the limit if and only if the limit leaves room for one more chunk below 2^64 |
| `SandboxTypes.RefusalCodes` | sandbox/output.go:147-166 | each refusal of a write with its code: closed, unknown stream, chunk over 262144 bytes or wrapped sum over the limit, in that order |
| `SandboxTypes.SpoolLimitsExact` | sandbox/output.go:126-137 | below 2^60 the limits fit exactly when both are positive and at most sixteen times as much is retained as produced |
| `SandboxTypes.SpoolLimitsWrap` | sandbox/output.go:126-137 | at a produced limit of 2^60 the product wraps to zero and no retained limit fits |
| `SandboxTypes.ValidateProcessResult` | sandbox/runtime_support.go:44-71 | refused as an invalid argument exactly when the result is not valid |
| `SandboxTypes.ResultForms` | sandbox/runtime_support.go:44-71 | a result is valid exactly when it has an exit code for an exit, a portable signal for a signal, and neither for any other known reason |
| `Spool.EvictOne` | sandbox/output.go:218-246 | dropping the oldest held chunk while the rest does not fit keeps the held chunks on the way to the longest suffix that fits, with its summary |
| `Spool.LastBytesExact` | sandbox/output.go:193-203 | a piece over the limit is cut to its last bytes, exactly as many as fit, and any other is kept |
| `Spool.FinishRetain` | sandbox/output.go:193-216 | after room is made and the piece appended, the held chunks are the longest fitting suffix of everything recorded, oversize pieces cut to their tails |
| `Spool.EvictFirst` | sandbox/output.go:218-246 | while a piece does not fit there is a chunk to drop and the cursor index names it first, so the inconsistency panic cannot be reached |
| `Spool.EvictRoom` | sandbox/output.go:218-246 | dropping it keeps the event list, summaries and cursor index in agreement for both streams |
| `Spool.FinishSound` | sandbox/output.go:193-216 | recording a piece restores full agreement of events, summaries, cursor index and history |
| `Spool.AppendSound` | sandbox/output.go:248-252 | a gap or final event disturbs no stream's window |
| `OutputSpools.NewOutputSpool` | sandbox/output.go:126-145 | a spool is made exactly for fitting limits and admissible patterns, starts consistent and empty, and each refusal has its code |
| `OutputSpools.OutputSpool.constructor` | sandbox/output.go:138-144 | the initial spool is consistent: nothing held, nothing pending |
| `OutputSpools.OutputSpool.Write` | sandbox/output.go:147-171 | a write is refused exactly in the listed cases and then changes nothing; otherwise it joins its stream's input, and the spool stays consistent |
| `OutputSpools.OutputSpool.Close` | sandbox/output.go:173-191 | closing flushes both streams; afterwards each stream has a gap exactly when truncated, then exactly one, after all its chunks and naming its earliest held chunk, and exactly one final, which carries the result and is its last event; closing again changes nothing |
| `OutputSpools.AnnouncementCloses` | sandbox/output.go:173-191 | what is appended for one stream closes that stream in this sense |
| `OutputSpools.BothAnnounced` | sandbox/output.go:173-191 | announcing the two streams in turn closes both |
| `OutputSpools.OutputSpool.Retain` | sandbox/output.go:193-216 | whatever is retained, each stream's held chunks stay the longest suffix of its redacted chunks within the limit, in agreement with every index |
| `OutputSpools.OutputSpool.Keep` | sandbox/output.go:204-216 | the chunk joins events, history, cursor index and summary of its stream, and no other stream changes |
| `OutputSpools.OutputSpool.EvictOldestChunk` | sandbox/output.go:218-246 | drops exactly the stream's oldest held chunk from events, summary and index |
| `OutputSpools.OutputSpool.AppendEvent` | sandbox/output.go:248-252 | appends one numbered event |
| `OutputSpools.OutputSpool.ClosedMeaning` | sandbox/output.go:173-216 | what a closed spool holds of a stream ends the one-shot redaction of everything accepted from it, and the truncated mark is set exactly when bytes are missing |
| `Replay.NewOutputStream` | sandbox/runtime_support.go:299-319 | the events after the first with the cursor, all of them for the start cursors, a gap failure otherwise |
| `Replay.ReplayExact` | sandbox/runtime_support.go:299-319 | from the start everything held is replayed, and from each held event exactly what follows it, of any kind and stream |
| `Replay.ResumeLossFree` | sandbox/runtime_support.go:299-319 | from any held chunk of a stream, replay yields every chunk the stream ever appended after it, in order |
| `Replay.UnheldCursorFails` | sandbox/runtime_support.go:299-313 | replay fails exactly for cursors that name no held event |
| `Replay.GapReplays` | sandbox/output.go:173-191 | every gap names the stream's earliest held chunk, replay from it succeeds, and yields all held chunks but that one |
| `Admission.ResolveIdempotent` | sandbox/core.go:1051-1101 | resolving limits again against what was resolved changes nothing, for the original and for the resolved limits |
| `Admission.ResolveEach` | sandbox/core.go:1051-1101 | each of the sixteen limits is the requested one, or the default where none is requested |
| `Admission.WithinEach` | sandbox/core.go:1048-1050 | limits are within a maximum exactly when each of the sixteen is |
| `Admission.FiniteEach` | sandbox/core.go:1045-1047 | limits are finite exactly when each of the sixteen is positive |
| `Admission.OverMaximumExact` | sandbox/core.go:1048-1101 | resolved limits are refused exactly when some one of them is over its maximum |
| `Admission.NormalizeExact` | sandbox/core.go:920-974 | normalization succeeds exactly for well-made requests within the maximum, and its outcome field by field |
| `Admission.AdmitImageExact` | sandbox/core.go:554-568 | an image is admitted exactly when the catalogue, if there is one, holds it complete under its own digest and not for root; the admitted image field by field |
| `Admission.SpecExact` | sandbox/core.go:432-481 | when a spec is made and, field by field, which |
| `Admission.CompatibleExact` | sandbox/core.go:383-413 | a persisted spec is incompatible exactly when some limit is over the maximum, a version or the capability digest differs, or its image is no longer admitted or is admitted differently |
| `Admission.NormalForm` | sandbox/core.go:920-974 | normalization keeps identity and kind and leaves exactly one body |
| `Admission.RetryNormalizes` | sandbox/core.go:322-337 | the original request and its stored form both normalize to the stored form under the limits it was accepted with |
| `Admission.OwnPolicyCompatible` | sandbox/core.go:383-403 | a persisted spec is compatible with the policy it was resolved under |
| `Sums.CountWrapping` | sandbox/core.go:288-310 | the 32-bit sum over principals is the true sum wrapped, in whatever order the map is ranged over |
| `Ledger.ProcessIdInjective` | sandbox/runtime_support.go:21-23 | valid operations never share a process identifier |
| `Ledger.ProcessIdReads` | sandbox/runtime_support.go:21-23 | the process of operation op_x is prc_x |
| `Ledger.LongestIdDerivesInvalid` | sandbox/runtime_support.go:17-23 | the derived identifier has a valid length exactly when the operation's is below the greatest |
| `Ledger.CompleteKeeps` | sandbox/core.go:862-873 | finalizing an open process keeps the coupling of operation, process and spool and no finished outcome changes |
| `Ledger.StartKeeps` | sandbox/core.go:837-860 | starting, or a start whose context has ended, keeps the coupling and every finished outcome |
| `Ledger.WriteKeeps` | sandbox/core.go:875-891 | a write, accepted, refused or over the limit, keeps the coupling and every finished outcome |
| `Ledger.ScriptKeeps` | sandbox/fake_control.go:216-248 | a scripted step, with or without a process result, keeps the coupling and every finished outcome |
| `Ledger.LocalKeeps` | sandbox/core.go:815-891 | so does every step other than a submit |
| `LedgerSteps.OpenStates` | sandbox/runtime_support.go:35-42 | the states an operation can still leave |
| `LedgerSteps.CompleteFinalizes` | sandbox/core.go:862-873 | record, spool and operation are finalized with the given result, an open operation succeeds with it and a closed one stays, and no other entry changes |
| `LedgerSteps.CompletingOutcome` | sandbox/core.go:815-831 | a completion has this effect exactly for a valid result of a known open process and none otherwise |
| `LedgerSteps.StartOutcome` | sandbox/core.go:837-860 | an accepted or starting process runs; one whose context has ended is finalized as cancelled at this instant; otherwise nothing happens |
| `LedgerSteps.WriteOutcome` | sandbox/core.go:875-891 | a write is counted, or finalizes its process at the output limit when the chunk or the sum is too large |
| `LedgerRuns.SubmitEffect` | sandbox/core.go:312-366 | a submit leaves every ledger as it was or enters exactly one new operation, unknown to every principal and within quota |
| `LedgerRuns.SubmitNew` | sandbox/core.go:312-366 | what a submit of an unknown identifier answers and does in each case, in the order of the checks; an accepted one enters exactly the normalized request with its spec, digest, time and fresh process |
| `LedgerRuns.EntersOne` | sandbox/core.go:353-366 | the entry made for an accepted request, field by field, and nothing else |
| `LedgerRuns.OthersUntouched` | sandbox/core.go:312-891 | no step of a client changes the ledger of another principal |
| `LedgerRuns.SubmitLeavesEntries` | sandbox/core.go:312-366 | a submit changes no entry already there |
| `LedgerRuns.QuotaExact` | sandbox/core.go:341-352 | on every consistent ledger the wrapped 32-bit counts decide as the true counts would: nothing slips past a quota and nothing is refused below it |
| `LedgerRuns.SubmitKeeps` | sandbox/core.go:312-366 | every submit by any client keeps the whole-ledger invariant and every finished outcome |
| `LedgerRuns.NextKeeps` | sandbox/core.go:312-891 | every step of any client keeps the whole-ledger invariant |
| `LedgerRuns.RunKeeps` | sandbox/core.go:312-891 | so does every sequence of steps, over which no finished outcome changes |
| `LedgerRuns.ReachableLedger` | sandbox/core.go:274-366 | in every reachable ledger an operation identifier is in at most one principal, exec operations and process records match one to one, counts are within quota, and the 32-bit sums do not wrap |
| `LedgerRuns.OperationOutcomeStands` | sandbox/core.go:862-873 | over every later sequence of steps a terminal operation keeps its state, result and failure; its done channel is closed once, exactly when terminal |
| `LedgerRuns.ProcessOutcomeStands` | sandbox/core.go:815-873 | a terminal process record never changes again, has its result and a finalized spool, and its operation is terminal |
| `LedgerRuns.WaitReturnsTerminal` | sandbox/core.go:586-614 | whatever happens while a wait blocks and before it reads again, a wait that succeeds returns a terminal operation |
| `LedgerRuns.RetryIsIdempotent` | sandbox/core.go:322-337 | an accepted request submitted again after anything, through any open client of the principal and under any policy, gets the original reference if the persisted spec is compatible and incompatible-persisted-policy if not, never a conflict, and changes nothing |
| `LedgerRuns.RetryTellsApart` | sandbox/core.go:322-337 | with an injective digest, a known identifier conflicts exactly when the request normalizes to something other than the stored request |
| `LedgerRuns.SpoolExactlyWhenLimitsFit` | sandbox/core.go:414-425 | an exec accepted under a valid policy has a spool exactly when the default output limits fit each other |
| `LedgerRuns.UncheckedRatio` | sandbox/core.go:1030-1032 | an exec accepted on an empty ledger under a valid policy whose process has no spool |
| `CoreLedgers.CoreLedger.OtherPrincipalHasOperation` | sandbox/core.go:274-284 | found exactly when another principal holds the identifier |
| `CoreLedgers.CoreLedger.AdmissionQuotaFull` | sandbox/core.go:341-352 | full exactly when one of the four wrapped counts has reached its quota |
| `CoreLedgers.CoreLedger.Submit` | sandbox/core.go:312-366 | answer and new ledger are those of the submit whose laws are proved above |
| `CoreLedgers.CoreLedger.CompleteProcessLocked` | sandbox/core.go:862-873 | the record, its spool and, if open, its operation are finalized together and nothing else changes |
| `CoreLedgers.CoreLedger.CompleteProcess` | sandbox/core.go:815-831 | succeeds exactly for a valid result of a known, open process; each refusal has its code and changes nothing |
| `CoreLedgers.CoreLedger.StartProcess` | sandbox/core.go:837-860 | acknowledged exactly for an accepted or starting process under a live context; an ended context finalizes the process |
| `CoreLedgers.CoreLedger.AppendProcessOutput` | sandbox/core.go:875-891 | the spool's refusal is returned, and one over a limit finalizes the process |
| `CoreLedgers.RetryPrior` | sandbox/core.go:322-337 | conflict, incompatibility or the original reference, by digest and compatibility |
| `CoreLedgers.Reserve` | sandbox/core.go:414-425 | the operation is entered and an exec gets its process record |
| `Watches.GuardNeverNeeded` | sandbox/core.go:652-660 | a stream about to be released is counted, so the guard on the decrement never stops it |
| `Watches.NextKeepsInv` | sandbox/core.go:616-660 | every interleaved step of watches, stream closes and client closes keeps counts equal to registered streams and within both quotas |
| `Watches.WatchAdmitted` | sandbox/core.go:616-650 | a watch is admitted exactly when its operation and cursor are there, its client is open and both quotas have room, and then adds one registered stream |
| `Watches.CloseReleases` | sandbox/core.go:652-660 | closing a stream releases it and takes one off its own principal's count, once |
| `Watches.ClientCloseStops` | sandbox/core.go:796-813 | closing a client refuses it further watches and waits for exactly the streams it has registered |
| `Watches.ReturnsWhenReleased` | sandbox/core.go:796-813 | the close returns exactly when those have all been released |
| `Watches.WatchAccounting` | sandbox/core.go:616-660 | over every interleaving a principal's count is the number of its registered streams, within quota and unwrapped, and zero once all its clients' closes have returned |
| `Paging.SortKeys` | sandbox/runtime_support.go:200-204 | the keys, each once, in increasing order |
| `Paging.EnumerationUnique` | sandbox/runtime_support.go:200-204 | a key set has one sorted listing |
| `Paging.PageMap` | sandbox/runtime_support.go:199-239 | the values of exactly the page's identifiers, and the next cursor |
| `Paging.Collect` | sandbox/runtime_support.go:210-213 | one value per identifier, in order |
| `Paging.ScanStart` | sandbox/runtime_support.go:241-251 | the first identifier after the cursor, or the end |
| `Paging.PageCovers` | sandbox/runtime_support.go:199-218 | a page lists exactly the identifiers after its cursor and up to its next cursor |
| `Paging.PageIsFull` | sandbox/runtime_support.go:199-218 | a page is as full as its limit and what is left allow, and has a next cursor exactly when more is left |
| `Paging.WalkAscends` | sandbox/runtime_support.go:199-251 | however the map changes between pages, identifiers come strictly increasing, so none twice |
| `Paging.WalkMissesNothing` | sandbox/runtime_support.go:199-251 | a walk that ends lists every identifier that was there throughout |
| `Paging.WalkInventsNothing` | sandbox/runtime_support.go:199-251 | nothing is listed that was not there when its page was made |
| `Paging.SteadyEnds` | sandbox/runtime_support.go:199-251 | on an unchanging map the walk ends within one visit more than there are keys ahead |
| `Paging.SteadyWalk` | sandbox/runtime_support.go:199-251 | and lists exactly the sorted key set |
| `FakeControl.DueComposes` | sandbox/fake_control.go:206-213 | catching an operation up in two moves is catching it up in one |
| `FakeControl.ScriptIs` | sandbox/fake_control.go:216-248 | a scripted step is one update of its operation and at most one of its process record, a result on an open state ending in success |
| `FakeControl.TakenStepShows` | sandbox/fake_control.go:216-248 | a taken step, field by field: its update shows the step's failure and, unless a result is reported for a known process, its state; a gap follows at once; the operation is left as the update shows it |
| `FakeControl.PassedOverStep` | sandbox/fake_control.go:216-226 | a step on a finished operation changes and shows nothing |
| `FakeControl.ScriptPlaysOut` | sandbox/fake_control.go:206-248 | every step of a valid script whose time has come is shown by an update of its own, in order, unless a result reported before the last step ends the operation early |
| `FakeControl.StepFromSlice` | sandbox/fake_control.go:216-248 | a step's effect and events can be computed from its own operation and process alone |
| `FakeControl.StepElsewhere` | sandbox/fake_control.go:216-248 | no other operation and no other operation's process sees the step |
| `FakeControl.SlicesDetermine` | sandbox/fake_control.go:194-214 | a consistent ledger is determined by its operations taken one by one |
| `FakeControl.SettledUnique` | sandbox/fake_control.go:194-214 | there is one outcome of applying all due steps: the order of visiting operations cannot be told from it |
| `FakeControl.SettledComposes` | sandbox/fake_control.go:194-214 | applying what is due at two instants in turn is applying what is due at the later |
| `FakeControl.AdvanceComposes` | sandbox/fake_control.go:112-121 | advancing by a and then b ends in the same ledger, processes and histories of all operations as advancing by a+b |
| `FakeControl.ObservationChangesNothing` | sandbox/fake_control.go:144-192 | an observation at an instant already caught up to changes nothing |
| `FakeControl.HistoryGrows` | sandbox/fake_control.go:237-244 | catching up only appends to a history, which stays numbered with the operation's cursor on its end and its last update showing the operation's state, result and failure |
| `FakeControl.DueStepsTaken` | sandbox/fake_control.go:206-213 | for increasing times the steps consumed by an instant are exactly those whose time has come |
| `FakeControl.SettledHistories` | sandbox/fake_control.go:194-248 | applying due steps keeps every event of every history in place, and the last update of each shows its operation as it is |
| `FakeControl.EnrolledOk` | sandbox/fake_control.go:133-138 | giving an accepted operation its timeline leaves a consistent ledger and a history that shows the operation |
| `FakeControl.EnrolledIs` | sandbox/fake_control.go:133-138 | the new timeline, field by field; a known operation keeps the one it has; nothing else changes |
| `FakeControl.EventsAfter` | sandbox/fake_control.go:279-289 | the events after the cursor, all for the start cursors, an expired cursor otherwise |
| `FakeControl.WatchMissesNothing` | sandbox/fake_control.go:156-174 | in a numbered history a watch from the n-th cursor yields exactly the events after the n-th |
| `FakeControl.ValidateScript` | sandbox/fake_control.go:265-274 | accepted exactly when every step is well formed, times strictly increase over all pairs and only the last state is terminal |
| `FakeControl.ValidateScripts` | sandbox/fake_control.go:260-277 | accepted exactly when every identifier and script is |
| `FakeControlClients.FakeClock.Advance` | sandbox/fake_control.go:37-45 | moves by a non-negative amount, otherwise not at all |
| `FakeControlClients.NewFakeControlClient` | sandbox/fake_control.go:92-108 | made exactly for a named principal, valid scripts and a valid policy, and starts empty and consistent |
| `FakeControlClients.FakeControlClient.constructor` | sandbox/fake_control.go:99-107 | the new client has a ledger of its own and no timelines |
| `FakeControlClients.FakeControlClient.ApplyDueTransitions` | sandbox/fake_control.go:194-214 | every scripted operation is caught up to the clock and nothing else changes |
| `FakeControlClients.FakeControlClient.CatchUp` | sandbox/fake_control.go:209-212 | one operation is caught up and every other is left as it was |
| `FakeControlClients.FakeControlClient.ApplyStep` | sandbox/fake_control.go:216-248 | ledger, events and position are those of one step, whose effect `TakenStepShows` and `PassedOverStep` spell out |
| `FakeControlClients.FakeControlClient.StepEntry` | sandbox/fake_control.go:227-247 | entry and process change as the ledger's scripted step says |
| `FakeControlClients.FakeControlClient.Advance` | sandbox/fake_control.go:112-121 | the clock moves and everything due by then is applied; a negative advance changes nothing |
| `FakeControlClients.FakeControlClient.Submit` | sandbox/fake_control.go:125-142 | the core answer, from an open or a closed client; on success the operation has its timeline and everything due is applied |
| `FakeControlClients.FakeControlClient.SubmitCore` | sandbox/fake_control.go:129-132 | the first locked region alone leaves a consistent client and histories in which an accepted operation is known, so that anything may come between it and the enrolment |
| `FakeControlClients.FakeControlClient.Close` | sandbox/core.go:796-802 | closing changes neither ledger nor histories |
| `FakeControlClients.FakeControlClient.Enrol` | sandbox/fake_control.go:133-138 | a new operation gets its script and first event, a known one keeps its timeline |
| `FakeControlClients.FakeControlClient.WatchOperation` | sandbox/fake_control.go:157-174 | catches up, then answers from the history, or not-found without one |
| `Backfill.Verify` | internal/agentspecbackfill/core.go:284-332 | verified exactly when the request is valid and current, the context lives, the ports are there and every revision was accepted |
| `Backfill.RefusalReasons` | internal/agentspecbackfill/core.go:284-344 | which refusal a valid request gets before its revisions are looked at, and where there is none but an error: time first, then the read, then the snapshot |
| `Backfill.FirstFaultDecides` | internal/agentspecbackfill/core.go:310-344 | with the snapshot in order, the first revision that is malformed or not accepted decides |
| `Backfill.ValidateRequest` | internal/agentspecbackfill/core.go:105-120 | the checks and the loop over the eight digests accept exactly the valid requests |
| `Backfill.ValidIffPossible` | internal/agentspecbackfill/core.go:212-245 | a status is valid for a request exactly when verification could have come to it at its own non-zero completion time and it has stood since |
| `Backfill.VerifiedMeansAllAccepted` | internal/agentspecbackfill/core.go:284-332 | a verified status means one verifier accepted all SnapshotCount revisions, each well formed, of a snapshot with the request's fingerprint and count, within ten minutes of the request |
| `Backfill.VerdictStands` | internal/agentspecbackfill/core.go:212-245 | a verdict at a non-zero time is valid then; later, expired and not-admitted ones stay valid for ever and all others exactly until the request expires |
| `Backfill.VerdictArchivable` | internal/agentspecbackfill/core.go:393-444 | a verdict at a non-zero time is archivable with its matching audit code and with no other |
| `Backfill.CertificateRule` | internal/agentspecbackfill/core.go:393-414 | a certificate may be archived exactly with a verified status, and must be a digest |
| `Backfill.ForeignDigestRefused` | internal/agentspecbackfill/core.go:393-414 | evidence is archived only under its request's own digest |
| `Agreement.ArchiveUidRule` | internal/agentspecbackfill/core.go:416-427 | a UID the resource accepts is one the archive accepts exactly when it does not end in a dash |
| `Agreement.CoreOfCr` | internal/agentspecbackfillprocess/process.go:218-231 | projecting a verdict to the resource's status and back loses nothing |
| `Agreement.NextKeepsInv` | internal/agentspecbackfillkube/adapter.go:183-260 | every step of any controller, of the server and of deletion and recreation keeps the agreement invariant |
| `Agreement.OneTerminalStatus` | internal/agentspecbackfillkube/adapter.go:183-245 | over every interleaving of any number of controllers at most one terminal status is stored; it is the verdict of its controller's evidence at its completion time, every successful reconcile returns it, the server holds it, and a verified one has all its revisions accepted |
| `Agreement.StandsExactly` | internal/agentspecbackfillcr/types.go:208-228 | a stored verdict is accepted by a pass exactly when the pass's clock is not before its completion and, unless it is expired or not admitted, before the request's expiry |
| `Agreement.ReadFindsWinner` | internal/agentspecbackfillkube/adapter.go:183-245 | in every reachable state a pass that reads after a verdict is stored, first, before its write or after a conflict, returns that verdict if it stands at the pass's clock and fails otherwise |
| `Agreement.LaterPassReturnsWinner` | internal/agentspecbackfill/controller.go:30-67 | after any run that stored a verdict, a whole later pass does so |
| `Agreement.LoserReturnsWinner` | internal/agentspecbackfillkube/adapter.go:183-245 | after any run, so does a pass whose write meets the stored verdict of another |
| `Agreement.WinnerReturnsOwn` | internal/agentspecbackfillkube/adapter.go:183-233 | after any run, a pass whose write meets an unchanged object stores its candidate, and returns it |
| `Agreement.ReadFails` | internal/agentspecbackfillkube/adapter.go:306-350 | a pass fails without a result when its read fails, the object is gone or another request's, or a stored status has a foreign field or fields that disagree with its phase; an absent or fitting nonterminal status lets it go on |
| `Agreement.LostAnswerFails` | internal/agentspecbackfillkube/adapter.go:183-245 | a call whose answer is lost ends the pass without a result, even where the write took effect |
| `Agreement.MisconfiguredPassFails` | internal/agentspecbackfillprocess/process.go:166-216 | a controller of another image never gets past its start, over every run |
| `Agreement.CrFields` | internal/agentspecbackfillprocess/process.go:218-231 | the stored status carries the request's own identity and counts all revisions as verified or none |
| `Agreement.HistoryIsFinal` | internal/agentspecbackfillkube/adapter.go:183-245 | once stored, a terminal status is never replaced by any later steps |
| `Agreement.VerdictFitsResource` | internal/agentspecbackfillcr/types.go:208-228 | every verdict at a non-zero time is a terminal status the resource accepts |
| `Agreement.UncontendedReconcile` | internal/agentspecbackfill/controller.go:30-60 | a controller left alone on an unfinished request, whatever came before, stores and returns the verdict of its evidence |
| `ClaimJournal.NextKeepsInv` | internal/firecracker/direct_launch_ownership.go:48-189 | every step, kills and power losses included, keeps the disk and owner invariant |
| `ClaimJournal.EntryReadsSame` | internal/firecracker/direct_launch_ownership.go:148-178 | no step changes what a file the journal may turn out to be reads as |
| `ClaimJournal.NextAddsOnlyInFlight` | internal/firecracker/direct_launch_ownership.go:148-178 | no step adds a reading that power loss may leave, except the complete record being written |
| `ClaimJournal.PowerLossPicksOne` | internal/firecracker/direct_launch_ownership.go:148-178 | power loss turns one of those readings into the journal |
| `ClaimJournal.ClaimThenCrash` | internal/firecracker/direct_launch_ownership.go:91-178 | a claim cut off after any of its system calls, whatever their outcomes, leaves the journal as it could have been before or holding the complete new record |
| `ClaimJournal.PersistedClaimStable` | internal/firecracker/direct_launch_ownership.go:148-178 | a claim that persists to the end leaves its record stable |
| `ClaimJournal.RunKeepsStable` | internal/firecracker/direct_launch_ownership.go:48-189 | a stable record survives every later sequence of claims, closes, kills, power losses and reopens, and no other claim succeeds |
| `ClaimJournal.FreshClaimSucceeds` | internal/firecracker/direct_launch_ownership.go:91-116 | an owner without a record grants any valid claim when every call succeeds |
| `ClaimJournal.RepeatedClaimKeptIffPinned` | internal/firecracker/direct_launch_ownership.go:104-116 | a claim granted from the record read at open holds in every later run if and only if every state power loss may leave already reads as that record |
| `ClaimJournal.KilledBeforeDirectorySync` | internal/firecracker/direct_launch_ownership.go:148-178 | killing the process between rename and directory sync and reopening reaches a state where it does not |
| `ClaimJournal.DirectorySyncFails` | internal/firecracker/direct_launch_ownership.go:148-178 | so does a directory sync that fails without effect, a close and a reopen |
| `ClaimJournal.OneClaimEver` | internal/firecracker/direct_launch_ownership.go:48-178 | over every run whose successful opens find one possible reading of the journal, at most one create claim ever succeeds and its record stays |
| `ClaimJournal.UninterruptedOpensPinned` | internal/firecracker/direct_launch_ownership.go:48-178 | a run in which no kill and no ineffective directory-sync failure falls between a rename and its directory sync is such a run |
| `ClaimJournal.OneClaimUnlessInterrupted` | internal/firecracker/direct_launch_ownership.go:48-178 | from an empty disk, over every such run, power losses at any time included, at most one create claim ever succeeds and its record is stable |
| `ClaimJournal.ExecBindingPermanent` | internal/firecracker/direct_launch_ownership.go:118-142 | once a record is stable, every later open owner binds exactly what matches the record; `ExecsBoundForEver` says what that is |
| `ClaimJournal.ExecsBoundForEver` | internal/firecracker/direct_launch_ownership.go:91-146 | over every run from a persisted create claim, every open owner binds exactly the authentic exec envelopes for that create's sandbox with its host, generation, tenant, principal, spec digest and capability digest |
| `ClaimJournal.BindsOwnExecs` | internal/firecracker/direct_launch_ownership.go:118-146 | so does any owner whose record is that create's |
| `ClaimJournal.BindsNothingUnclaimed` | internal/firecracker/direct_launch_ownership.go:118-124 | without a claim nothing is bound |
| `ClaimJournal.CreateIsClaimable` | internal/firecracker/direct_launch_ownership.go:91-102 | the create envelopes that can be claimed, field by field |
| `ClaimJournal.SameCreateSameRecord` | internal/firecracker/direct_launch_ownership.go:99-109 | two creates make one record exactly when nine fields agree |
| `ClaimJournal.RepeatedClaim` | internal/firecracker/direct_launch_ownership.go:104-116 | a claim on an owned journal succeeds exactly when it makes the record held, and writes nothing |
| `ClaimJournal.OtherPlanRefused` | internal/firecracker/direct_launch_ownership.go:48-90 | a stable journal is not opened under another plan |
| `BigEndian.RoundTrip` | internal/agentspecbackfill/core.go:505-537 | the big-endian bytes of a value read back as the value |
| `Cbor.WriteHead` | internal/agentspecbackfill/core.go:505-537 | writes the shortest head of section 3 of RFC 8949 |
| `Cbor.WriteShifted` | internal/agentspecbackfill/core.go:520-537 | the shift loop writes the big-endian bytes |
| `Cbor.HeadRoundTrip` | internal/agentspecbackfill/core.go:505-537 | a standard reader gets back major type, argument and exactly the rest |
| `Cbor.HeadShortest` | internal/agentspecbackfill/core.go:505-537 | no head with the same meaning is shorter (section 4.2.1 of RFC 8949) |
| `Cbor.StandardIntegers` | internal/agentspecbackfill/core.go:505-537 | integers of appendix A of RFC 8949 of up to two bytes |
| `Cbor.StandardWideIntegers` | internal/agentspecbackfill/core.go:505-537 | and of four and eight |
| `Cbor.StandardItems` | internal/agentspecbackfill/core.go:496-504 | a byte string, a text string, null and an array of appendix A of RFC 8949 |
| `Cbor.ItemRoundTrip` | internal/agentspecbackfill/core.go:496-504 | an item reads back, leaving exactly the rest |
| `Cbor.ArrayRoundTrip` | internal/agentspecbackfill/core.go:78-103 | an array reads back item by item, leaving exactly the rest |
| `Cbor.ArrayPrefixFree` | internal/agentspecbackfill/core.go:78-103 | array encodings are prefix free, so equal bytes mean equal arrays |
| `BackfillWire.RequestSize` | internal/agentspecbackfill/core.go:78-103 | every valid request encodes in at most 762 bytes, and in at most 694 with four-digit years |
| `BackfillWire.StatusSize` | internal/agentspecbackfill/core.go:185-205 | every valid terminal status encodes in at most 245 bytes, and in at most 211 with a four-digit year |
| `BackfillWire.BundleSize` | internal/agentspecbackfill/core.go:459-485 | an archive bundle of such parts encodes in at most 1238 bytes, and in at most 1136 with four-digit years |
| `BackfillWire.RequestUnique` | internal/agentspecbackfill/core.go:78-103 | equal request bytes, whatever follows them, mean equal requests |
| `BackfillWire.RequestReads` | internal/agentspecbackfill/core.go:78-103 | a standard decoder finds the fourteen fields of a request in order |
| `BackfillWire.StatusReads` | internal/agentspecbackfill/core.go:185-205 | and the seven of a terminal status |
| `BackfillWire.BundleReads` | internal/agentspecbackfill/core.go:459-485 | and the six of an archive bundle, an absent certificate as null |
| `BackfillWire.AuditNamesReason` | internal/agentspecbackfill/core.go:429-444 | the audit text of a refusal is refused_ and its reason |
| `BackfillWire.ReasonTexts` | internal/agentspecbackfill/core.go:160-172 | the texts of the reasons |
| `BackfillWire.StatusUnique` | internal/agentspecbackfill/core.go:185-205 | equal status bytes, whatever follows them, mean equal statuses |
| `BackfillWire.BundleUnique` | internal/agentspecbackfill/core.go:459-485 | equal archive bytes mean equal requests, statuses, audit codes, certificates and UIDs |
| `BackfillWire.CanonicalRequest` | internal/agentspecbackfill/core.go:78-103 | exactly the valid requests yield their encoding: the size check never fires on them |
| `BackfillWire.CanonicalStatus` | internal/agentspecbackfill/core.go:185-205 | exactly the valid terminal statuses yield their encoding: the size check never fires on them |
| `BackfillWire.CanonicalBundle` | internal/agentspecbackfill/core.go:459-485 | a bundle with an invalid part or over the bound is refused and every other one yields its encoding; one made by archiving always does |
| `BackfillWire.ArchivableEncodes` | internal/agentspecbackfill/core.go:393-414 | whatever archiving accepts has canonical archive bytes |
| `BackfillWire.VerdictEncodes` | internal/agentspecbackfill/core.go:284-332 | so does every verdict at a non-zero time with its audit code |
| `CanonicalFields.DecInjective` | sandbox/core.go:1433-1443 | decimal texts of different naturals differ |
| `CanonicalFields.FormatIntInjective` | sandbox/core.go:1441-1443 | decimal texts of different integers differ, sign included |
| `CanonicalFields.CursorTextInjective` | sandbox/runtime_support.go:363-365 | cursor texts of different numbers differ and are never a start cursor |
| `CanonicalFields.FieldRoundTrip` | sandbox/core.go:1433-1437 | a length-prefixed field reads back, leaving exactly the rest, whatever characters it holds |
| `CanonicalFields.FieldsUnique` | sandbox/core.go:1433-1443 | equal encodings of lists of fields of any lengths mean equal lists |
| `CanonicalFields.FieldExamples` | sandbox/core.go:1433-1443 | literal fields |
| `CanonicalFields.SnapshotLayout` | sandbox/core.go:1388-1432 | the fields of a capability snapshot in order, with the literal tag |
| `CanonicalFields.SpecLayout` | sandbox/core.go:469-479 | the fields of an effective spec in order, with the literal tag |
| `CanonicalFields.SnapshotUnique` | sandbox/core.go:1388-1432 | equal digest pre-images of capability snapshots mean equal profiles across all variable-length lists |
| `CanonicalFields.SpecUnique` | sandbox/core.go:469-479 | equal digest pre-images of effective specs mean equal versions, image and limits |
| `CanonicalFields.WriteField` | sandbox/core.go:1433-1437 | appends one length-prefixed field |
| `CanonicalFields.WriteSnapshot` | sandbox/core.go:1388-1421 | the builder ends with exactly the encoding of the snapshot's fields |
| `PayloadCodec.MemoryBlobStore.Put` | temporalpayload/store.go:60-78 | stores bytes once per key; equal bytes again are accepted and different ones refused |
| `PayloadCodec.MemoryBlobStore.Get` | temporalpayload/store.go:80-100 | the stored bytes, within the caller's limit |
| `PayloadCodec.PutThenGet` | temporalpayload/store.go:60-100 | a put succeeds exactly for a valid key that is free or holds the same bytes, is then read back within the caller's limit, and changes no other key |
| `PayloadCodec.MarshalReference` | temporalpayload/codec.go:358-364 | fills the fixed-size reference with version, digest and big-endian size |
| `PayloadCodec.ReferenceRoundTrip` | temporalpayload/codec.go:321-332 | a reference parses back to its digest, size and key |
| `PayloadCodec.ParsedFields` | temporalpayload/codec.go:321-332 | a reference parses exactly when it has 41 bytes, version 1 and a non-zero size, and into which fields |
| `PayloadCodec.WrappedForms` | temporalpayload/codec.go:310-319 | the compressed and the reference payload, metadata and data written out |
| `PayloadCodec.Encode` | temporalpayload/codec.go:202-250 | emitted payload and store are those of the encoder whose laws follow |
| `PayloadCodec.EncodeExact` | temporalpayload/codec.go:202-250 | which form is emitted and what is stored, ties included, and each failure with its code |
| `PayloadCodec.AtMostOneRead` | temporalpayload/codec.go:252-304 | one decode reads at most one blob, whatever the payload and store |
| `PayloadCodec.ReferenceIsVerified` | temporalpayload/codec.go:270-304 | a reference decodes only at the top, when the blob under its key has the referenced size and digest, and never to another reference |
| `PayloadCodec.ReferenceRefusals` | temporalpayload/codec.go:270-304 | each way a reference is refused, with its code and number of reads |
| `PayloadCodec.CompressedDecodes` | temporalpayload/codec.go:252-269 | a compressed payload decodes exactly to what decompressing and parsing give, without a read |
| `PayloadCodec.OrdinaryPasses` | temporalpayload/codec.go:252-304 | any other payload is returned as it is |
| `PayloadCodec.LocalFormDecodes` | temporalpayload/codec.go:252-304 | both local forms decode to the payload |
| `PayloadCodec.RemoteFormDecodes` | temporalpayload/codec.go:270-304 | a reference decodes as the referenced form does |
| `PayloadCodec.RoundTrip` | temporalpayload/codec.go:202-304 | a successful encode, then any growth of the store, then decode, returns the payload, with no assumption on collisions |
| `PayloadCodec.EmitsSmallest` | temporalpayload/codec.go:202-250 | the emitted form is no larger than the inline, the compressed and the reference form |
| `PayloadCodec.EncodeExtends` | temporalpayload/codec.go:202-250 | encoding only adds blobs |
| `PayloadCodec.PutsExtend` | temporalpayload/store.go:60-78 | so does any sequence of puts, refused ones included |
| `PayloadCodec.BatchRoundTrip` | temporalpayload/codec.go:177-200 | a list that encodes decodes to the same list after any further puts |

## Left out

- Redaction.StreamEqualsBatch: its condition is exact for a pattern behind every pattern that may precede it (`StreamsIffEdgeFree`), not for one given list, where it also depends on which texts the other patterns can leave beside a marker.
- RedactionReturn.SecretNeverReleased: its condition is exact in the same sense (`KeptIffOverlapFree`); for a given list a pattern it excludes may still be kept.
- ClaimJournal, Agreement and Watches are step machines on values, one step per locked region, system call or API call, because interleaving and crashes are the point; they do not capture aliasing of the Go objects.
- CoreLedger holds each principal's ledger as a value: entries and process records are not separate heap objects, and the nested spool is reduced to its budget and its closed mark.
- FakeControlClients.NewFakeControlClient: requires that the default output limits fit each other, which the source never checks; `SpoolExactlyWhenLimitsFit` says what happens otherwise.
- FakeControlClients.FakeControlClient.constructor: the same requirement on the default output limits; under limits that do not fit, a scripted process result dereferences a missing spool.
- FakeControlClients.FakeControlClient.Submit: states the outcome when nothing comes between its three locked regions; for what may come between them only consistency is stated, by the contract of each region.
- CoreLedgers.Reserve: the sandbox record entered for a create-sandbox operation is not modelled.
- Output cursors are numbers in the spool and in replay; `CursorTextInjective` is why that loses nothing.
- Operation states outside the enumerated ones, and the form checks of failures and cursors in a script, which are a parameter.
- The sandboxes, volumes and snapshots maps of a principal, except listing by pages.
- Request bodies apart from resources, image and overwrite mode are opaque: their field checks, capability requirements and the request digest are parameters.
- JSON scanning and canonical re-encoding, base64, Unicode normalization and time formatting: abstract functions with inverse or injectivity laws.
- zstd, protobuf and SHA-256: abstract functions with inverse laws; no collision freedom is assumed.
- Times are instants without a location: UTC checks, and arithmetic that leaves the representable range some 292 billion years out, are not modelled.
- A context that has ended before a call is refused before any lock is taken; that is modelled only where it changes the ledger, at a process start.
- Context timeouts around blob I/O, and the blob store's Delete.
- A writer of terminal statuses other than the modelled controllers; list and watch plumbing of the Kubernetes adapter.
- Envelope signature checks in the claim journal are one opaque flag, and file permissions and lock files are not modelled.
- Port-range order in grants, guest paths, commands and the other field validators: each follows from one body.
- Approval, Firecracker host lifecycle, guest channel, HTTP clients and servers, command line tools and report generators.
