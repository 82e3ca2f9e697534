# Verified model of the zicato integrity notary and its tools

This project models, in Dafny, the parts of zicato whose answers other people rely on, and proves what those answers mean.

- **Byte-range containment** (`RangeEvidence`, `RangePolicy`, `RangeSplice`, `RangeContainment`, `RangeAttest`, `RangeBinding`, `RangeRecord`, `RangeExample`). A manifest of mutation spans and byte changes is checked against a parent tree, a child tree, a captured policy and patch records. The three answers are characterised exactly, and `Contained` is shown to mean that the child is the parent with only licensed segments replaced. What each recorded hash binds is stated against the content it was made of, and the records the Python orchestrator writes are shown to be accepted and answered by what the generation did.
- **Audit ledger** (`LedgerFormat`, `LedgerChain`, `LedgerFile`, `LedgerTamper`, `LedgerState`, `LedgerRecovery`, `LedgerStanding`, `LedgerNotes`, `AuditLedger`). A hash-chained file that is appended to, verified, repaired after crashes and edited by others. No statement assumes a collision-free hash: each one that depends on the hash names the two records of the given files, or the two contents of the given file, that would have to collide.
- **Ledger observer** (`LedgerObserver`, `LedgerAbsence`, `LedgerRewrite`, `TransitionObserver`). An alarm exists exactly when the history it is about was rewritten or went missing. Unless one of its appends is lost, its memory is what a replay of the file would rebuild.
- **Log tailing** (`LogTail`, `LogFollow`). A bounded backward read and a byte-cursor follow protocol, both compared with a plain forward parse.
- **Process termination** (`ProcessTable`, `Escalation`, `EscalationSafety`). SIGTERM then SIGKILL against a kernel that can change between any two looks.
- **SHA-256** (`Sha256`, `Sha256Parts`, `Sha256Constants`). The in-place implementation against a recursive reading of FIPS 180-4, what its functions do to each bit, and where its constants come from.
- **Import scope** (`ImportScope`), **test selection** (`ImportGraph`, `AffectedTests`, `AffectedPaths`), **line measurements** (`LineBudget`) and **file-level containment** (`DiffContainment`).

What the code reads from outside (directory walks, JSON, clocks, `/proc`, git, write failures) is a parameter: a record of functions, an outcome chosen per call, or a value. JSON enters the ledger as a codec with stated laws, chosen to hold of serde_json as the crate pins it: objects are unordered and never use the key it reserves for raw text, numbers are unsigned 64-bit, payloads nest no deeper than the supervisor's own, lines are texts, and the reader of replay is not assumed to agree with the parser of the chain. `LedgerWitness` builds a codec that meets all of them, so no theorem about the ledger is vacuous. Integers are unbounded except where the source's width matters: ledger numbers wrap at 2^64, SHA-256 words at 2^32.

Where the code does not do what its own text says, the code is modelled and the exact condition is proved:

- The digest framing comment (`crates/supervisor/src/ledger.rs:137-139`) says no field can be shifted across a boundary. That holds if and only if `prev`, `ts` and `kind` hold no 0x1f byte (`LedgerFormat.FramingExact`).
- An `absent` alarm for a contract hash can be raised while the epoch is present, by an epoch that states the hash "absent" (`LedgerAbsence.StatedAbsentRaisesAbsent`); over whole runs it exists if and only if it was loaded, two consecutive calls left the epoch out, or some call stated "absent" (`LedgerAbsence.AbsentHashIff`).
- `repair_torn_tail` is said to remove a partial line. Replay reads some lines the chain does not parse, such as one whose kind is written `{"ledger_integrity":null}`; such a last line is cut off too. What a repair takes is characterised by `LedgerStanding.RepairTakesNoRecord`, with the input in `LedgerStanding.RepairCanTakeAReading`.
- `tail_records` promises at most `limit` records. That holds for all inputs if and only if `limit >= 1` (`LogTail.NewestBoundedIff`).
- A recorded group id is said to stay owned while members survive. A group signal stays inside the recorded group if and only if the group was never empty (`EscalationSafety.GroupSignalInsideIff`); otherwise the check can pass on a stranger's group (`EscalationSafety.RecycledGroupPasses`).
- One pass over `/proc` can miss a live group: `EscalationSafety.ScanCanMissAFork` shows the run, and `EscalationSafety.GroupSeenGoneIff` says exactly whom a complete listing can miss.
- An unreadable file is said never to manufacture a violation. It takes no part only if neither side can read it (`DiffContainment.UnreadableTakesNoPart`).
- The mutable surface is the whole snapshot when no registered tree has a usable name, and not only when none is registered (`DiffContainment.EverythingPassesIff`).
- The running framework keeps its modules on a mount exactly when it is not declared mutable; only an entry with a snapshot is refused for it (`ImportScope.FrameworkStaysLoadedIff`).

## Model

| member | source | states |
|---|---|---|
| `RangeAttest.Attest` | crates/supervisor/src/range_containment.rs:383-648 | Unverified exactly when the evidence is incomplete or inconsistent; Violated exactly when it is complete but some change is not licensed; Contained exactly when both hold |
| `RangeAttest.CheckRecords` | crates/supervisor/src/range_containment.rs:392-482 | not ready exactly with a finding that leaves the answer Unverified; ready with the policy bound and findings that stay clean exactly when every record is bound |
| `RangeAttest.CheckManifest` | crates/supervisor/src/range_containment.rs:392-469 | the manifest checks, two of which report without ending the check |
| `RangeAttest.CheckInventory` | crates/supervisor/src/range_containment.rs:483-499 | a finding exactly when the manifest does not record every file once |
| `RangeAttest.CompareTrees` | crates/supervisor/src/range_containment.rs:483-648 | once the policy is bound, findings only report changes exactly when all evidence is bound, and there are none exactly when every change is also licensed |
| `RangeAttest.ContainedInventory` | crates/supervisor/src/range_containment.rs:483-536 | Contained: both trees hold the same files with the same executable bits, each recorded in the manifest |
| `RangeAttest.ContainedBytes` | crates/supervisor/src/range_containment.rs:539-637 | Contained: a strictly increasing, byte-preserving matching, total on parent bytes and onto child bytes outside every allowed span |
| `RangeAttest.ContainedRewrite` | crates/supervisor/src/range_containment.rs:585-637 | Contained: the child file is its parent with ordered, disjoint segments replaced, each inside one allowed span on both sides |
| `RangeAttest.ForbiddenVerbatim` | crates/supervisor/src/range_containment.rs:576-637 | Contained: every forbidden span's bytes appear verbatim and contiguously in the child, at the offset the changes before it shift it to, with no assumption on the hash |
| `RangeAttest.VerbatimRange` | crates/supervisor/src/range_containment.rs:585-637 | covered changes that overlap no forbidden span leave it whole at its shifted offset |
| `RangeAttest.PatchesCaptured` | crates/supervisor/src/range_containment.rs:696-743 | Contained: every patch targets an operation of the captured policy on a unit no captured point forbids |
| `RangeAttest.KeptMap` | crates/supervisor/src/range_containment.rs:585-637 | a covered change list matches all kept bytes of parent and child with each other in order |
| `RangeExample.SomethingIsContained` | crates/supervisor/src/range_containment.rs:383-648 | for every hash with well-formed digests some generation with a real change meets all conditions of Contained |
| `RangeContainment.Attestation.Report` | crates/supervisor/src/range_containment.rs:151-167 | the status is the function of all findings it should be, is never Contained again, and Unverified is final |
| `RangeContainment.StatusLattice` | crates/supervisor/src/range_containment.rs:151-167 | over any sequence of findings: Contained only with none, Unverified for ever |
| `RangeContainment.CheckSpan` | crates/supervisor/src/range_containment.rs:540-566 | a finding exactly for a repeated operation or a span that is malformed, out of bounds or not bound to both sides' bytes |
| `RangeContainment.CheckSpans` | crates/supervisor/src/range_containment.rs:538-575 | valid exactly when every span is bound and no operation repeats; the collected operation and forbidden sets |
| `RangeContainment.CheckChange` | crates/supervisor/src/range_containment.rs:599-627 | evidence stays bound exactly when the gap is unchanged, and clean exactly when the change is licensed |
| `RangeContainment.CheckChanges` | crates/supervisor/src/range_containment.rs:584-637 | the two-offset loop, with its early exit, decides coverage and licence of the whole list |
| `RangeContainment.CheckFile` | crates/supervisor/src/range_containment.rs:503-638 | one file's findings against its bound and licensed conditions |
| `RangeContainment.CheckFiles` | crates/supervisor/src/range_containment.rs:500-639 | the same for all files, with no operation repeated across files |
| `RangeContainment.CheckPatch` | crates/supervisor/src/range_containment.rs:696-743 | one patch is bound to its record, the snapshot and the child, and targets nothing forbidden |
| `RangeContainment.VerifyPatches` | crates/supervisor/src/range_containment.rs:650-745 | the experiment and all patches together |
| `RangeSplice.CoverageIsSplice` | crates/supervisor/src/range_containment.rs:585-637 | the gap comparison accepts a change list if and only if it is ordered, aligned and rebuilds the child from the parent |
| `RangeSplice.KeptByte` | crates/supervisor/src/range_containment.rs:585-637 | a parent byte outside every change equals the byte at its image, and mapping back returns to it |
| `RangeSplice.KeptOrder` | crates/supervisor/src/range_containment.rs:585-637 | the image map is strictly increasing |
| `RangeSplice.ReversedCoverage` | crates/supervisor/src/range_containment.rs:585-637 | coverage read from child to parent is coverage again |
| `RangeSplice.UntouchedRange` | crates/supervisor/src/range_containment.rs:585-637 | a range no change touches lies in one gap and is carried over contiguously |
| `RangePolicy.VerifyInventory` | crates/supervisor/src/range_containment.rs:319-332 | accepts exactly when the policy lists the observed files, each once, with their hashes and modes; equality of sets follows from a count |
| `RangePolicy.VerifyRoots` | crates/supervisor/src/range_containment.rs:333-349 | accepts exactly non-empty, unrepeated, canonical roots |
| `RangePolicy.IndexPoints` | crates/supervisor/src/range_containment.rs:350-362 | accepts exactly placed, unrepeated points, and indexes them all |
| `RangePolicy.MatchFile` | crates/supervisor/src/range_containment.rs:363-375 | one file's declarations extend the observed set exactly when each matches its point and repeats none |
| `RangePolicy.MatchDeclarations` | crates/supervisor/src/range_containment.rs:363-379 | accepts exactly a one-to-one matching of declarations and points |
| `RangePolicy.VerifyPolicy` | crates/supervisor/src/range_containment.rs:288-381 | succeeds exactly when hashes, coordinates, inventory, roots, points and declarations are all bound |
| `RangePolicy.PolicyPairing` | crates/supervisor/src/range_containment.rs:350-379 | a bound policy gives a bijection of manifest spans and captured points with every compared field equal |
| `RangeBinding.SafeRelativeIff` | crates/supervisor/src/range_containment.rs:192-201 | a path is safe if and only if it holds neither backslash nor NUL and its components, followed from a root, lead exactly where they say |
| `RangeBinding.IsDigestIff` | crates/supervisor/src/range_containment.rs:203-208 | a digest is exactly the hex form of 32 bytes |
| `RangeBinding.UnderIff` | crates/supervisor/src/range_containment.rs:353-356 | a path is under a root exactly if it is the root or continues it after a slash |
| `RangeBinding.InventoryAcceptsIff` | crates/supervisor/src/range_containment.rs:319-332 | the inventory of a tree is accepted for exactly the trees with the same files, executable bits and content hashes |
| `RangeBinding.ParentAsCaptured` | crates/supervisor/src/range_containment.rs:319-332 | with bound records the parent is the tree the policy was captured from, file for file, or two contents of one file collide |
| `RangeBinding.RecordsAsCaptured` | crates/supervisor/src/range_containment.rs:269-318 | the policy, the brief and the scoring record are the ones their digests were made of, or collide with them |
| `RangeBinding.OneGeneration` | crates/supervisor/src/range_containment.rs:308-315 | manifest, policy and experiment all name the one generation asked for, and the experiment lists the manifest's patches, each once |
| `RangeBinding.PointsUnderRoots` | crates/supervisor/src/range_containment.rs:333-362 | every captured point lies in a safe path under one of the roots, which are canonical and listed once |
| `RangeBinding.FileAsRecorded` | crates/supervisor/src/range_containment.rs:503-520 | each side of a file is there or not as the manifest was made of, with its executable bit and its bytes or ones that collide |
| `RangeBinding.SpanAsRecorded` | crates/supervisor/src/range_containment.rs:539-566 | a span's range on either side holds the bytes its record was made of, or ones that collide; its child range is whole or absent |
| `RangeBinding.ForbiddenFound` | crates/supervisor/src/range_containment.rs:576-583 | Contained: every forbidden unit is found in the child with the parent's bytes, or ones that collide with them |
| `RangeBinding.PatchAsRecorded` | crates/supervisor/src/range_containment.rs:696-743 | a patch record is the one its binding was made of, names itself, and targets an operation still found in the child |
| `RangeBinding.InventoryRecorded` | crates/supervisor/src/range_containment.rs:483-499 | the files of the two trees have one record each, under a safe path, and no other file has one |
| `RangeBinding.OverlapsIff` | crates/supervisor/src/range_containment.rs:613-621 | a change overlaps a forbidden span exactly if they share a byte, or one is a point strictly inside the other, or both are one point |
| `RangeBinding.ForbiddenUntouched` | crates/supervisor/src/range_containment.rs:585-637 | Contained: no change touches a forbidden unit, empty units and insertions included |
| `RangeRecord.DeclaredAsCaptured` | src/zicato/epoch/containment.py:226-300 | the manifest the orchestrator builds declares exactly the operations its policy captured, whatever order the files come in |
| `RangeRecord.RecordedIsBound` | src/zicato/epoch/containment.py:226-387 | whatever the orchestrator writes of a generation the verifier finds complete and consistent while the trees are as they were |
| `RangeRecord.RecordedAnswer` | src/zicato/epoch/containment.py:226-387 | the verifier then answers Contained if and only if the generation kept to its policy: every change inside an allowed operation's place on both sides and hitting no forbidden one, every forbidden unit found with bytes that hash alike, the same files and executable bits, and no patch of a forbidden unit |
| `LedgerFormat.FramingInjective` | crates/supervisor/src/ledger.rs:140-152 | equal digest inputs have equal fields as soon as one side's text fields hold no separator, by counting separators |
| `LedgerFormat.FramingExact` | crates/supervisor/src/ledger.rs:135-152 | the framing is unambiguous for a line if and only if its prev, ts and kind hold no 0x1f |
| `LedgerFormat.AmbiguousTwin` | crates/supervisor/src/ledger.rs:135-152 | any line with a separator in a text field has a different line with the same digest input |
| `LedgerWitness.LawsAreMet` | crates/supervisor/src/ledger.rs:105-133 | some codec meets every law the ledger proofs use, for any 64-character hash, also one whose replay reads a line the chain does not parse |
| `LedgerChain.VerifyChain` | crates/supervisor/src/ledger.rs:497-563 | the loop computes the walk: intact with its count and last digest, or the first break |
| `LedgerChain.IntactIffChained` | crates/supervisor/src/ledger.rs:497-563 | a file verifies if and only if every visible line is a record and the records are chained from zero |
| `LedgerChain.BadStays` | crates/supervisor/src/ledger.rs:514-563 | the first break decides; later lines never change it |
| `LedgerChain.SharedDigestSharesPast` | crates/supervisor/src/ledger.rs:140-152 | a supervisor-written chain and any other chain that end in one digest are the same chain, or a record of the one and a record of the other have different digest inputs with one hash |
| `LedgerChain.VerifiedFilesShareThePast` | crates/supervisor/src/ledger.rs:497-563 | two verified files that agree on one digest agree on every record up to it, at the same position, or two of those records collide |
| `LedgerTamper.EditReported` | crates/supervisor/src/ledger.rs:497-563 | in any intact file, an edit to a record that is not last and whose text fields hold no separator is reported at it or at the next, or its old and new digest inputs collide |
| `LedgerTamper.LastEditUnseen` | crates/supervisor/src/ledger.rs:497-563 | a last record may be replaced by any record that links and seals itself |
| `LedgerTamper.InsertionReported` | crates/supervisor/src/ledger.rs:497-563 | a visible line put before a record is reported at its place or at the next, whatever the hash |
| `LedgerTamper.RemovalReported` | crates/supervisor/src/ledger.rs:497-563 | removing any stretch of lines with a record in it and one after it is reported at exactly the number of records before it, whatever the hash |
| `LedgerTamper.TruncationUnseen` | crates/supervisor/src/ledger.rs:490-496 | cutting lines from the end leaves a file that verifies |
| `LedgerFile.AppendExtends` | crates/supervisor/src/ledger.rs:334-358 | one appended line extends walk, records and replay by that line only, also after a missing newline |
| `LedgerFile.BreakStands` | crates/supervisor/src/ledger.rs:334-358 | a shown break keeps its number under every append |
| `LedgerFile.FindTail` | crates/supervisor/src/ledger.rs:471-480 | one pass finds where the last visible line starts |
| `LedgerFile.TailIsLastVisible` | crates/supervisor/src/ledger.rs:471-480 | that line is visible and nothing after it is; none means nothing is visible |
| `LedgerFile.RepairKeepsRecords` | crates/supervisor/src/ledger.rs:467-488 | a file whose visible lines are all records is left as it is |
| `LedgerFile.RepairRemovesOneLine` | crates/supervisor/src/ledger.rs:467-488 | what is removed is the last visible line, which does not parse, and blanks after it; every line before it stays in place |
| `LedgerFile.TornPrefixRemoved` | crates/supervisor/src/ledger.rs:467-488 | a non-empty proper prefix of a printed line after a terminated file is exactly what is removed |
| `LedgerState.NextLineLinks` | crates/supervisor/src/ledger.rs:275-312 | the line an append makes links to the cursor and seals itself |
| `LedgerState.AppendWrites` | crates/supervisor/src/ledger.rs:275-358 | what a written append does to walk, records and replay |
| `LedgerState.AppendKeepsSynced` | crates/supervisor/src/ledger.rs:275-358 | appends, refused and rolled-back ones included, keep an intact file with next equal to the record count and prev to the last digest |
| `LedgerState.IntactCount` | crates/supervisor/src/ledger.rs:369-376 | the count of an intact file is its number of records and cannot wrap |
| `LedgerState.LoadedSynced` | crates/supervisor/src/ledger.rs:197-260 | opening an intact file puts the cursor on its last record |
| `LedgerNotes.SeedsFromLast` | crates/supervisor/src/ledger.rs:245-260 | however broken the chain, the cursor goes on from the last line that parses, its number plus one wrapping at 2^64 |
| `LedgerNotes.SeedsFromNone` | crates/supervisor/src/ledger.rs:245-260 | with no such line it starts at genesis |
| `LedgerNotes.LoadedGoesOn` | crates/supervisor/src/ledger.rs:197-220 | the same of a ledger just loaded |
| `LedgerNotes.RemovalNoted` | crates/supervisor/src/ledger.rs:221-237 | opening a file whose torn tail is cut off and noted: it replays to what it did without the tail and then to a record with the tail's length and hash |
| `LedgerNotes.BreakNoted` | crates/supervisor/src/ledger.rs:404-434 | a check that finds a new break and can note it adds one record, which names the break |
| `LedgerNotes.BlankIff` | crates/supervisor/src/ledger.rs:525-527 | a line is blank exactly if all its bytes are ASCII whitespace |
| `LedgerNotes.TrimEndIs` | crates/supervisor/src/ledger.rs:481-483 | trimming takes off exactly the whitespace at the end |
| `LedgerNotes.FirstBreakIff` | crates/supervisor/src/ledger.rs:369-395 | no break is reported if and only if the records are chained and none is missing; with records missing the number of those left is reported |
| `LedgerState.NextLineWritten` | crates/supervisor/src/ledger.rs:275-312 | the line an append makes holds no separator in its text fields, payload or digest |
| `LedgerRecovery.LeftHolds` | crates/supervisor/src/ledger.rs:334-358 | after any prefix of an append the file holds its old records and what the part of the text that is there reads as |
| `LedgerRecovery.AppendHistory` | crates/supervisor/src/ledger.rs:275-358 | however an append ends, torn included, the file replays to what it did or to its record more; a written one is always read |
| `LedgerRecovery.CrashRecovery` | crates/supervisor/src/ledger.rs:197-358 | for any intact file and a crash after any byte of an append, opening gives an intact chain with all earlier records in order, the new one if its text was complete, else one integrity record for a non-empty partial line |
| `LedgerRecovery.OpenIntact` | crates/supervisor/src/ledger.rs:197-240 | opening an intact file changes no byte |
| `LedgerRecovery.PartialText` | crates/supervisor/src/ledger.rs:219-238 | the partial-line case: removed, noted, and the chain goes on |
| `LedgerRecovery.TornThenAppendShows` | crates/supervisor/src/ledger.rs:353-356 | after a torn write and one more record the file is intact exactly if nothing of the torn text was left, else broken at its number, or at the next if all of it was left |
| `LedgerStanding.WrittenOverRuns` | crates/supervisor/src/ledger.rs:197-358 | over any run, writes failing or tearing as they may, every record of the file is a written one |
| `LedgerStanding.RunEditReported` | crates/supervisor/src/ledger.rs:275-563 | in a file any run wrote from the first start, an edit to a record that is not last is reported at it or the next, or the two records collide |
| `LedgerStanding.RepairTakesNoRecord` | crates/supervisor/src/ledger.rs:467-488 | a repair takes no record of the chain, and a break the rest shows is the one the whole showed; it takes nothing a replay reads if and only if nothing is torn or the torn line does not read |
| `LedgerStanding.RepairCanTakeAReading` | crates/supervisor/src/ledger.rs:467-488 | a file of one line that replay reads and the chain does not parse loses it |
| `LedgerStanding.RemovalReportedAndWritten` | crates/supervisor/src/ledger.rs:369-434 | any intact file shorter than the process knows is reported at the records left; the written finding leaves a standing break there with one record more |
| `LedgerStanding.RemovalRecordedOnce` | crates/supervisor/src/ledger.rs:369-434 | a removal once recorded is reported at the records left over any later run and never recorded again |
| `LedgerStanding.TickBroken` | crates/supervisor/src/ledger.rs:404-434 | a tick under a break notes it; once the note is written the break stands and is recorded exactly once |
| `LedgerStanding.RestartBroken` | crates/supervisor/src/ledger.rs:197-240 | a restart that does not mend the file keeps the break, also behind an unreadable last line |
| `LedgerStanding.RestartMends` | crates/supervisor/src/ledger.rs:197-240 | a restart that cuts off the one unreadable line leaves an intact chain |
| `LedgerStanding.BreakRecordedOnce` | crates/supervisor/src/ledger.rs:197-434 | over any run of appends, ticks and restarts, from any file and however writes fail or tear, each break number is recorded at most once more, and not at all if the file records it |
| `LedgerStanding.StepKeepsMention` | crates/supervisor/src/ledger.rs:197-434 | no step loses a record of a break, but a restart that takes a torn line naming it |
| `LedgerStanding.MentionsStay` | crates/supervisor/src/ledger.rs:197-434 | over any run the records of a break are never fewer than before it, unless some restart in it takes a torn line naming the break |
| `LedgerStanding.OpenedRemembers` | crates/supervisor/src/ledger.rs:209-213 | a ledger just opened remembers every break its file records |
| `LedgerStanding.BreakShownUntilMended` | crates/supervisor/src/ledger.rs:197-434 | with no torn write the file goes on showing a break until a restart mends it, and is intact from then on |
| `LedgerStanding.StandingBreakStays` | crates/supervisor/src/ledger.rs:197-434 | a break that no restart can cut off keeps its number for ever |
| `AuditLedger.AuditLedger.Open` | crates/supervisor/src/ledger.rs:197-240 | the object after opening is the specified state; nothing is lost, and what was sent is the replay of the file |
| `AuditLedger.AuditLedger.WriteLine` | crates/supervisor/src/ledger.rs:334-358 | every outcome of the write: whole line, untouched, cut back, or torn |
| `AuditLedger.AuditLedger.WriteNext` | crates/supervisor/src/ledger.rs:275-323 | new state, digest returned exactly when the line reached the disk |
| `AuditLedger.AuditLedger.AppendWith` | crates/supervisor/src/ledger.rs:275-323 | the same, entered in the trail with the ledger before it; the file keeps replaying to what was sent, less what was lost |
| `AuditLedger.Enter` | crates/supervisor/src/ledger.rs:275-323 | one more append adds its record to what was sent (another kind only if it landed), loses it exactly when a decision, hash or alarm does not reach the disk, and carries the trail on from the file as opened |
| `AuditLedger.KnownAt` | crates/supervisor/src/ledger.rs:275-323 | every append of a trail started from a file no longer than the final one, with the link the ledger was opened with or a digest; a decision, hash or alarm among them is one that was sent and ended as one of the process's own writes did |
| `AuditLedger.NothingLost` | crates/supervisor/src/ledger.rs:313-358 | with every write succeeding and room left for one more line, no decision, hash or alarm was lost |
| `AuditLedger.AuditLedger.Append` | crates/supervisor/src/ledger.rs:275-323 | one append with the next clock reading and outcome, entered in the trail; a record is lost exactly when it is a decision, hash or alarm and no digest is returned |
| `AuditLedger.AuditLedger.Verify` | crates/supervisor/src/ledger.rs:369-395 | the first break of the file, or the count when records are missing |
| `AuditLedger.AuditLedger.CheckWith` | crates/supervisor/src/ledger.rs:404-434 | the report, the state with a new break noted and recorded, nothing lost by it, and the file still replaying to what was sent |
| `AuditLedger.RepairTornTail` | crates/supervisor/src/ledger.rs:467-488 | removes exactly the torn tail |
| `AuditLedger.SeedFrom` | crates/supervisor/src/ledger.rs:245-260 | the cursor is the last parseable record's |
| `AuditLedger.ReadRecords` | crates/supervisor/src/ledger.rs:869-875 | the replay reads every typed record in order |
| `LedgerObserver.Load` | crates/supervisor/src/ledger.rs:824-865 | the loop computes the replay |
| `LedgerObserver.MemoryEqualsReplay` | crates/supervisor/src/ledger.rs:625-865 | over any run from any loaded ledger, restarts included, the observer's memory is the replay of its ledger and no record it adds repeats one before it |
| `LedgerObserver.RecordedOnce` | crates/supervisor/src/ledger.rs:625-800 | a record added since loading repeats no earlier decision, hash or alarm, the loaded ones included |
| `LedgerObserver.ThinnedNews` | crates/supervisor/src/ledger.rs:625-800 | leaving out records on the way to the file makes no later record a repetition |
| `LedgerObserver.ReferenceStays` | crates/supervisor/src/ledger.rs:631-761 | the first recorded decision and hash stay the reference over any further run, and no alarm is forgotten |
| `LedgerObserver.ReplayExtends` | crates/supervisor/src/ledger.rs:824-865 | later records never change a recorded decision or hash, and alarms accumulate |
| `LedgerRewrite.RewriteAlarmIff` | crates/supervisor/src/ledger.rs:625-800 | over any run from a loaded ledger, restarts included: the recorded or else first stated value is the reference, and an alarm with a value other than "absent" exists if and only if it was loaded or the run states that value against the reference |
| `LedgerRewrite.RewrittenDecisionAlarmed` | crates/supervisor/src/ledger.rs:625-672 | for a decision recorded otherwise the alarm exists if and only if it was loaded or some call of the run states that decision |
| `LedgerRewrite.RewrittenHashAlarmed` | crates/supervisor/src/ledger.rs:678-761 | the same for a contract hash, any but "absent" |
| `LedgerRewrite.DecisionsAlarmIff` | crates/supervisor/src/ledger.rs:625-672 | the same for one `observe_decisions` call |
| `LedgerRewrite.ContractsAlarmIff` | crates/supervisor/src/ledger.rs:678-761 | the same for one `observe_contracts` call |
| `LedgerRewrite.OtherAlarmsLoaded` | crates/supervisor/src/ledger.rs:764-800 | no alarm of any other field is ever raised |
| `LedgerRewrite.RecordsTold` | crates/supervisor/src/ledger.rs:625-800 | every record a run adds states the references: the first decision or hash, and in an alarm the reference as recorded beside another value as observed |
| `LedgerRewrite.NewAlarmRecorded` | crates/supervisor/src/ledger.rs:764-800 | an alarm raised in a run has a record the run added, with its fields |
| `LedgerAbsence.AbsentIffMissedTwice` | crates/supervisor/src/ledger.rs:661-720 | within a process an absent alarm exists if and only if it was loaded or the generation was unresolved in two consecutive calls after being recorded |
| `LedgerAbsence.DecisionMarkAt` | crates/supervisor/src/ledger.rs:661-672 | mark i of a run says whether event i is a decisions call, and whether it found the generation recorded and unresolved |
| `LedgerAbsence.ContractsLeaveDecisions` | crates/supervisor/src/ledger.rs:678-720 | contract calls leave every decision's absence as it was |
| `LedgerAbsence.DecisionsLeaveContracts` | crates/supervisor/src/ledger.rs:625-720 | decision calls leave every contract hash's absence and alarm as they were |
| `LedgerAbsence.DecisionsEffect` | crates/supervisor/src/ledger.rs:625-720 | the effect of one decisions call on one generation, in both directions |
| `LedgerAbsence.StatedAbsentRaisesAbsent` | crates/supervisor/src/ledger.rs:678-761 | a present epoch that states the hash "absent" raises the absence alarm |
| `LedgerAbsence.ContractsEffect` | crates/supervisor/src/ledger.rs:678-761 | one contract call raises an absence alarm if and only if the epoch was absent twice in a row or stated "absent" |
| `LedgerAbsence.AbsentHashIff` | crates/supervisor/src/ledger.rs:678-761 | within a process a hash absence alarm exists if and only if it was loaded, two consecutive contract calls left the recorded epoch out, or some call stated "absent" against another recorded hash |
| `LedgerAbsence.ContractMarkAt` | crates/supervisor/src/ledger.rs:678-696 | mark i of a run says whether event i is a contracts call, and whether it left the recorded epoch out |
| `TransitionObserver.Session` | crates/supervisor/src/ledger.rs:197-865 | from any file, after opening, loading and any calls: the ledger's trail is the appends from the opened file to the final one, and the observer's memory is what loading the file would rebuild unless an append of that trail lost a decision, hash or alarm; lost or not, nothing added repeats an earlier record |
| `TransitionObserver.SmoothRemembers` | crates/supervisor/src/ledger.rs:563-865 | if every write of the process succeeded and the file has room for one more line, its memory is what loading the file would rebuild |
| `TransitionObserver.Sessions` | crates/supervisor/src/ledger.rs:197-865 | any number of processes on one file, one after another: no record any of them adds repeats a decision, hash or alarm before it, whatever is lost; the last one's memory is as after one session |
| `TransitionObserver.OpenNews` | crates/supervisor/src/ledger.rs:197-240 | opening a file adds nothing that repeats |
| `TransitionObserver.TransitionObserver.FromLedger` | crates/supervisor/src/ledger.rs:824-865 | a restart remembers the replay of the file |
| `TransitionObserver.TransitionObserver.Raise` | crates/supervisor/src/ledger.rs:764-800 | an alarm is remembered and sent once |
| `TransitionObserver.TransitionObserver.ObserveDecisions` | crates/supervisor/src/ledger.rs:625-672 | the call is the specified step, and the count of new decisions is right |
| `TransitionObserver.TransitionObserver.ObserveContract` | crates/supervisor/src/ledger.rs:726-761 | the call is the specified step; recorded exactly for a first stated hash |
| `TransitionObserver.TransitionObserver.ObserveContracts` | crates/supervisor/src/ledger.rs:678-696 | the call is the specified step |
| `TransitionObserver.TransitionObserver.RaiseAbsences` | crates/supervisor/src/ledger.rs:702-720 | the call is the specified step |
| `LogTail.RecordsFromBytes` | src/zicato/logging_stream.py:232-268 | the rows of the file from the given offset, cursors in file coordinates, leading partial line dropped |
| `LogTail.RowsExactly` | src/zicato/logging_stream.py:232-268 | the rows are exactly the complete lines the reader takes, each with the offset just past its newline |
| `LogTail.RowsInOrder` | src/zicato/logging_stream.py:232-268 | they come in file order |
| `LogTail.RowsFiltered` | src/zicato/logging_stream.py:262-267 | the level filter keeps exactly the rows at or above the threshold, in order; zero keeps all |
| `LogTail.ReadBack` | src/zicato/logging_stream.py:317-333 | the blocks joined are the end of the file, read no further than the budget, and stop only for one of three reasons |
| `LogTail.InitialTail` | src/zicato/logging_stream.py:314-340 | the newest rows after the first line start reached, and the exact cursor |
| `LogTail.NewestBoundedIff` | src/zicato/logging_stream.py:292-311 | at most limit records for every input if and only if the limit is positive |
| `LogTail.NewestKeeps` | src/zicato/logging_stream.py:310-338 | what the slice keeps: the last `limit` records, or with a limit that is not positive all but the first -limit |
| `LogFollow.InitialTailIsSuffix` | src/zicato/logging_stream.py:314-340 | the initial tail is a suffix of the full parse with identical cursors, of at most limit records |
| `LogFollow.InitialTailExactIff` | src/zicato/logging_stream.py:314-340 | with every line readable it is exactly the last limit records if and only if the budget reaches them or there is no complete line |
| `LogFollow.TailRecords` | src/zicato/logging_stream.py:271-342 | all branches: unreadable file, follow request, initial tail |
| `LogFollow.NewestAtLeast` | src/zicato/logging_stream.py:271-343 | the records returned are the newest of those at or above the level, and none is below it |
| `LogFollow.ClampNearest` | src/zicato/logging_stream.py:300-301 | a cursor outside the file is moved to the nearest offset |
| `LogFollow.CursorFromIs` | src/zicato/logging_stream.py:302-312 | the returned cursor is just past the last newline read, or the start if there is none |
| `LogFollow.FollowCursor` | src/zicato/logging_stream.py:298-312 | over any append-only growth and any limit every cursor is just past the last newline |
| `LogFollow.FollowDeliversEachOnce` | src/zicato/logging_stream.py:298-312 | the answers joined are exactly the complete records after the start, each once, while no request exceeds the limit |
| `LogFollow.CursorsAscend` | src/zicato/logging_stream.py:298-312 | cursors never decrease |
| `LogFollow.TailThenFollow` | src/zicato/logging_stream.py:294-340 | from the initial tail's cursor there is no gap and no repeat at the seam |
| `LogFollow.FollowCompleteIff` | src/zicato/logging_stream.py:298-312 | for positive limits following is complete if and only if no request found more than the limit |
| `ProcessTable.GroupIdStableIff` | crates/supervisor/src/signal.rs:219-220 | a recorded group id still names its group if and only if the group had a member at every instant since |
| `ProcessTable.TokenNamesOneProcess` | crates/supervisor/src/signal.rs:70-75 | a pid with its start time names one process for ever |
| `Escalation.Supervisor.IsAlive` | crates/supervisor/src/signal.rs:38-54 | the answer of its one or two looks |
| `Escalation.Supervisor.Verify` | crates/supervisor/src/signal.rs:230-266 | passes exactly when what its separate looks read matches the recorded identity |
| `Escalation.Supervisor.GroupHasLiveMembers` | crates/supervisor/src/signal.rs:104-133 | the answer of the scan, each entry read at its own instant, unknown membership counted as live |
| `Escalation.Supervisor.IsGone` | crates/supervisor/src/signal.rs:277-282 | the answer of the look it records |
| `Escalation.Supervisor.Poll` | crates/supervisor/src/signal.rs:331-337 | looks until gone or the deadline, sends nothing, and always ends |
| `Escalation.Supervisor.SendChecked` | crates/supervisor/src/signal.rs:325-346 | sends at once after a passed check, or leaves the failing check or send as the last event |
| `Escalation.Supervisor.Escalate` | crates/supervisor/src/signal.rs:317-355 | for every kernel behaviour: always ends; a gapless faithful trace; SIGTERM then SIGKILL after the grace, each right after a passed check; AlreadyGone exactly when the first look finds it gone and nothing else happens; every success ends in a look that found the target gone; Failed only for a failed check or send, or after a delivered SIGKILL and its full wait with no look that found it gone |
| `EscalationSafety.OneTermThenOneKill` | crates/supervisor/src/signal.rs:317-355 | two signals of a run are SIGTERM and then SIGKILL, and there is no third |
| `EscalationSafety.LeaderSeenGone` | crates/supervisor/src/signal.rs:38-54 | a leader seen gone was dead or absent at an instant of the look |
| `EscalationSafety.LeaderSeenLiveIff` | crates/supervisor/src/signal.rs:38-54 | the leader is answered gone if and only if it was not read alive and then found existing |
| `EscalationSafety.EntryLiveIff` | crates/supervisor/src/signal.rs:112-130 | a readable entry counts as live exactly if it is a live member of the group |
| `EscalationSafety.ScanFoundSomebody` | crates/supervisor/src/signal.rs:104-133 | a scan answers live only for an unreadable listing entry, a live member, or a process that could not be read and then existed |
| `EscalationSafety.GroupGoneMeans` | crates/supervisor/src/signal.rs:104-133 | a group answered gone is above 1 and not the supervisor's own; without a listing it had no member, and with one every entry was readable |
| `EscalationSafety.GroupSeenGoneIff` | crates/supervisor/src/signal.rs:104-133 | after a complete listing answered gone, a process is a live member at the last look if and only if it became one during the scan and stayed one |
| `EscalationSafety.GoneIfNobodyEnters` | crates/supervisor/src/signal.rs:104-133 | with no action that puts anybody into the group during the scan nobody is left |
| `EscalationSafety.ScanCanMissAFork` | crates/supervisor/src/signal.rs:104-133 | a world in which the scan has a complete listing and answers gone while a forked member lives |
| `EscalationSafety.LeaderSignalsInside` | crates/supervisor/src/signal.rs:317-355 | every delivered leader signal follows a reading of the original token and reaches the process read, unless its pid was issued again in between |
| `EscalationSafety.LeaderCheckIff` | crates/supervisor/src/signal.rs:230-266 | the check of a leader passes if and only if it read the recorded start token and then found the process alive |
| `EscalationSafety.GroupCheckIff` | crates/supervisor/src/signal.rs:230-266 | the check of a group passes if and only if the group is its leader's, above 1 and not the supervisor's own, and either the recorded token was read and then the leader in that group, or no token was read and the leader was then found dead and in no group |
| `EscalationSafety.GroupSignalsVouched` | crates/supervisor/src/signal.rs:317-355 | over a whole escalation every delivered group signal follows at once on a reading of the recorded leader itself, or on finding it dead; a stranger that can be read is never taken for it |
| `EscalationSafety.GroupSignalInsideIff` | crates/supervisor/src/signal.rs:226-266 | a group signal reaches only the recorded group if and only if that group was never empty |
| `EscalationSafety.EscalationStaysInside` | crates/supervisor/src/signal.rs:317-355 | over a whole escalation each delivered signal stays inside the recorded group if and only if the group was never empty up to that signal |
| `EscalationSafety.RecycledGroupPasses` | crates/supervisor/src/signal.rs:226-266 | a world in which the group emptied, its id was issued again, and the check's looks pass on the stranger's group that the signal then reaches |
| `Sha256.Pad` | crates/supervisor/src/sha256.rs:99-105 | the loop gives the padding of section 5.1.1 |
| `Sha256.PaddingInjective` | crates/supervisor/src/sha256.rs:99-105 | below 2^61 bytes no two messages pad alike |
| `Sha256.Expand` | crates/supervisor/src/sha256.rs:108-120 | the array holds the message schedule, although the terms are added in another order |
| `Sha256.CompressBlock` | crates/supervisor/src/sha256.rs:122-160 | 64 in-place rounds and the final additions are one compression of section 6.2.2 |
| `Sha256.HashBlocks` | crates/supervisor/src/sha256.rs:107-161 | the block loop iterates the compression |
| `Sha256.Digest` | crates/supervisor/src/sha256.rs:94-168 | the digest is the specification's, for every byte string |
| `Sha256.HexDigest` | crates/supervisor/src/sha256.rs:171-178 | always 64 lowercase hex characters of the digest |
| `Sha256.HexInjective` | crates/supervisor/src/sha256.rs:171-178 | equal hex texts are equal digests |
| `Sha256Parts.WordReadsBytes` | crates/supervisor/src/sha256.rs:107-112 | a word is read big-endian: writing it back gives its four bytes |
| `Sha256Parts.BlocksJoin` | crates/supervisor/src/sha256.rs:107-107 | the blocks one after another are the message |
| `Sha256Parts.HashReadsBack` | crates/supervisor/src/sha256.rs:163-168 | the eight words are read back from the 32 bytes |
| `Sha256Parts.HexReads` | crates/supervisor/src/sha256.rs:171-178 | each byte is two hex digits, the high one first |
| `Sha256Parts.WordsAreBits` | crates/supervisor/src/sha256.rs:113-147 | the six functions on words are those on their bits |
| `Sha256Parts.ChChooses` | crates/supervisor/src/sha256.rs:133-147 | Ch is y where x is set and z elsewhere |
| `Sha256Parts.MajIsMajority` | crates/supervisor/src/sha256.rs:133-147 | Maj is what x and y are where they agree and z elsewhere |
| `Sha256Parts.BigSigma0Sums` | crates/supervisor/src/sha256.rs:133-147 | each bit is the sum of the bits 2, 13 and 22 places left, around the end |
| `Sha256Parts.BigSigma1Sums` | crates/supervisor/src/sha256.rs:133-147 | the same for 6, 11 and 25 |
| `Sha256Parts.SmallSigma0Sums` | crates/supervisor/src/sha256.rs:113-120 | the same for 7 and 18, with the bit 3 places left lost at the end |
| `Sha256Parts.SmallSigma1Sums` | crates/supervisor/src/sha256.rs:113-120 | the same for 17 and 19, with 10 |
| `Sha256Constants.ConstantsAreCubeRoots` | crates/supervisor/src/sha256.rs:26-91 | each round constant is the first 32 fractional bits of the cube root of its prime |
| `Sha256Constants.StartIsSquareRoots` | crates/supervisor/src/sha256.rs:15-24 | each initial word is the first 32 fractional bits of the square root of one of the first eight primes |
| `Sha256Constants.FirstPrimes` | crates/supervisor/src/sha256.rs:26-91 | the list of 64 primes used holds exactly the primes up to 311 |
| `ImportScope.DriverImports.EnterScope` | src/zicato/driver_imports.py:71-97 | the new tables, states and answer of an entry |
| `ImportScope.DriverImports.LeaveScope` | src/zicato/driver_imports.py:98-103 | the new tables and states of a leave |
| `ImportScope.DriverImports.Forget` | src/zicato/driver_imports.py:127-129 | exactly the modules under the managed names are dropped |
| `ImportScope.StepKeeps` | src/zicato/driver_imports.py:83-103 | every entry, leave or table change keeps all users on one state and its counter equal to their number |
| `ImportScope.FailedEntry` | src/zicato/driver_imports.py:84-95 | an entry fails if and only if contexts or snapshots conflict or the framework would be replaced, and then changes nothing |
| `ImportScope.EntryAnswers` | src/zicato/driver_imports.py:71-104 | when an entry passes through, when it enters, and that its user is inside exactly then |
| `ImportScope.VisitLasts` | src/zicato/driver_imports.py:84-103 | while anyone is inside, the first entry's state stays active and the tables are mounted once |
| `ImportScope.VisitRestores` | src/zicato/driver_imports.py:106-134 | after any interleaving the last leave restores path and finders as at first entry and the managed modules exactly, and leaves the others alone |
| `ImportScope.SnapshotFirst` | src/zicato/driver_imports.py:111-123 | a mounted snapshot is searched first, through the declared-source finder |
| `ImportScope.PathMounted` | src/zicato/driver_imports.py:106-125 | the mounted path is the roots, each once, and then what was there; one finder is put before the others |
| `ImportScope.FirstOccurrencesOrder` | src/zicato/driver_imports.py:122-122 | the roots keep the order of their first mention |
| `ImportScope.MountUnloadsIff` | src/zicato/driver_imports.py:45-121 | mounting unloads a module if and only if its package is found under the roots and is not the framework, or is declared mutable under a proper name |
| `ImportScope.IdentifierIff` | src/zicato/driver_imports.py:111-114 | an ASCII identifier is a letter and then letters and digits |
| `ImportScope.FrameworkStaysLoadedIff` | src/zicato/driver_imports.py:45-55 | mounting keeps the framework's modules if and only if it is not declared mutable |
| `ImportGraph.Resolve` | tools/affected_tests.py:367-381 | the longest tracked dotted prefix, or none if there is none |
| `ImportGraph.BuildGraph` | tools/affected_tests.py:384-394 | an edge exactly for each resolved import of another module |
| `ImportGraph.Closure` | tools/affected_tests.py:397-406 | ends on every graph, cycles included, with exactly the reachable modules |
| `ImportGraph.ChainReaches` | tools/affected_tests.py:384-406 | a chain of imports is a walk of the graph |
| `AffectedTests.Triage` | tools/affected_tests.py:432-464 | exactly the reasons and modules the changed paths give |
| `AffectedPaths.ReasonIff` | tools/affected_tests.py:432-464 | each full-suite reason is given exactly if it holds of a changed path: deleted, shared by all tests, neither Python nor searched text, no module, or importing what cannot be resolved |
| `AffectedPaths.TracedIff` | tools/affected_tests.py:432-464 | a module counts as changed exactly if a changed file defines it or it names a changed document in its string data |
| `AffectedPaths.NothingOverlooked` | tools/affected_tests.py:432-464 | every changed path gives a reason, is traced through its module, or is a document whose naming modules all count as changed |
| `AffectedPaths.ModuleNameIs` | tools/affected_tests.py:203-216 | a Python file below a package root defines the module of its path, and `__init__` its package |
| `AffectedPaths.NoModule` | tools/affected_tests.py:203-216 | a file that is not Python or is below no root defines none |
| `AffectedPaths.FileNameIs` | tools/affected_tests.py:409-417 | a path's file name is what follows its last slash |
| `AffectedPaths.SuffixIs` | tools/affected_tests.py:90-93 | its suffix is the last dot and what follows, when something precedes and something follows |
| `AffectedPaths.SharedIff` | tools/affected_tests.py:67-80 | which paths every test depends on |
| `AffectedPaths.ProseIff` | tools/affected_tests.py:82-93 | which paths are prose |
| `AffectedPaths.TestFileIff` | tools/affected_tests.py:409-417 | which files are tests |
| `AffectedPaths.ContainsIff` | tools/affected_tests.py:349-364 | a text names another exactly if it is found at some offset |
| `AffectedPaths.ChangedIff` | tools/affected_tests.py:158-161 | the changed paths are the branch's and, with the worktree, the staged, unstaged and untracked ones |
| `AffectedPaths.CheckIff` | tools/affected_tests.py:532-551 | a selection passes the checks before a run exactly if its status says whether there are tests and a full run has a reason |
| `AffectedTests.Select` | tools/affected_tests.py:467-501 | a test is picked if and only if it changed, reaches a changed module other than itself, or names a changed non-test module; every reason given is true |
| `AffectedTests.LargerChangeSelectsMore` | tools/affected_tests.py:432-501 | enlarging a change never drops a test or a full-suite reason |
| `AffectedTests.ImportChainSelected` | tools/affected_tests.py:384-501 | a test whose imports lead to a changed module is picked, unless the whole suite is needed |
| `AffectedTests.BuildSelection` | tools/affected_tests.py:504-541 | status, tests and reasons for every comparison, and the status checks before a run always pass |
| `LineBudget.Summarize` | tools/line_budget.py:393-418 | totals, languages and per-subsystem tallies of the entries |
| `LineBudget.TotalsAre` | tools/line_budget.py:393-418 | the totals are the newlines of all files, those of production files, and the executable lines of production files |
| `LineBudget.TallyIs` | tools/line_budget.py:393-418 | the same of one subsystem |
| `LineBudget.LanguageLinesAre` | tools/line_budget.py:393-418 | a language's lines are the newlines of its files, and the production files are counted one by one |
| `LineBudget.SubsystemReported` | tools/line_budget.py:393-418 | a subsystem is reported exactly if it has a file |
| `LineBudget.EntriesAre` | tools/line_budget.py:370-384 | every file that is not excluded is counted once, in order, and no other |
| `LineBudget.ColumnsSumToTotals` | tools/line_budget.py:393-418 | in every report the subsystem columns sum to the three totals, in any order |
| `LineBudget.CachedEntries` | tools/line_budget.py:489-506 | the cached listing equals the direct one except for logic of non-production files, and the cache stays true |
| `LineBudget.AlikeMeasures` | tools/line_budget.py:370-418 | such listings have equal tallies |
| `LineBudget.KeyInjective` | tools/line_budget.py:501-501 | a cache key names one blob and one suffix |
| `LineBudget.Chain` | tools/line_budget.py:509-522 | the first-parent commits from the start to the head, oldest first, or none if it is not on the chain |
| `LineBudget.History` | tools/line_budget.py:529-557 | from any valid cache every commit gets what measuring it directly gives; another tool's cache is not trusted; the cache written back is valid |
| `LineBudget.PointSums` | tools/line_budget.py:564-584 | a history point's columns sum to the commit's measurements |
| `DiffContainment.MutableBasenames` | crates/supervisor/src/diff_containment.rs:94-105 | the loop collects the surface |
| `DiffContainment.TreeBasename` | crates/supervisor/src/diff_containment.rs:94-105 | a tree is known by its last ordinary name |
| `DiffContainment.BaseNameIff` | crates/supervisor/src/diff_containment.rs:94-105 | a tree's name is its last part that is neither empty nor ".", and there is none if that is ".." |
| `DiffContainment.InBoundsIff` | crates/supervisor/src/diff_containment.rs:111-125 | a path may change freely if and only if its first part is the name of a registered tree, or no registered tree has one |
| `DiffContainment.TrailingSlash` | crates/supervisor/src/diff_containment.rs:94-105 | a trailing slash or "/." changes nothing |
| `DiffContainment.EverythingPassesIff` | crates/supervisor/src/diff_containment.rs:88-124 | every pair passes if and only if no registered tree has a usable name |
| `DiffContainment.Compare` | crates/supervisor/src/diff_containment.rs:222-247 | each differing path outside the surface is listed exactly once with its kind |
| `DiffContainment.Attest` | crates/supervisor/src/diff_containment.rs:179-254 | contained if and only if the hash maps agree outside the surface; skipped exactly when a snapshot is missing |
| `DiffContainment.AgreeMeansBytes` | crates/supervisor/src/diff_containment.rs:133-157 | hashes agree outside the surface if and only if each file there has the same readable bytes or its own two contents collide |
| `DiffContainment.UnreadableTakesNoPart` | crates/supervisor/src/diff_containment.rs:146-154 | a file unreadable on one side is reported unless neither side can read it |
| `DiffContainment.LineageKeepsRoot` | crates/supervisor/src/diff_containment.rs:179-254 | along contained pairs every file outside the surface keeps the root's hash, and its bytes unless its own contents collide at some step |
| `DiffContainment.KeyNamesOneFile` | crates/supervisor/src/diff_containment.rs:161-169 | the reported path names one file when names are UTF-8 |
| `DiffContainment.OpaqueNamesCollide` | crates/supervisor/src/diff_containment.rs:161-169 | names that are not UTF-8 are dropped, so two files can be reported alike |

## Left out

- Finding texts: the codes and paths of findings are modelled, their detail sentences are not; `RangeAttest.Attest` states which answer is given, not the list of findings.
- Directory walking, symbolic links, permissions and the canonical location of captured records: trees, roots and captured bytes are inputs.
- Recording a generation: the enumerator, the applier, patch validation and the differ are inputs of `RangeRecord.RecordedAnswer`, held to what its `Sensible` condition says; the orchestrator's own verifier (`src/zicato/epoch/containment.py:500-686`) is not modelled.
- JSON: the concrete grammar of serde_json is not modelled; the codec laws of `LedgerFormat` stand for it. Which byte strings are UTF-8 is a parameter. Payload values are texts, booleans, unsigned numbers, null and lists of rows of those; the fractional and negative numbers that some watchdog records carry are not modelled, and a value of another shape reads as null.
- Ledger: an existing file that cannot be read, fsync, locks, logging, the wording of break reasons and the lossy decoding of a removed line's text are not modelled. Of the loaded history only decisions, contract hashes and alarms are modelled, since nothing in the observer reads the rest.
- AuditLedger.AuditLedger.Append: the trail of appends is part of the model, not of the program.
- LedgerStanding.BreakShownUntilMended: is about runs in which no write is left torn; `LedgerRecovery.TornThenAppendShows` says what a torn write leaves.
- Log tailing: the row parser and the level names are a parameter; a file that shrinks or is replaced between requests is not modelled.
- Processes: a start token is compared as a real number, so rounding of 64-bit tick counts to floats is not modelled. The kernel never issues a pid again with an equal start time. The clock is read once per look and once before the first.
- Sha256.Digest: is stated for any six functions and constants of that shape; `Sha256.HexDigest` uses the standard's. The standard's test vectors are not derived.
- Import scope: non-ASCII identifiers, bytecode handling and the finder's own search are not modelled; each entry and leave is one step, as under the lock.
- Test selection: parsing Python, git, the text of reasons, the order of lists and the existence check of each selected path are not modelled.
- Line measurements: the counters, path classes and git are parameters; working-tree measurement, quoting of unusual paths by git, failed git calls and the display order of subsystems are not modelled.
- File-level containment: the order of violations, the workspace scan and the findings store are not modelled.
- HTTP routes, HTML pages, database and configuration readers, and process wiring.
- The promotion gate (a score threshold), the action ring (a bounded buffer), the reaper (a path-prefix check) and the divergence audit (a join of index and files).
- The remaining tools: prose linting, console measurement and statistical experiments.
