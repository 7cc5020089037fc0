# dev-hermit evidence model

A Dafny model of the parts of dev-hermit where two pieces of code must agree, or where a loop or a
run of commands must keep something for every input:

- `Text`, `Reading`, `Sheets`: strings, splitting, sorting, Python-style stripping and integers, and what
  each of these readings means; a scorecard as a header with records, and the dictionary view of a record.
- `Csv`, `CsvReader`, `Headers`, `SheetText`: the collector's CSV writer, the renderer's splitter, the
  reader used by the Python tools (the quoting of section 2 of RFC 4180), the collector's reading of a
  header line, and scorecards as text.
- `Population`, `Revisions`, `Envelope`, `Measured`: the population hash, the run metadata, the
  collector, and every column it writes in terms of the plan, the harness records and the guest runs.
- `Provenance`, `Attested`, `Agreement`: the provenance checker, its exit status and every defect in terms
  of the texts of the sheet, and what the collector promises the checker.
- `Render`, `RenderCounts`, `RenderText`, `RenderCells`: run scoping, newest-write collapse, backend
  index, bucket rows and TOTAL, the numbers of a row in terms of the last cell of each test, and the
  reading of the file, down to the texts under its columns.
- `Selection`, `CheckRecords`, `Workflows`, `RunRecords`: latest attempt per check context and per
  (head, workflow), and both from the fields of the records given to those of the records returned.
- `EnvBlock`: environment-block parity, down to the bytes.
- `Receipts`, `Batch`, `Reaper`: the stateful operations of `ci-hub.rs`.
- `TierEvidence`, `TierTerms`, `Retire`, `Migration`, `MigrationTerms`: the evidence gate, the retirement
  tool, the schema migration, and what gate and migration make of the texts of a row.
- `StrictVerdict`, `E9Patch`: record-stream verdicts and retried guest runs.

Loops of the sources are methods proved against specification functions; state that is updated in
place (`ci-hub batch`) is a class. SHA-256 is a function parameter; where a statement needs it, the
digests of the one pair of texts it compares are assumed not to collide. Guest runs, `gh`, label edits,
the receipt verifier, clocks and timestamp parsing are arbitrary functions or numbered result streams,
so every statement holds for every outcome. What Python's `json` makes of a profile is a parameter as
well. Git is such an outside too: the hermit revision is whatever text `git rev-parse HEAD` prints.

Where the code does less than its documentation says, the model follows the code, states exactly
when the promise holds, and shows an input for which it does not:

- The collector accepts a hermit revision in either letter case and the checker only lower case; the
  collector hashes the plan's fields as they are and the checker strips them first. Producer and checker
  agree on a claiming run exactly when the run id is nonblank, git prints the hermit revision in lower
  case, and the mode, the lane and every name in the plan are free of surrounding white space
  (`Agreement.ProducerCheckerAgreement`, and over the text of the file `Agreement.AppendedTextAccepted`).
  The Reverie revision is lower-cased when it is read from Cargo.lock (`Revisions.MetaShape`), and git
  itself prints lower case; the condition is about what the collector checks, not about a run seen in
  practice. `Agreement.ClaimingRunVerdict` gives a run with one claim for every digit and every cell, and
  `Agreement.PaddedRunRefused` the one refused for a blank before its test id.
- The collector splits the header line on every comma and trims the pieces, so it sees the file's columns
  exactly when every name is trimmed and free of commas, quotes and newlines (`Headers.HeaderReadExact`).
  A name with a comma makes its rows wider than the header, and the checker then refuses the file
  (`Agreement.CommaNameRefused`; a column `a,b` in `Agreement.CommaColumnSeen`).
- The renderer loses a field holding a newline and a bare carriage return at the end of a line; the
  Python reader keeps newlines and loses unquoted carriage returns and records of one empty field
  (`Csv.RendererFileExact`, `CsvReader.ReaderFileExact`).
- A backend named twice in `--backends` is added twice into TOTAL (`Render.TotalIsColumnSumIff`; two
  cells that show it in `Render.TwiceNamedTotal`).
- A starvation threshold of 2^63 minutes or more turns negative (`Reaper.ThresholdExact`; the first
  such request in `Reaper.WrappedThreshold`).
- A label that disagrees with batch membership is not repaired by naming the member again
  (`Batch.StaleLabelStays`, exactly when a label matches in `Batch.LabelRightIff`; a run of two commands
  in `Batch.AddedTwiceUnlabelled`).
- Rewriting a record with repeated column names overwrites the earlier column (`Sheets.RecordKeptIff`;
  a record in `Sheets.RepeatedNameOverwritten`); retiring raises when the sheet has no `reason` column
  (`Retire.Retire`; a sheet in `Retire.BareSheetRaises`).
- A migration missing only the anchor column reports "already migrated" and never writes it
  (`Migration.AlreadyMigratedIff`, `Migration.AnchorNeverWritten`). A written migration of a sheet
  without rows crashes in its post-check, and a record too short to reach a preserved column fails it
  (`Migration.PostCheckIff`; sheets in `Migration.HeaderOnlyCrashes` and `Migration.ShortRecordFails`).

## Model

| member | source | states |
|---|---|---|
| Csv.SplitCsvLine | compat-envelope/render-scorecard.rs:190-217 | the character loop computes the recursive splitter that the round trips are about |
| Csv.LineRoundTrip | compat-envelope/collect-envelope.rs:83-89 | for every nonempty list of arbitrary strings, splitting the emitted line returns exactly those strings |
| Csv.FileLinesExact | compat-envelope/render-scorecard.rs:366-375 | written lines are read back unchanged if and only if none holds a newline or ends in a carriage return |
| Csv.RendererFileExact | compat-envelope/render-scorecard.rs:366-375 | a whole emitted file is recovered by the renderer if and only if no field holds a newline and no record ends in an unquoted carriage return |
| CsvReader.ReaderFileExact | compat-envelope/check-scorecard-provenance.py:92-105 | for every list of records, the checker's reader recovers the emitted file if and only if every field holding a carriage return is quoted and no record is written as an empty line |
| Headers.HeaderReadExact | compat-envelope/collect-envelope.rs:311-316 | the collector reads a written header back if and only if it has a column and every name is trimmed and free of commas, quotes and newlines |
| Headers.ColumnsSeen | compat-envelope/collect-envelope.rs:311-316 | for every newline-free header the collector sees one column per name and one more per comma inside a name |
| Headers.ReadNames | compat-envelope/collect-envelope.rs:311-316 | whatever the file holds, the names read are trimmed and hold no comma and no newline |
| SheetText.SheetRead | compat-envelope/check-scorecard-provenance.py:92-95 | any written file is recovered if and only if no field leaves a carriage return unquoted and no record is an empty line, and the reader then sees the sheet that was written |
| Population.PreimageIgnoresOrder | compat-envelope/check-scorecard-provenance.py:63-73 | the hashed population text is the same for every permutation of the rows, for any contents |
| Population.PreimageCanonical | compat-envelope/collect-envelope.rs:129-147 | on tab- and newline-free fields two populations hash the same text if and only if they are the same multiset |
| Population.ProducerCheckerPreimage | compat-envelope/check-scorecard-provenance.py:63-73 | for any fields, producer text (raw) equals checker text (stripped) if and only if every field is trimmed |
| Envelope.ProjectionRoundTrip | compat-envelope/collect-envelope.rs:585-597 | for every row and every nonempty target header, the emitted line splits into one field per column, each the row's value for it, with `parity` aliased and unknown columns blank |
| Envelope.LegacyParityValue | compat-envelope/collect-envelope.rs:588-588 | the legacy column name `parity` is served the stdout verdict |
| Envelope.CaptureParity | compat-envelope/collect-envelope.rs:905-940 | a verdict exists exactly when both runs produced a hash, and is their equality |
| Envelope.GroupCells | compat-envelope/collect-envelope.rs:335-338 | the grouping loop computes the key-ordered regrouping |
| Envelope.RegroupExact | compat-envelope/collect-envelope.rs:335-338 | groups are key-ordered, keep plan order inside, and lose or repeat no cell |
| Envelope.OneRowPerCell | compat-envelope/collect-envelope.rs:563-568 | every plan yields exactly one row per cell, so the changed-population exit cannot fire |
| Envelope.IndexResults | compat-envelope/collect-envelope.rs:368-372 | outcomes are indexed by (test, mode) and the last record wins |
| Envelope.MeasureGroups | compat-envelope/collect-envelope.rs:360-560 | the nested measuring loops produce one pending row per cell in group order, each with the columns of `Measured.FinalRowMeans` |
| Envelope.CountRows | compat-envelope/collect-envelope.rs:561-562 | the executed and evidence counts are those of the pending rows |
| Envelope.StampRows | compat-envelope/collect-envelope.rs:581-597 | every row carries the three run-wide counts and is projected onto the target header |
| Envelope.CheckTarget | compat-envelope/collect-envelope.rs:255-332 | a parity run is refused exactly on an inexact revision, a dirty tree or a missing required column |
| Measured.RefusedMeans | compat-envelope/collect-envelope.rs:255-332 | the same in terms of the texts: a revision is exact if it is forty hexadecimal digits in any mixture of cases |
| Envelope.Collect | compat-envelope/collect-envelope.rs:335-597 | one whole run: refused exactly when the target is, otherwise one finished record per planned cell, its columns those of `Measured.FinalRowMeans` |
| Measured.FinalRowMeans | compat-envelope/collect-envelope.rs:374-597 | every column of a finished row read off the world: outcome, duration and reason of the last harness record unless nothing was recorded or exercised; determinism `1` exactly on a passing two-run cell, `0` exactly on a recorded outcome other than pass and skip, else blank; parity verdict, hashes, comparator and tier exactly as the two guest runs gave them; the run-wide counts |
| Measured.CountsMean | compat-envelope/collect-envelope.rs:561-568 | the executed count is the number of planned cells with a harness record, the evidence count that of the cells whose two runs both gave a hash |
| Measured.ProfileMeans | compat-envelope/collect-envelope.rs:149-177 | the recorded command is the strict one for that backend, with the CPUID option exactly in the portable lane, and the harness command names lane, bucket, backend and mode |
| Revisions.LockedReverieSha | compat-envelope/collect-envelope.rs:116-127 | the loop over Cargo.lock computes the one revision pinned, if there is exactly one |
| Revisions.LockedExact | compat-envelope/collect-envelope.rs:116-127 | a revision is reported if and only if some line pins it and every line that pins one pins that one |
| Revisions.RevisionOf | compat-envelope/collect-envelope.rs:119-125 | what a lock line pins is forty lower-case hexadecimal digits |
| Revisions.MetaShape | compat-envelope/collect-envelope.rs:247-254 | on every host the Reverie revision is forty lower-case digits or unknown, the run time is never blank, and the run id only if the command line gave a blank one |
| Provenance.CheckRows | compat-envelope/check-scorecard-provenance.py:142-226 | the row loop reports exactly the row defects, indexes the runs in order of appearance, and counts claims and re-derivations; what each is, in the texts of the row, is `Attested.DefectsExact` and `Attested.CountsExact` |
| Provenance.CheckRuns | compat-envelope/check-scorecard-provenance.py:228-288 | the run loop reports exactly the run defects, each exactly where `Attested.DefectsExact` puts it |
| Provenance.CheckScorecard | compat-envelope/check-scorecard-provenance.py:76-302 | the whole check: refusals first, then every defect, the counts and the exit status, which is the one of `Attested.ExitExact` |
| Provenance.AllDefectsExact | compat-envelope/check-scorecard-provenance.py:142-288 | no defect is reported if and only if every claim stands and every run stands, stated without the check lists; `Attested.ExitExact` says the same of the texts |
| Provenance.CheckerSound | compat-envelope/check-scorecard-provenance.py:76-302 | exit 0 means every verdict equals the equality of its hashes, all claims were re-derived, and each claiming run's counts and population are those of its rows |
| Attested.DefectsExact | compat-envelope/check-scorecard-provenance.py:142-288 | a defect is reported if and only if the texts of the sheet have that fault, for each of the row and run defects, over the raw columns |
| Attested.ExitExact | compat-envelope/check-scorecard-provenance.py:76-302 | exit 2 exactly on a sheet without records, 0 exactly when its rows fit, its columns are there, the run asked for occurs and no text is at fault, else 1 |
| Attested.CleanTrees | compat-envelope/check-scorecard-provenance.py:164-165 | exit 0 means that every row of a run with a claim says `0` or the word false, in any case and padding, about its tree |
| Attested.DirtyRefused | compat-envelope/check-scorecard-provenance.py:269-270 | any other text in a claiming row draws the defect of the row and that of its run |
| Attested.CountsExact | compat-envelope/check-scorecard-provenance.py:289-302 | the counts printed are those of the claiming rows and of the claiming rows whose verdict the hashes bear out |
| Agreement.FactsOfCarried | compat-envelope/check-scorecard-provenance.py:146-226 | through any header with the checker's columns, the checker reads each value from where the collector wrote it |
| Agreement.AppendedScope | compat-envelope/check-scorecard-provenance.py:129-140 | scoped to a fresh run id, the checker sees exactly the rows of that run |
| Agreement.StrippedPlanId | compat-envelope/check-scorecard-provenance.py:63-73 | the id the checker derives from the stripped fields is the run's own if and only if no field of the plan is padded |
| Agreement.ProducerCheckerAgreement | compat-envelope/collect-envelope.rs:358-597 | for every host, plan, harness result set and capture, the rows of a parity run draw no defect if and only if they make no claim, or the run id is nonblank, git printed the revision in lower case and the plan is unpadded |
| Agreement.AppendedRunAccepted | compat-envelope/check-scorecard-provenance.py:76-302 | the checker asked about the run just appended exits 0 under exactly that condition |
| Agreement.AppendedTextAccepted | compat-envelope/check-scorecard-provenance.py:76-302 | over the text of the file, with plain column names that the collector reads from the first line and records that can be recovered, the checker's exit status is 0 if and only if that condition holds |
| Agreement.CommaNameRefused | compat-envelope/check-scorecard-provenance.py:103-105 | under any header with a comma inside a name, the rows appended are wider than the header and the checker exits 1 whatever it is asked |
| Agreement.OwnHeaderPlain | compat-envelope/collect-envelope.rs:311-316 | the collector's own header is read back as it was written, whatever follows it |
| Agreement.CommaColumnSeen | compat-envelope/collect-envelope.rs:311-316 | with a column `a,b` added, the collector sees more columns than the file has |
| Agreement.ClaimingRun | compat-envelope/collect-envelope.rs:255-262 | every hypothesis of the agreement is met by a run that makes a claim, for every cell and every hexadecimal digit git may print |
| Agreement.ClaimingRunVerdict | compat-envelope/collect-envelope.rs:108-110 | that run, appended under the collector's own header, is let start by the collector and gets exit 0 from the checker if and only if git printed lower case and the cell is unpadded |
| Agreement.PaddedRunRefused | compat-envelope/collect-envelope.rs:129-147 | an identified run with a blank before its test id is let start by the collector and refused by the checker |
| Render.ScopeCells | compat-envelope/render-scorecard.rs:413-426 | the default scope is the run of the last-appended row, and scoping keeps exactly that run |
| Render.CollapseNewest | compat-envelope/render-scorecard.rs:427-444 | the collapse keeps, per key, exactly the newest write |
| Render.BuildIndex | compat-envelope/render-scorecard.rs:524-546 | the index loop is last-write-wins per backend, bucket and test; the numbers it leads to are those of `RenderCounts.RowMeans` |
| Render.CollapseKeepsIndex | compat-envelope/render-scorecard.rs:427-444 | for rows in file order, collapsing first and indexing in any order gives the same index |
| Render.ScopesAgree | compat-envelope/render-scorecard.rs:413-444 | on a single-run file the default scope and `--all` build the same backend index |
| Render.PtracePasses | compat-envelope/render-scorecard.rs:487-498 | the denominator of a bucket is exactly the set of tests ptrace passed in the mode |
| Render.CountBackend | compat-envelope/render-scorecard.rs:559-588 | each count is the number of denominator tests with that flag |
| Render.RowChained | compat-envelope/render-scorecard.rs:524-588 | in every bucket and backend, parity <= measured <= ran <= ptrace and determinism <= measured <= ran |
| RenderCounts.RowMeans | compat-envelope/render-scorecard.rs:487-588 | the denominator is the number of tests with a green ptrace cell, and each column of a backend counts exactly those of them whose last cell on that backend is green at parity, green with a parity, green and reproduced, green with evidence of reproduction, or was run; ptrace and native are never counted as backends |
| Render.Aggregate | compat-envelope/render-scorecard.rs:549-600 | one row per bucket, its numbers those of `RenderCounts.RowMeans`, and a TOTAL that adds each row once per mention of the backend |
| Render.TotalIsColumnSumIff | compat-envelope/render-scorecard.rs:589-599 | TOTAL equals the column sum if and only if the backend is named once or the column is zero |
| Render.TotalChained | compat-envelope/render-scorecard.rs:589-599 | the TOTAL counts are ordered for any request, and bounded by the ptrace total for a backend named once |
| Render.RepeatedBackendOvercounts | compat-envelope/render-scorecard.rs:477-485 | over the rows of any file, a backend that ran every denominator test exceeds the ptrace total if and only if it is named at least twice |
| Render.TwiceNamedTotal | compat-envelope/render-scorecard.rs:589-599 | over one test passed by ptrace and dbi, with dbi named twice, TOTAL shows two runs against one ptrace pass |
| RenderText.ReadRows | compat-envelope/render-scorecard.rs:366-408 | the loop over data lines computes the cells, or stops at the first unknown tier |
| RenderText.TextScopesAgree | compat-envelope/render-scorecard.rs:296-444 | over any accepted file of a single run, the cells are in file order and the default scope and `--all` build the same index |
| RenderText.WrittenCells | compat-envelope/render-scorecard.rs:296-408 | a written scorecard is rendered from exactly its records, one cell each and in order |
| RenderText.LatestIsAppended | compat-envelope/render-scorecard.rs:413-426 | of the file the collector leaves, the default scope takes exactly the rows of the run just appended, in order |
| RenderCells.CellsMean | compat-envelope/render-scorecard.rs:366-408 | one cell for every data line that is not blank or short, in order, each field the text under its column, flags and evidence exactly as the texts say |
| RenderCells.RefusedExact | compat-envelope/render-scorecard.rs:373-389 | the file is refused if and only if some such line carries none of the seven tiers |
| RenderCells.ColumnExact | compat-envelope/render-scorecard.rs:315-349 | the parity column is the observable's own or the legacy one, occurring once, not both, and never beside the other observable's |
| RenderCells.FileMeans | compat-envelope/render-scorecard.rs:296-411 | whatever text is accepted, the cells are those of its lines under its own header and column |
| Selection.SelectLatestChecks | ci-hub/check_outcome.py:96-153 | the dictionary loop computes the fold per context, in order of first appearance |
| Selection.ChosenIsLatest | ci-hub/check_outcome.py:117-153 | for every context the selected key is maximal and the verdict is the common one at that key, or ambiguous if they disagree |
| Selection.SelectionIgnoresOrder | ci-hub/check_outcome.py:96-153 | no permutation of the input changes what is selected for a named context |
| Selection.SelectionIdempotent | ci-hub/check_outcome.py:96-153 | selecting again from the output returns it, with ambiguity markers and nameless entries |
| Selection.DisagreementIsNoResult | ci-hub/check_outcome.py:245-263 | a disagreement at the newest key never classifies as passed or failed |
| Selection.PassedIsUnanimous | ci-hub/check_outcome.py:245-263 | a selected pass means every newest attempt is that attempt, finished, and its conclusion reads `success` |
| Selection.FailureIsUnanimous | ci-hub/check_outcome.py:245-263 | a selected failure means every newest attempt is that attempt, finished, with one of the four failing conclusions |
| Selection.ClassifyExact | ci-hub/check_outcome.py:245-263 | passed, failed and no result, each if and only if, over the texts of status and conclusion in any case and padding |
| Selection.ReturnedOnce | ci-hub/check_outcome.py:96-153 | among the records returned a context appears if and only if it has an eligible attempt, then exactly once, and its record reads as the chosen verdict |
| Selection.ReturnedIgnoresOrder | ci-hub/check_outcome.py:96-153 | for every permutation of the input the records returned for a context read the same verdict |
| Selection.ReturnedDisagreement | ci-hub/check_outcome.py:245-263 | a record returned for a context whose newest attempts disagree is neither passed nor failed |
| CheckRecords.ViewExact | ci-hub/check_outcome.py:38-83 | what is read of a record: the first nonempty of the name, head and conclusion keys, the first integer run number or the one in the address, and the first time that is not the zero date |
| CheckRecords.StampExact | ci-hub/check_outcome.py:117-153 | newness is the run number, then the time in character order |
| CheckRecords.ReturnedSpeaks | ci-hub/check_outcome.py:96-153 | over records in and records out: what is returned as a pass or failure of a context is what every newest record of that context says |
| CheckRecords.ReturnedIsLast | ci-hub/check_outcome.py:139-153 | where the newest records of a context agree, the record returned is the last of them, unchanged |
| Workflows.SelectLatestWorkflowAttempts | ci-hub/check_outcome.py:187-242 | the filtered loop computes the fold per exact (head, workflow) |
| Workflows.SelectAttemptRecords | ci-hub/check_outcome.py:187-242 | the same over records as they arrive |
| Workflows.SelectedCarriesChosen | ci-hub/check_outcome.py:187-242 | every selected run is admitted and carries the chosen key and verdict of its (head, workflow) |
| Workflows.ChosenIsLatest | ci-hub/check_outcome.py:211-242 | the selected attempt has the maximal (time, id) key and the common verdict at it, or is ambiguous |
| Workflows.SelectionIgnoresOrder | ci-hub/check_outcome.py:187-242 | no permutation of the runs changes the selected key and verdict |
| Workflows.SelectionIdempotent | ci-hub/check_outcome.py:187-242 | selecting again from the records returned, with the same filters, returns them, ambiguous ones included |
| Workflows.AmbiguousViewed | ci-hub/check_outcome.py:225-241 | marking a run ambiguous keeps its head, name, event and key |
| Workflows.SelectLatestWorkflowRun | ci-hub/check_outcome.py:156-169 | nothing is returned if and only if nothing is admitted; otherwise one of the selected attempts, with its chosen verdict, that no admitted run is newer than |
| RunRecords.RunViewExact | ci-hub/check_outcome.py:171-185 | what is read of a run: the first nonempty of the head, workflow, number and creation keys, a number that is no integer being zero |
| RunRecords.AskedExact | ci-hub/check_outcome.py:205-210 | a run is admitted if and only if its texts meet every filter that is given |
| RunRecords.ReturnedRunOnce | ci-hub/check_outcome.py:187-242 | a (head, workflow) is returned if and only if a record asked about has it, and then once |
| RunRecords.ReturnedRunSpeaks | ci-hub/check_outcome.py:187-242 | over records in and records out: the record returned carries the newest stamp told by any admitted record of its head and workflow, and the verdict all records that new tell, or the ambiguous one if they disagree |
| RunRecords.ReturnedRunIsFirst | ci-hub/check_outcome.py:212-242 | where the newest runs of a workflow at a head agree, the record returned is the first of them, unchanged |
| EnvBlock.StripToleratedFromBlock | compat-envelope/check-env-block-parity.rs:475-489 | the chunk loop computes the byte-level strip |
| EnvBlock.StripCommutes | compat-envelope/check-env-block-parity.rs:475-489 | stripping an encoded block equals encoding the filtered entries |
| EnvBlock.StripIdempotent | compat-envelope/check-env-block-parity.rs:475-489 | stripping twice is stripping once, on all blocks |
| EnvBlock.ExtraNulsAlwaysDiffer | compat-envelope/check-env-block-parity.rs:157-203 | any block showing the same entries with extra empty chunks differs after stripping by exactly their number, under every allowlist |
| EnvBlock.BlankingIsCaught | compat-envelope/check-env-block-parity.rs:469-489 | overwriting bytes with NUL leaves the entries as they were and is always caught by the byte comparison |
| EnvBlock.BlankSignatureShows | compat-envelope/check-env-block-parity.rs:176-201 | two or more blanked bytes always leave a NUL run the reference cannot hold |
| EnvBlock.LongestNulRun | compat-envelope/check-env-block-parity.rs:176-192 | the scan returns the greatest run length and the start of its first occurrence |
| EnvBlock.DescribeRawDifference | compat-envelope/check-env-block-parity.rs:157-203 | notes are empty exactly on equal blocks; otherwise lengths, the exact first difference, and the blank note exactly when the arm holds a longer run |
| EnvBlock.CompareChannel | compat-envelope/check-env-block-parity.rs:508-559 | parity is exactly equality of the filtered entry sequences, duplicates included, and the lists are exactly the missing, altered and excused names |
| EnvBlock.MapsAddNothing | compat-envelope/check-env-block-parity.rs:508-559 | equal filtered sequences leave the map comparison nothing to report |
| EnvBlock.ArmParity | compat-envelope/check-env-block-parity.rs:725-733 | an arm is at parity exactly when three sequence equalities hold |
| EnvBlock.CheckArms | compat-envelope/check-env-block-parity.rs:618-900 | exit 0 if and only if the reference and some other arm were measured and every other arm is at parity; exit 1 if and only if one diverges |
| EnvBlock.AllowedExact | compat-envelope/check-env-block-parity.rs:618-631 | an arm is excused a name if and only if the caller allowed it or residuals are declared, the backend of the arm is dbi, and the name is one of the three DynamoRIO variables |
| EnvBlock.StrangerDiverges | compat-envelope/check-env-block-parity.rs:618-733 | an entry that only one of the two blocks has, under a name the arm is not excused, is always a divergence |
| EnvBlock.ArmsExact | compat-envelope/check-env-block-parity.rs:633-636 | what stands for an arm is its last measurement |
| Receipts.RemoveExactCommentMarker | ci-hub/ci-hub.rs:4990-5017 | the edited tree and the number of lines removed |
| Receipts.RemovalExact | ci-hub/ci-hub.rs:4990-5017 | exactly the lines equal to the marker go, at every depth, and all other nonempty lines stay in order |
| Receipts.EditedLines | ci-hub/ci-hub.rs:4999-5008 | within one body the remaining lines are kept, blank ones included; an emptied body reads as one empty line |
| Receipts.RemovalKeepsShape | ci-hub/ci-hub.rs:4990-5017 | nothing outside `body` strings changes |
| Receipts.RemovalShrinks | ci-hub/ci-hub.rs:4990-5017 | the returned count is the number of nonempty lines lost, and is positive exactly when the marker occurs |
| Receipts.RemovalChangesIff | ci-hub/ci-hub.rs:4990-5017 | the tree is unchanged if and only if the marker does not occur |
| Receipts.ParseExact | ci-hub/ci-hub.rs:4883-4929 | verifier output is accepted if and only if it is the three printed fields of a well-formed reference, in any order |
| Receipts.MarkerInjective | ci-hub/ci-hub.rs:5104-5107 | markers of well-formed references tell the references apart |
| Receipts.CaptureExact | ci-hub/validation/verify_receipt.sh:93-93 | the verifier's pattern captures a reference exactly from the lines that spell it |
| Receipts.MarkerRoundTrip | ci-hub/ci-hub.rs:5104-5107 | the line the hub removes for a reference is the one line the verifier reads it from, if and only if repository and commit have no blank |
| Receipts.ParseMeans | ci-hub/ci-hub.rs:4883-4929 | what the verifier must print: the three fields in any order, with digests of 40 and 64 lower-case digits and the canonical path |
| Receipts.ReuseExistingImmutableReceipt | ci-hub/ci-hub.rs:5085-5120 | the retry loop terminates and computes the recursive specification |
| Receipts.ReuseExplained | ci-hub/ci-hub.rs:5085-5120 | every run is a list of rejected references, at most one per nonempty line, then one deciding call; an artifact is returned only when that call's reference was fetched and matched |
| Receipts.NothingFoundIff | ci-hub/ci-hub.rs:5097-5103 | the empty result is returned if and only if the first verifier call finds nothing |
| Receipts.ReuseComplete | ci-hub/ci-hub.rs:5085-5120 | a valid matching marker is always found if the verifier finds some valid marker whenever one remains |
| Batch.CollectMembers | ci-hub/ci-hub.rs:2517-2529 | the requested members, each once, in order of mention |
| Batch.PlanIsExactDelta | ci-hub/ci-hub.rs:2531-2627 | the label additions and removals of every command are exactly its change of membership, without repeats |
| Batch.CommandMeans | ci-hub/ci-hub.rs:2531-2627 | `set` leaves exactly the requested members, `add` those and the old ones in order, `remove` the old ones without them, `clear` none; a command leaves everything alone exactly without a batch, with nothing to do, on a dry run or on a failed write |
| Batch.EditsMean | ci-hub/ci-hub.rs:2384-2454 | every edit logged by a command adds the label of a newcomer or removes that of a leaver, additions first, each with its own result |
| Batch.ExitMeans | ci-hub/ci-hub.rs:2384-2627 | the exit status: 2 without a batch (0 for `clear`), 0 with nothing to do or dry, an error on a failed write, else 0 exactly when everything was done |
| Batch.Hub.BatchSet | ci-hub/ci-hub.rs:2531-2559 | new file, labels, log and exit status of `set`; the members are those of `Batch.CommandMeans` |
| Batch.Hub.BatchAdd | ci-hub/ci-hub.rs:2561-2586 | new file, labels, log and exit status of `add` |
| Batch.Hub.BatchRemove | ci-hub/ci-hub.rs:2588-2611 | new file, labels, log and exit status of `remove` |
| Batch.Hub.BatchClear | ci-hub/ci-hub.rs:2613-2627 | new file, labels, log and exit status of `clear` |
| Batch.Hub.Publish | ci-hub/ci-hub.rs:2384-2454 | file first, then every edit in order; exit 0 exactly when no edit, label creation or commit failed |
| Batch.AttemptsAreDelta | ci-hub/ci-hub.rs:2384-2454 | exactly the pull requests whose membership changes are edited |
| Batch.RunKeepsSound | ci-hub/ci-hub.rs:2384-2627 | over every run with arbitrary failures the list stays duplicate-free and any disagreeing label had its latest edit fail |
| Batch.LabelsAreMembers | ci-hub/ci-hub.rs:2384-2627 | when no edit fails, labels equal membership after every run |
| Batch.StaleLabelStays | ci-hub/ci-hub.rs:2531-2586 | a command that leaves a membership alone leaves its label alone, even a wrong one |
| Batch.LabelRightIff | ci-hub/ci-hub.rs:2384-2627 | after any command a label matches its membership if and only if it matched before, where the membership stays, or the edit took effect or the label was wrong before, where it changes |
| Batch.AddedTwiceUnlabelled | ci-hub/ci-hub.rs:2561-2586 | an add whose edit fails followed by the same add leaves the member unlabelled, and the second reports success |
| Reaper.ThresholdExact | ci-hub/ci-hub.rs:2690-2690 | the threshold is the requested minutes, capped, if and only if the request is below 2^63 |
| Reaper.WrappedThreshold | ci-hub/ci-hub.rs:2690-2690 | the smallest such request gives the most negative threshold |
| Reaper.HugeThresholdStarves | ci-hub/ci-hub.rs:2690-2690 | a larger request starves every run that has not started |
| Reaper.QualifyOnePr | ci-hub/ci-hub.rs:2739-2827 | a pull request is starved if and only if its newest exact-head run is incomplete, has no started job and waited past the threshold; an error exactly when a needed query fails |
| Reaper.QualifyCiTimeout | ci-hub/ci-hub.rs:2683-2733 | the classification is complete, or unknown exactly when a query fails |
| Reaper.ClassifiedOnce | ci-hub/ci-hub.rs:2719-2727 | every listed pull request is classified exactly once |
| Reaper.StarvedQualify | ci-hub/ci-hub.rs:2719-2727 | the starved entries are exactly those that qualify |
| Reaper.ReapTargets | ci-hub/ci-hub.rs:3147-3262 | the effect trace per target, a truthful result for each, and successes plus failures equal to targets |
| Reaper.TraceSafe | ci-hub/ci-hub.rs:3147-3232 | for every failure pattern, a cancel follows a successful label on the same pull request and an audit a successful cancel of the same run |
| Reaper.OnlyStarvedTouched | ci-hub/ci-hub.rs:3053-3061 | only starved pull requests, and only the one asked for, are touched |
| Reaper.FailuresShow | ci-hub/ci-hub.rs:3147-3262 | failures are counted exactly when some effect failed |
| Reaper.RunReap | ci-hub/ci-hub.rs:3045-3263 | a dry or incomplete run touches nothing; exit 2 exactly on an incomplete qualification or a failed effect |
| TierEvidence.CheckRow | compat-envelope/tier_evidence.py:277-294 | the component loop computes the reasons against a claim |
| TierEvidence.ReasonsExact | compat-envelope/tier_evidence.py:257-294 | a qualifying claim draws no reason if and only if every component it names is measured, or covered by a clean current receipt |
| TierTerms.ReasonsMean | compat-envelope/tier_evidence.py:180-294 | each reason against a claim if and only if the texts of the row and the ledger bear it out: a column that is not there, a missing value, an empty comparison, no receipt, a receipt without a clean tree, a receipt that is undated or out of date |
| TierTerms.NameExact | compat-envelope/tier_evidence.py:125-138 | the identity of a claim spells file, test, mode, backend and comparison tier |
| TierEvidence.EvidenceExpires | compat-envelope/spot-check-cadence.py:82-88 | over a fixed ledger, evidence is only lost as time passes |
| TierEvidence.Check | compat-envelope/tier_evidence.py:297-397 | exit 0 if and only if the register's identities are exactly the unevidenced ones (none without a register); claims are the qualifying rows, upheld those that stand, and the two lists exactly the others in order with their reasons, so claims equal upheld plus registered plus violations |
| TierEvidence.RatchetExact | compat-envelope/tier_evidence.py:331-341 | no violation and no stale entry means exactly that the register is the debt |
| TierEvidence.ClaimsConserved | compat-envelope/tier_evidence.py:313-330 | every qualifying claim is upheld, registered or a violation |
| TierTerms.GateMeans | compat-envelope/tier_evidence.py:297-397 | over the texts of the scorecards: exit 2 without scorecards, 0 exactly when the register names the rows that owe evidence and nothing else, else 1 |
| Retire.RowsToDemote | compat-envelope/retire_unevidenced_tier_claims.py:82-97 | the targets are exactly the rows with reasons, in order |
| Retire.Retire | compat-envelope/retire_unevidenced_tier_claims.py:110-143 | untouched, counted, rewritten or raised, each exactly when; the rewritten sheet and the count |
| Retire.BareSheetRaises | compat-envelope/retire_unevidenced_tier_claims.py:126-138 | a sheet of one column with a full-tier claim needs a demotion and cannot be written |
| Retire.OtherColumnsKept | compat-envelope/retire_unevidenced_tier_claims.py:126-133 | every column but tier and reason reads as before, in every row |
| Retire.StandingRowKept | compat-envelope/retire_unevidenced_tier_claims.py:126-133 | a row that is not demoted reads as before in every column |
| Retire.DemotedRowReads | compat-envelope/retire_unevidenced_tier_claims.py:128-132 | a demoted row carries the unqualified tier and its old reason with the note, the note listing what the reasons name |
| Retire.Components | compat-envelope/retire_unevidenced_tier_claims.py:99-107 | from the texts of the reasons, whatever explanation they carry, the loop takes the component or state each names, once and in order of mention |
| Retire.RetireIdempotent | compat-envelope/retire_unevidenced_tier_claims.py:110-143 | a second retire finds nothing |
| Retire.RetireThenCheck | compat-envelope/retire_unevidenced_tier_claims.py:110-143 | after applying to every scorecard the gate exits 0 without a register, and with one if and only if it is empty |
| Retire.RetireTextThenCheck | compat-envelope/retire_unevidenced_tier_claims.py:110-143 | the same over the bytes of the files, read by the dictionary reader before and after the rewrite |
| Retire.DemotionsGrow | compat-envelope/spot-check-cadence.py:82-88 | for a fixed ledger the rows to demote only grow with time |
| Sheets.RecordKeptIff | compat-envelope/retire_unevidenced_tier_claims.py:121-138 | rewriting leaves a record as it was if and only if it fills the header and repeated names carry equal values |
| Sheets.RepeatedNameOverwritten | compat-envelope/retire_unevidenced_tier_claims.py:121-138 | a record with two columns of one name comes back with the later value in both |
| Migration.Migrate | compat-envelope/migrate-scorecard-schema.py:58-227 | refused, already migrated, dry run or rewritten, each exactly when, with the rewritten sheet and its post-check |
| Migration.ViewSettles | compat-envelope/migrate-scorecard-schema.py:119-171 | a migrated row needs nothing more |
| MigrationTerms.ProceedsExactly | compat-envelope/migrate-scorecard-schema.py:58-101 | a sheet is migrated, on that observable, if and only if its rows fit, it has exactly that one observable, an anchor or a `reason` column, and all or none of the tier columns and of the provenance columns |
| MigrationTerms.HeaderMeans | compat-envelope/migrate-scorecard-schema.py:82-118 | the anchor goes behind `reason`, the tier columns behind the anchor, the provenance columns to the end, in their order |
| MigrationTerms.RowsMigrated | compat-envelope/migrate-scorecard-schema.py:119-171 | the five written columns of every row, in terms of the texts before |
| Migration.ObservationKept | compat-envelope/migrate-scorecard-schema.py:151-171 | a 0/1 value stays, fully bound, or stands in the legacy field with its column name |
| Migration.LabelsFillBlanks | compat-envelope/migrate-scorecard-schema.py:129-149 | labels only fill blanks; a value that says something is never replaced, and the only comparison tier ever written is the legacy one |
| Migration.LegacyKept | compat-envelope/migrate-scorecard-schema.py:160-171 | a legacy value already there is only replaced by the same text |
| Migration.MigrationIdempotent | compat-envelope/migrate-scorecard-schema.py:58-186 | migrating a migrated scorecard is accepted and changes nothing |
| Migration.MigrationPreserves | compat-envelope/migrate-scorecard-schema.py:58-227 | per row: every column but the five written ones reads as before, the preserved ones included, no observation is lost, and every 0/1 left has all eight provenance cells nonblank |
| Migration.ColumnsSurvive | compat-envelope/migrate-scorecard-schema.py:103-118 | every old column is in the new header, and unless it is one of the five written ones it reads as before in every row |
| Migration.AlreadyMigratedIff | compat-envelope/migrate-scorecard-schema.py:173-186 | nothing is written if and only if all columns but possibly the anchor are there and no row needs a change |
| Migration.AnchorNeverWritten | compat-envelope/migrate-scorecard-schema.py:82-92 | a sheet missing only the anchor is accepted, needs no change, and keeps lacking it |
| Migration.PostCheckIff | compat-envelope/migrate-scorecard-schema.py:201-227 | the post-check crashes exactly without rows and passes exactly when no record stops short of a preserved column |
| Migration.HeaderOnlyCrashes | compat-envelope/migrate-scorecard-schema.py:201-206 | a header without rows is accepted and written, and its post-check crashes |
| Migration.ShortRecordFails | compat-envelope/migrate-scorecard-schema.py:208-216 | a record that stops before `reason` is accepted and written, and its post-check fails |
| StrictVerdict.Records | compat-envelope/strict_verdict.py:62-76 | one record per line with the marker, from the marker on, trailing blanks dropped |
| StrictVerdict.RecordExact | compat-envelope/strict_verdict.py:62-76 | what a line contributes: the text from its first marker on without trailing blanks, and nothing exactly without a marker |
| StrictVerdict.RecordsMean | compat-envelope/strict_verdict.py:62-76 | every record of a run comes from its own line, in order, and no line with a marker is passed over |
| StrictVerdict.PairsMean | compat-envelope/strict_verdict.py:79-96 | of a region exactly its own records are compared, in order, each by the range and the content captured |
| StrictVerdict.Digest | compat-envelope/strict_verdict.py:99-104 | what is hashed is every record followed by a newline |
| StrictVerdict.Compare | compat-envelope/strict_verdict.py:116-149 | PASS if and only if both streams are nonempty and equal, if and only if nonempty and nothing differs |
| StrictVerdict.PrefixPlusDiffering | compat-envelope/strict_verdict.py:107-149 | common prefix plus differing records never exceeds the longer length |
| StrictVerdict.DetlogVerdict | compat-envelope/strict_verdict.py:161-166 | the same, over the detlog records of two runs |
| StrictVerdict.MemoryVerdictOf | compat-envelope/strict_verdict.py:169-189 | contents and address ranges are compared separately |
| StrictVerdict.MemoryPassIff | compat-envelope/strict_verdict.py:169-189 | both pass if and only if the nonempty pair sequences are equal |
| StrictVerdict.DetlogPassCoversMemory | compat-envelope/strict_verdict.py:161-189 | a passing detlog leaves no stack or heap verdict failing |
| StrictVerdict.StrictIff | compat-envelope/strict_verdict.py:215-227 | `strict` if and only if all four components passed, blank if and only if none did |
| StrictVerdict.StrictRowIff | compat-envelope/strict_verdict.py:247-295 | a row fed from two runs is `strict` if and only if stdout and info log passed and stack and heap contents were compared, nonempty and equal |
| StrictVerdict.TierIgnoresOrder | compat-envelope/strict_verdict.py:215-227 | the tier does not depend on dictionary order |
| E9Patch.MeasureArm | compat-envelope/collect-e9patch-compat.rs:356-423 | the two retry loops compute the arm, its total duration included |
| E9Patch.ArmExact | compat-envelope/collect-e9patch-compat.rs:356-423 | wedged if and only if every allowed attempt wedged; L1, L2 and verify-wedged likewise in terms of the streams; L2 implies L1 |
| E9Patch.ArmMeans | compat-envelope/collect-e9patch-compat.rs:356-423 | wedged, broken, ran, repeated and verify-wedged, each if and only if, over the allowed attempts of the two legs |
| E9Patch.PassIff | compat-envelope/collect-e9patch-compat.rs:186-212 | an e9patch pass if and only if L2, parity and a rewritten site |
| E9Patch.RowsMean | compat-envelope/collect-e9patch-compat.rs:592-613 | the two rows of a compiled guest read off its runs: outcome, determinism, and a parity exactly where a site was rewritten |
| E9Patch.ClassMeans | compat-envelope/collect-e9patch-compat.rs:614-631 | the seven classes of a guest, each if and only if, over the runs of its two arms |
| E9Patch.RegressionsExact | compat-envelope/collect-e9patch-compat.rs:608-642 | a divergence exactly on two L1 arms with different output; a run failure exactly on an unwedged nonzero exit with no wedged arm |
| E9Patch.RegressionsMean | compat-envelope/collect-e9patch-compat.rs:633-641 | a regression is listed if and only if it is a guest that diverged or failed to run |
| E9Patch.Collect | compat-envelope/collect-e9patch-compat.rs:565-660 | two rows per guest, the exact tally, the regressions and the exit status |
| E9Patch.TallyConserved | compat-envelope/collect-e9patch-compat.rs:608-626 | the tally classes add up to the guests |

## Left out

- Argument parsing, help text, subprocess launching, file locking, report printing and JSON report text: plumbing, represented by parameters.
- The regression list of the envelope collector and its verify-tier parsing from JSON: single-branch readings.
- CSV text of a migrated scorecard: the migration reads a list of lines cut by `splitlines`, another reader than the one modelled, so it is modelled on header and records.
- A ledger or claim key whose cell is missing rather than blank: both read as blank.
- Floating-point rounding of the receipt age: instants are integer microseconds compared exactly.
- Timestamp syntax (RFC 3339, ISO 8601): a parsing function parameter.
- Unicode: digits, letter case and hexadecimal are ASCII, and environment names are byte strings without lossy decoding.
- JSON syntax of issue comments: the tree is a value; `serde_json` trees are owned, so the in-place edit has no aliasing to lose, but the update in place itself is not modelled.
- Whitespace splitting of the receipt verifier's output: the fields are given as a list.
- The memory-record regular expression: a function parameter, required only to capture within a line.
- Parsing of the e9patch reach banner: a field of each run result.
- A batch file that does not parse, or is truncated by a failed write: every command then stops with an error.
- A check rollup that is not a list, and a context name equal to the nameless sentinel: contexts are a tagged key.
- The renderer's refusal of an empty denominator: a single-branch reading.
- The renderer's ptrace denominator under duplicate ptrace rows when collapsing first: only the backend index is claimed to agree.
- The undecided-verdict columns of strict_verdict.py and cross-backend prefixes: single-branch readings.
- Canonical-receipt qualification, the landing protocol, locks and caches: they rest on code that is not part of this model.
