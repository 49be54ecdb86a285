# Verified model of pgsavvy's state machines and text code

pgsavvy is a PostgreSQL client with a terminal UI and a machine-readable command line. This project
models, in Dafny, the parts of it whose promises no finite set of tests can settle, and proves those
promises for all inputs, all runs and all interleavings:

* **Staged edits** (`RowValues`, `EditIdentities`, `PendingEdits`, `PendingEditStaging`, `PendingEditDiscards`,
  `PendingEditRuns`, `PendingEditOutcomes`, `PendingEditRekeying`). A class with the fields and loops of the
  original is proved against specification functions; over runs of those functions no staged edit is lost, an
  unknown commit is retained until it is reconciled, spent receipts are harmless, and re-keying is one
  simultaneous substitution.
* **The statement lexer and splitter and the SQL printers** (`Utf8`, `CliScanner`, `CliLexer`,
  `CliWindows`, `CliLexemes`, `CliNumerals`, `CliStatements`, `CliLocality`, `CliCopyGrammar`, `CliScriptGrammar`,
  `CliCopyWords`, `PgQuoting`, `ExecuteCommit`). A lexer with a cached operator suffix refines lexing afresh, the
  splitter accepts exactly the scripts of a grammar that knows nothing of its counters and states, splitting is
  local, and printing round-trips.
* **Atomic transactions** (`TransactionServer`, `AtomicResults`, `AtomicTransaction`). The reported
  outcome is true against every behaviour of an honest server and an unreliable wire, and reported exactly when
  the exchange shows it.
* **Concurrent protocols as steps** (`AppStateStore`, `AppStateProgress`, `UpdateLock`, `NoticeBarrier`, `FinishCalls`,
  `SessionProgress`, `ResultDelivery`, `ResultOutcomes`) and the imperative pieces they call (`RunHandle`,
  `MachineIO`). A state and a step relation with invariants over every run, and for each protocol that what it is
  for can always be reached; any number of callers of `finish` refines one per run.
* **Printers, parsers, refinements and arithmetic** (`DsnText`, `DsnRedact`, `Passfile`, `RowIdentity`,
  `StatementTimeout`, `JsonBudget`, `JsonMeaning`).

`Common` holds the shared option and result types, `AsciiBytes` the shared classes of bytes and the numbers
that digits write. Bytes are characters: a text is a sequence of characters, one for each byte. `dafny verify dfyconfig.toml` checks the
project.

## Where the code falls short of a promise

* The splitter checks a COPY only as far as it goes: an unfinished one is accepted, and so is a query in parentheses
  followed by FROM, which PostgreSQL rejects (`UnfinishedIsAccepted`; `CopyIsViable` gives the exact condition; the comment at
  `pkg/query/cli_statements.go:163-165` names TO alone).
* Re-keying after a commit can leave two edits of one cell. `CollisionIsReachable` reaches it with three
  stagings and one commit; `RekeyingKeepsCellsUnique` gives the exact condition.
* From there a discard takes the wrong edit: it checks its selection by version but removes the first edit of each
  cell, so the selected edit stays and another goes (`DiscardTakesWrongEdit`). `DiscardIsExact` says for every valid
  state and selection when a discard is exact.
* A mutation whose timer `Close` stops can be lost although `Flush` and `Close` return nil
  (`CloseDropsAMutation`). `FlushIsDurable` excludes exactly that event. What happens after it is decided by the
  jobs that still write: `LateWritersDecide` says over every run that the mutation ends on disk if and only if it
  was there or such a job wrote it, and `StoppedTimerDecides` when, short of a new Save, one can.
* `machineExecuteCommit` looks at letters only, so `commit_now` counts as COMMIT (`CommitNowIsFound`;
  `FoundCommitIsLexed` gives the exact condition).
* A struct with two fields of one JSON name is charged for both although one is encoded, and can be refused by a
  budget its encoding fits (`SharedNamesAreChargedTwice`). Without shared names that never happens; with them, where
  no escape, empty numeral or long float makes up for it, it always does (`RefusedExactlyForSharedNames`).
* The two password-file readers disagree on a line with more than five fields (`SixFieldsAreSkipped`) and on one that
  ends in two carriage returns (`ReturnStaysInPassword`); passwords the streaming one refuses aside, on nothing
  else (`ReadersDiffer`, `FilesDiffer`).
* A password printed behind a text that leaves a value open can stay: a host that ends in `password=` is enough
  (`UnsettledLeavesPassword`). Every password is scrubbed whole and alone if and only if the text before is settled
  (`ScrubbedExactlyBehindSettled`); `PrintedPasswordIsScrubbed` is a simple case of that for printed connection
  strings.
* A key that is a struct of unexported fields, with a NaN and another number outside pointers and slices, is not
  identical to itself (`HiddenStructIsNotItself`, with the exact condition in `HiddenStructIsItself`).
* The identifier printer turns the empty name into two double quotes, which the lexer rejects
  (`IdentRoundTrip`).

## Model

| member | source | states |
|---|---|---|
| `RowValues.RowEqualIsCanonical` | pkg/models/pending_edit.go:623-679 | The row test, with its DeepEqual shortcut, accepts two keys exactly when they agree once every NaN is one NaN and -0 is 0, at any nesting of slices, pointers and structs with exported fields only |
| `RowValues.RowIdentityIsEquivalence` | pkg/models/pending_edit.go:623-679 | Row identity is reflexive, symmetric and transitive, NaN keys included, for keys whose structs have exported fields only |
| `RowValues.DeepEqualIsNotReflexive` | pkg/models/pending_edit.go:623-633 | Deep equality alone would separate a NaN key from itself, so the fallback is needed |
| `RowValues.HiddenStructIsItself` | pkg/models/pending_edit.go:637-673 | A struct of unexported fields is identical to itself if and only if it has no NaN outside pointers and slices, which DeepEqual compares by address first, or no floating-point number but NaN and no nil pointer anywhere |
| `RowValues.HiddenStructIsNotItself` | pkg/models/pending_edit.go:637-673 | A struct with a NaN and a 1.0 in two unexported fields is not identical to itself; with the two in an unexported slice it is |
| `EditIdentities.NormalizeValues` | pkg/models/edit_identity.go:66-75 | The loop returns the values in the receiver's column order, and nothing when the identities or the number of values do not fit |
| `EditIdentities.CompatibleSymmetric` | pkg/models/edit_identity.go:54-64 | The one-directional column check is symmetric on valid identities, by the pigeonhole principle |
| `EditIdentities.CompatibleIsEquivalence` | pkg/models/edit_identity.go:37-64 | Compatibility of valid identities is an equivalence |
| `EditIdentities.NormalizeRoundTrip` | pkg/models/edit_identity.go:66-75 | Reordering a key to another column order and back gives the key |
| `EditIdentities.NormalizeComposes` | pkg/models/edit_identity.go:66-75 | Reordering through an intermediate order is reordering directly |
| `PendingEdits.FindEdit` | pkg/models/pending_edit.go:306-313 | The loop finds the first edit of a cell |
| `PendingEdits.ValidCommitIdentities` | pkg/models/pending_edit.go:491-538 | The nested loops accept exactly the one-to-one receipts whose domain is the attempted rows and whose results have no nil |
| `PendingEdits.CaptureVersions` | pkg/models/pending_edit.go:107-139 | Every selected version is still staged, and the captured snapshot is the current text of each in selection order; otherwise the selection is stale |
| `PendingEdits.KeepUnmatched` | pkg/models/pending_edit.go:424-442 | The in-place compaction leaves, in order, exactly the edits no snapshot version holds |
| `PendingEdits.RekeySurvivors` | pkg/models/pending_edit.go:407-422 | The re-keying loops give each survivor of a moved row its result key and a revision of its own, in list order |
| `PendingEdits.PendingEditSet.constructor` | pkg/models/pending_edit.go:90-103 | A new set is empty and quiescent |
| `PendingEdits.PendingEditSet.BeginCommit` | pkg/models/pending_edit.go:107-139 | A commit starts only without a flight, an unknown outcome or a stale version, and then reserves exactly the captured edits under a fresh receipt |
| `PendingEdits.PendingEditSet.SettleCommit` | pkg/models/pending_edit.go:149-164 | Only the pending receipt changes anything; committed retires and re-keys, unknown retains the attempt with its receipt, and either way the flight ends |
| `PendingEdits.PendingEditSet.Add` | pkg/models/pending_edit.go:170-177 | Staging follows the specification of a staged cell, identities untouched |
| `PendingEdits.PendingEditSet.BindIdentity` | pkg/models/pending_edit.go:186-197 | A valid identity is bound exactly while nothing is staged, in flight or of unknown outcome; otherwise nothing changes |
| `PendingEdits.PendingEditSet.AddWithIdentity` | pkg/models/pending_edit.go:201-233 | Staging under another column order stages the reordered key under the bound identity, or changes nothing |
| `PendingEdits.PendingEditSet.AddLocked` | pkg/models/pending_edit.go:237-271 | A cell keeps one edit: an existing one takes the new payload and a new revision, a row reserved by a commit refuses |
| `PendingEdits.PendingEditSet.Remove` | pkg/models/pending_edit.go:274-278 | Removes the first edit of the cell and nothing else |
| `PendingEdits.PendingEditSet.RemoveWithIdentity` | pkg/models/pending_edit.go:280-289 | Removes by key in any compatible column order |
| `PendingEdits.PendingEditSet.FindWithIdentity` | pkg/models/pending_edit.go:291-304 | Finds the edit of a cell by key in any compatible column order |
| `PendingEdits.PendingEditSet.DiscardOwned` | pkg/models/pending_edit.go:316-341 | Nothing changes when a commit is pending or of unknown outcome or a selected version is stale; otherwise each entry of the selection removes the first edit left of its cell |
| `PendingEdits.PendingEditSet.Clear` | pkg/models/pending_edit.go:344-348 | Drops the staged edits, keeping reservation and unknown outcome |
| `PendingEdits.PendingEditSet.HasEdit` | pkg/models/pending_edit.go:368-377 | Whether a cell has a staged edit |
| `PendingEdits.PendingEditSet.Retire` | pkg/models/pending_edit.go:393-397 | Drops exactly the versions the snapshot holds |
| `PendingEdits.PendingEditSet.RetireCommitted` | pkg/models/pending_edit.go:401-405 | Drops the held versions and re-keys the survivors of moved rows |
| `PendingEdits.PendingEditSet.MarkCommitUnknown` | pkg/models/pending_edit.go:446-454 | Retains a whole attempt and its receipt as unknown |
| `PendingEdits.PendingEditSet.ReconcileCommitOutcome` | pkg/models/pending_edit.go:473-489 | An unknown outcome is settled by a valid receipt or a denial, otherwise nothing changes |
| `PendingEditDiscards.RemovedAreSurvivors` | pkg/models/pending_edit.go:316-341 | Removing a selection cell by cell leaves, in order, exactly the edits that stand behind as many of their cell as the selection names |
| `PendingEditDiscards.DiscardLoses` | pkg/models/pending_edit.go:316-341 | A discard of staged edits takes an edit nobody selected only for a selected one of its cell behind it, or for a repeated entry |
| `PendingEditDiscards.ExactIsSelectsFirst` | pkg/models/pending_edit.go:316-341 | It takes the selected edits and no others if and only if in every cell it selects from the first edit on, and repeats an entry only where it selects them all |
| `PendingEditRuns.StepKeepsValid` | pkg/models/pending_edit.go:107-489 | Every operation keeps revisions positive, pairwise distinct and at most the counter, and retained snapshots genuine |
| `PendingEditRuns.RunKeepsValid` | pkg/models/pending_edit.go:107-489 | The same over every run of operations |
| `PendingEditRuns.StepLosesNothing` | pkg/models/pending_edit.go:107-489 | An edit that is gone after an operation left by removal of its cell, a discard that selects it or takes it for another of its cell, clearing, restaging, re-keying, or a committed snapshot that holds exactly its revision |
| `PendingEditRuns.NoLostEdit` | pkg/models/pending_edit.go:107-489 | Over any run, a staged edit that is no longer in the set was taken out by some step in one of those ways |
| `PendingEditRuns.RevisionNeverReturns` | pkg/models/pending_edit.go:237-271 | An issued revision that has left never comes back, so a retained snapshot cannot match a later edit |
| `PendingEditRuns.StepRespectsReservation` | pkg/models/pending_edit.go:237-271 | No call but a settlement adds to or rewrites the edits of a reserved row |
| `PendingEditRuns.ReservedRowsOnlyShrink` | pkg/models/pending_edit.go:107-164 | Between begin and settlement the flight stands and the edits on its rows only shrink, over any run |
| `PendingEditRuns.SpentReceiptIsHarmless` | pkg/models/pending_edit.go:149-164 | A receipt that is not the pending one changes nothing after any run that issues other receipts |
| `PendingEditRuns.SecondDeliveryIsHarmless` | pkg/models/pending_edit.go:149-164 | A receipt counts once: after its delivery and any run that issues other receipts, delivering it again changes nothing |
| `PendingEditRekeying.ReceiptIsInjection` | pkg/models/pending_edit.go:491-538 | A valid receipt names each attempted row once and maps different rows to different results |
| `PendingEditRekeying.AttemptedIffListed` | pkg/models/pending_edit.go:491-538 | The receipt lists a row exactly when the commit attempted it |
| `PendingEditRekeying.MovedIsSubstituted` | pkg/models/pending_edit.go:407-422 | The loop moves a key exactly as the receipt read as a substitution does |
| `PendingEditRekeying.SurvivorsAreSubstituted` | pkg/models/pending_edit.go:407-422 | A committed settlement acts on all survivors as one simultaneous substitution: swaps work and no key is moved twice |
| `PendingEditRekeying.RekeyingKeepsCellsUnique` | pkg/models/pending_edit.go:407-442 | Re-keying keeps one edit per cell if and only if no survivor of an attempted row lands on a survivor the receipt does not name |
| `PendingEditRekeying.CollisionIsReachable` | pkg/models/pending_edit.go:107-164 | That collision can happen: staging and committing alone reach two edits of one cell |
| `PendingEditRekeying.RunKeepsCellsUnique` | pkg/models/pending_edit.go:107-489 | Over every run without such a collision there is at most one edit per cell |
| `PendingEditRekeying.DiscardIsExact` | pkg/models/pending_edit.go:316-341 | On every valid state a discard of unmodified copies changes nothing when one is stale, and otherwise removes those edits and no others if and only if no edit it leaves out stands before a selected one of its cell and no entry of that cell is repeated; with one edit per cell it always does |
| `PendingEditRekeying.DiscardTakesWrongEdit` | pkg/models/pending_edit.go:316-341 | Staging and committing reach a state where discarding one edit removes another and keeps the selected one |
| `PendingEditRekeying.StagedEditIsFound` | pkg/models/pending_edit.go:201-304 | A successful staging is found again under every compatible column order, with the key permuted to match |
| `PendingEditOutcomes.CommitCarriesSelection` | pkg/models/pending_edit.go:107-139 | A commit starts if and only if nothing is in flight or unknown, something is selected and all of it is still staged; it carries the current edits of the selected versions in selection order, and without a selection every edit |
| `PendingEditOutcomes.UnknownIsRetained` | pkg/models/pending_edit.go:107-164 | After an unknown outcome every edit of the attempt is retained as unknown, over every run without a reconciliation; until then no commit and no discard succeeds, and no staging on its rows |
| `PendingEditOutcomes.RunKeepsUnknown` | pkg/models/pending_edit.go:107-489 | Unknown edits only accumulate until a reconciliation, whatever else is called |
| `PendingEditOutcomes.MarkedIsRetained` | pkg/models/pending_edit.go:446-454 | An attempt marked as unknown, whatever is in flight, is retained in every run without a reconciliation, and no staging on its rows succeeds |
| `PendingEditOutcomes.CommittedEditsLeave` | pkg/models/pending_edit.go:149-164 | No edit of a committed attempt is staged again in any later run |
| `PendingEditOutcomes.FailedCommitKeepsEdits` | pkg/models/pending_edit.go:149-164 | A failed or unknown commit leaves every edit staged, and a failed one retains nothing |
| `PendingEditOutcomes.ReconciliationSettles` | pkg/models/pending_edit.go:473-489 | A reconciliation ends the unknown outcome: confirmed, its edits leave for good; denied, all stay |
| `PendingEditOutcomes.StagedUnderItsRelation` | pkg/models/pending_edit.go:201-233 | After any run a successful staging leaves the edit, and the set, under an identity of the relation and columns it was given |
| `PendingEditStaging.AcceptedExactly` | pkg/models/pending_edit.go:107-489 | Each call succeeds if and only if what it asks for is given (free rows, staged versions, fitting identities, an untouched set), and changes nothing otherwise |
| `PendingEditStaging.StagingChangesOneCell` | pkg/models/pending_edit.go:237-271 | A staging changes one cell: its first edit takes the payload and keeps its place, key and loaded value, or a new edit comes last; everything else stays |
| `PendingEditStaging.ReconciliationIsSettlement` | pkg/models/pending_edit.go:149-489 | An unknown outcome that is reconciled leaves the set as the known outcome would have: confirmed like a commit, denied like a rollback |
| `PendingEditStaging.MarkIsSettlement` | pkg/models/pending_edit.go:446-489 | A marked attempt reconciled with a valid receipt leaves the set as retiring it directly would have |
| `Utf8.EncodeIsWellFormed` | pkg/query/cli_statements.go:533-560 | What the encoder of an escape appends is well-formed UTF-8 (RFC 3629, section 3) and decodes to the scalar |
| `Utf8.ValidIsEncoded` | pkg/query/cli_statements.go:36 | A text is valid if and only if it is the encodings of scalar values one after the other (RFC 3629, section 3) |
| `Utf8.SliceIsValid` | pkg/query/cli_statements.go:32-39 | A part of valid UTF-8 cut at ASCII bytes is valid, so a returned range can be analysed again |
| `CliScanner.LongestMatchIsLongest` | pkg/query/cli_statements.go:237-246 | The number pattern takes the longest prefix that matches |
| `CliScanner.NumberStartMatches` | pkg/query/cli_statements.go:325-335 | Where a number may start, the pattern matches at least one byte |
| `CliLexer.SuffixIsFresh` | pkg/query/cli_statements.go:370-406 | Every one-byte token emitted from the cached operator suffix is what lexing afresh from its position yields, comment breaks and the 64-byte limit included |
| `CliLexer.ScanTrivia` | pkg/query/cli_statements.go:248-290 | The trivia loops stop where the recursive rules do, or report an unclosed comment |
| `CliLexer.ScanQuoted` | pkg/query/cli_statements.go:427-471 | The quoting loop reads the bytes and finds the end the recursive rules define |
| `CliLexer.ScanContinuation` | pkg/query/cli_statements.go:477-496 | The continuation scan finds the quote that continues a string, across newlines and comments |
| `CliLexer.ScanUnicodeEscape` | pkg/query/cli_statements.go:510-531 | The digit loop computes the value the rules define, or an error |
| `CliLexer.ScanEscape` | pkg/query/cli_statements.go:533-588 | The escape scan consumes and appends exactly the bytes the rules define |
| `CliLexer.ScanParameter` | pkg/query/cli_statements.go:336-351 | The scan of a parameter accepts and ends as the rules define |
| `CliLexer.Lexer.NextToken` | pkg/query/cli_statements.go:248-291 | With or without a cached suffix the lexer returns the token a fresh lexer returns there, and always progresses |
| `CliLexer.Lexer.ReadToken` | pkg/query/cli_statements.go:293-425 | The token read at a position is the one a fresh lexer reads there |
| `CliLexer.Lexer.ReadUnquoted` | pkg/query/cli_statements.go:325-425 | The same for numbers, parameters, dollar quotes, operators and words |
| `CliLexer.Lexer.ReadOperator` | pkg/query/cli_statements.go:370-406 | An operator is one token, or a cached run of one-byte tokens equal to fresh lexing |
| `CliWindows.FreshWindow` | pkg/query/cli_statements.go:293-587 | A token that ends inside a window closed by ';' is read the same in the window alone |
| `CliWindows.TokensOrdered` | pkg/query/cli_statements.go:248-425 | Tokens come in order, disjoint and in bounds |
| `CliWindows.TokensWindow` | pkg/query/cli_statements.go:248-425 | The tokens of a window that ends where the next token starts are the tokens of the text before it |
| `CliStatements.SplitRanges` | pkg/query/cli_statements.go:40-103 | The token loop, early errors included, returns the split of the whole text |
| `CliStatements.AnalyzeCLIStatements` | pkg/query/cli_statements.go:32-113 | The analysis accepts, rejects and classifies as specified: limits, encoding, statements, approvals |
| `CliStatements.SplitOrdered` | pkg/query/cli_statements.go:42-97 | Statements are non-empty, disjoint and separated by at least one byte |
| `CliStatements.RangesInBounds` | pkg/query/cli_statements.go:32-113 | Every returned range lies in the text |
| `CliLocality.RangesAreOrdered` | pkg/query/cli_statements.go:32-113 | Returned ranges are ordered, disjoint, non-empty and in bounds |
| `CliLocality.RangesAreLocal` | pkg/query/cli_statements.go:32-113 | Re-analysing any returned range alone, without parameters, yields exactly that range with the same kind and the approval that kind needs |
| `CliLocality.OnlySeparatorsBetween` | pkg/query/cli_statements.go:41-97 | Outside the ranges there are only semicolons, white space and whole comments |
| `CliCopyGrammar.CopyIsViable` | pkg/query/cli_statements.go:158-220 | The tokens after COPY are accepted if and only if they can be continued to COPY [BINARY] name [(...)] or (...), FROM or TO, and an endpoint that is neither STDIN nor STDOUT: a grammar without states |
| `CliCopyGrammar.EndpointDecides` | pkg/query/cli_statements.go:211-217 | Up to its endpoint such a COPY is accepted, and with it exactly if that is no standard stream |
| `CliCopyGrammar.StandardStreamIsRefused` | pkg/query/cli_statements.go:211-217 | Nothing that follows makes a COPY from STDIN or to STDOUT acceptable |
| `CliCopyGrammar.UnfinishedIsAccepted` | pkg/query/cli_statements.go:166-220 | A COPY that ends behind its name is accepted, and so is a query followed by FROM |
| `CliScriptGrammar.SegmentFeeds` | pkg/query/cli_statements.go:63-97 | Tokens with no separator and no BEGIN ATOMIC among them are accepted exactly when their parentheses nest and their COPY is allowed |
| `CliScriptGrammar.HeadFeeds` | pkg/query/cli_statements.go:128-149 | CREATE [OR REPLACE] FUNCTION or PROCEDURE up to BEGIN ATOMIC outside parentheses opens a body, with nothing left of the statement before |
| `CliScriptGrammar.GoodSplits` | pkg/query/cli_statements.go:40-103 | Every script of the grammar (statements, routines with nested bodies up to the END that starts an element) is accepted, with the range of each statement |
| `CliScriptGrammar.Parse` | pkg/query/cli_statements.go:40-103 | Whatever is accepted is a script of the grammar |
| `CliScriptGrammar.SplitIsGrammar` | pkg/query/cli_statements.go:40-103 | The splitter accepts exactly the scripts of the grammar, and its ranges are those of their statements |
| `CliScriptGrammar.AnalysisIsGrammar` | pkg/query/cli_statements.go:32-113 | For every text the answer of the analysis: invalid, unsupported, or the statements of the script with the kinds of their texts and each approval exactly when it is wanted and some statement needs it |
| `CliCopyWords.CopyInWords` | pkg/query/cli_statements.go:32-220 | A COPY written in words, in any case, is unsupported if and only if its last word is STDIN or STDOUT; otherwise it is one statement |
| `CliNumerals.ParameterRangeIsExact` | pkg/query/cli_statements.go:336-351 | Length and lexicographic comparison accept exactly the numbers up to 2147483647, leading zeros included |
| `CliNumerals.ParameterTokenIsExact` | pkg/query/cli_statements.go:336-351 | A parameter is a token if and only if no identifier follows and its number is in range |
| `CliNumerals.UnicodeEscapeFits` | pkg/query/cli_statements.go:510-531 | Eight hexadecimal digits fit the 32-bit accumulator |
| `CliNumerals.UnicodeEscapeIsScalar` | pkg/query/cli_statements.go:510-560 | Every accepted Unicode escape, surrogate pairs included (RFC 2781, section 2), means one nonzero scalar written as one well-formed UTF-8 sequence |
| `CliLexemes.TriviumIsSkipped` | pkg/query/cli_statements.go:248-290 | White space, line comments and block comments are skipped whole, whatever is in them and however deep they nest |
| `CliLexemes.UnclosedIsRefused` | pkg/query/cli_statements.go:263-284 | A block comment that is not closed, counting the ones inside it, is an error |
| `CliLexemes.DollarIsRead` | pkg/query/cli_statements.go:352-368 | A dollar-quoted string is one token up to the next occurrence of its delimiter, whatever is between; without one it is an error |
| `CliLexemes.StringIsRead` | pkg/query/cli_statements.go:300-324 | A string with its quotes doubled is one token whatever its bytes, with every prefix that has no escapes |
| `CliLexemes.BitStringIsRead` | pkg/query/cli_statements.go:303-309 | In a bit string the next quote closes, doubled or not |
| `CliLexemes.NewlineContinues` | pkg/query/cli_statements.go:477-496 | Behind white space a quote continues the string before it if and only if a newline lies between |
| `CliLexemes.OperatorIsLongest` | pkg/query/cli_statements.go:370-406 | The longest operator of PostgreSQL's rules is taken (section 4.1.3: no comment starts in it, and a trailing sign only with a byte the SQL standard lacks), and refused from 64 bytes on |
| `CliLexemes.PointsEndNumber` | pkg/query/cli_statements.go:325-335 | Two points after digits end the number before them |
| `CliLexemes.NumberIsLongest` | pkg/query/cli_statements.go:325-335 | The longest number is taken, and refused when an identifier follows |
| `CliLexemes.WordIsRead` | pkg/query/cli_statements.go:408-425 | An ASCII word is read whole and known in upper case |
| `CliLexemes.WordsAreTokens` | pkg/query/cli_statements.go:248-425 | Words with blanks between them are exactly their tokens |
| `PgQuoting.EncodeEString` | pkg/drivers/pg/encoder.go:201-218 | The builder loop doubles quotes and backslashes of every byte |
| `PgQuoting.QuoteIdent` | pkg/drivers/pg/identifier.go:14-28 | The builder loop doubles the double quotes of every byte |
| `PgQuoting.EStringRoundTrip` | pkg/drivers/pg/encoder.go:201-218 | At a token boundary a printed literal is one token that decodes to the value, if and only if the value is NUL-free UTF-8 and what follows does not extend the literal |
| `PgQuoting.IdentRoundTrip` | pkg/drivers/pg/identifier.go:14-28 | At a token boundary a printed identifier is one identifier token, if and only if the name is not empty and no double quote follows; the empty name is then rejected |
| `PgQuoting.EStringInjective` | pkg/drivers/pg/encoder.go:201-218 | Different values print differently |
| `PgQuoting.QualifiedIsThreeTokens` | pkg/drivers/pg/identifier.go:34-40 | A printed qualified name is an identifier, a point and an identifier |
| `ExecuteCommit.MachineExecuteCommit` | pkg/drivers/pg/machine_execute.go:240-277 | The hand-written scan decides whether the first word after white space and comments is COMMIT or END |
| `ExecuteCommit.LexedCommitIsFound` | pkg/drivers/pg/machine_execute.go:240-277 | Whenever the lexer's first token is COMMIT or END the scan says so |
| `ExecuteCommit.FoundCommitIsLexed` | pkg/drivers/pg/machine_execute.go:240-277 | Conversely the lexer agrees with the scan if and only if no byte that continues an identifier follows the letters |
| `ExecuteCommit.CommitNowIsFound` | pkg/drivers/pg/machine_execute.go:240-277 | commit_now counts as COMMIT although the lexer reads one word COMMIT_NOW |
| `TransactionServer.RollbackSettlesNothing` | pkg/drivers/pg/machine_atomic.go:86-108 | After an unacknowledged COMMIT a ROLLBACK can succeed whether or not the transaction committed |
| `AtomicResults.ConsumeTemporaryResult` | pkg/drivers/pg/machine_atomic.go:211-270 | A result is accepted exactly when every row, field and tag is well-formed and the kept part fits the budget; then its first rows are kept and exactly their cost is spent |
| `AtomicResults.ConsumeFields` | pkg/drivers/pg/machine_atomic.go:219-230 | Columns are kept and charged in order, or the result cannot be accepted |
| `AtomicResults.ConsumeRows` | pkg/drivers/pg/machine_atomic.go:231-257 | All rows are checked, the first ones kept and charged, or the result cannot be accepted |
| `AtomicResults.FaithfulSnoc` | pkg/drivers/pg/machine_atomic.go:133-147 | Over a batch the kept rows are the first rows of all rows sent, truncation is reported exactly when rows are missing, and the total stays in the budget |
| `AtomicTransaction.CheckParameters` | pkg/drivers/pg/machine_atomic.go:67-73 | The loop accepts exactly the parameters whose total length, encoding and bytes are allowed |
| `AtomicTransaction.RefusedExactly` | pkg/drivers/pg/machine_atomic.go:46-73 | A call is refused before anything is sent exactly unless it is a validated script of one to 256 statements within all limits, which writes only where that is allowed and has parameters only with one statement, with a callback, on a temporary client |
| `AtomicTransaction.MachineClient.Exchange` | pkg/drivers/pg/machine_atomic.go:108-131 | One command with any behaviour of server and wire |
| `AtomicTransaction.MachineClient.ConsumeBatch` | pkg/drivers/pg/machine_atomic.go:133-167 | There is no problem if and only if every result is well-formed and within the limits and there are as many as statements; then the results are a faithful reading of the whole batch, and any problem cuts the connection |
| `AtomicTransaction.MachineClient.Prepare` | pkg/drivers/pg/machine_atomic.go:108-112 | The settings before BEGIN commit nothing |
| `AtomicTransaction.MachineClient.OpenTransaction` | pkg/drivers/pg/machine_atomic.go:113-127 | Without a problem the server is in an open transaction, and nothing has been committed |
| `AtomicTransaction.MachineClient.RunChecked` | pkg/drivers/pg/machine_atomic.go:131-186 | Without an error all results are in, the callback has accepted exactly the result a success publishes, and nothing is committed |
| `AtomicTransaction.MachineClient.SendCommit` | pkg/drivers/pg/machine_atomic.go:187-209 | The outcome after COMMIT is committed exactly on an acknowledgement, rolled back only on a denial, unknown otherwise |
| `AtomicTransaction.MachineClient.Settle` | pkg/drivers/pg/machine_atomic.go:86-108 | The deferred ROLLBACK reports a rollback if and only if the COMMIT is not in doubt and the server has answered ROLLBACK, idle, on an open connection; otherwise the outcome stands |
| `AtomicTransaction.MachineClient.Perform` | pkg/drivers/pg/machine_atomic.go:74-209 | Behind the checks: each outcome is reported if and only if the events show it, effects exactly when the script was sent, and the execution as completed, failed or unknown by the answer to the COMMIT or, without one, by whether the script has run as a whole |
| `AtomicTransaction.MachineClient.ExecuteTemporaryAtomic` | pkg/drivers/pg/machine_atomic.go:46-209 | The outcome is true and stays true against every server behaviour; script, callback and COMMIT happen at most once and in this order; success publishes exactly the validated result; each outcome is reported if and only if the events show it, and every error has a reason among them |
| `AppStateStore.StepCounts` | pkg/common/app_state_store.go:161-192 | The pending counter counts armed and fired unfinished tickets, the saving counter direct saves |
| `AppStateStore.StepKeepsOneArmed` | pkg/common/app_state_store.go:161-171 | At most one ticket is armed, the one the timer names |
| `AppStateStore.ErrorIsOverwritten` | pkg/common/app_state_store.go:175-192 | A report that clears an error stands for the current state, or another ticket follows |
| `AppStateStore.StepKeepsInv` | pkg/common/app_state_store.go:141-292 | Every step of every goroutine keeps the invariant |
| `AppStateStore.FlushIsDurable` | pkg/common/app_state_store.go:253-261 | A Flush that returns nil leaves every mutation on disk unless Close has dropped an armed timer; without Close nothing is dropped |
| `AppStateStore.CloseDropsAMutation` | pkg/common/app_state_store.go:266-292 | A mutation can be lost although Flush returns nil, and Close too, with nothing left to write |
| `AppStateStore.LateWritersDecide` | pkg/common/app_state_store.go:175-292 | Over every run after Close has stopped the timer the version stands, and it is on disk at the end if and only if it was at the stop or some job wrote it since; such a job had not copied the state at the stop, or held a current copy, or is a later Save |
| `AppStateStore.LateWriteIsPossible` | pkg/common/app_state_store.go:175-227 | Each such job can still write it, whoever holds the write lock |
| `AppStateStore.StoppedTimerDecides` | pkg/common/app_state_store.go:266-292 | Without a later Save some continuation has the last mutations on disk if and only if they were there at the stop or a fired ticket or earlier Save can still write them |
| `AppStateStore.DiskNeverMovesBack` | pkg/common/app_state_store.go:197-227 | Over any run published versions only grow |
| `AppStateStore.CloseDrains` | pkg/common/app_state_store.go:266-292 | When Close returns no admitted write is outstanding |
| `AppStateStore.NothingAfterClose` | pkg/common/app_state_store.go:141-152 | After Close nothing mutates the state or arms a timer; only direct saves still run |
| `AppStateProgress.Drains` | pkg/common/app_state_store.go:175-261 | From every state without a mutation in progress everything under way can be finished; no error is left if a ticket still to be written clears it, and a write of the current state reaches the disk |
| `AppStateProgress.MutationIsSaved` | pkg/common/app_state_store.go:141-261 | A mutation made before Close, whatever is under way and whatever error is recorded, ends on disk with a nil Flush if the writes succeed |
| `AppStateProgress.SaveIsWritten` | pkg/common/app_state_store.go:213-227 | A direct Save, before or after Close, puts the state on disk if the writes succeed |
| `AppStateProgress.CloseReturnsOnce` | pkg/common/app_state_store.go:266-292 | Close returns after what has been admitted |
| `AppStateProgress.RefusalIsReported` | pkg/common/app_state_store.go:141-152 | A mutation after Close has returned is refused with an error that no later step clears |
| `UpdateLock.StepKeepsInv` | pkg/app/update.go:199-276 | Every system call of every process keeps: private inodes are private, holders hold their locks, new-format locks stay named |
| `UpdateLock.AtMostOneOwner` | pkg/app/update.go:199-276 | Over all interleavings and crashes at most one process owns the update, it holds the lock of the inode the path names, and no older updater runs |
| `UpdateLock.PublishedExcludesLegacy` | pkg/app/update.go:192-194 | A new-format lock keeps older updaters out even while idle |
| `UpdateLock.PublishedStays` | pkg/app/update.go:235-276 | A published new-format lock is never replaced or removed |
| `UpdateLock.LoopEnds` | pkg/app/update.go:204-233 | Once a new-format lock is published every process takes a bounded number of further steps; after a lost publish race, three |
| `UpdateLock.OwnershipPassesOn` | pkg/app/update_lock_unix.go:13-28 | An owner that ends, however it ends, leaves the lock to the next process |
| `UpdateLock.FirstUpdaterOwns` | pkg/app/update.go:199-276 | From an empty directory an updater owns the update by its own steps |
| `UpdateLock.PublishesAndOwns` | pkg/app/update.go:235-276 | A process that finds the path missing publishes a fresh inode, already locked by it, and owns it |
| `UpdateLock.LocksPublished` | pkg/app/update.go:204-233 | A process that finds a new-format lock nobody holds locks it and owns the update |
| `UpdateLock.AloneAcquires` | pkg/app/update.go:199-276 | With no other process between, an updater can own the update if and only if the path is missing or names a new-format lock nobody holds |
| `MachineIO.Helper.ServeWrite` | internal/machineio/process_unix.go:307-362 | A write round delivers a prefix of the payload and reports exactly it, or nothing when the child is killed; it delivers and confirms all of it if and only if nothing fails |
| `MachineIO.Helper.ServeRead` | internal/machineio/process_unix.go:307-362 | A read round hands over exactly the next bytes of the source, or the child is gone; when nothing fails it yields bytes as long as there are any, and then the end |
| `MachineIO.StaysBalanced` | internal/machineio/process_unix.go:221-256 | After any write the destination holds a prefix of everything given and at most one chunk more than was reported |
| `MachineIO.ProcessStream.WriteAll` | internal/machineio/process_unix.go:228-252 | The chunk loop delivers a prefix whatever fails, and all of it without an error if and only if nothing does |
| `MachineIO.ProcessStream.Write` | internal/machineio/process_unix.go:221-256 | Accepted bytes are a prefix of the given ones, the count is at most one chunk behind, and the error is nil, with all bytes delivered, if and only if the stream is open for writing and nothing fails |
| `MachineIO.ProcessStream.Read` | internal/machineio/process_unix.go:187-219 | Reads concatenate to a prefix of the source, and the end is reported only when all of it has been returned; when nothing fails an open stream yields bytes as long as there are any |
| `RunHandle.SubsequenceWithout` | pkg/session/run_handle.go:172-200 | Evicting a notice keeps what the consumer sees an ordered part of what was routed |
| `RunHandle.RunHandle.RouteNotice` | pkg/session/run_handle.go:172-200 | The notice ends up last in the buffer, or is dropped after the end; no send on a closed channel, the last drop branch is dead, every loss is counted; what was on its way stays, but for the oldest notice of a full buffer |
| `RunHandle.RunHandle.Finish` | pkg/session/run_handle.go:147-167 | Only the first call takes effect: it routes what is queued and closes the channel |
| `NoticeBarrier.StepKeepsInv` | pkg/session/sql_session.go:330-433 | Every lock, atomic and channel operation keeps runs serialized and notices placed |
| `NoticeBarrier.FlushedNoticesArrive` | pkg/session/sql_session.go:568-621 | Once a run is flushed every notice emitted while it was active has been routed to it |
| `NoticeBarrier.RoutedOnce` | pkg/session/sql_session.go:568-605 | A routed notice reaches no later run |
| `NoticeBarrier.OneRunAtATime` | pkg/session/sql_session.go:330-433 | At most one run holds the session lock, and a run past its end has released it exactly once |
| `NoticeBarrier.FlushNeverBlocks` | pkg/session/sql_session.go:611-621 | A finishing run is never stuck: the fan-out can step, or has ended |
| `NoticeBarrier.EmittedIsRouted` | pkg/session/sql_session.go:568-621 | A notice emitted while a run is active and not flushed is that run's: over every continuation, once the run is flushed the notice has been routed to it |
| `NoticeBarrier.TakenIsRouted` | pkg/session/sql_session.go:568-591 | The notice the fan-out has taken goes to the run active when it looks, and is dropped if there is none |
| `FinishCalls.StepKeepsInv` | pkg/session/run_handle.go:147-167 | With any number of concurrent callers of finish, each caller in the body is the one that entered the Once, and its place is its run's; so every operation it performs is one the run could have performed by itself |
| `FinishCalls.CallsRefineSession` | pkg/session/run_handle.go:147-167 | Every run with any number of callers is, for the session, a lawful run in which each run of a statement ends by itself |
| `FinishCalls.OneCallerExecutes` | pkg/session/run_handle.go:147-167 | Over every run at most one caller executes the body for a run, and exactly one once any call has returned |
| `FinishCalls.BodyIsSafe` | pkg/session/run_handle.go:147-167 | The unlock in the body is of a session lock its own run holds and has not released, and neither channel is closed twice |
| `FinishCalls.ReturnedIsFinished` | pkg/session/run_handle.go:147-167 | When any call returns, both channels are closed, the session lock has been released exactly once, the run is no longer active and all its notices have been routed to it |
| `FinishCalls.FinishNeverHangs` | pkg/session/run_handle.go:147-167 | From every reachable state each call can return, by finitely many steps of its own, of the call in the body and of the fan-out, without any new notice |
| `SessionProgress.LockComesFree` | pkg/session/sql_session.go:330-433 | From every reachable state, whatever runs, callers and fan-out are doing, the session lock can become free |
| `SessionProgress.AnotherRunStarts` | pkg/session/sql_session.go:330-433 | From every reachable state another run can take the lock, become the active one and start |
| `SessionProgress.StartedRunFinishes` | pkg/session/run_handle.go:147-167 | A started run can be finished by any new caller; it returns with the lock free of the run and all its notices routed |
| `ResultDelivery.DrainRows` | pkg/tasks/result_buffer_manager.go:689-712 | The loop returns exactly the next rows, and its three outcomes exclude each other |
| `ResultDelivery.StepKeepsInv` | pkg/tasks/result_buffer_manager.go:148-219 | Every step keeps rows in order, the pending count exact and verdicts truthful |
| `ResultDelivery.SuccessMeansAllRows` | pkg/tasks/result_buffer_manager.go:148-219 | A waiter told of success sees the whole stream on the UI, in order, every delivery acknowledged |
| `ResultDelivery.ShownIsAPrefix` | pkg/tasks/result_buffer_manager.go:740-777 | Without a lost delivery the UI always shows the beginning of the stream |
| `ResultDelivery.WaitersAreSettled` | pkg/tasks/result_buffer_manager.go:115-219 | Each waiter is called at most once, and none is left once the stream is settled |
| `ResultDelivery.NoWaiterIsDropped` | pkg/tasks/result_buffer_manager.go:192-219 | A registered waiter never disappears without being called |
| `ResultOutcomes.ErrorsHaveCauses` | pkg/tasks/result_buffer_manager.go:148-219 | Over every run an error given to a waiter has its cause among the steps: a failure to open, read or close, a retirement, a dropped delivery, or the waiter's own context |
| `ResultOutcomes.CleanStreamSucceeds` | pkg/tasks/result_buffer_manager.go:621-672 | Hence a stream without such a step gives every waiter success once it is settled |
| `ResultOutcomes.CleanStreamIsDelivered` | pkg/tasks/result_buffer_manager.go:495-672 | From every state in which nothing has gone wrong a waiter can be told of success with every row shown |
| `DsnText.UnquoteQuote` | pkg/session/profile.go:201-205 | The two sequential replacement passes of the reader undo the two of the printer, for all bytes |
| `DsnText.QuoteInjective` | pkg/session/profile.go:201-205 | Different values print differently |
| `DsnText.SplitKVDSN` | pkg/session/profile.go:315-348 | The splitting loop returns the tokens the recursive rules define |
| `DsnText.KvDSNValue` | pkg/session/profile.go:300-310 | The first token for the key decides, and absence is reported |
| `DsnText.SettingIsOneToken` | pkg/session/profile.go:315-348 | A printed setting is one token whatever bytes its value has |
| `DsnText.BuiltSplits` | pkg/session/profile.go:176-196 | Splitting a printed connection string gives back its settings |
| `DsnText.BuiltReadsBack` | pkg/session/profile.go:176-310 | Reading a printed connection string finds the host always and each other field exactly when it is set, with the very bytes of the profile |
| `DsnText.PortReadsBack` | pkg/session/profile.go:176-310 | The port is read back in decimal with its sign, and is absent exactly when it is zero |
| `DsnText.BareReadsBack` | pkg/session/profile.go:300-348 | A value written without quotes is read as it stands, backslashes included, whatever follows |
| `DsnRedact.RedactDSNKeyValues` | pkg/utils/dsn_redact.go:9-47 | The index loops compute the redaction defined piece by piece |
| `DsnRedact.DsnValueEnd` | pkg/utils/dsn_redact.go:49-80 | The loop ends a value where the recursive rules do |
| `DsnRedact.RedactionShifts` | pkg/utils/dsn_redact.go:9-47 | What is redacted from a position on depends only on what follows it |
| `DsnRedact.PasswordIsScrubbed` | pkg/utils/dsn_redact.go:9-80 | A password printed as a quoted value is scrubbed whole, and nothing but it, for every password and every text that follows |
| `DsnRedact.BarePasswordIsScrubbed` | pkg/utils/dsn_redact.go:9-80 | A password without quotes is scrubbed up to its first white space without a backslash, and nothing else |
| `DsnRedact.SecretNames` | pkg/utils/dsn_redact.go:22-25 | Secrets go by the names password and sslpassword, in any case, and no other |
| `DsnRedact.NamedSecretsAreScrubbed` | pkg/utils/dsn_redact.go:9-80 | Both, quoted or bare, are scrubbed whole |
| `DsnRedact.EmbeddedPasswordIsScrubbed` | pkg/utils/dsn_redact.go:9-80 | Inside a longer text the scan reads a printed password setting as one if and only if the scan starts anew at the space before it; then the password is scrubbed whole, and the rest is redacted as it would be without it |
| `DsnRedact.ScrubbedExactlyBehindSettled` | pkg/utils/dsn_redact.go:9-80 | Behind a text every password, whatever follows it, is scrubbed whole and alone if and only if that text leaves no value open at its end |
| `DsnRedact.PrintedPasswordIsScrubbed` | pkg/utils/dsn_redact.go:9-80 | Behind a printed connection string whose fields have no equals sign nothing of the password survives, and nothing else changes |
| `DsnRedact.UnsettledLeavesPassword` | pkg/utils/dsn_redact.go:9-80 | Behind a host that ends in password= any password of word bytes survives |
| `Passfile.SplitPgpassLine` | pkg/session/credentials.go:199-218 | The builder loop returns the fields between unescaped colons |
| `Passfile.ScanFields` | pkg/session/credentials_machine_temporary.go:91-123 | The streaming parser ends at index four exactly when the splitter yields five fields, and then holds them |
| `Passfile.MatchTemporaryPassfile` | pkg/session/credentials_machine_temporary.go:77-135 | The streaming matcher picks the first line the splitter would |
| `Passfile.FirstAnswerDecides` | pkg/session/credentials_machine_temporary.go:84-134 | A password is found exactly when the first answering line has a usable one |
| `Passfile.ReadersDiffer` | pkg/session/credentials.go:171-218 | No line is answered by the streaming reader alone; one the simple reader answers is answered by both if and only if it has five fields, and with the same fifth field if and only if it also ends in at most one carriage return |
| `Passfile.FilesDiffer` | pkg/session/credentials.go:171-193 | On whole files the first line the simple reader answers decides: with five fields, whether both find the same (refused passwords aside) is whether it ends in at most one carriage return or has a NUL in the password; with more, the streaming reader goes on behind it |
| `Passfile.ReturnStaysInPassword` | pkg/session/credentials_machine_temporary.go:84-97 | Two carriage returns: the streaming reader finds a password with a carriage return in it |
| `Passfile.SixFieldsAreSkipped` | pkg/session/credentials_machine_temporary.go:91-123 | A sixth field: the streaming reader finds nothing |
| `Passfile.ReadersAgree` | pkg/session/credentials.go:171-193 | Where each line the simple reader answers has five fields and at most one carriage return at its end, they find the same password |
| `Passfile.EntryIsFields` | pkg/session/credentials.go:199-218 | An entry is read field by field as it was written, whatever colons and backslashes its fields have |
| `Passfile.EntryIsFound` | pkg/session/credentials_machine_temporary.go:84-134 | A written entry answers exactly the targets it names, field by field the very text or an asterisk; the password of a file's first line goes to those, and any other target to the rest of the file, for both readers |
| `Passfile.AsterisksAnswerAll` | pkg/session/credentials.go:221-226 | An entry of asterisks answers every target |
| `RowIdentity.FirstPositions` | pkg/drivers/pg/editability.go:190-198 | The loop indexes each table column by its lowest position |
| `RowIdentity.ComputeRowIdentity` | pkg/drivers/pg/editability.go:184-240 | The loops return the positions of the first covered key after the stable sort |
| `RowIdentity.StableSorts` | pkg/drivers/pg/editability.go:215-217 | The stable sort orders the candidates by length and keeps them all |
| `RowIdentity.IdentityIsShortest` | pkg/drivers/pg/editability.go:184-240 | Over the primary key and then every unique key, the result is the lowest positions of the shortest non-empty key whose columns are all selected, the earliest of one length; none exactly when there is no such key |
| `RowIdentity.SmallNumbersAreExact` | pkg/drivers/pg/editability.go:222-233 | For catalog column numbers the 16-bit lookup is exact |
| `StatementTimeout.CanonicalizeStatementTimeout` | pkg/session/profile.go:232-255 | The loops accept the grammar's texts and rebuild number and unit |
| `StatementTimeout.CanonicalForm` | pkg/session/profile.go:232-255 | Digits, blanks and a unit canonicalize to digits and unit |
| `StatementTimeout.TimeoutIsExact` | pkg/session/profile_machine.go:36-54 | A positive timeout of any length is the smaller of its exact milliseconds and the ceiling, without overflow |
| `StatementTimeout.MillisecondsAsWritten` | pkg/session/profile_machine.go:36-54 | A timeout in milliseconds is the number written |
| `StatementTimeout.UnitsAgree` | pkg/session/profile_machine.go:36-54 | A second is a thousand milliseconds, a minute sixty seconds, an hour sixty minutes, a day twenty-four hours |
| `StatementTimeout.OtherTextIsCeiling` | pkg/session/profile_machine.go:36-54 | Any other text runs for the ceiling |
| `JsonBudget.NeededFits` | pkg/cli/output.go:205-350 | Without shared names the charge, and the least budget a walk needs, never exceed the JSON encoding (RFC 8259, section 7) |
| `JsonBudget.ChargeOfUnescaped` | pkg/cli/output.go:205-350 | Where names and texts need no escapes, numerals are not empty and floats print in one byte, the charge is at least the encoding, and equal to it if and only if no struct shares a name |
| `JsonBudget.RefusedByNeed` | pkg/cli/output.go:205-350 | A budget that the encoding fits is refused for exactly the trees that need more than they encode to |
| `JsonBudget.RefusedExactlyForSharedNames` | pkg/cli/output.go:205-350 | An encodable tree of at most 64 levels is refused by a budget its encoding fits only if a struct in it shares a name, and on those trees exactly then |
| `JsonBudget.NormalizeData` | pkg/cli/output.go:205-350 | On every tree that has an encoding and is at most 64 levels deep the walk succeeds exactly when the budget reaches what the tree needs, with the normalised tree and exactly its charge taken; on others every reported failure is real |
| `JsonBudget.NormalizeList` | pkg/cli/output.go:272-287 | The same for arrays: comma by comma, including the early rejection by length |
| `JsonBudget.NormalizeMap` | pkg/cli/output.go:288-309 | The same for maps, including the early rejection by length |
| `JsonBudget.NormalizeStruct` | pkg/cli/output.go:310-345 | The same for structs, shared names included |
| `JsonBudget.NormalEncodesTheSame` | pkg/cli/output.go:205-350 | The normalised tree encodes to the same length as the value, shared names included |
| `JsonMeaning.NormalMeansTheSame` | pkg/cli/output.go:205-350 | The normalised tree is the same document as the value: no member lost, renamed or taken from the wrong field, and no pointer or struct left |
| `JsonBudget.SharedNamesAreChargedTwice` | pkg/cli/output.go:310-345 | A struct with two fields of one name is charged above its encoding and refused by a budget the encoding fits |

## Left out

- Context cancellation inside the lexer and the splitter: it can only turn a result into an error.
- `EffectiveKind` and its regular expressions: the kind of a statement is an arbitrary function of its text.
- The regular expression engine: the number pattern is a predicate with a longest-match contract.
- Structs that mix exported and unexported fields in a key: `RowIdentityEqual` is modelled on exported fields only, and structs of unexported fields are compared on their own (`HiddenStructEqual`).
- Map-typed and cyclic keys, and the reflection that clones and compares values: keys are a value datatype.
- The 64-bit wrap-around of the revision counter: revisions are unbounded.
- The branch of `AddWithIdentity` that restores the identity after a failed staging: the method proves that the
  staging succeeds there, so the branch has no counterpart.
- RetireCommitted: calls with a foreign snapshot during a flight are excluded from the reservation lemmas, as the source excludes them.
- Literals other than E-strings (numbers, booleans, dates, bytea, arrays) and float formatting.
- The machine client's plain `Execute`: only its COMMIT recognition is modelled.
- Exchange: replies are matched to commands as the driver does it; a driver that reads stale replies is not part of this model.
- The validation of an atomic script: it is assumed to contain no transaction control, which the server model states.
- `Load` and its sticky error in the state store, and the fields of the state: a version number stands for the content.
- The state store, the update lock, the session queue and the result delivery are step relations over values: each
  critical section or system call is one atomic step, and the data races the locks exclude are not represented.
- A profile with its own connection string, which is used as it is.
- Timers' durations, wall clocks and deadlines: a timer fires, and a context ends, at any step.
- Permissions, symbolic links and temporary-file names of the update lock; Windows variants of every component.
- The start of the helper process and its handshake, and the byte encoding of request and response headers.
- Notices left by a run whose driver call failed, and notices emitted between runs: the barrier does not cover them.
- A driver without notices: then there is no fan-out goroutine and no flush.
- The preemption flag of a session, cancellation of a running query, and history and log records.
- Starting and replacing query tasks: one task at a time is modelled, from opening its stream to its end.
- TrimSpace on Unicode white space in connection strings: ASCII white space only.
- URL-form connection strings, and `parseDSNFields`.
- Reading a password file from disk, its permissions, and the cancellation checks while matching.
- decideEditability's mapping of relation kinds to reasons, and the connection gate.
- Reflection in the output encoder: which struct fields are visited is given, and a value's kinds are a datatype.
- NormalizeData: of a tree with several faults (too deep, malformed, over budget) it is proved that the reported one is real, not which comes first; the source reports them alike.
- The TUI, SSH tunnels, configuration files and the network.
