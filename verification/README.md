# Polymath maintenance scripts: a verified model

This project models the algorithmic core of Polymath's `scripts/` directory in Dafny and proves
what those scripts are for. `dafny verify dfyconfig.toml` checks everything.

| file | what it models |
|---|---|
| `RankStats.dfy` | Spearman, Kendall and top-k agreement of two score lists |
| `Digraph.dfy`, `DependencyGuard.dfy` | finite digraphs; the recursive ownership-cycle check |
| `MissionBoard.dfy` | the phase board: next phase, status flags, exit codes |
| `LaneRing.dfy` | the concurrent round-robin lane ring with failover |
| `Json.dfy`, `Identity.dfy` | canonical JSON text, its decoder, content-hash identities |
| `JsonPointer.dfy`, `Manifest.dfy` | RFC 6901 pointers; the frozen regression manifest and `refresh` |
| `Keyset.dfy`, `ChunkSummary.dfy`, `Rekey.dfy`, `Sweep.dfy` | resumable table passes |
| `SemLink.dfy`, `Picker.dfy`, `Carry.dfy` | relation flattening, greedy selection, carried context |
| `Finite.dfy`, `Lex.dfy` | cardinalities, string order, sorting by key |

Conventions. Scores are reals and statistics are the values before the final `round`. Tables are
maps and SQL statements are functions on them. A Python exception is a constructor of the result
type. Providers, schedules, row locks and crashes are chosen by an adversary: they are the
quantified actions, sets or functions of the statements. Imported derivations
(`derive_extract_projection`, `is_noisy`, `input_hash_for`) are function parameters.

## Where the code and its prose disagree

The model follows the code. Where a member is named, it states the point.

- `check_dependencies` collects "unknown dependency" messages but then raises `KeyError` on exactly
  those maps, so no returned list ever contains one (`DependencyGuard.CheckDependencies`).
- With tied scores Kendall can be 1 while Spearman is -1; equal ranks always force Kendall 1, and the
  exact extra condition for the converse is stated (`RankStats.SpearmanOneIffKendallOne`).
- On empty lists the rank statistics are 1 but the top-k overlap is 0, as it is for k = 0
  (`RankStats.OverlapBounds`).
- `refresh` promises an untouched manifest when it refuses. It raises exactly when the checking phase
  stops it, when an old or new run tag that is not text has to be substituted in the instrument, or when
  evaluating a pinned check of the case raises: one without exactly one bound, or one whose metric cannot
  be computed or compared on its own recording. In the last two cases it has already written
  (`Manifest.RaiseKeepsManifestIff` and three examples). Even so no bound changes and no floor that was
  met is lost, over any sequence of calls (`Manifest.FloorsNeverErode`), and the command line never
  writes such a manifest back (`Manifest.CommandsAreAccepted`).
- The sweep deletes an ungrounded artifact when its document has no *child* chunk, not only when it has
  no chunks at all (`Sweep.ParentOnlyDocumentLosesArtifact`).
- `per_corpus` below one still picks one candidate (`Picker.Pick`).
- The keyset loops start after the empty string, so a row with an empty id is never processed
  (`Keyset.Todo` is the exact set); `already_done` is never incremented and is not modelled.
- `--done` closes an open phase exactly when its id is not empty and no later phase repeats it
  (`MissionBoard.DoneFlagClosesNext`); a board with another open phase can never be finished
  (`MissionBoard.CompletableIff`) and may report the same phase for ever
  (`MissionBoard.DuplicateIdNeverCloses`).
- The header of the mission script says dependencies are enforced, but no flag checks them: marking a
  phase DONE, or reopening one, keeps them respected exactly under the condition stated by
  `MissionBoard.RespectedAfterMark` (`MissionBoard.FlagsIgnoreDependencies` is an example). Completing
  only reported phases does keep them (`MissionBoard.DriveRespects`).
- List indices such as `-1` and `00` are followed although section 4 of RFC 6901 rejects them; that is
  the only difference from the RFC (`JsonPointer.WalkAgainstRfc`).

## Model

| member | source | states |
|---|---|---|
| `RankStats.Ranks` | scripts/rerank_judge_bench.py:35-40 | the in-place fill gives each candidate the number of candidates before it (higher score, ties by index) |
| `RankStats.RankAtPosition` | scripts/rerank_judge_bench.py:36-39 | the candidate the stable descending sort puts at position p has rank p |
| `RankStats.RanksArePermutation` | scripts/rerank_judge_bench.py:35-40 | ranks are a permutation of 0..n-1 for every score list, ties included |
| `RankStats.PermutationSums` | scripts/rerank_judge_bench.py:48 | closed forms for the sum and the sum of squares of any rank vector |
| `RankStats.SharedTotal` | scripts/rerank_judge_bench.py:48-49 | squared distance plus distance from the reversal is always n(n²-1)/3 |
| `RankStats.SpearmanBounds` | scripts/rerank_judge_bench.py:43-49 | Spearman is in [-1, 1], 1 exactly on equal rank vectors, -1 exactly on reversed ones |
| `RankStats.SpearmanIsPearson` | scripts/rerank_judge_bench.py:43-49 | it is Pearson's correlation of the two rank vectors, whose variances are equal; 1 below two candidates |
| `RankStats.SameOrderIsSameRanks` | scripts/rerank_judge_bench.py:35-40 | rank vectors are equal exactly when every pair is in the same tie-broken order |
| `RankStats.KendallTau` | scripts/rerank_judge_bench.py:52-63 | the nested loops compute (alike - opposed) / (alike + opposed) over the pairs on which the product of differences is positive and negative, 1 without such pairs |
| `RankStats.KendallBounds` | scripts/rerank_judge_bench.py:52-63 | Kendall is in [-1, 1], symmetric, 1 exactly when no product of differences is negative, -1 exactly when some is and none is positive |
| `RankStats.KendallNegates` | scripts/rerank_judge_bench.py:52-63 | negating one list changes the sign whenever some pair is strictly ordered in both |
| `RankStats.KendallCountsInversions` | scripts/rerank_judge_bench.py:52-63 | without ties it is 1 - 4 · inversions / (n(n-1)) |
| `RankStats.SpearmanOneIffKendallOne` | scripts/rerank_judge_bench.py:43-63 | Spearman 1 is Kendall 1 plus no pair tied in one list and ascending in the other; without ties the two coincide |
| `RankStats.TiesSeparateTheStatistics` | scripts/rerank_judge_bench.py:43-63 | a tie can give Kendall 1 with Spearman -1 |
| `RankStats.OnlyOrderMatters` | scripts/rerank_judge_bench.py:35-63 | both statistics depend only on the order of the scores |
| `RankStats.MonotoneInvariance` | scripts/rerank_judge_bench.py:35-63 | any strictly increasing rescaling of either list leaves both statistics unchanged |
| `RankStats.TopSetIsLowRanks` | scripts/rerank_judge_bench.py:67 | the top-k set is the candidates of rank below k, min(k, n) of them, none outscored by one left out |
| `RankStats.OverlapBounds` | scripts/rerank_judge_bench.py:66-68 | overlap is symmetric, in [0, 1], 1 exactly on equal nonempty top sets; equal rankings give 1 iff k and n are at least 1; at least 2k-n candidates are shared; on empty lists the rank statistics are 1 |
| `RankStats.OverlapIsShare` | scripts/rerank_judge_bench.py:66-68 | it is one less the share of the top that only one list ranks there |
| `Digraph.CycleMeetsExcused` | scripts/repo_guard.py:195-205 | in a finish order that is topological up to a set of nodes, every cycle meets that set |
| `Digraph.NoSinkHasCycle` | scripts/mission_next.py:78-86 | a finite graph in which every node has a successor has a cycle |
| `DependencyGuard.Search.Visit` | scripts/repo_guard.py:195-205 | a normal return restores `visiting`, finishes or reports the owner, keeps the search invariant and is the recursive search function; an exception means an unknown dependency; recursion decreases the untouched owners |
| `DependencyGuard.SearchAll` | scripts/repo_guard.py:192-208 | over all starts: raises iff the map is not closed, expands each owner exactly once, reports iff there is a cycle, in the order and with the reports of SearchExact |
| `DependencyGuard.SearchExact` | scripts/repo_guard.py:192-208 | the search starts at the first key, always goes on to the first dependency not yet expanded, and reports, with multiplicity, exactly the dependencies that do not finish before their owner |
| `DependencyGuard.FullSearch` | scripts/repo_guard.py:192-209 | a completed search shows the map closed and the reported owners on cycles and meeting every cycle |
| `DependencyGuard.UnknownDependencies` | scripts/repo_guard.py:184-187 | messages are collected exactly when some dependency is unknown |
| `DependencyGuard.CheckDependencies` | scripts/repo_guard.py:174-209 | outcome of the whole check: raise iff not closed, otherwise the invalid pairs followed by one message per back edge, a feedback vertex set, and an empty list iff acyclic with known import pairs |
| `MissionBoard.FindFacts` | scripts/mission_next.py:38-39 | `by_id` keeps the last phase carrying an id |
| `MissionBoard.Mission.NextPhase` | scripts/mission_next.py:78-86 | the scan returns the first phase that is not DONE while the last phase carrying each of its dependencies is |
| `MissionBoard.SomethingIsReady` | scripts/mission_next.py:78-86 | with known dependencies and no open cycle, there is no next phase iff all are DONE |
| `MissionBoard.StuckHasCycle` | scripts/mission_next.py:78-86 | an open board with nothing ready and known dependencies has a cycle of open phases |
| `MissionBoard.BlockedHasCause` | scripts/mission_next.py:121-129 | exit 4 implies an unknown dependency or a cycle among open phases |
| `MissionBoard.DriveCompletes` | scripts/mission_next.py:78-86 | repeatedly closing the next phase finishes everything iff open dependencies are known and acyclic, in exactly as many steps as phases closed |
| `MissionBoard.DependencyOrder` | scripts/mission_next.py:42-44 | each completed phase had every dependency DONE at the start or completed before it |
| `MissionBoard.DoneFlagClosesNext` | scripts/mission_next.py:102-115 | `--done` closes an open phase iff its id is not empty and not repeated later, and is then one step of that drive; otherwise the phase is left as it was |
| `MissionBoard.FollowCompletes` | scripts/mission_next.py:99-148 | for every board, doing what the command reports and reporting it done finishes the mission iff open phases can be named, open dependencies are known and no open cycle exists |
| `MissionBoard.UnnamedForever` | scripts/mission_next.py:38-39 | a phase with an empty or later repeated id stays as it is through every series of invocations |
| `MissionBoard.CompletableIff` | scripts/mission_next.py:102-115 | some series of invocations finishes a board iff every open phase has a nonempty id that no later phase repeats |
| `MissionBoard.RespectedAfterMark` | scripts/mission_next.py:102-115 | marking DONE keeps dependencies respected iff each dependency is DONE or the phase itself; reopening does iff no other DONE phase depends on it |
| `MissionBoard.FlagsIgnoreDependencies` | scripts/mission_next.py:4-6 | `--done` accepts a phase with an open dependency, and reopening forgets DONE dependents |
| `MissionBoard.DriveRespects` | scripts/mission_next.py:42-44 | completing only reported phases never violates a dependency |
| `MissionBoard.FlagsMeaning` | scripts/mission_next.py:102-115 | field by field: the last flag naming a phase decides its status, commit and result are replaced when given, all else is untouched |
| `MissionBoard.UnknownFlagStops` | scripts/mission_next.py:106-109 | an unknown id ends the command with the flags before it applied and no other |
| `MissionBoard.DuplicateIdNeverCloses` | scripts/mission_next.py:38-39 | a board on which completing the reported phase changes nothing |
| `MissionBoard.Mission.ApplyAll` | scripts/mission_next.py:102-115 | the board is the fold of the flags up to the first unknown id, which is reported |
| `MissionBoard.Mission.Invoke` | scripts/mission_next.py:99-148 | the board after the flags, and exit 1, 3, 4 or 0 exactly as it says, with the cause of 4 |
| `LaneRing.StepBalanced` | scripts/parent_map_backfill.py:101-118 | every atomic step keeps selections = dispatches + refusals + in flight, per lane |
| `LaneRing.StepTells` | scripts/parent_map_backfill.py:98-121 | after every step the events of every call are exactly those of its program point |
| `LaneRing.StepKeepsInvariant` | scripts/parent_map_backfill.py:85-121 | the whole invariant survives every step |
| `LaneRing.Reachable` | scripts/parent_map_backfill.py:81-121 | the invariant holds after every schedule of any number of calls, for every provider |
| `LaneRing.CountersBalanceAtRest` | scripts/parent_map_backfill.py:101-118 | when all calls are over the counters balance per lane and dispatches count the calls that reached the network |
| `LaneRing.OneCall` | scripts/parent_map_backfill.py:92-121 | one call selects ring[start], ring[start + 1], ... going on at ring[0], at most once round; it dispatches at most once, on the last lane selected, and ends undispatched only after all lanes refused |
| `LaneRing.CallsEnd` | scripts/parent_map_backfill.py:85-121 | under every schedule a call takes at most 3n + 2 atomic actions on n lanes and, until it is over, can always take one |
| `LaneRing.FairStarts` | scripts/parent_map_backfill.py:81-90 | under any schedule each lane starts floor(k/n) or ceil(k/n) of the k calls |
| `LaneRing.Ring.Infer` | scripts/parent_map_backfill.py:85-121 | the closure, run without interruption, is exactly its script for the given provider replies; it ends at the first lane that dispatches, or exhausted when all refuse, and the counters of the lanes ring[start], ring[start + 1], ... say so |
| `LaneRing.ScriptRuns` | scripts/parent_map_backfill.py:85-121 | that script is a run of the step relation |
| `Lex.LessIsPrecedes` | scripts/scaffold_polymath_v4.py:5258 | key comparison is code-point order: a proper prefix, or a smaller character at the first difference |
| `Json.EscapeTable` | scripts/scaffold_polymath_v4.py:5258 | what the encoder writes for each character when non-ASCII text is kept |
| `Json.CompactText` | scripts/scaffold_polymath_v4.py:5253-5258 | lists and objects are written with "," and ":" alone between their parts |
| `Json.DecodeEmit` | scripts/scaffold_polymath_v4.py:5249-5258 | decoding the compact text of any value gives the value back and leaves what follows, for every number format that reads back what it writes |
| `Json.PythonNumbersAreSound` | scripts/scaffold_polymath_v4.py:5249-5258 | integers and finite floats together are such a format |
| `Identity.NormalDecidesSame` | scripts/scaffold_polymath_v4.py:5249-5258 | key-sorted forms are equal exactly when the values are equal up to member order, at every depth |
| `Identity.CanonicalRoundTrip` | scripts/scaffold_polymath_v4.py:5249-5258 | canonical text decodes to the same value with its keys in code-point order at every depth |
| `Identity.CanonicalIffSame` | scripts/scaffold_polymath_v4.py:5249-5258 | two values share canonical text exactly when they are the same JSON value |
| `Identity.FactIdentity` | scripts/scaffold_polymath_v4.py:5266-5268 | facts share an id iff predicate, subject, object and qualifiers agree |
| `Identity.FactText` | scripts/scaffold_polymath_v4.py:5266-5268 | the exact text that is hashed for a fact |
| `Identity.EvidenceText` | scripts/scaffold_polymath_v4.py:5271-5273 | the exact text that is hashed for evidence |
| `Identity.EntityText` | scripts/scaffold_polymath_v4.py:5276-5280 | the exact text that is hashed for an entity, in both tiers |
| `Identity.ChunkText` | scripts/scaffold_polymath_v4.py:5288-5289 | the exact text that is hashed for a chunk |
| `Identity.EvidenceIdentity` | scripts/scaffold_polymath_v4.py:5271-5273 | evidence shares an id iff fact, document, chunk, offsets and rule agree |
| `Identity.EntityIdentity` | scripts/scaffold_polymath_v4.py:5276-5280 | linked entities by type and KB id, others by type and lower-cased surface, never across the tiers |
| `Identity.ChunkIdentity` | scripts/scaffold_polymath_v4.py:5288-5289 | chunks share an id iff document, index and text agree |
| `JsonPointer.TwoPasses` | scripts/chat_regression.py:76 | the two ordered replacements equal a single decoding pass on every string |
| `JsonPointer.EscapeLaw` | scripts/chat_regression.py:76 | escaping goes character by character, "~" as "~0" and "/" as "~1" |
| `JsonPointer.UnescapeEscape` | scripts/chat_regression.py:76 | the replacements undo that escaping for every token |
| `JsonPointer.OrderMatters` | scripts/chat_regression.py:76 | the opposite order would corrupt a token |
| `JsonPointer.SplitJoins` | scripts/chat_regression.py:75 | splitting cuts at every slash and nowhere else |
| `JsonPointer.PointerStarts` | scripts/chat_regression.py:70-73 | the empty pointer is the whole document, any other must start with a slash |
| `JsonPointer.ResolvePointer` | scripts/chat_regression.py:68-88 | the loop is the walk along the unescaped segments, a KeyError where a step fails |
| `JsonPointer.PointerRoundTrip` | scripts/chat_regression.py:68-88 | resolving the printed pointer of a token path walks those tokens, as the RFC does when no loose index is used |
| `JsonPointer.WalkAgainstRfc` | scripts/chat_regression.py:77-87 | the walk differs from RFC 6901 exactly by following loose list indices |
| `JsonPointer.CanonicalIsInt` | scripts/chat_regression.py:81-85 | a canonical index is read as its value |
| `JsonPointer.IndexMeaning` | scripts/chat_regression.py:81-85 | a token reaches position k of n as k itself or as k - n |
| `JsonPointer.AcceptedInt` | scripts/chat_regression.py:81-85 | blanks, a sign and single underscores are accepted in an index |
| `JsonPointer.RefusedInts` | scripts/chat_regression.py:81-85 | doubled or outer underscores, bare signs and other characters are not |
| `JsonPointer.LooseIndexExamples` | scripts/chat_regression.py:81-85 | "-1" and "00" are followed by the code and not by the RFC |
| `Manifest.SelectIsUnique` | scripts/chat_regression.py:91-97 | a row is selected exactly when it alone matches |
| `Manifest.ExtremeIsBest` | scripts/chat_regression.py:107-110 | max and min of several items succeed exactly when all are numbers or all strings, and return the first item that none beats |
| `Manifest.BeatsMeaning` | scripts/chat_regression.py:107-110 | numbers compare by value, strings in code-point order |
| `Manifest.SumConcat` | scripts/chat_regression.py:105-106 | the sum of two lists put together is the sum of their sums |
| `Manifest.ReduceMeaning` | scripts/chat_regression.py:100-111 | what `len` and `sum` give on lists and objects, null as zero, empty lists, and how other reductions fail |
| `Manifest.PyEqMeaning` | scripts/chat_regression.py:95 | equality of scalars: booleans count as numbers, nothing else mixes |
| `Manifest.ReadSteps` | scripts/chat_regression.py:114-121 | the value read is the reduced field of the only matching row at the pointer, each step as far as given |
| `Manifest.MinusMeaning` | scripts/chat_regression.py:122-124 | `minus` comes last and subtracts the value at the second pointer |
| `Manifest.DifferenceMeaning` | scripts/chat_regression.py:123 | the second number is taken from the first, up to half a thousandth |
| `Manifest.PassesIsClears` | scripts/chat_regression.py:127-139 | the comparison succeeds exactly when a number is at least, or at most, the bound, or the value equals it |
| `Manifest.ResultMeaning` | scripts/chat_regression.py:181-201 | PASS, DRIFT, FAIL and MISSING of a check, on its fields and files |
| `Manifest.Round3IsClose` | scripts/chat_regression.py:123 | rounding to three decimals moves a value by at most half a thousandth |
| `Manifest.PlanLoop` | scripts/chat_regression.py:317-332 | the checking loop either yields one value per unpinned check or the way it ends, writing nothing |
| `Manifest.GoodPlan` | scripts/chat_regression.py:319-330 | a plan that went through has, for each unpinned check, the value read, which clears its bound |
| `Manifest.PlanIsGoodIff` | scripts/chat_regression.py:319-332 | it goes through exactly when every unpinned check reads a value that clears its bound |
| `Manifest.FrozenManifest.Refresh` | scripts/chat_regression.py:303-346 | manifest and outcome after `refresh`, in every case |
| `Manifest.FrozenManifest.Commit` | scripts/chat_regression.py:333-346 | the writes in order, including what is left when a later one raises |
| `Manifest.RefusalBeforeCommit` | scripts/chat_regression.py:303-346 | before the commit point nothing changes, after it everything is written unless the tag raises; acceptance happens exactly when the checks pass, the tag can be substituted and no pinned check raises |
| `Manifest.RefusalKinds` | scripts/chat_regression.py:303-332 | which stops are ValueErrors and leave the manifest alone: unknown id, no checks, unparsable recording, unmet floor or absent metric; a missing file is an OSError |
| `Manifest.RaiseKeepsManifestIff` | scripts/chat_regression.py:306-307 | when exactly a refresh raises, and when exactly the manifest is then as it was, both on the inputs: it had not passed the checking phase, or already recorded this very refresh |
| `Manifest.NumericTagLeavesHalfRefresh` | scripts/chat_regression.py:335-341 | a numeric tag leaves the source re-pointed with old recorded values |
| `Manifest.MalformedPinRefusesTooLate` | scripts/chat_regression.py:344-346 | a pinned check with two bounds refuses after all writes |
| `Manifest.UnreadablePinCrashesTooLate` | scripts/chat_regression.py:344-346 | so does a pinned check with one bound whose own recording cannot be reduced |
| `Manifest.RunTagMeaning` | scripts/chat_regression.py:334-335 | the run is the tag of the summary unless missing, null, empty or zero, else the file stem |
| `Manifest.ReplaceFirst` | scripts/chat_regression.py:341 | text before an occurrence of the old tag is kept, the occurrence is replaced, and the search goes on behind it |
| `Manifest.AcceptedRefresh` | scripts/chat_regression.py:319-346 | after acceptance unpinned checks PASS and clear their bounds; pinned checks, bounds and other cases are untouched; the source names the new recording, with its texts rewritten |
| `Manifest.PassesOnceFrozen` | scripts/chat_regression.py:190-201 | a check frozen from a recording evaluates to PASS on it |
| `Manifest.OneRefresh` | scripts/chat_regression.py:303-346 | whatever its outcome, a refresh changes no bound and loses no floor that was met |
| `Manifest.FloorsNeverErode` | tests/determinism/test_chat_regression_suite.py:145-162 | the same over any sequence of `refresh` calls on one manifest, those that raise included |
| `Manifest.CommandsAreAccepted` | scripts/chat_regression.py:415-427 | a sequence of commands leaves on disk what the accepted requests alone would, so the same holds there |
| `Keyset.Pass.Process` | scripts/backfill_extract_projection.py:58-72 | the page body writes exactly the derivable rows and counts processed = updated + errors |
| `Keyset.Pass.NextPage` | scripts/backfill_extract_projection.py:47-57 | one page holds only selected rows without output, in ascending order, and moves the cursor past exactly its own rows |
| `Keyset.Advance` | scripts/backfill_extract_projection.py:47-57 | cursor invariant: finished ids are those up to `last_seen` |
| `Keyset.Pass.Backfill` | scripts/backfill_extract_projection.py:38-79 | terminates in both modes; visits once, in ascending order, exactly the selected rows without output and with a nonempty id; a visited row gets its derived output unless that fails, every other row is untouched, a dry run changes nothing and counts the same; each page ends in a commit that adds at most a batch, the last one being the final table, and a full pass over any of them reaches the same table |
| `Keyset.ResumeEqualsOneRun` | scripts/backfill_extract_projection.py:46-79 | interrupted runs followed by a full run give the table of one uninterrupted run |
| `Keyset.LaterRunSeesFailures` | scripts/backfill_extract_projection.py:10-13 | a later run sees only the rows whose derivation failed and changes nothing |
| `ChunkSummary.Group` | scripts/backfill_document_chunk_summary.py:54-60 | each document's bucket is its chunks split by tier, in row order |
| `ChunkSummary.PageIrrelevant` | scripts/backfill_document_chunk_summary.py:48-60 | a document gets the same bucket up to order, in whatever page it falls and in whatever order its rows come back |
| `ChunkSummary.SummaryPermuted` | shared/polymath_shared/document_chunk_summary.py:18-31 | the summary does not depend on the order of the two lists |
| `ChunkSummary.SummariesAfterPass` | scripts/backfill_document_chunk_summary.py:31-91 | after a full pass, for any paging and row order, existing summaries are kept and missing ones count the document's child rows, its other rows and those of them that are not noisy, unless the id is empty |
| `Rekey.Scan` | scripts/migrate_enrichment_identity.py:55-65 | splits the rows into lane-free ones and exactly the stale ones |
| `Rekey.Migration.RunBatch` | scripts/migrate_enrichment_identity.py:70-87 | one batch skips exactly its locked rows and re-keys the others |
| `Rekey.Migration.Rekey` | scripts/migrate_enrichment_identity.py:54-92 | rows = lane-free + re-keyed + skipped, per-status counts; every row not skipped has the lane-free hash and nothing else changes; exactly the skipped rows stay stale; a dry run changes nothing |
| `Rekey.SkippedMeaning` | scripts/migrate_enrichment_identity.py:68-77 | a stale row is skipped exactly when it is locked during its own batch, whose number is the count of stale rows read before it divided by the batch size |
| `Rekey.BagCounts` | scripts/migrate_enrichment_identity.py:85-90 | the status counters count the re-keyed rows of each status |
| `Rekey.StaleAfterRuns` | scripts/migrate_enrichment_identity.py:13-17 | after any series of runs a row is stale iff it was stale and every run skipped it; other columns never change |
| `Rekey.StaleAfterRounds` | scripts/migrate_enrichment_identity.py:13-17 | the same with the rows each run holds back computed from its row order, batch size and locks |
| `Rekey.UnlockedRunIsFinal` | scripts/migrate_enrichment_identity.py:13-17 | a run during which no stale row is locked leaves nothing stale, and no later run changes anything, whatever is locked then |
| `Sweep.Store.SweepArtifacts` | scripts/sweep_orphan_derivatives.py:66-89 | re-grounded + deleted = the reported stale count |
| `Sweep.SweptMeaning` | scripts/sweep_orphan_derivatives.py:74-88 | an artifact whose cited chunks are all gone is deleted when its document has no child chunk and otherwise cites exactly those, by index; every other one is untouched |
| `Sweep.SecondSweepIsIdle` | scripts/sweep_orphan_derivatives.py:65-90 | a second sweep finds nothing and changes nothing |
| `Sweep.ParentOnlyDocumentLosesArtifact` | scripts/sweep_orphan_derivatives.py:13-17 | a document with only a parent chunk loses its ungrounded artifact |
| `Sweep.Store.DeleteOrphans` | scripts/sweep_orphan_derivatives.py:50-64 | batched deletion leaves exactly the nodes with a live row or no id, and counts the rest |
| `SemLink.NumberMeaning` | scripts/flatten_resources.py:156 | the number of a class is what follows its last hyphen |
| `SemLink.FirstClassMeaning` | scripts/flatten_resources.py:154-158 | a key stands for the first class whose id or number it is |
| `SemLink.BuildIndex` | scripts/flatten_resources.py:154-158 | the index filled by `setdefault` holds exactly that |
| `SemLink.FnResolveMeaning` | scripts/flatten_resources.py:171-174 | a FrameNet key is resolved without its last segment first, then as a whole |
| `SemLink.MissingMeaning` | scripts/flatten_resources.py:165-168 | exactly the keys that resolve to nothing are recorded |
| `SemLink.AssignLoop` | scripts/flatten_resources.py:162-178 | resolved items are assigned in order and unresolved keys are recorded |
| `SemLink.LastKeyWins` | scripts/flatten_resources.py:167-178 | a class keeps the value of the last key that resolves to it |
| `SemLink.GreatestKeyWins` | scripts/flatten_resources.py:171-193 | a class's frames are the known frames of the greatest raw key that resolves to it |
| `SemLink.PbToVnMeaning` | scripts/flatten_resources.py:160-187 | a raw roleset is in `pb_to_vn` iff it is known and one of its keys resolves, with exactly the classes its keys resolve to |
| `SemLink.PbToVnKeys` | scripts/flatten_resources.py:160-187 | every roleset in `pb_to_vn` is known and has a raw entry |
| `SemLink.GreatestRolesWin` | scripts/flatten_resources.py:160-169 | the roles of a class are those of the roleset's greatest key that resolves to it |
| `SemLink.Flatten` | scripts/flatten_resources.py:137-207 | a frame is in `pb_to_fn[r]` iff some class of `pb_to_vn[r]` maps to it; entries exist exactly when nonempty |
| `SemLink.EndpointsExist` | scripts/flatten_resources.py:180-201 | every endpoint is a known roleset, class or frame and no entry is empty |
| `SemLink.OrderIrrelevant` | scripts/flatten_resources.py:160-193 | for a fixed class index, tables do not depend on the insertion order of the raw mappings |
| `Picker.FirstPass` | scripts/chat_baseline.py:97-103 | the first candidates of their documents, in order, up to the quota |
| `Picker.OpenerPosition` | scripts/chat_baseline.py:98-101 | each stands behind as many others as documents come before it |
| `Picker.OtherPosition` | scripts/chat_baseline.py:104-108 | the remaining candidates follow, each once, in order |
| `Picker.Pick` | scripts/chat_baseline.py:97-108 | exactly that list cut at the quota, so min(quota, candidates) distinct items with the largest number of documents any selection of that size can reach |
| `Carry.CarryAnswer` | scripts/chat_carry_probe.py:70-82 | one answer extends the capped first occurrences by its own items |
| `Carry.CarryFor` | scripts/chat_carry_probe.py:68-83 | the fused loop equals list, first occurrences, cut at 30 or 8; it raises iff an entry without a locator is kept; fewer items only when every offered locator is carried, none twice, each from the newest answer that offers it |
| `Carry.FirstOccurrencesMeaning` | scripts/chat_carry_probe.py:74-79 | what is kept is the first item listed with each locator, in the order listed |
| `Carry.ChunksOffered` | scripts/chat_carry_probe.py:72-75 | the first policy offers, for each nonempty locator, the first chunk with it |
| `Carry.LegendOffered` | scripts/chat_carry_probe.py:77-82 | the second offers, for each locator, the first legend entry of a used chunk |
| `Carry.PreviewIsLast` | scripts/chat_carry_probe.py:78-82 | a preview comes from the last chunk with the locator |
| `Carry.OnlyUsedChunks` | scripts/chat_carry_probe.py:77-82 | under the second policy every carried chunk was marked used by the answer it comes from |

## Left out

- Floating-point scores and the final `round` of the statistics: the values before rounding are modelled over the reals.
- JSON numbers in identity records: a finite float is identified with its `repr` text, NaN and infinities are not modelled; UTF-8 encoding and SHA-256 are one injective function parameter.
- `workers`, `control`, `orchestrator` and `polymath_shared`, except `compute_chunk_summary`, are not part of this model; where a script calls them, the call is a parameter.
- LaneRing.OneCall: assumes that the client returns rather than raises; `infer.last_provider` and `infer.last_model` are written without the lock and are not modelled.
- `summarize` of the parent-map backfill: plain sums over rows.
- Identity: ids of raw documents (a hash of bytes) and dictionary keys that are not strings.
- JsonPointer.CanonicalIsInt: `int(token)` is modelled for ASCII text; other Unicode digits and blanks are not.
- Manifest: offline-test and pending rows, shape validation, reference checks, tables; `max` and `min` over lists of lists, and numeric strings in `minus`, which the model treats as raising.
- RankStats.OverlapBounds: a negative k, which Python reads as dropping candidates from the end.
- Keyset: negative batch sizes, which the database rejects; other writers changing the table during a pass.
- Rekey.Migration.Rekey: a batch size below one, which `range` rejects or ignores; rows deleted or changed by other transactions between the first read and the batch.
- Sweep: the graph database and the relational tables are two maps; nothing else writes to them during the sweep.
- SemLink: XML parsing of VerbNet and PropBank, the FrameNet reader, frame values that are not strings, and the build manifest.
- Picker: construction of the candidates and the seeded shuffle; the result holds for every order.
- Command-line parsing, printing, HTTP and database drivers, and the other scripts.
