# Bitemporal knowledge: a verified model

This project models three parts of the system that answer questions about what was true, and what was known, at a
given time. Valid time and recorded time are integers (microseconds, 0 for the zero time).

**The temporal engine** (`core/temporal` over `core/observation`). Candidates are turned into a point state, a window
state, the comparison of two windows, a trajectory of transitions and a causal chain. The loops over maps and slices are
methods; each is proved against a function of the *set* of claims, so permutation and repetition of candidates cannot
show. On top of these functions the project proves that the algorithms agree with each other: windows with points, the
window-blind overlap test with conflicts inside the window, trajectory cells with point states, replayed transitions
with reconstructions, comparisons with aggregates, and as-of answers with what was recorded by then. It also says of
each answer, in terms of the observations alone, exactly what is in it and in which order: `StateMeaning`,
`TrajectoryMeaning`, `ComparisonMeaning` and the chains that are built in `CausalProperties`.
Files: `Observations`, `Construction`, `Ordering`, `States`, `Eligibility`, `Claims`, `Materials`, `Accumulators`,
`Aggregation`, `StateProperties`, `StateMeaning`, `Transitions`, `Replay`, `Timelines`, `Trajectory`,
`TrajectoryProperties`, `TrajectoryStability`, `TrajectoryMeaning`, `Comparisons`, `ComparisonProperties`,
`ComparisonMeaning`, `Causal`, `CausalProperties`.

**The extraction lease protocol** (`adapters/postgres/extraction.go`). `Extraction` is a class over the stored rows whose
methods write statement by statement inside transactions with rollback; `Leases` holds the step functions they are
proved against, `LeaseProperties` the invariant, `LeaseRuns` the theorems over all runs.

**The authority chains and their time travel** (`adapters/postgres/admission.go`, `identity.go`, `temporal_query.go`).
`Appends` is the state machine of appending transactions, one statement a step, with committed and uncommitted rows,
advisory locks and blocking; `Authorities` is the class whose methods are those statements. `AppendProperties`,
`ChainSafety`, `AdmissionTargets` and `ChainCompleteness` prove what all interleavings keep and exactly which logs they
can commit. `TimeTravel` models the recursive queries and their validation and ties them to that history.

`dafny verify dfyconfig.toml` checks everything.

Two properties hold in the code only under a condition, and the model follows the code:

- An instant observation on a boundary colours its whole cell of a trajectory. Replay equals reconstruction at every
  boundary. Between boundaries it does exactly when the instants on the last boundary are harmless: for each key, if the
  rest resolves they name its value and none is counterevidence only, and if it does not, no supporting instant has every
  other entry on its side (`TrajectoryReplays`, `CellStateIsExact`). `InstantColoursItsCell` shows one that is not.
- Appends never compare recorded times. `NotionsAgreeExactlyWithoutGaps` gives the exact condition under which the two
  notions of an effective decision agree at a cutoff, `ValidationAcceptsPrefixes` shows that the stored-row validation
  demands more than it, and `GapsBreakAgreement` gives a committed chain for which they differ.

Assumptions about the surroundings: transactions run under READ COMMITTED, the PostgreSQL default that
`adapters/postgres/database.go` leaves in place; row locks make the lease operations of one run take effect one after
another; and a transaction callback returns the errors it gets, as every callback in the repository does. (A callback
that swallowed the error of a first claim could commit a run without attempts; one that swallowed a refused append could
commit a target row without a decision.)

## Model

| member | source | states |
|---|---|---|
| `Construction.ExtentsAreConstructed` | core/observation/time.go:30-107 | The extents of the model are the unknown time and exactly what AtTime, During, Since, Until and Within return |
| `Construction.TrimSpaceIsExact` | core/observation/observation.go:101-147 | Trimming, wherever an ID or name is trimmed, cuts off white space at both ends and all of it |
| `Construction.NormalizeEvidenceLinks` | core/observation/observation.go:149-176 | Fails exactly on no evidence, a blank ID or a repeated ID-and-role pair; else returns the trimmed links as the one sorted arrangement of their set |
| `Construction.NormalizationIsCanonical` | core/observation/observation.go:149-176 | Normalized links do not depend on the order given, normalizing them again accepts and keeps them, and they come by ID, contradiction before support |
| `Construction.NewObservation` | core/observation/observation.go:101-147 | Succeeds exactly on valid input; every observation built has a trimmed non-empty ID, a non-zero recorded time and non-empty evidence with trimmed non-empty IDs |
| `Construction.InputsAreRejected` | core/observation/observation.go:101-176 | An observation is refused exactly for a blank ID or predicate, a zero time, missing, blank or repeated evidence, an incomplete derivation or a confidence off the unit interval |
| `Construction.ValidateSelections` | core/temporal/plan.go:193-219 | Accepts exactly one selection of the right kind, or two windows with increasing starts and different labels for a trend |
| `Construction.SelectionsByIntent` | core/temporal/plan.go:193-219 | What that is, intent by intent: one point, one window, or for a trend two windows that start one after the other under different names |
| `Construction.TrendPlansCompare` | core/temporal/plan.go:193-219 | The two windows of a valid trend plan always aggregate to summaries that the comparison accepts |
| `States.CompareTermsIsOrder` | core/temporal/state.go:66-74 | CompareTerms is antisymmetric and transitive, and zero exactly on equal term identities (grounding mentions never count) |
| `States.CompareStateKeysIsOrder` | core/temporal/state.go:57-62 | The same for state keys |
| `States.KeyLessBySubject` | core/temporal/state.go:57-74 | Keys come by subject, then by predicate |
| `States.MatchingCandidates` | core/temporal/state.go:150-190 | A candidate matches exactly if key and value are canonical, the predicate is that of the observation, a mention is replaced by some entity and an entity by itself with their grounding kept beside, and any other term is kept |
| `Ordering.SortSlice` | core/temporal/aggregation.go:274-276 | Sorting distinct items by a strict total order gives the one strictly sorted arrangement of their set |
| `Ordering.SortedIsUnique` | core/temporal/aggregation.go:392-401 | Two strictly sorted arrangements of the same elements are equal, so map iteration order never shows |
| `Ordering.StringLessIsLexicographic` | core/temporal/state.go:66-74 | One string comes before another exactly if at the first position where they differ it ends or has the smaller character |
| `Eligibility.WindowIsUnionOfPoints` | core/temporal/aggregation.go:213-233 | An extent is definite (or uncertain) in a window exactly when it is so at some instant of the window |
| `Eligibility.OverlapInsideWindow` | core/temporal/aggregation.go:369-385 | One-dimensional Helly: two extents that each meet a window overlap, as the window-blind test says, exactly when they share an instant inside that window |
| `Eligibility.CellRefinesPoint` | core/temporal/trajectory.go:143-161 | In a cell without boundaries of an extent inside it, window eligibility equals point eligibility at the first instant, and at every instant unless the extent is an instant |
| `Eligibility.LeftLimitIsPreviousInstant` | core/temporal/trajectory.go:120-141 | The left limit of a non-instant extent is its point eligibility one microsecond earlier; instants are excluded |
| `Claims.AcceptedIsErrorFree` | core/temporal/aggregation.go:99-121 | The scan finds no error exactly when every candidate fits its observation and no observation ID maps to two keys, values or payloads, whatever the order |
| `Claims.FirstErrorNamesCulprit` | core/temporal/aggregation.go:99-121 | The error is that of the first candidate that does not fit the earlier ones, by what is wrong with it: match, ID, state or payload |
| `Claims.WindowEntriesAreUnionOfPointEntries` | core/temporal/aggregation.go:123-163 | Selected observations with their roles over a window are exactly the union over its instants |
| `Claims.AsOfEntriesAreCurrentEntriesOfKnown` | core/temporal/aggregation.go:208-211 | A recorded-time cutoff selects what current knowledge selects from the observations recorded by then |
| `Materials.ReasonIsExactClassification` | core/temporal/aggregation.go:310-351 | Each unresolved reason is given exactly when its condition holds and no earlier one does; the final fallback is never reached for a non-empty unresolved group |
| `Accumulators.MergeCandidate` | core/temporal/aggregation.go:235-257 | Adds the observation, its extent and its evidence by role to the accumulator of the value |
| `Accumulators.MergeAccumulators` | core/temporal/aggregation.go:403-424 | The value-wise union of the three accumulator maps, without extents, whatever order the maps are walked in |
| `Aggregation.AggregateCandidates` | core/temporal/aggregation.go:92-165 | Returns the groups of exactly the selected claims, as a function of their set, or the error of the first candidate that does not fit |
| `Aggregation.MergedCandidates` | core/temporal/aggregation.go:288-291 | Merging the three maps gives one candidate per value of the group, over all entries of that value, so no group is left without candidates |
| `Aggregation.SummarizeGroups` | core/temporal/aggregation.go:269-299 | Facts and unresolved items of all keys, in key order, as a function of the selected entries alone |
| `Aggregation.AggregateWindow` | core/temporal/aggregation.go:74-90 | The window state of the claims, or an error for a wrong selection or rejected candidates |
| `Aggregation.ReconstructState` | core/temporal/point.go:20-63 | The point state of the claims, or an error for a wrong selection or rejected candidates |
| `StateProperties.OrderIndependence` | core/temporal/aggregation.go:92-165 | Permuting or repeating candidates changes neither success nor any part of a window or point result |
| `StateProperties.AsOfAnswersAreStable` | core/temporal/aggregation.go:208-211 | An as-of window or point answer is the current answer over the candidates recorded by the cutoff |
| `StateProperties.WindowResolution` | core/temporal/aggregation.go:269-299 | A key resolves to a value over a window exactly when some instant resolves it to that value and no instant has another value or a counter-only observation |
| `StateProperties.OverlapIsConflictAtAnInstant` | core/temporal/aggregation.go:353-385 | The pairwise overlap test holds for a window group exactly when some instant inside the window supports two distinct values |
| `StateProperties.PointsNeverReportSeveralStates` | core/temporal/point.go:46-63 | No point or left-limit state reports multiple-states-in-window |
| `StateProperties.ProvenanceIsConserved` | core/temporal/aggregation.go:282-297 | A listed fact names exactly the selected observations of its own key and value, except tentative ones whose key resolved |
| `StateProperties.EveryObservationIsListedOnce` | core/temporal/aggregation.go:282-297 | Each such observation is listed in exactly one fact or candidate, under its own key and value |
| `StateProperties.EvidenceIsExact` | core/temporal/aggregation.go:435-450 | Supporting and contradicting evidence of a listed fact are exactly the role-separated unions over the observations it lists |
| `StateMeaning.ResolutionIsHolding` | core/temporal/aggregation.go:123-163 | Under every selector a key resolves to v exactly if some claim of it for v is known, definite there, neither rejected nor hypothesized and backed by supporting evidence, and every claim of the key that is known, possible there and not rejected names v and is backed |
| `StateMeaning.FactsAreWhatHolds` | core/temporal/aggregation.go:269-299 | The facts are exactly the values that hold in this sense, each with the IDs and the evidence of exactly the claims that attest it |
| `StateMeaning.UnresolvedIsWhatDoesNotHold` | core/temporal/aggregation.go:284-351 | The unresolved items are exactly the other keys on which claims bear, with the reason that explains it over the observations and one candidate per claimed value from all claims of it |
| `StateMeaning.WindowTellsWhatHolds` | core/temporal/aggregation.go:74-299 | So the window state of accepted candidates lists what holds in the window and why the rest does not, in key order |
| `StateMeaning.PointTellsWhatHolds` | core/temporal/point.go:20-63 | So does the point state at its instant |
| `Trajectory.AddTrajectoryBoundaries` | core/temporal/trajectory.go:143-161 | Adds exactly the boundaries of the extent that fall into the window |
| `Trajectory.ScanTrajectory` | core/temporal/trajectory.go:39-64 | The first payload or matching error, or the boundary set of the drawn claims and the index of all observations |
| `Trajectory.DiffTrajectoryState` | core/temporal/trajectory.go:163-230 | The keyed difference of two states in key order |
| `Trajectory.AppendCells` | core/temporal/trajectory.go:90-111 | The loop over adjacent boundaries appends exactly the differences of adjacent cell states |
| `Trajectory.BuildTrajectory` | core/temporal/trajectory.go:26-118 | The sorted differences over the partition, or the error |
| `Transitions.InDiff` | core/temporal/trajectory.go:163-230 | A transition is in the difference exactly when it is the one of its own key |
| `Transitions.TransitionOrderIsStrict` | core/temporal/trajectory.go:269-313 | The transition comparator is a strict total order on the transitions that are sorted |
| `Timelines.OrderCoreTransitions` | core/temporal/trajectory.go:269-292 | Sorting everything that was appended sorts each boundary block in place: time comes first |
| `Replay.ReplayBlock` | core/temporal/trajectory.go:163-230 | Folding the transitions of one boundary, in any order, leads exactly from the state before to the state after, each fitting what it finds |
| `TrajectoryProperties.CellIsPoint` | core/temporal/trajectory.go:90-111 | Aggregating a cell equals reconstructing the state at its first instant, facts and unresolved items alike, and at each of its instants unless an instant observation sits on the first |
| `TrajectoryProperties.LeftLimitState` | core/temporal/trajectory.go:74-89 | The state before the window is the point state one microsecond before its start over the non-instant claims |
| `TrajectoryProperties.TrajectoryReplays` | core/temporal/trajectory.go:66-117 | Folding the returned transitions up to t over the state before the window gives the state reconstructed at the last boundary b up to t, and the state at t itself exactly when the instants on b are harmless at t for every key; each Before is what the previous transitions left |
| `TrajectoryProperties.CellForgetsItsInstants` | core/temporal/trajectory.go:143-161 | What is selected for a key at the first instant of a cell is what is selected at any of its instants, with the same weights, plus the instants on the boundary |
| `TrajectoryProperties.HarmlessIsExact` | core/temporal/aggregation.go:269-299 | Adding instants changes nothing about what a group resolves to exactly if they name its value and none is counter-only, or, where it resolves to nothing, no supporting instant has every other entry on its side |
| `TrajectoryProperties.CellStateIsExact` | core/temporal/trajectory.go:143-161 | The state at an instant of a cell equals the state at its boundary exactly when the instants on the boundary are harmless for every key |
| `TrajectoryProperties.InstantColoursItsCell` | core/temporal/trajectory.go:143-161 | An instant observation holds over its whole cell in the trajectory, although a later reconstruction in the cell no longer finds it |
| `TrajectoryProperties.TransitionsCarryOneSide` | core/temporal/trajectory.go:248-267 | A transition carries at most one unresolved item, of its own key, from the side without a fact, never multiple-states-in-window |
| `TrajectoryStability.TrajectoryIsBuiltWhenAccepted` | core/temporal/trajectory.go:26-118 | A trajectory is built exactly for window selections over candidates that aggregation accepts: the first loop rejects nothing more |
| `TrajectoryStability.TrajectoryOrderIndependence` | core/temporal/trajectory.go:26-118 | Permuting or repeating candidates changes neither success nor any part of a trajectory |
| `TrajectoryStability.AsOfTrajectoriesAreStable` | core/temporal/trajectory.go:54-57 | An as-of trajectory is the current one over the candidates recorded by the cutoff |
| `TrajectoryMeaning.TrajectoryListsChanges` | core/temporal/trajectory.go:66-267 | A transition is in the trajectory exactly if it is at a boundary before the end and tells how its key changes there: kind, the whole fact of each adjacent state or none, and exactly the unresolved items that the two states list for the key |
| `TrajectoryMeaning.BuiltTrajectoryListsChanges` | core/temporal/trajectory.go:26-118 | The same for the trajectory of accepted candidates, with the boundaries given as the ends of the window and the instants and bounds inside it of what is known and not rejected |
| `TrajectoryMeaning.BuiltTrajectoryIsChronological` | core/temporal/trajectory.go:269-330 | Over constructed observations its transitions come by boundary, then by the earliest recorded time and by the first ID of the observations they list, then by key |
| `TrajectoryMeaning.TrajectoryErrorNamesCulprit` | core/temporal/trajectory.go:39-64 | The first candidate whose match or payload is wrong is reported before anything else |
| `Comparisons.ValidateSummary` | core/temporal/comparison.go:104-164 | Accepts exactly valid summaries, and then returns the maps of their normalized facts and items |
| `Comparisons.CompareWindowSummaries` | core/temporal/comparison.go:44-102 | The comparison of two valid summaries with increasing window starts, or the error |
| `ComparisonProperties.ChangesPatchBeforeIntoAfter` | core/temporal/comparison.go:60-101 | Patching the before values with the changes gives the after values on every key not unresolved on a side, and leaves those keys alone |
| `ComparisonProperties.EveryKeyHasOnePlace` | core/temporal/comparison.go:60-101 | Each key is unresolved, added, removed, changed or unchanged, exactly as its entries on the two sides say |
| `ComparisonProperties.ComparisonListsChanges` | core/temporal/comparison.go:60-101 | A change is listed exactly if its key is unresolved on neither side, it carries the whole fact of each side or none, and its kind says how they differ; changes and unresolved keys come in key order |
| `ComparisonProperties.MaterialSurvivesNormalization` | core/temporal/comparison.go:104-222 | Aggregated facts and items pass normalization and ordering unchanged |
| `ComparisonProperties.AggregatesCompare` | core/temporal/comparison.go:44-164 | Any two aggregated windows with increasing starts are accepted and returned unchanged, each key is placed by how it resolved in each window, each change carries the facts of the two summaries for its key, and the changes patch the resolved map of the first into that of the second on every key not unresolved on a side |
| `ComparisonMeaning.ComparisonTellsChanges` | core/temporal/comparison.go:44-256 | Whatever is compared, the result holds both summaries with IDs trimmed and everything in order, and exactly the changes between them |
| `ComparisonMeaning.RefusedComparisons` | core/temporal/comparison.go:104-193 | It is refused exactly for a defective summary (blank or repeated IDs, missing evidence, a key in two places, an impossible item) or for windows out of order |
| `Causal.CollectLinks` | core/temporal/causal.go:43-127 | The groups of exactly the selected causal claims, rejected ones included, or the first error |
| `Causal.CausalAccumulatorChronology` | core/temporal/causal.go:169-187 | The least valid bound, recorded time and observation ID, whatever order the map is walked in |
| `Causal.CausalOrder` | core/temporal/causal.go:148-167 | The chain comparator is a strict total order on links with different ends |
| `Causal.OrderLinks` | core/temporal/causal.go:110-127 | The links in the one order of that comparator |
| `Causal.BuildCausalChain` | core/temporal/causal.go:43-127 | The ordered links of the selected causal claims, or the error |
| `CausalProperties.ChainOrderIndependence` | core/temporal/causal.go:43-127 | Permuting or repeating candidates changes neither success nor any part of a chain |
| `CausalProperties.AsOfChainsAreStable` | core/temporal/causal.go:43-127 | An as-of chain is the current one over the candidates recorded by the cutoff |
| `CausalProperties.ChainIsExplicit` | core/temporal/causal.go:43-146 | A link is in the chain exactly when some selected claim states it, and merges exactly the claims that state it |
| `CausalProperties.ChainIsChronological` | core/temporal/causal.go:148-187 | Links come by earliest valid time, then earliest recorded time, then first observation ID over the claims that state them; two links never share the last, so the ties by cause and effect are never reached |
| `CausalProperties.RejectedClaimsStayExplicit` | core/temporal/causal.go:43-127 | A rejected causal claim stays in the chain, although aggregation never selects it |
| `CausalProperties.LinksAreStated` | core/temporal/causal.go:60-87 | A claim is behind a link exactly if it is causal, known by the cutoff and definite at some instant of the window, whatever its status |
| `CausalProperties.BoundIsFirstInstant` | core/temporal/causal.go:189-201 | The time a link is ordered by is the first instant of a definite extent, or its end if it has no start |
| `CausalProperties.BuiltChainIsExplicit` | core/temporal/causal.go:43-146 | In the chain built from accepted candidates a link is listed exactly if some causal claim known by the cutoff and definite at some instant of the window states it, and merges exactly those claims, whatever their status |
| `CausalProperties.BuiltChainIsChronological` | core/temporal/causal.go:148-187 | Its links come in chronological order of the claims that state them in this sense |
| `CausalProperties.BuiltChainKeepsRejected` | core/temporal/causal.go:43-127 | A rejected claim that states a link in this sense is in it, although aggregation never selects it |
| `CausalProperties.ChainErrorNamesCulprit` | core/temporal/causal.go:54-77 | The error is that of the first candidate that does not match or contradicts an earlier causal one |
| `Extraction.ExtractionStore.PrepareExtraction` | adapters/postgres/extraction.go:114-325 | Claims, reclaims, resumes or reports busy or completed, and leaves exactly the rows of the step function |
| `Extraction.ExtractionStore.RecordExtractionFailure` | adapters/postgres/extraction.go:329-410 | Ends the active attempt and run as failed, or changes nothing for an exact retry, or errs |
| `Extraction.ExtractionStore.CheckExtractionCompletion` | adapters/postgres/extraction.go:415-484 | Reads only; claimed, completed or the error of the step function |
| `Extraction.ExtractionStore.CompleteExtraction` | adapters/postgres/extraction.go:488-575 | Completes attempt and run together, or changes nothing for an exact retry, or errs |
| `Extraction.ExtractionStore.InTransaction` | adapters/postgres/database.go:80-97 | All of a callback's operations take effect, or none when one of them errs |
| `LeaseProperties.PrepareIsDecidedByHistory` | adapters/postgres/extraction.go:114-325 | On a valid store preparation is decided by the history alone, guards and row scans aside: new claim, reclaim after the last end, resume, busy, completed or conflict, with rows and answers written out field by field |
| `LeaseProperties.FailIsDecidedByHistory` | adapters/postgres/extraction.go:329-410 | On a valid store a failure is recorded exactly by the holder of the last attempt within its lease |
| `LeaseProperties.CompleteIsDecidedByHistory` | adapters/postgres/extraction.go:488-575 | On a valid store a completion is recorded exactly by the holder of the last attempt within its lease |
| `LeaseRuns.StepKeepsValid` | adapters/postgres/extraction.go:114-575 | Every operation keeps the invariant (numbers 1..n, only the last attempt active or completed, terminal times within leases, claims in order, run mirrors last attempt, unique IDs), only extends history and never trips a defensive guard |
| `LeaseRuns.ReachableStoresAreValid` | adapters/postgres/database.go:80-97 | The invariant holds after any transactions with any callbacks, owners and times |
| `LeaseRuns.HistoryIsAppendOnly` | adapters/postgres/extraction.go:234-298 | Whatever runs later, stored attempts keep identity and claim, ended ones never change, and ownership can only end earlier |
| `LeaseRuns.GuardsNeverFire` | adapters/postgres/extraction.go:192-573 | No transaction of any run ends at a guard: not against corrupt attempt history, nor against the row counts of the updates of attempts and of runs |
| `LeaseRuns.OwnershipIsExclusive` | adapters/postgres/extraction.go:234-298 | In every reachable store at most one attempt of a run owns any instant |
| `LeaseRuns.SupersededAttemptsAreFenced` | adapters/postgres/extraction.go:358-369 | An attempt that is not the last can neither fail nor complete its run, whatever time is reported |
| `LeaseRuns.CompletionIsAbsorbing` | adapters/postgres/extraction.go:192-205 | Once completed, a run and its attempts never change again |
| `LeaseRuns.CompletionIsUnique` | adapters/postgres/extraction.go:514-533 | After a completion, with anything in between, another one of the run succeeds exactly when it is equal in attempt, owner, time, version and digest, and then changes nothing |
| `LeaseRuns.CheckRefinesComplete` | adapters/postgres/extraction.go:456-483 | For a matching document version the check says claimed exactly when completion would change the store, completed exactly when it would not, and errs with the same error |
| `LeaseRuns.RetriesChangeNothing` | adapters/postgres/extraction.go:355-376 | An exact retry of any successful operation succeeds again with the same store |
| `LeaseRuns.UnfinishedRunsCanBeClaimed` | adapters/postgres/extraction.go:234-275 | A run that is not completed grants any fresh claim from the end of its last attempt on |
| `LeaseRuns.ClaimsLastForTheirDuration` | adapters/postgres/extraction.go:276-325 | A granted claim, new, reclaimed or resumed, is stored as the active last attempt until its time plus its duration, the answer says so, and no other run is touched |
| `LeaseRuns.LeaseExcludesOthers` | adapters/postgres/extraction.go:216-298 | With nothing in between, another request for the run is busy exactly before that time and granted exactly from then on |
| `LeaseRuns.PreparationsAreChecked` | adapters/postgres/extraction.go:577-618 | A preparation is invalid input exactly for a blank or zero field, no output tokens or no duration |
| `Authorities.AuthorityTables.CheckExactRetry` | adapters/postgres/identity.go:507-530 | The retry check before and after the lock: same row, other row under the ID, or none |
| `Authorities.AuthorityTables.InsertTarget` | adapters/postgres/admission.go:39-50 | Writes the target row unless one is visible |
| `Authorities.AuthorityTables.ValidateAutomaticAuthority` | adapters/postgres/identity.go:435-505 | Counts the candidate rows twice and lets a decision through exactly if it initially accepts the entity of the only exact work-email candidate with the one alias that is the grounded, valid e-mail |
| `Authorities.AuthorityTables.LoadEffective` | adapters/postgres/admission.go:207-230 | Loads a visible decision of the subject without a visible successor |
| `Authorities.AuthorityTables.InsertDecision` | adapters/postgres/admission.go:82-121 | Appends the decision when it follows the loaded effective one and the constraints let it in |
| `Authorities.AuthorityTables.AppendDecision` | adapters/postgres/identity.go:301-408 | A whole append without interference succeeds exactly for a retry of a visible decision or one that its subject's chain grants, and adds that decision alone |
| `Decisions.EffectiveIsLast` | adapters/postgres/identity.go:971-991 | In a linear log the effective decision of a subject is exactly the last of its chain |
| `AppendProperties.StepKeepsSafe` | adapters/postgres/identity.go:319-407 | Every statement, commit and abort of every worker keeps chains linear in each transaction's view, locks apart and loaded effective decisions current |
| `AppendProperties.ReachableIsSafe` | adapters/postgres/admission.go:33-121 | So does every interleaving of any number of transactions, whatever subjects share a lock key |
| `ChainSafety.CommittedChainsAreLinear` | adapters/postgres/admission.go:82-95 | Per subject: one root, every later decision a correction with reviewer authority of the one before, and exactly the last one effective |
| `ChainSafety.AtMostOneSucceeds` | adapters/postgres/identity.go:347-360 | Of all transactions racing to decide a subject first or to correct the same decision at most one commits, and a correction is about the subject it corrects |
| `ChainSafety.LockFreezesChain` | adapters/postgres/identity.go:410-433 | In every reachable state, while a transaction holds the lock of a subject, whatever the others do leaves the chain it sees, and its effective decision, as they are |
| `ChainSafety.AppendIsDecidedByChain` | adapters/postgres/identity.go:342-360 | At its insert an append passes exactly if its subject is undecided, or it has reviewer authority and corrects an uncorrected decision of the subject: a loser always sees a winner |
| `ChainSafety.OnlyTakenIdsAreRejected` | adapters/postgres/coremigrations/migrations/00002_identity_admission.sql:86-92 | An append that passes meets no constraint but a taken decision or alias ID; the one-initial and one-successor indexes never fire |
| `ChainSafety.OnlyTakenIdsBlock` | adapters/postgres/coremigrations/migrations/00002_identity_admission.sql:144-150 | Nor does an uncommitted decision row of another transaction block it, except by its ID |
| `ChainSafety.OnlyRivalsBlock` | adapters/postgres/admission.go:39-95 | A statement waits exactly for another open transaction that wrote the same target row, holds the lock, or took the ID or an alias of the decision |
| `ChainSafety.LogOnlyGrows` | adapters/postgres/admission.go:18-19 | Committed decisions are never rewritten or reordered |
| `ChainSafety.RetryOfCommittedDecision` | adapters/postgres/admission.go:141-156 | Appending a committed decision again succeeds at once and writes nothing, after whatever else happened; another decision under its ID is refused |
| `ChainSafety.AutomaticDecisionsAreGrounded` | adapters/postgres/identity.go:435-505 | For every committed automatic resolution decision some statement of the run saw its one marked candidate row, of its entity, and its one alias as the grounded, valid e-mail |
| `ChainSafety.CommittedDecisionsAreSound` | core/identity/authority.go:400-446 | Every committed decision has ID, reason and time, names an entity exactly if it accepts, owns its aliases, and is automatic only as a first acceptance with one e-mail |
| `AdmissionTargets.TargetTimeIsRootTime` | adapters/postgres/admission.go:39-50 | In every reachable state a target row exists exactly for decided targets and carries the recorded time of the first decision |
| `ChainCompleteness.ReachableLogsAreTheLinearOnes` | adapters/postgres/admission.go:33-121 | A log can be committed by some interleaving exactly when its chains are linear, its decisions authorized and its aliases unique |
| `TimeTravel.RecursionNumbersTheChain` | adapters/postgres/temporal_query.go:992-1007 | The recursive query terminates and gives each decision its position in the chain of its subject, under the ID of the root |
| `TimeTravel.ReadCanonicalAuthority` | adapters/postgres/temporal_query.go:795-865 | Succeeds exactly on rows with distinct keys, well-formed visible decisions and accepted chains |
| `TimeTravel.ValidateAuthorityChains` | adapters/postgres/temporal_query.go:921-954 | Accepts exactly when every visible correction has a visible predecessor of the same subject, recorded no later |
| `TimeTravel.ValidationAcceptsPrefixes` | adapters/postgres/temporal_query.go:921-954 | On the chains of a linear log it accepts exactly when in each the visible decisions are a prefix with recorded times that never decrease |
| `TimeTravel.TimeTravelAgreesWithHistory` | adapters/postgres/temporal_query.go:1008-1034 | Then the cutoff stands for a moment of the log, and deepest visible, visible without visible successor, and effective at that moment are the same decision |
| `TimeTravel.AcceptedReadsAreHistory` | adapters/postgres/temporal_query.go:1062-1081 | The same for every run of appending transactions and every subject among the accepted rows, target rows included |
| `TimeTravel.NotionsAgreeExactlyWithoutGaps` | adapters/postgres/temporal_query.go:1015-1034 | Without validation the two notions of effective agree exactly on chains whose visible part has no gap (for a target: and a visible root) |
| `TimeTravel.GapsBreakAgreement` | adapters/postgres/temporal_query.go:1028-1033 | A run can commit a chain recorded at 10, 20 and 5; at cutoff 12 the notions differ, and validation refuses the rows of that chain |

## Left out

- SQL transport, contexts, telemetry and error wrapping; errors keep their kind but not their wording, and the errors of one summary validation are one error.
- Digests and their encoders: a digest is an abstract value. Stored authority rows are compared field by field, so the digest comparison adds nothing.
- Time zones and sub-microsecond parts: times are taken as already normalized, as the constructors leave them.
- Confidence: a real number that is only range-checked and compared for equality.
- Scope and selection kinds outside the declared constants, and extents of an invalid kind.
- The extents of an accumulator are a set, not a slice: only overlap between values is ever asked of them.
- `sort.Slice` is modelled by its result on items that a strict total order keeps apart; nothing is claimed about its algorithm.
- Causal.BuildCausalChain: takes canonical observations, as NewObservation builds them, because a zero recorded time would read as no time yet.
- TrajectoryMeaning.BuiltTrajectoryIsChronological: takes canonical observations for the same reason.
- Foreign keys to documents, entities, proposals and mentions, and statement timeouts and deadlocks: a transaction may abort at any step instead.
- Alias assertions of one decision are a set, so repeating one assertion in the input is not an error of its own.
- Authorities.AuthorityTables.ValidateAutomaticAuthority: e-mail normalization and validity are given with the mention, because their library is not part of this model.
- The joins of the temporal queries after the effective decisions (entities, mentions, observations, evidence) and the choice of relevant chains: the rows are whole chains, as the queries return them.
- Entities, mentions, proposals and candidates are read as whatever the statement sees; how they are stored is not modelled.
- Reviewer orchestration, directory enrichment, documents, query planning beyond selections, provider clients, configuration and rendering.
