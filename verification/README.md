# Moderation state and two-stage versioning, modelled in Dafny

This project models the core of a moderation extension for a record store.
Each moderated record carries a nullable `SpamScore` and a nullable
`ModerationScore`. Per-type thresholds (default 1.0 for moderation and 10.0
for spam) sort every record into one of three states: approved, unapproved or
spam. The model covers:

- `wrappers.dfy` (`Wrappers`): `Option` and `Result`.
- `store.dfy` (`Store`): table rows, WHERE conditions as a small syntax tree
  evaluated in SQL's three-valued logic (a comparison with NULL is Unknown and
  a WHERE keeps only True rows), and selecting and counting rows. This stands in
  for the store's query engine, which the source reaches through SQL strings.
- `moderatable.dfy` (`Moderatable`): the constructor's threshold defaults;
  the three `$wheres` conditions and a reference classifier they agree with;
  the mark operations `Approve`, `Unapprove`, `IsSpam` and `IsHam` as pure
  record updates; the filtered reads `AreApproved`, `AreUnapproved` and
  `AreSpam`; and their counts.
- `moderatable_state.dfy` (`ModeratableState`): the filter-mode context. It
  starts in mode "approved" with an empty save stack (`Initial`). It offers
  `push_state` and `pop_state`. The process-wide statics are modelled as one
  explicit value passed through calls.
- `versioned_moderatable.dfy` (`VersionedModeratable`): one record as a
  version history, an optional Stage row and an optional Live row. On that
  record the module models the mode dispatch of `augmentSQL`, the decision in
  `augmentWrite` between minting a new version and patching in place, and the
  reconciliation in `onAfterWrite` together with its suppress flag.

Behaviour the model takes from the code as it stands:

- `pop_state` on an empty stack reports no underflow; it sets the mode to
  `null` and leaves the stack empty.
- The versioned `$wheres` split unapproved from spam on the spam score alone.
- A mode that `augmentSQL` does not know fails. This covers `null`, which is what
  an empty-stack pop leaves. The code reaches this failure by reading an
  undefined `$wheres` key, which yields an empty condition that the database
  rejects. The model reports it as `UnknownMode`.
- `allVersions` is taken in whatever order the store returns it. Reconciliation
  takes the first entry and the first approved entry of that order. The lemmas
  that talk about "highest version" assume the history is newest-first.

## Model

| member | source | states |
|---|---|---|
| Moderatable.Construct | code/Moderatable.php:27-30 | A null or 0 threshold argument falls back to 1.0 (moderation) or 10.0 (spam); any other argument is kept; neither threshold ends up 0 |
| Moderatable.ConstructFromThresholdsIsIdentity | code/Moderatable.php:27-30 | Constructing with a type's own non-zero thresholds returns those thresholds |
| Moderatable.Where | code/Moderatable.php:8-12 | The SQL condition of each state keeps exactly the rows the spam-first classifier puts in that state |
| Moderatable.StateConditions | code/Moderatable.php:8-12 | Each SQL condition in closed form: a NULL spam score counts as not spam; a NULL moderation score never reaches approval and counts as unapproved |
| Moderatable.ExactlyOneState | code/Moderatable.php:8-12 | For every pair of optional scores exactly one of the three conditions holds: the state the spam-first classifier picks |
| Moderatable.ThresholdsAreInclusive | code/Moderatable.php:9-11 | A spam score equal to the spam threshold is spam; a moderation score equal to the moderation threshold, with no spam score, is approved |
| Moderatable.NewRow | code/Moderatable.php:20-23 | A new record has both scores 0 (not NULL), so it is unapproved under any positive thresholds |
| Moderatable.Approve | code/Moderatable.php:32-36 | Moderation score becomes the required score and spam score 0; other columns are unchanged; the record is approved exactly when the spam threshold is positive |
| Moderatable.Unapprove | code/Moderatable.php:53-56 | Only the moderation score changes, to 0; the record is no longer approved under a positive moderation threshold, and its spam status is unchanged |
| Moderatable.IsSpam | code/Moderatable.php:73-77 | Spam score becomes the spam threshold and moderation score 0; the record is spam and neither approved nor unapproved, whatever it was before |
| Moderatable.IsHam | code/Moderatable.php:79-82 | Only the spam score changes, to 0; the record is not spam under a positive spam threshold |
| Moderatable.MarksAreIdempotent | code/Moderatable.php:32-82 | Applying any of the four marks twice gives the same record as applying it once |
| Moderatable.AreInState | code/Moderatable.php:38-45 | Corrected read, with the filter bracketed (the code as written is AreInStateAsWritten): returns exactly the rows in the requested state that the caller filter accepts, each with its full multiplicity; an empty filter is omitted |
| Moderatable.AreApproved | code/Moderatable.php:38-45 | Corrected read, with the filter bracketed (the code as written is AreInStateAsWritten): returns only approved rows the filter accepts, and every copy of each such row |
| Moderatable.AreUnapproved | code/Moderatable.php:58-65 | Corrected read, with the filter bracketed (the code as written is AreInStateAsWritten): returns only unapproved rows the filter accepts, and every copy of each such row |
| Moderatable.AreSpam | code/Moderatable.php:84-91 | Corrected read, with the filter bracketed (the code as written is AreInStateAsWritten): returns only spam rows the filter accepts, and every copy of each such row |
| Moderatable.AreInStateCount | code/Moderatable.php:47-51 | The count is the size of the unfiltered read; it is at most the table size and is 0 (never null) exactly when no row is in that state |
| Moderatable.CountsPartitionTable | code/Moderatable.php:47-97 | The approved, unapproved and spam counts add up to the number of rows in the table |
| Moderatable.AreInStateAsWritten | code/Moderatable.php:41 | The read as written: appending the filter without brackets returns, with every copy, exactly the rows that are in the state and meet the first disjunct, plus every row that meets any later disjunct, whatever its state |
| Moderatable.AsWrittenAgreesOnSimpleFilters | code/Moderatable.php:41 | With at most one top-level disjunct in the filter, the read as written equals the bracketed read |
| Moderatable.UnbracketedFilterLeaksSpam | code/Moderatable.php:41 | With the filter `ID = '1' OR ID = '2'`, the read of approved records as written returns a spam row with ID 2 |
| Moderatable.ApproveNewRecordWithDefaults | code/Moderatable.php:20-36 | Under the default thresholds a new record is unapproved; after Approve its scores are (1.0, 0) and it is approved |
| Moderatable.SpamAfterApproveWithDefaults | code/Moderatable.php:32-77 | Marking an approved record as spam gives scores (0, 10.0) and the spam state, and revokes approval |
| Store.Count | code/Moderatable.php:49-50 | `COUNT(*)` is at most the number of rows; it is 0 exactly when no row meets the condition, and equals the row count exactly when all rows do |
| ModeratableState.InitialContext | code/ModeratableState.php:17-18 | Before any push the mode is "approved" and the stack is empty; a pop then leaves mode null, and a push followed by a pop returns to it |
| ModeratableState.PushState | code/ModeratableState.php:20-23 | Any string, known mode or not, becomes current; the previous mode is appended on top of the unchanged stack |
| ModeratableState.PopState | code/ModeratableState.php:25-27 | The top saved mode becomes current and is removed; on an empty stack the mode becomes null and the stack stays empty |
| ModeratableState.PopUndoesPush | code/ModeratableState.php:20-27 | A push followed by a pop restores both the previous mode and the previous stack |
| ModeratableState.NestedPushPop | code/ModeratableState.php:20-27 | After push(a), push(b), pop(), the context is the one push(a) left: mode a |
| ModeratableState.PopOnEmptyYieldsNull | code/ModeratableState.php:25-27 | Popping an empty stack does not fail: mode null, stack empty |
| ModeratableState.ScopedRunRestores | code/ModeratableState.php:20-27 | A run of pushes and pops that never pops below its start keeps the stack beneath it, and when it is balanced it restores the starting context exactly |
| VersionedModeratable.ConstructVersioned | code/VersionedModeratable.php:55-60 | The stages are Stage and Live; thresholds fall back to the context's defaults 1.0 and 10.0 on null or 0, and neither is 0 |
| VersionedModeratable.ConstructorsAgree | code/VersionedModeratable.php:55-60 | The versioned constructor chooses the same thresholds as the plain one for every argument pair; the two copies of the defaults agree |
| VersionedModeratable.VersionedWhere | code/VersionedModeratable.php:35-39 | The versioned approved condition is the plain approved condition; the unapproved condition keeps exactly the rows that are not spam; the spam condition keeps exactly the spam rows |
| VersionedModeratable.VersionedSplitBySpamScore | code/VersionedModeratable.php:35-39 | The versioned approved condition is the plain one; the versioned unapproved and spam conditions read only the spam score, and exactly one holds of every row |
| VersionedModeratable.AugmentSQL | code/VersionedModeratable.php:63-105 | An OR query fails before anything else happens. "approved" and "approved_if_latest" read Live; the other modes read Stage. "approved" lists the Live row whatever its scores. "approved_if_latest" lists the Live row only when Stage exists at a version no newer than Live. "unapproved" and "spam" list the Stage row when its spam class matches and it is newer than Live or Live is absent. "any" lists Stage unfiltered. Any other mode fails. The reading stage is set back to its value before the call |
| VersionedModeratable.UncheckedModesFailAtFilter | code/VersionedModeratable.php:95-99 | A mode pushed without checking, or the null left by an empty pop, makes the filter fail instead of defaulting |
| VersionedModeratable.AugmentWrite | code/VersionedModeratable.php:107-128 | A new version is minted iff some written field is not ModerationScore, SpamScore or LastEdited. Otherwise the class entry moves to `<Class>_versions` with the same fields, loses its id and targets the owner's ID and Version; other tables are untouched |
| VersionedModeratable.ScoreWritesPatchInPlace | code/VersionedModeratable.php:107-128 | A write of scores only, including an empty write, patches the current version and leaves no entry for the class table |
| VersionedModeratable.FirstMatching | code/VersionedModeratable.php:145-146 | The position found is the first version meeting the condition; there is none exactly when no version meets it |
| VersionedModeratable.OnAfterWrite | code/VersionedModeratable.php:134-170 | With the suppress flag set nothing changes. Otherwise the write fails exactly when versions exist but none is approved, with Live already deleted, mode "any" still pushed and the suppress flag left set |
| VersionedModeratable.FailedPublishDisablesLaterReconciliation | code/VersionedModeratable.php:137-165 | If the failed `publish` is caught, the flag it left set makes every later `onAfterWrite` return without reconciling |
| VersionedModeratable.NewUnapprovedRecordHitsNullPublish | code/VersionedModeratable.php:165 | Saving a new record whose only version is unapproved makes the source's reconciliation fail, while the corrected reconciliation publishes it to Stage |
| VersionedModeratable.Reconcile | code/VersionedModeratable.php:136-170 | Live becomes the first approved version, or is removed if there is none. Stage becomes the first version, or is removed. The mode context is restored exactly and the flag is left clear. With the flag set, nothing changes |
| VersionedModeratable.OnAfterWriteAgreesWhenItSucceeds | code/VersionedModeratable.php:136-170 | Whenever the source's reconciliation completes, its result is the corrected reconciliation's |
| VersionedModeratable.ReconcilePublishesHighestVersions | code/VersionedModeratable.php:145-165 | With versions listed newest first, Live is the highest approved version and Stage the highest version, so Live is never ahead of Stage |
| VersionedModeratable.ReconciledRecordIsInOneQueue | code/VersionedModeratable.php:73-104 | With at least one version, listed newest first, after reconciliation a record is listed under exactly one of approved_if_latest, unapproved and spam: the state of its newest version. It is listed under approved iff some version is approved |
| VersionedModeratable.ApproveEditApproveLifecycle | code/VersionedModeratable.php:136-170 | Approving version 1 publishes it to both stages. An unapproved edit (version 2) moves only Stage. Approving version 2 publishes it to Live as well |

## Findings

| source | as written | input that shows it | evidently intended | confidence | as-written member | corrected member |
|---|---|---|---|---|---|---|
| code/Moderatable.php:41 | The caller filter is appended as `<state> AND <filter>` without brackets, so a filter with a top-level OR parses as `(<state> AND a) OR b` | Filter `ID = '1' OR ID = '2'` and a spam row with ID 2: `AreApproved` returns it | The state condition AND the whole filter, bracketed (the same at lines 61 and 87) | medium, not executed | Moderatable.AreInStateAsWritten | Moderatable.AreInState |
| code/VersionedModeratable.php:165 | Stage is published by calling `publish` on `$approved`, which is null when versions exist but none is approved | A new record saved with one unapproved version: the call fails, Live has already been deleted, and the suppress flag is left set | Publish the latest version through the record itself | high, not executed | VersionedModeratable.OnAfterWrite | VersionedModeratable.Reconcile |

## Left out

- Scores are `real`. IEEE float behaviour and `%F` formatting of thresholds into SQL are not modelled.
- SQL text building, table and join naming (`%T`, `baseTable`, `ClassInfo`), sorting, the `$join` argument and `DB::query` are not modelled. A read fixes which rows come back and how many copies of each; their order is not modelled.
- A caller filter is modelled already parsed into its top-level OR-separated disjuncts. A filter PHP treats as falsy other than null or the empty string (the text `"0"`) is not distinguished.
- `write()` after each mark operation is not modelled; a mark returns the record as it would be persisted.
- The internals of the `Versioned` parent class are not modelled: its own `augmentSQL` and `augmentWrite`, `allVersions` ordering, `publish`, `deleteFromStage` and `stagesDiffer`. `mostRecentIsApproved` depends on them and is left out too. A `NewVersion` plan hands the manipulation to `Versioned` unchanged.
- AugmentWrite: requires the owner's class to have an entry in the manipulation. Without one, the loop at lines 109-111 sees no fields, so the write takes the patch path and leaves a `<Class>_versions` entry holding only `where`; that path is not modelled.
- `isApproved`, `isUnapproved`, `isSpam` and the delegations to `Moderatable::ModerationState`, `markApproved`, `markUnapproved`, `markSpam`, `markHam` and `onModerationStateChange` are left out. They call methods that the non-versioned class does not define. Classification follows `$wheres` instead.
- `moderatorDelete` is left out. It raises an error and exits on its first line, so the rest of its body never runs.
- The admin controller and its JavaScript (URL handlers, forms, rendering) are not part of this model.
- Process-global statics and concurrency: the mode context and the suppress flag are explicit values passed in and returned, including in the failure of the null `publish`.
