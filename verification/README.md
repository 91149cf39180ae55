# Bookrack: a verified model of the catalog core

A Dafny model of the parts of Bookrack whose correctness is hardest to see by
reading: the intake filter and its SQL, the effective-metadata merge, the
liveness protocol of pipeline runs, the CSL-JSON adapters, run rollups and
review histories, the help gate over the command surface, profile fingerprints
and backup pruning. `dafny verify dfyconfig.toml` checks all of it.

## How it is organised

* **Filter compiler.** `Tables` holds the catalog's rows, `Sql` a relational
  semantics of the SQL fragment in use (LEFT JOIN, three-valued WHERE, GROUP BY,
  COUNT DISTINCT, LIKE with ESCAPE, positional parameters), `Like` the pattern
  operator. `IntakeFilter` has two independent halves: the predicate the
  filter's documentation describes (`Selects`) and the compiled fragments.
  `IntakeMeaning` and `Intake` prove that running the fragments means the
  predicate, for every catalog content and scan order. `Catalog` is the handle
  itself: the loops that push text and parameters, the find, count and page
  calls, the merges and the override writes. `Effective` is the other route to
  a node's metadata, which the effective layer of the filter must agree with.
* **Run liveness.** `RunProtocol` is a state machine at the grain of single
  file-system calls: paths and inodes are distinct, `acquire` is
  open-or-create then try-lock, an orderly drop unlinks and then closes, and a
  probe opens, tries and closes. Any number of runs, probes and repairs
  interleave, and owners and probes die anywhere. `RunHistories` says what the
  reading a probe recorded means about the moments it was made at, `RunSafety`
  exactly when a repair acting on it stamps a live run or overwrites a status.
  `RunLocks` has the lock directory and the run lock, `RunTable` the registry's
  rows and what a survey reads of them, `RunRegistry` the calls that open, end,
  survey and close runs. Probing, acquiring, dropping, abandoning, opening, ending and
  closing a run are each tied to the protocol steps they perform: for every
  protocol state with this disk and these rows in which the call makes sense,
  those steps are legal and lead to a state with the disk and the rows the call
  leaves. `RunRepair` does this for a whole repair pass. `RunNames` covers ids
  and lock file names, `Instants` the order of instants as text and as time.
* **CSL-JSON.** `Csl` has the two adapters, `CslRoundTrip` the normal form of an
  item and the proof that the round trip computes it; `CslSearch` looks
  at a stored item through the filter and the merge. `Decimal` and `Text` carry
  number printing and parsing and splitting.
* **Rollups and reviews.** `Grouping` proves that group counts add up.
  `RunSummary` has the audit tables, the rollup and the events both come from,
  `RollupMeaning` what its figures count on the tables,
  `AuditHistory` what histories of judgements, builds, closes and removals do to
  live counts and to stored rollups, `Reviews` the review table with a reference
  that determines a row from its history without replaying it.
* **Trees and text.** `ExampleText`, `HelpGate`, `GateMeaning` and `HelpText` for
  the gate; `Canonical`, `Fingerprint` and `Toggles` for profiles; `Backups` for
  pruning. `Sorting` is a stable sort by any total preorder and the order of
  strings.

Tables are sequences of rows with unique keys, because SQLite promises no scan
order; every theorem is for all of them. Clocks, digests, the order in which a
directory is read and the failures of the operating system are parameters or
free choices.

## Where the code and its documentation disagree

* `crates/catalog/src/run_lock.rs:187-193` (and
  `crates/runtime/src/pipeline_run_helpers.rs:38-41`) promise that a run whose
  lock could not be taken reads as having no record. `acquire` has created the
  file by then and leaves it, so the run reads `Abandoned`, whether a probe took
  the lock (`LostAcquireReadsAbandoned`) or trying it was an error
  (`FailedLockReadsAbandoned`); and a probe between creation and locking lets a
  repair stamp a run that is held (`RepairCanStampAHeldRun`). The window is
  where a live run's file exists and its owner does not hold the lock.
  `LiveRunReadsAbandonedIff` says exactly when a live run reads `Abandoned`,
  `RepairStampsLiveRunIff` exactly when a repair stamps one: its own probe took
  the run's lock in the window, and the owner has not gone since. What other
  probes have met does not matter. A run that tries its lock right after creating
  its file, and without an error, is never met there
  (`LockingAtOnceMakesRepairSafe`).
* The same comment says a reading is taken while the probe holds the lock. A
  probe opens the file first, so it can find the lock of a run free after that
  run has ended in good order and unlinked the file: it records `Abandoned`, and
  a repair overwrites the run's own status (`FinishedRunCanBeOverwritten`). This
  happens to runs that lock at once too. `RecordedReadingMeans` says what a
  recorded reading vouches for, `FinishedBetweenOpenAndLock` that the unlinking
  then fell between the probe's two steps. `RepairOverwritesIff` is the exact
  condition, for a row still `running` when the probe opened the record: the owner
  closed it between the probe's opening and its try, or another repair has closed
  it since; only an owner met in its window may close it later. So reading the row again after the probe,
  with one repair at a time, is enough to overwrite nothing of a run not met in
  its window (`ReadingAgainGuards`); `close_one` does not do that. Callers are asked to run
  a repair with no daemon serving the library
  (`crates/runtime/src/open_runs.rs:194-195`); the histories do not assume it.
* `crates/catalog/src/pipeline_run_summary.rs:260-263` says both audit tables
  hold one row per item. `book_distill_audit` gets a new row for every build:
  two builds of a book leave two rows (`TwoBuildsLeaveTwoRows`), and the promise
  holds exactly when no slug is built twice (`OneRowPerBookIffBuiltOnce`). So a
  run never loses books, only papers (`SnapshotStandsLiveDrifts`).
* `crates/catalog/src/effective.rs:228-237` promises the batch merges like the
  single form. It consumes an id's overrides the first time it meets the id, so
  a repeated id falls back to its base values (`RepeatedIdLosesItsOverride`);
  `BatchEqualsSingle` gives the exact condition: no id named more than once has
  an override that differs from its base.
* `crates/catalog/src/db.rs:359-361` says each database prunes only its own
  snapshots. That holds exactly for stems of which neither, with its dash, leads
  the other (`ClustersOverlapIff`); `ExtendedStemsAreNotApart` has the snapshots
  of a stem that extends another after a dash.

## Model

| member | source | states |
|---|---|---|
| Like.EscapingIsExact | crates/catalog/src/intake.rs:528-537 | For every needle and text, the escaped pattern between two `%` matches exactly when the text contains the needle up to ASCII case, needles with `%`, `_` and `\` included. |
| Like.LikeEscape | crates/catalog/src/intake.rs:528-537 | The escaping loop computes the escaped text that exactness is proved about. |
| Like.FoldMeans | crates/catalog/src/intake.rs:528-537 | Two characters fold alike exactly when they are the same or the two cases of one ASCII letter. |
| IntakeMeaning.PositionalBinding | crates/catalog/src/intake.rs:366-524 | Over all combinations of joins, override joins and IN lists, there are as many parameters as placeholders and each placeholder gets the value pushed for its own clause. |
| IntakeMeaning.JudgedExpr | crates/catalog/src/intake.rs:356-364 | On a joined row, the compiled attribute expression has the base value on the base layer and the effective value on the effective one. |
| IntakeMeaning.WhereMeans | crates/catalog/src/intake.rs:366-524 | The bound WHERE clause is true under three-valued logic exactly when the documented predicates hold of the joined row. |
| Sql.NullIsUnknown | crates/catalog/src/intake.rs:348-364 | A comparison with NULL is neither true nor false, and a conjunction that hangs on one is not true. |
| Intake.FanoutMeans | crates/catalog/src/intake.rs:386-418 | An intake survives the joined statement exactly when the filter selects it; without a contributor join it survives at most once. |
| Intake.FoundIsExactlyTheSelected | crates/catalog/src/intake.rs:871-878 | The result is sound, complete, without repeats and in ascending id order. |
| Intake.ExplicitNullNeverMatches | crates/catalog/src/intake.rs:348-364 | On the effective layer, an explicit-NULL override keeps its intake out of any result that asks about its field, whatever the base row holds. |
| Intake.SelectMeans | crates/catalog/src/intake.rs:879-910 | The compiled SELECT with its parameters, LIMIT and OFFSET last, returns that slice of the documented result, although contributors fan out. |
| Intake.CountMeans | crates/catalog/src/intake.rs:915-923 | The compiled COUNT(DISTINCT) with the same parameters is the number of selected intakes. |
| Intake.PagesArePrefix | crates/catalog/src/intake.rs:876-910 | The first pages, put together, are exactly the first rows of the unpaged result. |
| Intake.PagingCoversTheResult | crates/catalog/src/intake.rs:879-979 | Enough pages of any positive size give the whole result without repeats or gaps, and its length is the count. |
| Catalog.BuildFilterFragments | crates/catalog/src/intake.rs:366-524 | The loops push exactly the joins, predicates and parameters whose meaning is proved, in step with each other. |
| Catalog.StatusRoundTrip | crates/catalog/src/intake.rs:204-231 | Every status a row can be given reads back as itself. |
| Catalog.Catalog.FindIntakes | crates/catalog/src/intake.rs:593-611 | For every keyed catalog and filter: either one entry for each row of that page of the selected intakes, which written back (id, hash, status text, format) is the row, or the status of the first row whose status is no status's text. |
| Catalog.Catalog.CountFindIntakes | crates/catalog/src/intake.rs:915-923 | The number of selected intakes. |
| Catalog.Catalog.FindIntakesPage | crates/catalog/src/intake.rs:938-979 | Page and total come from one state; the page reads back to the selected rows, and the total is their number. |
| Catalog.Catalog.EffectivePublicationAttrs | crates/catalog/src/effective.rs:202-228 | The merged fields are the effective value of every field, and so are the values the filter's effective layer judges. |
| Catalog.Catalog.OverridesForAddresses | crates/catalog/src/node_overrides.rs:198-227 | One entry for each requested id that has overrides, holding all of them, ordered by field name. |
| Catalog.Catalog.EffectivePublicationAttrsForIntakes | crates/catalog/src/effective.rs:239-284 | The keys are the requested ids; every value is the effective one, except that a repeated id has its base values; so the whole map is what asking id by id would give exactly when no repeated id loses an override. |
| Catalog.Catalog.SetOverride | crates/catalog/src/node_overrides.rs:155-169 | The whole row of that address and field is inserted or replaced; the field takes the override's value, explicit NULL included, and no other effective value changes. |
| Catalog.Catalog.ClearOverride | crates/catalog/src/node_overrides.rs:231-241 | The field falls back to its base value, no other changes, and the result says whether there was an override. |
| Catalog.Catalog.UpsertPublicationAttrs | crates/catalog/src/node_publication_attrs.rs:375-415 | Every value stored is read back as the base value of its own name, and of no other; other nodes stay. |
| Catalog.Catalog.UpdateAuditRollup | crates/catalog/src/node_publication_attrs.rs:344-372 | The audit pair takes the given values and no other base value of any node changes, whether or not the node had a row. |
| Tables.ColumnsReadBack | crates/catalog/src/node_publication_attrs.rs:77-112 | Each column of a base row is read under the name it was written under. |
| Effective.BaseFields | crates/catalog/src/effective.rs:122-186 | The inserted pairs are the set columns of the row, each under its own name, and nothing else. |
| Effective.ApplyOverrides | crates/catalog/src/effective.rs:212-222 | The loop leaves each field with its override, if it has one, and its base value otherwise. |
| Effective.MergeIsEffective | crates/catalog/src/effective.rs:188-228 | Applying an address's overrides over its base gives the effective value of each field. |
| Effective.BatchEqualsSingle | crates/catalog/src/effective.rs:228-284 | The batch gives every id the value the single form gives it if and only if no id named more than once has an override whose value differs from the base. |
| Effective.RepeatedIdLosesItsOverride | crates/catalog/src/effective.rs:255-272 | A concrete repeated id whose override the batch drops. |
| Effective.InheritFrom | crates/catalog/src/effective.rs:104-114 | The loop fills in the unset inheritable fields and touches nothing else. |
| Effective.WalkGivesNearest | crates/catalog/src/effective.rs:95-114 | Walking any chain from the root gives each inheritable field the nearest self-or-ancestor value and leaves the others as the leaf's own. |
| Effective.InheritingAssociates | crates/catalog/src/effective.rs:95-114 | Inheritance is associative. |
| Effective.InheritingIsIdempotent | crates/catalog/src/effective.rs:95-114 | Inheriting again from the same parent, or from oneself, changes nothing. |
| RunNames.BuiltIdsAreRunIds | crates/catalog/src/pipeline_runs.rs:232-260 | Ids built from a portable command, a Zulu instant and eight hex digits have the shape the injectivity result needs. |
| RunNames.RunIdReadsBack | crates/catalog/src/pipeline_runs.rs:252-253 | An id gives back the command, the instant and the digest it was built from. |
| RunNames.LockNamesArePortable | crates/catalog/src/run_lock.rs:45-63 | A lock file's name keeps the portable characters of its id in place and holds no others. |
| RunNames.LockNamesDistinguishRuns | crates/catalog/src/run_lock.rs:50-63 | On such ids, equal lock file names mean equal ids. |
| RunNames.ArbitraryStringsMayCollide | crates/catalog/src/run_lock.rs:50-63 | On other strings they need not. |
| RunProtocol.InvAlways | crates/catalog/src/run_lock.rs:82-217 | Rows, files, inodes, locks and probes stay consistent over every interleaving. |
| RunProtocol.ReadingsAre | crates/catalog/src/run_lock.rs:171-207 | Over every history and for every run: `NoRecord` without a record; with one, `Held` while the owner holds the lock or a probe is checking it, `Abandoned` otherwise. |
| RunProtocol.LockingAtOnceMakesReadingsRight | crates/catalog/src/run_lock.rs:86-107 | A run that tries its lock right after creating its file, without an error, reads in every interleaving `Held` while its owner holds the lock, `Abandoned` from death or abandon until discarded (`Held` to a second probe meanwhile), and `NoRecord` otherwise. Other runs are not restricted. |
| RunProtocol.LiveRunReadsAbandonedIff | crates/catalog/src/run_lock.rs:86-107 | Over every history, a live run reads `Abandoned` if and only if it is between creating its file and holding its lock, or failed to take it, no repair has removed the file and no probe is checking it. |
| RunProtocol.FailedLockReadsAbandoned | crates/catalog/src/run_lock.rs:95-105 | A run whose lock attempt is an error reads `Abandoned` although it lives, with no probe anywhere. |
| RunProtocol.LockingAtOnceAvoidsTheWindow | crates/catalog/src/run_lock.rs:86-107 | No probe ever meets in its window a run that tries its lock right after creating its file and without an error, whatever the other runs do. |
| RunProtocol.GoneForGood | crates/catalog/src/run_lock.rs:126-133 | An owner that is gone stays gone, whatever happens afterwards. |
| RunProtocol.RunsDoNotInterfere | crates/catalog/src/run_lock.rs:119-133 | A step about one run, its drop or discard included, changes neither the row nor the reading of another. |
| RunProtocol.RepairCanStampAHeldRun | crates/catalog/src/run_lock.rs:89-104 | Without atomicity: a history in which a repair stamps a run that is held. |
| RunProtocol.LostAcquireReadsAbandoned | crates/catalog/src/run_lock.rs:187-207 | Without atomicity: a live run that lost its lock to a probe reads `Abandoned`, not `NoRecord`. |
| RunProtocol.RepairSucceeds | crates/runtime/src/open_runs.rs:258-274 | From every reachable state, a repair that finds a dead owner's record unchecked closes the row and removes the record. |
| RunHistories.RecordedReadingMeans | crates/catalog/src/run_lock.rs:194-207 | What a recorded reading vouches for at the moment the probe opened the record and at the moment it tried the lock, in every history. |
| RunHistories.DisturbedMeans | crates/catalog/src/run_lock.rs:187-193 | A run counts as disturbed exactly when some probe took its lock while it was in its window. |
| RunHistories.FinishedBetweenOpenAndLock | crates/catalog/src/run_lock.rs:126-133 | If a run read `Abandoned` had ended in good order when its lock was tried, its record was unlinked between the probe's opening and its trying. |
| RunSafety.RepairStampsLiveRunIff | crates/runtime/src/open_runs.rs:184-223 | Over every history, a repair stamps a live run if and only if its own probe took the run's lock while the run was in its window and the owner has not gone since. |
| RunSafety.RepairSparesLiveRuns | crates/runtime/src/open_runs.rs:184-223 | A repair whose own probe did not meet the run in its window stamps it only once its owner is gone, whatever other probes have met. |
| RunSafety.LockingAtOnceMakesRepairSafe | crates/runtime/src/open_runs.rs:184-223 | In every interleaving, no repair stamps a live run that tried its lock right after creating its file, without an error; other runs are not restricted. |
| RunSafety.LiveLater | crates/catalog/src/run_lock.rs:126-133 | A run is live at a later moment exactly if it was live and its owner has not released, abandoned, finished or died in between. |
| RunSafety.RunningUntilClosed | crates/catalog/src/pipeline_runs.rs:264-279 | Between any two moments, a row goes on reading `running` exactly until its owner's close or a repair sets its status. |
| RunSafety.RepairOverwritesIff | crates/runtime/src/open_runs.rs:258-274 | If the row was `running` when the probe opened the record, its repair overwrites a status if and only if the owner closed the row between the probe's opening and its try, or another repair has closed it since; only an owner met in its window can also have closed it later, and one that locks at once is not. |
| RunSafety.ReadingAgainGuards | crates/runtime/src/open_runs.rs:258-274 | A repair that finds the row `running` at some moment after its probe's try, with no other repair at work from then on, overwrites no status, unless its probe met the run in its window. |
| RunSafety.FinishedRunCanBeOverwritten | crates/catalog/src/run_lock.rs:194-207 | A history in which a run that locked at once ends in good order, is read `Abandoned` by a probe that was under way, and has its status overwritten. |
| RunLocks.LockDir.RunLiveness | crates/catalog/src/run_lock.rs:194-207 | The reading is the one the disk implies, errors of the operating system included; the probe leaves files and locks as they were, and is the protocol's open, try and close in every state with this disk. |
| RunLocks.LockDir.Discard | crates/catalog/src/run_lock.rs:211-217 | Removes that run's record; a record already gone is no failure, one that cannot be removed stays. |
| RunLocks.RunLock.Acquire | crates/catalog/src/run_lock.rs:86-107 | The disk afterwards is where the owner's protocol steps lead, whatever fails; a lock is returned exactly when they end holding it. |
| RunLocks.RunLock.Drop | crates/catalog/src/run_lock.rs:126-133 | Performs unlink then release, or release alone for an abandoned lock; an unlinking that fails is ignored and leaves what an abandoned lock leaves. |
| RunLocks.RunLock.Abandon | crates/catalog/src/run_lock.rs:121-123 | Releases the lock and keeps the record, as the protocol's abandon step does. |
| RunRegistry.Registry.OpenPipelineRun | crates/catalog/src/pipeline_runs.rs:232-260 | Adds one running row under the composite id, or fails on the primary key and changes nothing. |
| RunRegistry.Registry.BeginRun | crates/runtime/src/pipeline_run_helpers.rs:42-80 | The run is registered even when no lock can be had; with a lock it reads `Held`. Row and disk are those the protocol's steps of opening and acquiring lead to, whatever fails. |
| RunRegistry.Registry.EndRun | crates/runtime/src/pipeline_run_helpers.rs:82-101 | With a lock, either the row is closed and the run reads `NoRecord`, or the row is untouched and it reads `Abandoned`; a record that cannot be unlinked stays, free, behind a closed row. Without a lock the directory stays as it is. Row and disk are those the protocol's closing steps lead to. |
| RunRegistry.Registry.CloseOne | crates/runtime/src/open_runs.rs:258-274 | One row is stamped and its record discarded, as the repair steps do for a probe that has read the run abandoned. |
| RunRegistry.Registry.Survey | crates/runtime/src/open_runs.rs:101-137 | Every open row, newest first, with the reading of its own record; nothing changes. |
| RunRegistry.Registry.CloseAbandonedRuns | crates/runtime/src/open_runs.rs:184-223 | Closes, in survey order, the open rows that read `Abandoned` and no others, removes their records and no others; as many runs are left running as open rows read `Held`, as many left unjudged as read `NoRecord`, and the closed and the failed together are those that read `Abandoned`; the pass is one legal sequence of prober and repair steps, and every owner it writes off is gone or in its window, and gone if it locked at once; a dry run changes nothing. |
| RunRegistry.Registry.ListOpenPipelineRuns | crates/catalog/src/pipeline_runs.rs:199-212 | The open rows, none started earlier than one listed after it. |
| RunRepair.PassIsOnePath | crates/runtime/src/open_runs.rs:184-223 | From any protocol state with these rows and this disk, probing every open run and then closing those found abandoned is one legal sequence of prober and repair steps that leads to the rows and the disk of the pass. |
| RunRepair.ClosedOwnersAreGone | crates/runtime/src/open_runs.rs:184-196 | In every history that leads to the disk a survey reads, the owner of a run found abandoned is gone or in its window, and gone if the run locked at once. |
| RunTable.SurveyJudges | crates/runtime/src/open_runs.rs:101-137 | A survey lists as many runs as there are open rows and judges each by its own record, unreadable ones included. |
| RunTable.SurveyCounts | crates/runtime/src/open_runs.rs:62-86 | The runs a survey gives a verdict are as many as the open rows whose record reads so. |
| RunTable.OpenRunsComeNewestFirst | crates/catalog/src/pipeline_runs.rs:199-212 | The open rows are listed newest first, by year, month, day, hour, minute and second read as numbers. |
| RunTable.VerdictsAddUp | crates/runtime/src/open_runs.rs:62-86 | Every surveyed run is counted under exactly one verdict. |
| RunTable.NothingLeftToClose | crates/runtime/src/open_runs.rs:184-223 | After a pass that closed every abandoned run, a second pass finds none, even if records could not be removed. |
| RunTable.OthersReadAsBefore | crates/catalog/src/run_lock.rs:211-217 | A pass changes no other run's reading. |
| Decimal.ParseOfPrint | crates/catalog/src/csl.rs:272-300 | Every 32-bit integer survives printing and parsing. |
| Decimal.ParseOfPadded | crates/catalog/src/csl.rs:300-303 | A zero-padded number parses back if it is not negative, and starts with its sign otherwise. |
| Decimal.PrintIsCanonical | crates/catalog/src/csl.rs:298-303 | A number is printed with a minus sign exactly when it is negative, and without leading zeros. |
| Decimal.PaddedIsAsWide | crates/catalog/src/csl.rs:300-303 | Padding fills up to the width and no further. |
| Text.SplitHead | crates/catalog/src/csl.rs:318-327 | Splitting gives what stands before the first separator, then the pieces of the rest. |
| Csl.SplitIntoCatalog | crates/catalog/src/csl.rs:187-242 | The field assignments and nested loops produce the row and the contributors the round trip is proved about. |
| CslRoundTrip.SplitOfIsoDate | crates/catalog/src/csl.rs:294-327 | A written calendar date parses back exactly when none of its parts is negative. |
| CslRoundTrip.NamesThroughTheTable | crates/catalog/src/csl.rs:219-261 | Names come back in order and normalised, whatever order and ids the table gives their rows. |
| CslSearch.StoredAsShown | crates/catalog/src/csl.rs:263-269 | A contributor is stored under the given name, a space and the family name when it has both, and under its one part otherwise. |
| CslSearch.SearchFindsTheCredited | crates/catalog/src/intake.rs:417-422 | Searching the catalog for a contributor and role finds a stored item exactly when the item has a name of that role that shows as the text searched for. |
| CslSearch.FieldsAreEffective | crates/catalog/src/csl.rs:187-218 | Without overrides, the effective values of a stored item's node are the item's own fields, each under its name, and its year. |
| CslRoundTrip.ContributorsNeverCollide | crates/catalog/src/csl.rs:219-240 | No two rows of one item share role and ordinal, so the table's natural key refuses none. |
| CslRoundTrip.RoundTripNormalises | crates/catalog/src/csl.rs:140-332 | For every item, row order and faithful codec, the way through the catalog and back computes the item's normal form. |
| CslRoundTrip.RoundTripIsIdentityIffCanonical | crates/catalog/src/csl.rs:140-332 | The round trip is the identity if and only if the item is canonical. |
| CslRoundTrip.SecondRoundTripChangesNothing | crates/catalog/src/csl.rs:140-332 | A second round trip changes nothing. |
| CslRoundTrip.ReadItemsAreFixedIffTheArxivIdIsBare | crates/catalog/src/csl.rs:140-185 | An item read from any rows is a fixed point if and only if its arXiv id is absent, or non-empty without leading whitespace. |
| Grouping.TallyConserves | crates/catalog/src/pipeline_run_summary.rs:269-306 | The counts of any grouping that covers the keys once each add up to the rows. |
| RunSummary.AuditTables.UpsertNodePaperAudit | crates/catalog/src/node_paper_audit.rs:324-357 | One row per address, wholly overwritten on conflict, its place kept; one judgement in the tables' history. |
| RunSummary.AuditTables.RemovePaperAudits | crates/catalog/src/cascade.rs:142-191 | Deletes the audit rows of one item in every scope and no others, and returns how many; one removal in the history. |
| RunSummary.AuditTables.InsertDistillAudit | crates/catalog/src/book_distill_audit.rs:323-368 | One transaction, one build in the history: a header under a fresh key and its stages in order; nothing at all when the gate status is not allowed or two stages share a place. |
| RunSummary.AuditTables.RunProfileBuckets | crates/catalog/src/pipeline_run_summary.rs:269-306 | The buckets are those whose sums and order are proved, papers before books. |
| RunSummary.AuditTables.ComputeRunSummary | crates/catalog/src/pipeline_run_summary.rs:315-446 | The stored and the returned rollup are the same, taken from one state; other runs' rollups and the audit rows stay; one close in the history; a run without a registry row is refused. |
| RunSummary.FlagCountsMean | crates/catalog/src/pipeline_run_summary.rs:345-367 | A flag column is listed exactly when some paper carries the flag, with the column's total, which is at most the papers when flags are 0/1. |
| RollupMeaning.RowsAreCounted | crates/catalog/src/pipeline_run_summary.rs:371-404 | The papers, books and failed gates of a rollup are the run's rows of each kind, counted on the tables. |
| RollupMeaning.VerdictsAreCounted | crates/catalog/src/pipeline_run_summary.rs:325-343 | A verdict's count is the run's papers with that verdict, and a verdict not listed has none. |
| RollupMeaning.FlagsAreCounted | crates/catalog/src/pipeline_run_summary.rs:345-367 | With 0/1 flags, a flag's count is the run's papers that carry it. |
| RollupMeaning.BucketsAreCounted | crates/catalog/src/pipeline_run_summary.rs:269-306 | A bucket counts the run's papers with its fingerprint and profile name, or its books with its fingerprint, an empty reference standing for none. |
| RollupMeaning.EmptyRollup | crates/catalog/src/pipeline_run_summary.rs:371-404 | A run nothing was built in has zero totals. |
| RunSummary.VerdictsAddUp | crates/catalog/src/pipeline_run_summary.rs:331-344 | However the verdicts are listed, their counts add up to the papers of the run. |
| RunSummary.BucketsAddUp | crates/catalog/src/pipeline_run_summary.rs:269-306 | Paper buckets add up to the run's papers and book buckets to its books. |
| RunSummary.BucketsComeByCount | crates/catalog/src/pipeline_run_summary.rs:269-306 | Paper buckets come before book buckets; within a kind they come by descending count, and ties without a fingerprint first and then by fingerprint. |
| RunSummary.RollupBalances | crates/catalog/src/pipeline_run_summary.rs:315-446 | Verdicts, flags, both kinds of buckets and gate failures of one rollup balance against its totals. |
| AuditHistory.LiveCountsAddUp | crates/catalog/src/pipeline_run_summary.rs:259-306 | After any history, live counts over all runs and over no run add up to the audit rows, and there is one paper row for each paper judged and not removed since. |
| AuditHistory.OneRowPerBookIffBuiltOnce | crates/catalog/src/pipeline_run_summary.rs:259-263 | After any history, no two book rows share a slug if and only if no slug was built twice. |
| AuditHistory.TwoBuildsLeaveTwoRows | crates/catalog/src/book_distill_audit.rs:323-368 | Building one book twice leaves two rows for it. |
| AuditHistory.JudgementMovesOneUnit | crates/catalog/src/node_paper_audit.rs:280-357 | Under any grouping, a judgement takes one unit out of the old row's group, if there was one, and puts one into the new row's. |
| AuditHistory.BuildAddsItsFigures | crates/catalog/src/pipeline_run_summary.rs:371-404 | One more build adds its own figures to its run's totals, and to no other run's. |
| AuditHistory.CloseTakesTheSnapshot | crates/catalog/src/pipeline_run_summary.rs:307-446 | At a close the stored totals are the live counts, and no other rollup changes. |
| AuditHistory.SnapshotStandsLiveDrifts | crates/catalog/src/pipeline_run_summary.rs:33-38 | Until the run is closed again its rollup stands, and the live counts differ from it by exactly the papers gained less those lost to other runs or removed, and the books built. |
| Reviews.ReviewTable.UpsertReview | crates/catalog/src/node_reviews.rs:211-223 | Performs the verdict write on the row, keeping the note when none is given. |
| Reviews.ReviewTable.RecordPipelineReview | crates/catalog/src/node_reviews.rs:241-262 | Performs the pipeline write and returns the status then stored. |
| Reviews.ReviewTable.UpdateReviewNotes | crates/catalog/src/node_reviews.rs:275-285 | Performs the notes refresh, opens no row, and says whether there was one. |
| Reviews.HistoryDecides | crates/catalog/src/node_reviews.rs:102-132 | Over every sequence of the three writes, the stored row is the one read off the last verdict, the last opening and the last note of the history. |
| Reviews.VerdictStandsUntilTheNext | crates/catalog/src/node_reviews.rs:225-262 | Once a verdict other than pending is written, nothing but the next verdict write changes status, reviewer or time. |
| Reviews.OnlyVerdictWritesDecide | crates/catalog/src/node_reviews.rs:225-262 | A status other than pending was written by a verdict write. |
| Reviews.VerdictKeepsTheNote | crates/catalog/src/node_reviews.rs:102-109 | A verdict write without a note keeps the stored one; with one, it replaces it. |
| Reviews.AddressesAreIndependent | crates/catalog/src/node_reviews.rs:102-132 | A row depends on the writes at its own address alone. |
| ExampleText.SplitExample | crates/cli-grammar/src/help_gate.rs:483-513 | The loop over token, quoted and started computes the tokens the results below are about. |
| ExampleText.FailsIffQuotesAreOdd | crates/cli-grammar/src/help_gate.rs:483-513 | Splitting fails if and only if the number of quotes is odd. |
| ExampleText.RenderThenSplit | crates/cli-grammar/src/help_gate.rs:478-513 | Words of any stretches, bare or quoted, rendered with any whitespace between them, split back into their tokens: `--title="Sample Title"` is one. |
| ExampleText.SplitMeans | crates/cli-grammar/src/help_gate.rs:478-513 | On every line: a split that succeeds gives the tokens of the words the line is a rendering of. |
| ExampleText.FindQuotedValues | crates/cli-grammar/src/help_gate.rs:466-476 | The find loop yields exactly the spans between paired quotes, in order. |
| ExampleText.HalfTheQuotes | crates/cli-grammar/src/help_gate.rs:466-476 | There are half as many values as quotes, and no value holds one. |
| HelpGate.AuditTree | crates/cli-grammar/src/help_gate.rs:238-290 | The recursive walk pushes exactly the reports whose emptiness is characterised below. |
| HelpGate.ExamplesInTree | crates/cli-grammar/src/help_gate.rs:443-464 | The second traversal pushes exactly the pairs located below. |
| HelpText.LinesReadBack | crates/cli-grammar/src/help_gate.rs:433-438 | Lines written with either line end, with or without a last end, read back as they are. |
| HelpText.BlockReadsBack | crates/cli-grammar/src/lib.rs:29-32 | The example lines of the block `examples!` writes are its invocations, prefixed, in order. |
| HelpText.WrittenExamplesAreCollected | crates/cli-grammar/src/help_gate.rs:443-464 | What `examples!` writes at a command is what the second traversal collects there: that command's path with each invocation as written, in order, in one piece. |
| HelpText.ContainsIff | crates/cli-grammar/src/help_gate.rs:318-333 | A part is found exactly when it stands at some place of the text. |
| HelpText.PathsAreTheNames | crates/cli-grammar/src/help_gate.rs:449-455 | A command's path, split at spaces, is the names on the way to it. |
| HelpGate.UnclaimedDebt | crates/cli-grammar/src/help_gate.rs:571-596 | Reports exactly the debt entries that no leaf answers to. |
| HelpGate.NeighboursSuffice | crates/cli-grammar/src/help_gate.rs:547-552 | A list passes the neighbour check if and only if it ascends strictly throughout. |
| GateMeaning.NodeAudited | crates/cli-grammar/src/help_gate.rs:267-427 | A command's audit is empty exactly when its summary, flags, trailer and examples keep the rules. |
| GateMeaning.WalkFindsEverything | crates/cli-grammar/src/help_gate.rs:267-290 | The walk is silent exactly when every command deep enough, at every address of the tree, is in order. |
| GateMeaning.SilentIffClean | crates/cli-grammar/src/help_gate.rs:238-290 | For both scopes, the whole audit is empty if and only if the root and every command keep every rule. |
| GateMeaning.CollectedHasHome | crates/cli-grammar/src/help_gate.rs:443-464 | Every collected example belongs to a command of the tree. |
| GateMeaning.EveryExampleIsCollected | crates/cli-grammar/src/help_gate.rs:443-464 | Every example of every command is collected. |
| GateMeaning.SilentMeansCleanExamples | crates/cli-grammar/src/help_gate.rs:369-427 | If the whole-binary audit is empty, every collected example comes from a leaf that owes none, opens with that leaf's path, fits its line and quotes only values of the table. |
| GateMeaning.SilentMeansEnoughExamples | crates/cli-grammar/src/help_gate.rs:369-393 | Then every leaf off the debt list has its examples, and every leaf on it has none. |
| GateMeaning.ClaimedDebtIsReal | crates/cli-grammar/src/help_gate.rs:568-596 | Then every claimed debt entry names a leaf of the tree, and that leaf has no examples. |
| Canonical.SortedJson | crates/audit-profile/src/fingerprint.rs:133-153 | The sort-and-insert recursion over TOML computes the canonical form of its JSON projection. |
| Canonical.SortJson | crates/audit-profile/src/fingerprint.rs:157-173 | The sort-and-insert recursion over JSON computes the canonical form. |
| Fingerprint.CanonicalIffSame | crates/audit-profile/src/fingerprint.rs:157-173 | Two JSON values have one canonical form if and only if they are the same up to key order at every depth. |
| Fingerprint.KeyOrderDoesNotMatter | crates/audit-profile/src/fingerprint.rs:47-57 | Sources that differ only in key order, at any depth, have one projection. |
| Fingerprint.PlainValuesAreToldApart | crates/audit-profile/src/fingerprint.rs:133-153 | With finite floats and no datetimes, one projection means one value up to key order, and conversely. |
| Fingerprint.JsonReadsBack | crates/audit-profile/src/fingerprint.rs:133-153 | A plain value is read back from its JSON as it was, every kind as that kind. |
| Fingerprint.OthersMayCollide | crates/audit-profile/src/fingerprint.rs:135-139 | A datetime and a string, and two non-finite floats, that share a projection. |
| Fingerprint.PartsMatchByPosition | crates/audit-profile/src/fingerprint.rs:59-71 | Several sources share a projection if and only if they match one by one in their positions. |
| Fingerprint.CanonicalFormIsSorted | crates/audit-profile/src/fingerprint.rs:155-173 | The canonical form lists keys in strictly ascending order at every depth. |
| Fingerprint.CanonicalisingTwiceIsOnce | crates/audit-profile/src/fingerprint.rs:155-173 | Canonicalising is idempotent. |
| Fingerprint.ProfilesAreComparedWithoutName | crates/audit-profile/src/fingerprint.rs:80-96 | Profiles share a projection if and only if they agree up to key order and top-level name. |
| Toggles.CollectBoolLeaves | crates/audit-profile/src/fingerprint.rs:178-193 | The recursion pushes the boolean leaves under their dotted names. |
| Toggles.TogglesAreTheBooleans | crates/audit-profile/src/fingerprint.rs:178-193 | The toggles of a profile are its booleans, each with its value and named by the keys on the way to it. |
| Toggles.SummaryIgnoresKeyOrder | crates/audit-profile/src/fingerprint.rs:108-130 | Profiles that agree up to key order have the same toggle summary. |
| Backups.Directory.PruneOldBackups | crates/catalog/src/db.rs:372-392 | Leaves exactly the greatest names of the cluster, as many as are kept, and everything outside it; a file of the excess that cannot be removed ends the pass with the lesser ones gone and no other. |
| Backups.Directory.BackupCatalog | crates/catalog/src/db.rs:356-370 | Adds one snapshot and prunes its cluster, or fails on an existing name and changes nothing; if the pruning fails the snapshot has been added all the same. |
| Instants.InstantsOrderLikeTime | crates/catalog/src/pipeline_runs.rs:206-207 | The order of Zulu instants as text is the order of time: year, month, day, hour, minute and second as numbers. |
| Sorting.StringLessIff | crates/catalog/src/db.rs:386 | One string is less than another exactly if, at the first place where they differ, it ends or has the lesser character. |
| Backups.NamesOrderLikeInstants | crates/catalog/src/db.rs:372-375 | Snapshots of one stem taken at different instants are named in the order of time, whatever the versions. |
| Backups.PruningKeepsTheLatest | crates/catalog/src/db.rs:372-392 | No snapshot that a pruning removes was taken after one that it keeps. |
| Backups.NewSnapshotSurvives | crates/catalog/src/db.rs:356-392 | A snapshot taken after every other of its cluster survives its own pruning. |
| Backups.ClustersOverlapIff | crates/catalog/src/db.rs:356-361 | Some name is in the clusters of two stems if and only if one stem, with its dash, leads the other. |
| Backups.ExtendedStemsAreNotApart | crates/catalog/src/db.rs:376-385 | The snapshots of a stem that extends another after a dash are in the other's cluster. |

## Left out

* SQL text: fragments are syntax trees, not strings, so rendering and SQLite's parser are trusted; so are its affinity rules, its limit on pattern length, and text with NUL characters in LIKE.
* The columns of `intake` no filter reads, `register_intake` and the row setters, and the other tables of the catalog: single-query facts.
* The debug-only bounds on IN lists, and the 32-bit widths of `limit` and `offset`; a page is taken for every natural number.
* Concurrent writers between the statements of one call: `find_intakes_page` and `compute_run_summary` are proved on one state. The first runs in one read transaction; the second does not, and its figures can disagree if a writer gets in between.
- Csl.SplitIntoCatalog: `other` is any type with a codec that reads back what it writes; serde's own limits on nesting and numbers are not modelled.
- CslRoundTrip.RoundTripNormalises: the contributor rows are the item's own; rows of other origins at the same address, which `from_catalog` would mix in, are not part of the round trip.
- RunSummary.AuditTables.RunProfileBuckets: buckets that tie on count and fingerprint come in one fixed order; SQLite leaves that order open.
- RunSummary.AuditTables.ComputeRunSummary: wall-clock time is taken from the registry as given, without the julian-day arithmetic; the JSON columns are maps, not text; flag columns are any list of distinct names.
- RunSummary.AuditTables.RemovePaperAudits: of the tables a removal cascades through, only this one.
- RunRegistry.Registry.CloseAbandonedRuns: one catalog of the two a survey covers, and one that opens and lists; a catalog that does not is reported and its rows are missing. The two catalogs share a lock directory, which the protocol's single directory covers.
- RunRegistry.Registry.Survey: the directory is as one state for the whole pass; what steps of other parties in between can do to a reading is in `RunHistories`.
* SHA-256, JSON text and TOML parsing: a fingerprint is the digest of a projection's text, and the results are about the projection. Integers are unbounded where the source has 64 bits and only stores them.
* The two backends of serde's map: members are kept in insertion order; a sorted backend would agree, since the projection inserts keys in order.
* `from_connection`'s check and migration steps, `migrate.rs`, and the overlay loaders: a fixed order of steps and field-by-field assignment.
* The violation messages, the parse check of examples in `crates/cli`, and the policy lists that nothing here consults (`PARSE_EXEMPT`).
