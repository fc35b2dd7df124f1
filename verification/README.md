# Memcove verification model

Memcove keeps tabular datasets for agents in two stores that are never updated together: a table
catalog, which holds the data, and a registry, which holds metadata (rows, tags, lineage, and the
counters of the reconciler). Queries go through a guard that rewrites table names before a shared
engine runs them. This project models that core in Dafny and proves what it promises.

- **Self-healing.** `Registry.dfy` and `Catalog.dfy` are the two stores, with transactions and commits
  that can fail. `Reconciler.dfy` plans a sweep of one namespace and carries the plan out as a queue of
  store calls; `ReconcileSweep.dfy` is the sweep over all namespaces. `Healing.dfy` puts it into a
  transition system in which client operations (write, forget, describe) are cut at every point where a
  crash can leave them and interleave with every single call of the sweeper. `HealingRuns.dfy` holds the
  theorems over whole runs: grace period, bounded deletion, containment, visibility.
  `Convergence.dfy` decides when sweeps of a quiet namespace settle, how fast, and when never;
  `QuietRuns.dfy` carries that over to any stretch of a run in which only the sweeper acts.
  `Objects.dfy` has describe, ingest and forget.
- **SQL guard.** `SqlAst.dfy` is the syntax tree; `SqlGuard.dfy` the guard, which rewrites parser nodes in
  place; `SqlEngine.dfy` gives queries a meaning, in any compositional engine and in one concrete engine
  (joins, correlated subqueries, set operations, ordering, limits, three-valued logic).
  `SqlMeaning.dfy` compares the rewritten query on the global catalog with the user's query on the
  tenant's own view; `SqlColumns.dfy` adds what happens to qualified columns and says exactly when the
  answers agree; `SqlExamples.dfy` has queries for which they do not. `Derive.dfy` is the derive tool and
  the lineage it records, `Preview.dfy` the capped preview, `QueryTool.dfy` guard, cap and engine together.
- **Data movement.** `FlightPut.dfy` is the buffered upload, `Export.dfy` the batched JSON export,
  `SqlText.dfy`, `ScratchSelect.dfy` and `ScratchNames.dfy` print a table as a SELECT and read it back, `UploadHandle.dfy` has
  tenant names and staging keys.

Each imperative part of the source is a method over mutable state, proved against a function on values;
the laws are lemmas about that function.

Conventions. A table is known by its full name, catalog and schema included, however the query spelled it,
and a column qualifier means every relation whose full name ends in it. A store that is unreachable is a
field of the store (`failAfter`, `commitsLeft`): the number of statements or commits that still succeed. Clock values are parameters. `Sweeper` listings are arbitrary
sets, so the run theorems hold whatever the catalog lists. The cap ratio is taken to be non-negative in
`Convergence`.

Where the code is narrower than its prose:

- The names of CTEs are collected without their scope (`sql_guard.py:60-67`). A name that a WITH binds
  somewhere and that is also used outside it stays bare and fails in the engine, although the tenant may have
  such a table (`SqlExamples.OutOfScopeWitness`).
- Only table names are rewritten, not column qualifiers (`sql_guard.py:121-169`). A scratch table is known under
  the alias before the rewrite and under its real catalog and schema after it. A column written
  `scratch.adults.id` therefore fails in the engine (`SqlExamples.LostColumnWitness`), a column qualified with the
  schema the scratch table really is in can now find it (`SqlExamples.GainedColumnWitness`), and such a table in an
  inner query can capture a column of an outer one (`SqlExamples.CapturedRowsWitness`).
  `SqlColumns.RewriteMeaning` says what the rewritten statement answers for every accepted query, and exactly when
  that is what the user's view answers. What counts is where a column stands: only tables in its sight, not under
  an alias or in a subquery, can be meant by it. The one family left undecided against the user's own view is
  `SqlColumns.Undecided`: every changed qualifier means some tables in its sight before and other tables in its
  sight after, so which column it finds depends on what columns and rows the tables have.
- A listed table without a row whose tombstone is pending is backfilled by one sweep and its tombstone
  cleared only by the next (`reconciler.py:80-82`), so convergence takes two sweeps even without a grace
  period (`Convergence.OneSweepIsNotEnough`).
- A LIMIT above the preview cap, or one that is not a number, is cut to the cap itself, so truncation is not
  reported (`sql_guard.py:195-202`): the flag is never set for a statement with a LIMIT of its own (`Preview.RunQuery`).
- Column names of a scratch table are printed between quotes without doubling (`ingest.py:48`), and cells are taken
  from a dictionary by column name (`ingest.py:56-58`), so that of columns with one name only the last is printed
  (`ScratchNames.RepeatedNameWitness`). `ScratchNames.ScratchRoundTripExactly` says exactly which tables survive.
- Schemas are compared as printed types, which contain the names of list items (`catalog.py:39-42`), while the
  storage format gives every list item its own name. A table with a list column reads back under that name, so a
  rewrite in the schema it was made in is refused unless the item is called so (`Catalog.RewriteAccepted`), and an
  upload that makes such a table fails at its second chunk (`FlightPut.DoPut`).

## Model

| member | source | states |
|---|---|---|
| HealingRuns.GraceOverRuns | src/memcove/reconciler.py:72-140 | Over every run, with arbitrary listings, client steps, failures and crashes: a row the sweeper deleted was seen registered but unlisted in at least max(1, min_absent_sweeps) different sweeps, and no completed visit among or between them saw it registered and listed |
| HealingRuns.DeletionIsBounded | src/memcove/reconciler.py:84-140 | In every visit of every run: deletions within the cap, none on an empty listing, only rows absent from the listing whose table was also missing at the live re-check |
| HealingRuns.TotalDeletionIsBounded | src/memcove/reconciler.py:90-94 | The per-visit bounds add up: deletions of a tenant over a run never exceed the sum of the caps of its visits |
| HealingRuns.SweeperStepIsContained | src/memcove/reconciler.py:120-140 | A sweeper step changes the registry for its own tenant only, never the catalog, and every row it removes is recorded as deleted and was unlisted |
| HealingRuns.NoNamespaceIsStarved | src/memcove/reconciler.py:161-176 | When a sweep ends, every namespace it started with has been visited in that sweep, however many failed |
| HealingRuns.CompletedVisitRegistersWhatItListed | src/memcove/reconciler.py:74-75 | After a completed visit every listed table has a row, unless a client's forget removed it during the visit |
| HealingRuns.DescribeRestoresVisibility | src/memcove/tools/objects.py:35-66 | From any reachable state one undisturbed describe gives a live table its row and changes no other object |
| HealingRuns.StreakWitness | src/memcove/core/registry.py:284-301 | The counter bound is witnessed by a stretch of visits: as many absences as counted, none of them seen back |
| HealingRuns.SeenIsSound | src/memcove/reconciler.py:161-176 | Visits of one tenant carry strictly increasing sweep numbers and each respects its plan |
| Healing.InvHolds | src/memcove/reconciler.py:120-140 | The protocol invariant (consistent registry, counters never above observed absences, queued calls allowed by the plan, listed tables registered or about to be) holds in every world of every run |
| Healing.NextCallKeepsInv | src/memcove/reconciler.py:127-140 | Every single store call of the sweeper keeps the invariant |
| Healing.ClientStepKeepsInv | src/memcove/core/registry.py:156-213 | Every client step (data write, guarded registry write, loss, drop, row delete, read-repair) keeps the invariant |
| Healing.MakePlanKeepsInv | src/memcove/reconciler.py:72-108 | A plan made from the snapshot only deletes rows whose observed absences reach the grace period, and queues a clear for every row seen back |
| Healing.FinishVisitKeepsInv | src/memcove/reconciler.py:164-173 | A completed visit keeps the protocol invariant and leaves no tombstone on a row it saw back |
| Healing.AbandonedVisitKeepsInv | src/memcove/reconciler.py:174-176 | A visit that fails or dies at any call leaves the counters sound |
| Convergence.Convergence | src/memcove/reconciler.py:72-140 | A quiet namespace ever settles (rows equal tables, no tombstones) if and only if the listing is believed and the absent rows are within the cap of rows and tables together; then it is settled from sweep max(2, min_absent_sweeps) + 1 on |
| Convergence.SettlesExactly | src/memcove/reconciler.py:84-108 | The same condition in numbers: for a non-negative ratio, from sweep max(2, min_absent_sweeps) + 1 on the namespace is settled if and only if nothing is registered or something is listed, and the unlisted rows are at most cap_min or at most the ratio of rows and tables together |
| Convergence.SweepInWords | src/memcove/reconciler.py:72-140 | What one sweep of a quiet namespace leaves of each label: its row and its counter, by the listing, the row, the counter and the two guards |
| Convergence.NoLaterSweepIsCapped | src/memcove/reconciler.py:90-94 | Once a sweep is neither skipped nor capped no later one is |
| Convergence.SweepingSettles | src/memcove/reconciler.py:96-108 | From such a sweep, max(2, min_absent_sweeps) sweeps settle the namespace for good |
| Convergence.SweepsCount | src/memcove/reconciler.py:98-102 | The progress measure: after n sweeps every absent row left has been counted n times, and tombstones belong to absent rows only |
| Convergence.TwiceCappedIsStuck | src/memcove/reconciler.py:93-94 | Two consecutive capped sweeps mean every later one is capped |
| Convergence.NeverSettles | src/memcove/reconciler.py:84-94 | A namespace that fails the condition never has its rows equal its tables |
| Convergence.SettledPlanIsEmpty | src/memcove/reconciler.py:72-108 | A settled namespace plans nothing, unskipped and uncapped |
| Convergence.OneSweepIsNotEnough | src/memcove/reconciler.py:76-82 | A pending tombstone on a listed table without a row outlives the first sweep, so two sweeps are needed |
| Convergence.CarriedOutPlanIsSweep | src/memcove/reconciler.py:120-140 | The store calls of a plan, carried out on a quiet catalog, add up to one abstract sweep of the namespace |
| Convergence.PlanCarriedOut | src/memcove/reconciler.py:120-140 | Carrying out any plan with no step in between, label by label: backfilled rows are there, planned rows whose table is missing are gone, planned rows whose table is there stay, counters go up or are cleared as planned, and nothing else changes |
| QuietRuns.QuietRunSettles | src/memcove/reconciler.py:157-176 | In any stretch of a run in which only the sweeper acts and a tenant is listed truly and its visits complete, n completed visits take its namespace where n sweeps do; from visit max(2, min_absent_sweeps) + 1 on it is settled if and only if it ever settles |
| QuietRuns.StepStaysOnCourse | src/memcove/reconciler.py:127-140 | Every single step of the sweeper, on this namespace or another, keeps the registry on course for that |
| Reconciler.PlanNamespace | src/memcove/reconciler.py:59-108 | The planner lists, without repetition, each label exactly where it belongs (backfill: listed without a row; delete: row unlisted and counted often enough; bump: row unlisted and not yet; clear: counted and back, or counted and gone on both sides), skips exactly an empty listing over rows, and caps exactly when the unlisted rows exceed both cap_min and the ratio of the rows |
| Reconciler.PlanInWords | src/memcove/reconciler.py:59-108 | The same for any plan of a namespace: its lists label by label and its flags, in terms of the listing, the rows, the counters and the parameters alone |
| Reconciler.DeletionIsTimid | src/memcove/reconciler.py:84-102 | Whatever was listed, planned deletions are absent rows within the cap and none on an empty listing |
| Reconciler.ApplyPlan | src/memcove/reconciler.py:120-140 | The loops stop only at points of the call queue, finish it when no call fails, and report exactly the planned rows whose table was missing at the re-check |
| ReconcileSweep.Reconcile | src/memcove/reconciler.py:157-185 | Whatever fails in the turns of whichever namespaces: every namespace that did not fail gets exactly its own sweep and is reported as skipped, capped and deleted from exactly as it was; only namespaces in whose turn something failed are reported as errored; every deletion reported is of a row that was registered, in a tenant whose listing did not fail, and whose table is missing; rows that stay keep all their metadata, and rows that come are bare stubs of existing tables; tenants not listed are untouched |
| ReconcileSweep.SweepNamespace | src/memcove/reconciler.py:164-173 | One namespace is swept as planned, its deletions are the due rows whose table is missing, rows that stay keep row, tags and lineage, new rows are stubs of listed tables, and no other tenant changes, even if a call fails half-way |
| ReconcileSweep.CallsStayInTenant | src/memcove/reconciler.py:127-140 | However far a plan got, the registry stays consistent and no other tenant's entries change |
| ReconcileSweep.CallsKeepMetadata | src/memcove/reconciler.py:120-140 | However far a plan got, a row it did not delete has the row, tags and lineage it had, and a row it added is a reconciled stub without tags and parents |
| Objects.DescribeObject | src/memcove/tools/objects.py:35-85 | With both stores reachable describe succeeds exactly when the table exists, leaves it registered, writes an untagged reconciled stub only where no row was, and never changes an existing row |
| Objects.IngestObject | src/memcove/tools/ingest.py:147-183 | Data before metadata: stored in both, pending with data kept, refused with both stores unchanged, or a data failure with the registry unchanged and at most the new empty table made |
| Objects.DropObject | src/memcove/tools/objects.py:171-175 | The table goes first; the row goes with it, or is left behind alone when the registry fails |
| Registry.RunsKeepTheRegistryConsistent | src/memcove/core/registry.py:82-213 | Over any run of writes, deletes, rolled back writes and tombstone changes: tags and lineage hang off existing rows, no row is its own parent, and row, tags and parents are those of the last surviving writes, member by member, with creation time of the first |
| Registry.RunsCountAbsences | src/memcove/core/registry.py:281-311 | Over any such run a counter is the number of bumps since it was last cleared, and no other write touches it |
| Registry.Store.RecordObjectGuarded | src/memcove/core/registry.py:156-201 | Row, tags and given lineage commit together or nothing changes; a failure is swallowed exactly when the registry is unreachable |
| Registry.Store.ReplaceTags | src/memcove/core/registry.py:82-89 | The tags become the given ones without repetition, and no insert breaks the primary key |
| Registry.Store.SetLineage | src/memcove/core/registry.py:123-132 | The parents become the given ones without the child itself |
| Registry.Store.RecordObject | src/memcove/core/registry.py:135-147 | An unguarded write is all or nothing |
| Registry.Store.DeleteObject | src/memcove/core/registry.py:204-213 | Row, tags and lineage go together or not at all; the tombstone stays |
| Registry.Store.BumpTombstone | src/memcove/core/registry_backends.py:114-119 | A missing counter becomes one, an existing one goes up by one |
| Registry.Store.ClearTombstone | src/memcove/core/registry.py:303-311 | Only the counter of that label goes |
| Registry.Store.GetObject | src/memcove/core/registry.py:219-227 | The row and exactly its own tags in order, if there is one |
| Registry.Store.ListObjects | src/memcove/core/registry.py:230-258 | Exactly the tenant's rows carrying at least one requested tag (all rows when none is requested), each once, newest first, each with exactly its own tags, sorted, although they were gathered in one pass |
| Registry.GroupByLabel | src/memcove/core/registry.py:253-257 | Grouping the tag rows gives every label its tags, each once |
| Registry.SortedListingIsUnique | src/memcove/core/registry.py:92-98 | A set of tags has one sorted list, so the one-pass listing and the single lookup agree |
| Common.TextBeforeInWords | src/memcove/core/registry.py:92-98 | The order of tags is code point order: a proper prefix first, otherwise the first different character decides |
| Catalog.NormAbsorbsStorage | src/memcove/core/catalog.py:22-42 | Type comparison is idempotent, and ignores the storage read-back at every nesting depth if and only if every list item has the stored name |
| Catalog.NormIdentifies | src/memcove/core/catalog.py:22-42 | Two types compare as equal if and only if they are the same up to text, binary and list encoding, time unit and integers of 8, 16 and 32 bits, at every depth; everything else is kept apart |
| Catalog.StoredTypeMap | src/memcove/core/catalog.py:22-77 | A schema is compatible with its own read-back exactly under that condition on its columns (of repeated names the last) |
| Catalog.CompatibleMeansSameColumns | src/memcove/core/catalog.py:45-77 | With distinct names two schemas are compatible exactly when they have the same columns up to order and normalization; nested nullability and list item names count, nullability of a column does not |
| Catalog.CompatibleInWords | src/memcove/core/catalog.py:45-77 | With distinct names a schema is compatible if and only if no column is added, removed or retyped |
| Catalog.SchemaIsStable | src/memcove/core/catalog.py:128-174 | Until a forget, any run of ingests keeps a label's schema, and any run with derives keeps its column names |
| Catalog.ContentsOverRuns | src/memcove/core/catalog.py:147-170 | Over any run of ingests, refused and broken ones included, the schema stays and the rows are those of the last replace that was taken, or the first rows, followed by every append taken since, in order |
| Catalog.RewriteAccepted | src/memcove/core/catalog.py:147-170 | After any run of ingests a rewrite is accepted if and only if it is compatible with the read-back of the schema the table was made in; in that schema itself, if and only if it reads back as it was given |
| Catalog.Store.WriteArrow | src/memcove/core/catalog.py:128-174 | Refused for an unknown mode, an existing table to create, and an incompatible schema (a retyped column among them), each exactly then and without a change; done means the rows replaced or appended under the schema the table had, or a new table as stored; a broken create leaves at most the new empty table |
| Catalog.Store.DropTable | src/memcove/core/catalog.py:120-125 | Only that table goes, and its absence is reported |
| FlightPut.DoPut | src/memcove/data_plane/flight_server.py:105-159 | A completed upload leaves the table of one single write; a refused one raises the error of the single write and changes nothing, or is refused at its second chunk because the table it made reads back differently; one that breaks off after k commits leaves the mode applied to the first k chunks of the cut (or, with k = 0, the table just made), and if the stream failed these are exactly its full chunks; with healthy store and stream it completes if and only if the single write would and no such second chunk comes; commits equal the cut, and buffered rows stay below threshold plus the largest batch |
| FlightPut.RowsOfStream | src/memcove/data_plane/flight_server.py:131-140 | The rows of an upload, built up chunk by chunk: a data chunk adds all its rows after those before it, a chunk without data nothing, and nothing counts after a read error |
| FlightPut.EveryBatchCommits | src/memcove/data_plane/flight_server.py:131-145 | With a threshold of zero or less every non-empty batch is a commit of its own |
| FlightPut.Buffer | src/memcove/data_plane/flight_server.py:131-139 | The loop commits exactly the full chunks of the stream and leaves the rest buffered, below the threshold; it stops early only on a read error, a refusal or a failed commit, with the chunks committed so far in the catalog |
| FlightPut.FullChunksFirst | src/memcove/data_plane/flight_server.py:131-140 | The cut is the chunks that reach the threshold and then what is left, which stays below the threshold after any number of batches |
| FlightPut.Flush | src/memcove/data_plane/flight_server.py:121-129 | The first chunk uses the requested mode, later ones append; a first chunk is refused whatever its rows are, a later one only if the table does not continue, and no refusal changes anything |
| FlightPut.FlushNext | src/memcove/data_plane/flight_server.py:121-139 | The next chunk of the cut is in, or the upload stops with exactly the chunks before it |
| FlightPut.AppendContinuesWrite | src/memcove/core/catalog.py:161-170 | Appending to what a write left is writing all rows at once if the table was there or its schema reads back as given, and is refused otherwise |
| FlightPut.CutKeepsEveryRow | src/memcove/data_plane/flight_server.py:131-140 | The chunks are the stream: nothing lost, repeated or reordered |
| FlightPut.CommitBound | src/memcove/data_plane/flight_server.py:138-140 | At most total / threshold + 1 commits |
| FlightPut.SingleCommit | src/memcove/data_plane/flight_server.py:115-140 | One commit exactly when the rows before the last batch stay below the threshold |
| FlightPut.NoCommit | src/memcove/data_plane/flight_server.py:142-145 | No chunk is committed exactly when no row arrives |
| SqlMeaning.RewritePreservesMeaning | src/memcove/core/sql_guard.py:114-177 | In every compositional engine, when CTE names are used in scope, the rewritten query on the global catalog means what the user's query means on the tenant's view with scratch tables under their real names; without scratch tables that is the user's view |
| SqlColumns.RewriteMeaning | src/memcove/core/sql_guard.py:60-171 | For every accepted query: the answer is that of the view with scratch tables under their real names if and only if CTE names are used in scope or that view rejects the query; it fails when a qualifier is lost or unknown, and the user's view fails when one is gained or unknown; and unless the query is undecided it is the user's own answer if and only if CTE names are used in scope and every qualifier is kept, or both fail |
| SqlColumns.PlacedViewAnswersAlike | src/memcove/core/sql_guard.py:140-145 | While every qualifier means the same tables in its sight before and after, the view answers the same under either name of its scratch tables |
| SqlColumns.LostQualifierBreaksTheQuery | src/memcove/core/sql_guard.py:121-145 | A column qualifier that means no table in its sight after the rewrite fails the whole statement |
| SqlColumns.GainedQualifierFailsBefore | src/memcove/core/sql_guard.py:121-145 | One that means no table in its sight before the rewrite fails the user's own query |
| SqlColumns.AliasQualifierIsLost | src/memcove/core/sql_guard.py:136-145 | With the scratchpad on, every column qualified through the alias of a scratch table in its sight is lost |
| SqlColumns.FoldFollows | src/memcove/core/sql_guard.py:121-171 | Knowing tables by other full names changes no part of a query whose qualifiers cannot tell the names apart, by induction over the tree |
| SqlExamples.OutOfScopeWitness | src/memcove/core/sql_guard.py:126-128 | A query the guard accepts and the tenant's view answers, but whose rewritten form fails |
| SqlExamples.LostColumnWitness | src/memcove/core/sql_guard.py:140-145 | The same for a column qualified through the scratch alias |
| SqlExamples.GainedColumnWitness | src/memcove/core/sql_guard.py:140-145 | A query the view rejects and the engine answers: its column is qualified with the real schema of a scratch table |
| SqlExamples.CapturedRowsWitness | src/memcove/core/sql_guard.py:140-145 | An undecided query that both answer with different rows: an inner scratch table captures a column of the outer own table |
| SqlColumns.OutOfScopeNameBreaksTheQuery | src/memcove/core/trino_client.py:37-49 | A name left bare outside its CTE resolves to nothing and fails the whole query, since the session has no schema |
| SqlMeaning.ResultIndependence | src/memcove/core/sql_guard.py:121-171 | An accepted query gives the same result, or the same failure, on any two catalogs that agree on the tenant's view, in every compositional engine and without a scope condition |
| SqlMeaning.QualifiedNameFindsTheUsersTable | src/memcove/core/sql_guard.py:140-169 | A permitted name is looked up exactly where the user meant it |
| SqlMeaning.VisibleNamesArePermitted | src/memcove/core/sql_guard.py:133-168 | Every named table of the tenant's view outside restricted schemas is permitted |
| SqlMeaning.RenamingPreservesMeaning | src/memcove/core/sql_guard.py:121-171 | Renaming table leaves while changing the database accordingly, tables and full names alike, preserves meaning, by induction over the tree |
| SqlGuard.ValidateSelect | src/memcove/core/sql_guard.py:70-177 | Accepts exactly the single read-only statements whose references are all permitted: no part of an accepted query is a write and every table leaf is one the tenant may read; leaves the tree rewritten in place and reports names in order of first use; each rejection has its reason, in the order of the checks |
| SqlAst.WritesAreFound | src/memcove/core/sql_guard.py:107-112 | A write is found if and only if some part of the tree is one: in a WITH definition, a subquery, anywhere |
| SqlAst.ReadsByTheirTop | src/memcove/core/sql_guard.py:103-106 | A statement is a read if and only if below its WITHs, parentheses, ORDER BY and LIMIT it is a selection or a set operation |
| SqlGuard.AcceptsInWords | src/memcove/core/sql_guard.py:70-177 | Accepted means: a selection or set operation no part of which is a write, and every table leaf is a name some WITH binds, a scratch table, one of the tenant's own or of a shared schema, never of a restricted schema or another catalog |
| SqlGuard.ReasonInWords | src/memcove/core/sql_guard.py:131-168 | Which of the four reasons a refused reference gets, in terms of its name, catalog and schema |
| SqlGuard.MentionedInOrder | src/memcove/core/sql_guard.py:170-171 | The reported names of the first references are a prefix of those of all: names come in the order of first use |
| SqlGuard.QualifyTree | src/memcove/core/sql_guard.py:118-171 | All references of one tree are permitted and the whole tree is rewritten, or the first refused one is reported |
| SqlGuard.QualifyTables | src/memcove/core/sql_guard.py:118-171 | The walk stops at the first refused reference and otherwise requalifies every node |
| SqlGuard.QualifyTable | src/memcove/core/sql_guard.py:122-169 | One node gets the verdict of its reference and the qualifiers that go with it |
| SqlGuard.CollectCteNames | src/memcove/core/sql_guard.py:60-67 | The lower-case names of all CTEs in the tree |
| Common.LowerInWords | src/memcove/core/sql_guard.py:115-125 | Case folding changes capital ASCII letters only, each into its small form |
| Common.TrimInWords | src/memcove/core/sql_guard.py:115 | Trimming takes white space from both ends and leaves none there |
| Derive.LineageOfDerive | src/memcove/tools/derive.py:100-110 | Recorded parents are the existing tenant tables the rewritten statement reads, other than the new one; beyond those only names of shared tables can appear |
| Derive.DeriveObject | src/memcove/tools/derive.py:50-116 | Rejected (for its reason), existing, failing and reshaping derives change nothing, each exactly when it should; otherwise the query reads only what the tenant may, the table is what the engine answers to the rewritten statement, column by column and row by row, engine and catalog still hold the same tables of the tenant, and row, tags and lineage are recorded together or the object is pending |
| Derive.MaterializedShape | src/memcove/tools/derive.py:92-98 | A derived table has the columns of the answer in order, of the types they are stored in, and for each row the record that holds it: under every column name the value of that column (of repeated names the last), and nothing else |
| Derive.MentionedMembers | src/memcove/core/sql_guard.py:170-171 | Referenced labels are exactly the own and shared table names of the query, each once |
| Derive.ScratchMembers | src/memcove/core/sql_guard.py:140-145 | Scratch references are exactly the scratch names of the query, each once |
| Preview.RunQuery | src/memcove/tools/query.py:12-34 | What is shown of a full result of N rows: its columns and its first rows in order, never more than the configured cap, min(N, cap) of them when no limit or 0 is asked for and min(N, limit, cap) otherwise; the flag is set exactly when rows were left out and the statement has no LIMIT of its own |
| QueryTool.RunTenantQuery | src/memcove/tools/query.py:12-34 | Refused exactly when the guard refuses, for its reason; otherwise the query reads only what the tenant may, and the answer is such a preview of what the engine answers to the rewritten statement, and of what the tenant's own view answers to the query as written when CTE names are in scope and every qualifier is kept |
| Preview.WrapPreview | src/memcove/core/sql_guard.py:180-203 | In every database the capped statement answers when the statement does, with the same columns and its first rows: cap + 1 of them if the statement has no LIMIT, cap otherwise; and it never asks for more |
| Preview.TopLimitInWords | src/memcove/core/sql_guard.py:193-202 | The LIMIT that counts is the one at the top of the statement below all its WITHs, of whatever number or none |
| Preview.LimitsMean | src/memcove/core/sql_guard.py:195-202 | Setting the limit of a statement limits its unlimited result, below any WITH |
| Export.StreamBatches | src/memcove/core/trino_client.py:158-171 | The batches are the result in order, all of the batch size but the last, none empty, and the connection is closed |
| Export.StreamJson | src/memcove/tools/artifacts.py:96-109 | For any split into batches the text is the JSON of the whole list and the count its length |
| Export.ExportJson | src/memcove/tools/artifacts.py:44-58 | The streamed export equals the one-shot export for every batch size |
| ScratchNames.ScratchRoundTripExactly | src/memcove/tools/ingest.py:44-59 | For any table of text, integer, boolean and null cells, repeated column names included, the printed SELECT is made and reads back as the table if and only if no column name is empty or has a double quote and repeated names agree: the cell of the last column, put into the type of the earlier one, is the earlier one's cell |
| ScratchNames.SpoiledNameIsLost | src/memcove/tools/ingest.py:47-49 | A statement with an empty column name or one with a quote never reads back under those names |
| ScratchNames.PrintedAsItIs | src/memcove/tools/ingest.py:56-58 | The printed cells are the table's exactly where repeated names agree |
| ScratchNames.RepeatedNameWitness | src/memcove/tools/ingest.py:56-58 | Two columns of one name holding 1 and 2 read back as 2 and 2 |
| ScratchSelect.StatementReadsBack | src/memcove/tools/ingest.py:32-59 | Lexing, parsing and evaluating the printed SELECT gives back the column names and the printed rows in order, also for the zero-row table |
| ScratchSelect.ScratchSelect | src/memcove/tools/ingest.py:44-59 | The row loop builds the printed form, or fails exactly when some value cannot be converted |
| ScratchSelect.LiteralPrintsCoerced | src/memcove/tools/ingest.py:32-41 | A literal prints the cell put into the column's type, which is the cell itself if it has that type |
| ScratchSelect.CoercedInWords | src/memcove/tools/ingest.py:32-41 | The conversions value by value: nulls stay, zero, the empty text and false are false, booleans count as 1 or 0 and read as True or False, integers become their digits |
| ScratchSelect.LiteralLexes | src/memcove/tools/ingest.py:32-41 | A printed cell lexes to its tokens in front of a comma or parenthesis |
| ScratchSelect.LiteralParses | src/memcove/tools/ingest.py:32-41 | Those tokens parse to the cell, whatever follows |
| SqlText.EscapedReadsBack | src/memcove/tools/ingest.py:41 | A text with doubled quotes is read back, however many quotes it has |
| SqlText.UnescapedReadsBack | src/memcove/tools/ingest.py:47-49 | A column name printed without doubling is read back if and only if it has no quote |
| UploadHandle.HandlesPartitionByTenant | src/memcove/tools/ingest.py:131-139 | For any bucket setting a handle minted for one tenant passes another's check exactly when the tenants are equal |
| UploadHandle.HandlesPartitionByNormalizedTenant | src/memcove/tools/ingest.py:207-214 | The same in terms of raw tenant ids |
| UploadHandle.KeysUnderBase | src/memcove/core/storage.py:88-104 | Keys of a tenant are a common base, the tenant and the file, for any sub-path setting |
| UploadHandle.ResolveInWords | src/memcove/core/storage.py:88-104 | For a bucket and for a bucket with a path, however many slashes surround either: that bucket, and the path and the parts joined by single slashes |
| UploadHandle.NormalizeIsIdempotent | src/memcove/core/tenancy.py:31-45 | Normalizing a namespace changes nothing, and namespaces have no slash |
| UploadHandle.NormalizeInWords | src/memcove/core/tenancy.py:31-45 | An id is accepted exactly when it has a letter or digit and is at most 61 characters long (63 when it is marked by t and a non-alphanumeric already); its namespace is then the id character by character, digits, small letters and underscores kept, capitals made small, anything else an underscore, behind t_ unless it is marked |
| UploadHandle.PlainIdsStayApart | src/memcove/core/tenancy.py:31-45 | Ids of small letters, digits and underscores share a namespace if and only if they are the same or one is the other behind t_ |

## Left out

- Parsing and printing of SQL by sqlglot, and the fallback of the preview wrapper when re-parsing fails: the guard starts from a syntax tree.
- The order in which the parser walks table nodes: the guard is proved for every order that meets each node once.
- Recursive CTEs, aggregates, GROUP BY, window functions, outer joins, OFFSET and FETCH FIRST are absent from the concrete engine; the generic theorems hold for any compositional engine that has them.
- Runtime errors of the engine that depend on data: a scalar subquery with several rows yields its first.
- SqlColumns.RewriteMeaning: undecided queries are compared with the view under real names only, because whether their answer is also the user's depends on the tables.
- Derives into the scratchpad, and the list of backfilled tables in the sweep report.
- Case folding and trimming are ASCII only.
- Negative preview limits, and an inline table without columns: the source builds statements the engine rejects.
- Literals for floating point, dates, timestamps and other types in scratch tables, and integer ranges; how Python reads an integer from a text is a parameter.
- Unsigned Arrow integers; names that contain fragments of printed types (`large_`, `timestamp[s`), which the comparison rewrites as well. That the storage format calls list items `element` is taken from the storage library.
- Orderings and collations of the database: ORDER BY on tags is code point order as in Python, and tags differing in case are different.
- The order of planned actions within one list, which the source sorts: the plan is any enumeration.
- The upload's final registry write and its ticket check: the write is the same guarded write as in ingest.
- Metadata written between a sweep's snapshot and its backfill can be overwritten by the stub; only visibility is claimed.
- HMAC tickets, OAuth, hashing of private tenants, the control-plane server, health probes, discovery, audit log and benchmarks.
- Connection pooling and dialects of the registry backends beyond transaction and upsert effects.
- Parquet and CSV writers of the export: their formats belong to the Arrow library.
