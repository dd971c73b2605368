# TestRailSync: the one-level reconcile-and-copy algorithm

`TestRailSync` copies the milestones and suites of a source TestRail project
into a destination project. It handles milestones completely and then suites.
For each kind, `sync` fetches both projects' lists and runs three phases on
them:

1. **Delete orphans.** Every destination record that no source record
   equals gets a delete call and is removed from the in-memory destination
   list.
2. **Match.** Every source record is tagged with `destination_id`, the
   identifier of an equal surviving destination record.
3. **Copy.** Every source record that is still untagged is posted to the
   destination project. The identifier in the answer becomes its tag.

Equality depends on the kind:

- two milestones are equal when name, description and due date agree;
- two suites are equal when name and description agree.

A create call posts exactly those fields.

The model has four modules:

- `Records` (records.dfy) holds:
  - the record and payload datatypes;
  - the two equality predicates, written as the source's chains of early returns;
  - the payload projection of `addMilestone`/`addSuite`.
- `Reconcile` (reconcile.dfy) describes each phase as a function on values:
  - `Survivors`/`Orphans` for the delete phase;
  - `LastMatch`/`Match` for the match phase;
  - `Untagged`/`Copied`/`Recreated` for the copy phase.

  It also holds the lemmas that state what the phases promise, including
  that a second run over an unchanged source is quiet.
- `Transport` (transport.dfy) is the service as the synchroniser sees it, the class `Api`:
  - per-project lists of milestones and suites;
  - the next identifier it hands out;
  - a ghost log of the delete and create calls it received.
- `Sync` (sync.dfy) holds the phases as loops over sequences, each proved against its `Reconcile` function. It also holds the class `TestRailSync`:
  - its four list fields (`sourceMilestones`, `destinationMilestones`, `sourceSuites`, `destinationSuites`) are updated by the phase methods as in the source;
  - each phase method's frame names only the field it changes;
  - `Sync` states in closed form the four resulting lists, the whole sequence of calls and the service's stored lists afterwards. The calls come in the order milestone deletes, milestone creates, suite deletes, suite creates;
  - `SyncTwice` calls `Sync` twice and states that the second call sends nothing and changes nothing.

Three behaviours of the code are worth knowing:

- **The last equal destination record provides the tag.** The match loop has no `break` and overwrites the tag on every hit (TestRailSync.php:116-120).
- **No uniqueness validation.** Sibling records are never checked for being pairwise unequal before syncing.
- **No delete flag.** Orphans are always deleted; `set_delete` plays no part in `TestRailSync.php`.

The service is assumed to hand out every identifier of a kind once: `Transport.Api.Valid` requires that two stored records of one kind with the same identifier are the same record in the same project. `Transport.Api.Add` keeps that invariant by allocating the next identifier, and `Transport.Api.Delete` keeps it because it only removes records. Under this assumption, deleting the orphans by identifier leaves exactly the survivors in the destination project and no other project's list changes.

## Model

| member | source | states |
|---|---|---|
| Records.EqualMilestones | TestRailSync.php:172-184 | two milestones are equal exactly when name, description and due date all agree |
| Records.EqualSuites | TestRailSync.php:193-202 | two suites are equal exactly when name and description agree |
| Records.EqualIffSamePayload | TestRailSync.php:172-202 | `equalMilestones` holds exactly when name, description and due date agree, and `equalSuites` exactly when name and description agree; both are equivalent to the two records having the same create payload |
| Records.EqualIsEquivalence | TestRailSync.php:172-202 | each kind's equality is reflexive, symmetric and transitive |
| Records.EqualMilestonesRefinesSuites | TestRailSync.php:172-202 | milestone equality is suite equality plus an equal due date |
| Records.PayloadOf | TestRailSync.php:211-235 | the posted body has the record's kind and carries its name and description, plus the due date for milestones |
| Records.PayloadIgnoresBookkeeping | TestRailSync.php:213-217 | the payload does not depend on `id`, `destination_id` or any unprojected field, so none of them is sent |
| Records.PostedEqualsSource | TestRailSync.php:228-234 | a record stored from a source record's payload equals that source record under the kind's predicate, whatever identifier it receives |
| Records.Posted | TestRailSync.php:218 | the record the service stores for a create carries the posted fields, the returned identifier and no tag |
| Reconcile.Survivors | TestRailSync.php:70-84 | the delete phase keeps at most the records it was given; its membership is stated by `SurvivorsOrphansMembers` |
| Reconcile.Orphans | TestRailSync.php:92-106 | the delete phase deletes at most the records it was given; its membership is stated by `SurvivorsOrphansMembers` |
| Reconcile.SurvivorsOrphansMembers | TestRailSync.php:70-84 | a destination record is kept exactly when some source record equals it, and deleted exactly when none does |
| Reconcile.SurvivorsOrphansPartition | TestRailSync.php:92-106 | the kept and the deleted records together are the destination list, each record counted once |
| Reconcile.SurvivorsOfConcat | TestRailSync.php:92-106 | the delete phase is a filter: it distributes over concatenation, so survivors keep their contents and relative order |
| Reconcile.NothingOrphaned | TestRailSync.php:70-84 | when every destination record equals some source record, nothing is deleted and the list is unchanged |
| Reconcile.Match | TestRailSync.php:113-137 | the match phase keeps the list's length, changes no field but `destination_id`, and never removes a tag |
| Reconcile.LastMatchNone | TestRailSync.php:115-121 | a source record receives no tag from the match loop exactly when no destination record equals it |
| Reconcile.LastMatchIsLast | TestRailSync.php:130-136 | the tag is the identifier of the last equal destination record in list order |
| Reconcile.MatchTagsExactly | TestRailSync.php:113-137 | matching keeps the length and order, changes only `destination_id`, and a record is tagged afterwards exactly when it was tagged already or some destination record equals it |
| Reconcile.MatchIgnoresOrphans | TestRailSync.php:48-49 | matching against the survivors of the delete phase tags exactly as matching against the whole fetched list would |
| Reconcile.UntaggedExactly | TestRailSync.php:144-149 | the records the copy phase creates are exactly the untagged ones, and none are created exactly when all are tagged |
| Reconcile.Copied | TestRailSync.php:142-150 | the copy phase keeps the list's length |
| Reconcile.CopiedTagsAll | TestRailSync.php:157-162 | after the copy phase every record is tagged, records tagged before are unchanged (no duplicate creation), and nothing but the tag changes |
| Reconcile.CopiedWritesReturnedIds | TestRailSync.php:146-147 | the j-th identifier returned by a create call is written onto the j-th untagged record, whose payload that call posted |
| Reconcile.Recreated | TestRailSync.php:146 | one stored record per create call |
| Reconcile.RecreatedAt | TestRailSync.php:159 | the j-th stored record holds the j-th created record's payload under the j-th returned identifier |
| Reconcile.SecondRunIsQuiet | TestRailSync.php:43-57 | if the service stores the posted fields, a second pass with an unchanged source deletes nothing, keeps the whole destination list and tags every source record, so it creates nothing |
| Reconcile.SelfRunIsQuiet | TestRailSync.php:68-137 | a list reconciled against itself has no orphan, and every record of it gets a tag |
| Reconcile.RerunIsQuiet | TestRailSync.php:43-57 | the run after a run deletes nothing, keeps the whole destination list and creates nothing, also when source and destination are one project |
| Reconcile.ScenarioDeletes | TestRailSync.php:90-107 | source [A, B] against destination [(1, A), (2, C)]: record 2 is deleted and record 1 is kept |
| Reconcile.ScenarioMatchesAndCopies | TestRailSync.php:128-163 | in that scenario A is tagged with 1 and B is the only record created |
| Transport.WithoutId | TestRailSync.php:242-255 | deleting by identifier removes exactly the stored records with that identifier |
| Transport.WithoutIds | TestRailSync.php:242-255 | deleting a set of identifiers removes exactly the stored records that carry one of them |
| Transport.IdsOf | TestRailSync.php:244 | the identifiers the delete calls carry are exactly those of the deleted records |
| Transport.Api.Get | TestRailSync.php:263-277 | fetching returns the project's stored list of that kind, whose records carry no tag and identifiers already handed out |
| Transport.Api.Add | TestRailSync.php:211-235 | a create stores the posted fields under the next identifier, appends the record to that project's list of the payload's kind, and logs the call |
| Transport.Api.Delete | TestRailSync.php:242-255 | a delete removes the records with that identifier from every project's list of that kind and logs the call |
| Sync.FindEqual | TestRailSync.php:71-79 | the inner search loop stops at the first equal source record and reports whether one exists |
| Sync.DeleteRecord | TestRailSync.php:242-255 | `deleteMilestone`/`deleteSuite` send one delete call carrying the record's identifier; every project's list of that kind loses the records with that identifier, and the other kind is untouched |
| Sync.AddRecord | TestRailSync.php:211-235 | `addMilestone`/`addSuite` post the kind's projection to the destination project and return the stored record; it is appended to that project's list, and every other list is unchanged |
| Sync.DeleteOrphans | TestRailSync.php:68-107 | the delete loop leaves exactly the survivors in the destination list, issues one delete call per orphan, carrying its identifier, in list order, and the service's lists of that kind lose exactly the orphans' identifiers |
| Sync.DeletesStayInProject | TestRailSync.php:80-83 | with identifiers unique per kind, deleting the orphans' identifiers leaves exactly the survivors in the destination project and every other project's list unchanged |
| Sync.MatchTags | TestRailSync.php:113-137 | the nested match loops produce exactly `Match` of the source and surviving destination lists |
| Sync.CopyUntagged | TestRailSync.php:142-163 | the copy loop tags the list as `Copied` with the returned identifiers and sends one create call per untagged record in order; the stored records are appended to the destination project, every other project's list is unchanged, and the identifiers are fresh and increasing |
| Sync.TestRailSync.SetSource | TestRailSync.php:25-28 | sets the source project |
| Sync.TestRailSync.SetDestination | TestRailSync.php:35-38 | sets the destination project |
| Sync.TestRailSync.DeleteOrphanedMilestones | TestRailSync.php:68-85 | `destinationMilestones` becomes its survivors, one delete call per orphan, the service's milestone lists lose exactly the orphans' identifiers, suites untouched |
| Sync.TestRailSync.DeleteOrphanedSuites | TestRailSync.php:90-107 | `destinationSuites` becomes its survivors, one delete call per orphan, the service's suite lists lose exactly the orphans' identifiers, milestones untouched |
| Sync.TestRailSync.MatchMilestones | TestRailSync.php:113-122 | `sourceMilestones` becomes its match against `destinationMilestones`; nothing else changes |
| Sync.TestRailSync.MatchSuites | TestRailSync.php:128-137 | `sourceSuites` becomes its match against `destinationSuites`; nothing else changes |
| Sync.TestRailSync.CopyMilestones | TestRailSync.php:142-150 | every untagged milestone is created in the destination project and tagged with the identifier returned; other projects' milestone lists and all suites untouched |
| Sync.TestRailSync.CopySuites | TestRailSync.php:155-163 | every untagged suite is created in the destination project and tagged with the identifier returned; other projects' suite lists and all milestones untouched |
| Sync.TestRailSync.SyncMilestones | TestRailSync.php:45-50 | the milestone half of `sync`, in closed form over the fetched lists: the four results, the calls, the destination project's stored milestones (survivors then created records), every other project's milestones and all suites unchanged |
| Sync.TestRailSync.SyncSuites | TestRailSync.php:52-57 | the suite half of `sync`, in closed form over the fetched lists: the four results, the calls, the destination project's stored suites (survivors then created records), every other project's suites and all milestones unchanged |
| Sync.TestRailSync.SyncTwice | TestRailSync.php:43-57 | two calls of `sync` send exactly the calls of the first and leave exactly the stored lists of the first: the second call is quiet |
| Sync.TestRailSync.Sync | TestRailSync.php:43-57 | the final four lists; all calls in order (milestone deletes, milestone creates, suite deletes, suite creates); the destination project's stored lists; every other project's lists unchanged; no created identifier collides with a fetched destination record |

## Left out

- `syncSection`, called for every suite at TestRailSync.php:59-62, is not defined in `TestRailSync.php` or `sync.php`. It is not part of this model, so sections and cases are not synchronised here.
- HTTP transport and authentication:
  - `send_get`/`send_post` and the `TestRailAPIClient` base class in `testrail-api/php/testrail.php` are not part of this model;
  - the service is the class `Transport.Api`, whose operations state their effect directly;
  - transport failures and the exceptions they raise are not modelled, so every call succeeds;
  - fetching a project that does not exist returns an empty list.
- `sync.php`:
  - command-line arguments and configuration loading with required-key checks are left out as I/O;
  - logging is left out as I/O;
  - `set_delete` plays no part in `TestRailSync.php`.
- Uniqueness validation of sibling lists and a delete flag do not exist in the code, so they are absent from the model.
- PHP's loose `!=` comparison (for example `null` against `0` or `""`) is modelled as plain value equality.
- `foreach` by reference leaves a dangling reference to the last element after the loop. It is unused afterwards, so it is not modelled.
- `unset` keeps the remaining array keys, while the model removes the record by position in a sequence. Later loops only iterate in order, so the difference is not observable there.
- Sync.TestRailSync.Sync and Sync.TestRailSync.CopyMilestones: the identifiers the service returns are ghost out-parameters, since the PHP methods return nothing.
