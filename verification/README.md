# Verified model of the bulk import and export service

The service imports users, articles and comments from uploaded CSV, NDJSON or JSON files into
PostgreSQL, and exports the same tables again. This project models the parts of it that carry its
guarantees and proves them with Dafny 4.11. `dafny verify dfyconfig.toml` checks everything.

What is modelled, one module per component:

* `Model`, `Text`, `Validation`: the data, JavaScript trimming, and the normalisation and checks of one raw record;
  `ValidationMeaning` says what an accepted record holds in terms of the raw properties.
* `Csv`, `RecordStream`, `CsvFiles`, `LineEndings`: the escaping writer, the quote scanner, the record streams of the
  three file formats, written CSV files read back, and files with LF or CR LF.
* `Staging`: what one record does to a job, decided against the rows staged before it and the production keys.
* `EntityRepository`, `StagingRepository`, `SlugConflicts`: the lookups of a flush and the slug cleanup.
* `Merge`: the upsert statement, row by row, with its unique keys, its foreign keys and its all-or-nothing effect;
  `MergedFields` says what it writes, field by field.
* `ImportSpec`: the reference. It handles one record after another against whole tables and knows no batches.
* `Batches`: reading, flushing and the cleanup as steps on values, where every flush has lookups of its own.
* `ImportWorker`: the worker as it is written, a class that updates counters, buffers, staging rows and an
  error log in place. Its methods are proved equal to the reference for every flush size.
* `ErrorRows`, `Uploads`: what a job reports, and what the tables hold of an upload afterwards.
* `MergeSafety`, `Restarts`, `ArticleRestarts`, `Concurrency`, `JobAlone`: why the merge cannot fail, what a restart
  does, what many jobs on the same tables can and cannot do to each other, and that one left alone comes to its end.
* `Idempotency`, `Submissions`: the submission protocol as a transition system with one program counter for each
  request, and what becomes of a request.
* `Keyset`, `Export`, `ExportFilters`, `ErrorListing`: paged and filtered listings of tables that may change between
  two pages.
* `Reimport`, `RoundTrip`: an export imported again.

The main results:

1. **Batching changes nothing.** For every input and every flush size a job on tables no other job writes ends with the
   staged rows, the counters, the error rows and the production tables of the record-by-record reference
   (`ProcessImportJob`), also after any number of attempts that died before the merge (`RunWithRestarts`).
2. **Nothing is lost**, whatever other jobs do to the tables meanwhile. At every moment the counters balance and each
   line read is in exactly one staged row, buffered record or error row (`ReadIsAccountedFor`, `FollowOnTrack`); at
   completion each line of the file is in exactly one error row or exactly one row that was merged into the tables as
   they were then, and read = written + failed (`MergeAccountsForInput`, `NothingIsLost`).
   **What is uploaded is stored.** A record without an error row is found in the tables, each field of its row being
   what the raw properties mean (`UploadIsStored`, from `AcceptedExactly` and `MergeStoresEveryField`); every error
   row has the code, the id and the issues of the check that failed (`TurnedExactly`, `RejectedExactly`).
3. **The merge is safe.** Checked rows merge in every order and at every prefix without a unique-key clash, and
   the result does not depend on the order (`StagedUsersMergeable`, `StagedArticlesMergeable`, `MergeIgnoresOrder`).
   Rows of any other origin merge exactly if no row's email or slug is held by a production row of another id that
   no earlier row rewrites (`MergesExactly`).
4. **Jobs may interleave freely.** No external id ever disappears and foreign keys hold at every moment
   (`ForeignKeysAlwaysHold`); a merge is refused exactly for such a held email or slug (`MergeRefusedExactly`), and
   of two jobs that both fit the table the second is refused exactly if they are rivals for one (`SecondMergeExactly`).
   A job the others leave alone is merged, with the outcome of the reference (`LeftAloneIsReference`).
5. **Submission is idempotent** over every interleaving of any number of requests: one job for a key, one answer,
   no input file removed, no file and no reservation left over, at most 51 attempts. It succeeds when it should: a
   request whose key is free creates its job (`FreeKeyCreatesJob`), one whose key names a job is answered with it
   (`ReservedKeyReturnsJob`), a failure has one of four reasons (`ThrewHasReason`), and all finish (`RequestFinishes`).
6. **Paging** emits ids in strictly increasing order whatever happens to the table, misses no row that stays,
   and on a quiet table gives exactly the sorted rows for every page size; following cursors reads it once.
   Filters select by intersection exactly the rows each of them selects alone (`FiltersIntersect`).
7. **The CSV scanner accepts exactly the dialect** the writer uses, and reading undoes writing, for rows and for files;
   files with CR LF have the same records as files with LF (`AnyEndingSameRecords`).
8. **Importing an export changes nothing**, for all three tables, whole or filtered, exactly when the rewritten
   timestamps read back as stored (`ReimportIsNoOp`, `ExportThenImport`). It asks of the exported rows that the
   validator accepts them, timestamps included; an import keeps a table that way exactly if every timestamp it
   writes prints as text the validator accepts (`ImportKeepsNormal`).

Properties that turned out to need a condition, each with the exact condition and a case that shows it matters:

* Of two jobs whose rows fit the table and that staged one email under two ids, the second to merge is refused
  (`SecondClaimRefused`), unless an earlier row of it moves the first one's user to another email
  (`RenameLetsSecondMerge`). `SecondMergeExactly` says when, for all rows of both jobs.
* The slug cleanup takes an empty external id for "no such row". Articles cleaned against a table fit it exactly unless
  the first staged row with the slug of the article whose id is empty has an id itself
  (`CleanedArticlesMergeableExactly`, `EmptyIdDefeatsCleanup`). This needs lookups that are out of date: a job whose
  table did not change under it always merges (`FinishedMerges`).
* Running a users or an articles job again after its merge judges every record as the first run did exactly if no
  record is unsettled (`UsersRunTwiceExactly`, `ArticlesRunTwiceExactly`): its email or slug was freed by the job, or is
  claimed by another row of it. For users it is enough that no existing user's email changed and no duplicate id was
  reported (`UsersRunTwice`), and both are needed (`UsersRunTwiceDiffers`, `DuplicateIdRunTwiceDiffers`); for articles
  see `SlugConflictRunTwiceDiffers`. A comments job is always judged alike (`CommentsRunTwice`).
* Merging the same rows again at a later time leaves the tables as they are exactly if every row carries the timestamp
  an update writes: `updated_at` of a user or an article, `created_at` of a comment (`OverlayTwiceExactly`). So a comments
  job with one record that lacks `created_at` redates that comment in every run (`UndatedCommentRedated`).
* A table row with a time from year 10000 on, which a time zone offset can produce from a year the validator accepts,
  prints as text the validator refuses, so its export cannot be imported (`UnprintableIsRefused`);
  `ImportKeepsNormal` says exactly when imports avoid this.
* The error listing ends and yields each error once exactly if the timestamp of the last row of every page reads back
  as stored (`ListsEachOnceExactly`). The column keeps microseconds and a JavaScript date milliseconds, so ordinary
  logs may go either way (`MicrosecondsMatterAtPageEnds`).
* An exported row with an empty external id makes a paged listing start over exactly if a page consists of it alone
  (`EmptyIdPassedExactly`, for a collation that sorts the empty text first). A single streaming call is right also on
  such a table unless it fetches one row at a time and more than one in all (`StreamExport`).
* The empty row is written like the row of one empty value (`EmptyRowCollides`).
* A written CSV file comes back row by row exactly if no value holds LF, no row is blank (which only a row of one value
  can be), columns of one name agree, the last one counting, and no column is named `__proto__`, which is dropped from
  every record (`FileRoundTrip`).
* A request with a key that was reserved before fingerprints were complete can be answered with an older job of another
  entity or format, as far as the reservation does not record them (`SuccessesAgree`).

Assumptions stand in the contracts: collation is an abstract strict total order; email syntax, lower-casing and
the two timestamp conversions are functions of a `Rules` value, of which `SoundRules` asks that accepted emails are
trimmed and stay accepted in lower case, and that lower-casing is idempotent; JSON text is a
`Codec` whose parser undoes its encoder and whose text is one trimmed, non-empty line; candidate job ids are
distinct; an insert of a job that throws has created nothing.

## Model

| member | source | states |
|---|---|---|
| Validation.AcceptedIsNormal | src/domain/importExport/validation.ts:82-135 | Every record the validator accepts is of the requested entity, trimmed, within its limits, with a lower-case email, a kebab-case slug, a known role or status, and no publication date on a draft; what its fields are is `ValidationMeaning.AcceptedExactly` |
| Validation.RefusedHasIssues | src/domain/importExport/validation.ts:29-76 | A refused record has at least one issue, and every issue names a field or an item of one |
| Validation.KebabIffJoinedWords | src/domain/importExport/validation.ts:5 | A slug is accepted exactly if it is one or more lower-case words joined by single hyphens |
| Validation.WordAddsOne | src/domain/importExport/validation.ts:8-10 | One more word after nothing or a space adds one to the word count |
| Validation.GapAddsNothing | src/domain/importExport/validation.ts:8-10 | Spaces after a text add nothing to its word count |
| Text.TrimTrims | src/domain/importExport/validation.ts:12-16 | A trimmed string starts and ends with a visible character |
| Text.TrimTakesGaps | src/domain/importExport/validation.ts:12-16 | Trimming takes the spaces around a text and nothing else |
| Text.TrimmedBetweenGaps | src/domain/importExport/validation.ts:12-16 | Every text is its trimmed form between two gaps of spaces |
| ValidationMeaning.FirstFieldExactly | src/domain/importExport/validation.ts:82-122 | A property with several names is the first of them that is present and not null |
| ValidationMeaning.AcceptedExactly | src/domain/importExport/validation.ts:29-135 | For every raw record: it is accepted as a given record exactly if each field of that record is what the raw properties mean: the trimmed texts, the email in lower case, the enums and the flag or their defaults, the tags, and the references, id and times under the first name that is present |
| ValidationMeaning.RefusedExactly | src/domain/importExport/validation.ts:124-135 | A raw record is refused exactly if its properties mean no record |
| ValidationMeaning.RefusalNamesFaults | src/domain/importExport/validation.ts:29-76 | The issues of a refusal are exactly the fields whose property breaks its rule, the tags that are no strings, and the publication date of a draft |
| EntityRepository.FindUserExternalIdsByEmail | src/infrastructure/repositories/entityRepository.ts:26-43 | The loop builds exactly the part of the email-to-id relation of the users table that the batch asks for |
| EntityRepository.FindArticleExternalIdsBySlug | src/infrastructure/repositories/entityRepository.ts:45-62 | The same for slugs, leaving out articles without a slug |
| StagingRepository.FindStagedExternalIdPointers | src/infrastructure/repositories/stagingRepository.ts:42-80 | For each asked id, the lowest staged line that carries it, and nothing for ids not staged |
| StagingRepository.FindStagedUsersByEmail | src/infrastructure/repositories/stagingRepository.ts:82-110 | For each asked email, the first staged row that carries it, and nothing else |
| ImportSpec.StagedExactly | src/application/import/batchFlusher.ts:103-171 | A record is staged, under its resolved id, exactly when its references exist and neither its email nor its id was staged nor its id contradicts its email; otherwise the error code is that of the first failed check |
| ImportSpec.FirstSeenIsStaged | src/application/import/batchFlusher.ts:34-56 | Every "first seen at line n" names a row really staged on an earlier line n, and shows that row's id |
| ErrorRows.AdmittedExactly | src/application/import/processor.ts:135-169 | An entry is admitted as a record exactly if it was parsed and its properties mean that record |
| ErrorRows.TurnedExactly | src/application/import/processor.ts:135-167 | An entry turned away is reported on its line: unparsable with the message of the reader and no id, otherwise invalid with the untrimmed id of the raw record and exactly its faults |
| ErrorRows.RejectedExactly | src/application/import/batchFlusher.ts:103-353 | A record refused at a flush is reported with the code of the first check it fails; a missing reference is named, a duplicate shows line and id of the first staged row it repeats |
| ErrorRows.DroppedExactly | src/application/import/processor.ts:200-219 | Each article dropped by the cleanup is reported in order, on its line, under its id, with its slug |
| Staging.ClassifyKeepsKeysDistinct | src/application/import/batchFlusher.ts:217-261 | Whatever the lookups answered, staged ids stay distinct, staged emails stay distinct, and staged references were among the keys seen |
| ImportSpec.AdmittedIsNormal | src/application/import/processor.ts:132-169 | What passes the read loop keeps its line, belongs to the entity and is in the validator's normal form |
| ImportSpec.EmptyIdStagedExactly | src/application/import/batchFlusher.ts:88-101 | A job stages a row with an empty external id exactly if some admitted record with existing references has the email or slug of a production row whose id is empty |
| ImportSpec.StagedIsWellStaged | src/application/import/batchFlusher.ts:79-373 | All staged rows of a job have ascending lines, distinct ids and emails, ids resolved as the lookups say, and existing references |
| Batches.ClassifyPlaces | src/application/import/batchFlusher.ts:79-373 | A flush places each record of its batch in one staged row or one error row, whatever it looked up |
| Batches.ClassifyInOrder | src/application/import/batchFlusher.ts:58-77 | The rows a flush stages keep the order of their lines behind those staged before |
| Batches.FollowOnTrack | src/application/import/processor.ts:132-198 | However reads and flushes alternate and whatever each flush looks up, at every moment read = staged + buffered + failed, failed = error rows, and of the records read on any line each is in exactly one of the three |
| Batches.CleanupAccounts | src/application/import/processor.ts:200-220 | Whatever the cleanup looked up, deleting by line keeps exactly the rows of the specification, each other row becomes one error row, and every record read stays accounted for |
| Batches.NothingIsLost | src/application/import/processor.ts:132-223 | For any lookups of any flush and of the cleanup: read = rows to merge + failed, failed = error rows, and each line of the input is in exactly one row to merge or exactly one error row, no other line in either |
| Batches.FollowStandsFor | src/application/import/processor.ts:132-198 | If every flush sees the same tables, any schedule of reads and flushes leaves what handling the records one at a time leaves |
| Batches.FlushBalances | src/application/import/batchFlusher.ts:103-188 | A flush moves each record it rejects from the valid to the failed and keeps the balance of the counters |
| Batches.FlushedStandsFor | src/application/import/batchFlusher.ts:79-373 | A flush keeps the correspondence between the batched job and the record-by-record run |
| ImportWorker.UserVerdictDecides | src/application/import/batchFlusher.ts:103-171 | The checks of a user against batch maps, staged pointers and table lookups decide as the one-record reference |
| ImportWorker.ArticleVerdictDecides | src/application/import/batchFlusher.ts:217-261 | The same for an article |
| ImportWorker.CommentVerdictDecides | src/application/import/batchFlusher.ts:304-353 | The same for a comment |
| ImportWorker.ImportJob.constructor | src/application/import/processor.ts:98-116 | A new job admits records by the validator of its entity |
| ImportWorker.ImportJob.FlushUsersBatch | src/application/import/batchFlusher.ts:79-189 | Staging, error log and counters after the batch are those of handling its records one at a time |
| ImportWorker.ImportJob.FlushArticlesBatch | src/application/import/batchFlusher.ts:191-282 | The same for articles |
| ImportWorker.ImportJob.FlushCommentsBatch | src/application/import/batchFlusher.ts:284-373 | The same for comments |
| ImportWorker.ImportJob.StageUsers | src/application/import/batchFlusher.ts:99-188 | The checking loop over a users batch stages and rejects what the reference does, in its order |
| ImportWorker.ImportJob.StageArticles | src/application/import/batchFlusher.ts:214-281 | The same loop for articles |
| ImportWorker.ImportJob.StageComments | src/application/import/batchFlusher.ts:305-372 | The same loop for comments |
| ImportWorker.ImportJob.FlushAllBuffers | src/application/import/batchFlusher.ts:375-386 | All three buffers are flushed and left empty |
| ImportWorker.ImportJob.ProcessEntry | src/application/import/processor.ts:132-187 | One turn of the read loop counts the record, buffers or reports it and flushes a full buffer, nothing else; it keeps the job in step with the reference and its counters balanced |
| ImportWorker.ImportJob.ClearPreviousAttempt | src/application/import/processor.ts:107-119 | Whatever an earlier attempt left, the job starts from empty staging, error log, buffers and counters |
| ImportWorker.ImportJob.ReadRecords | src/application/import/processor.ts:132-196 | After the read loop the job with its buffer stands for the record-by-record run over the same input |
| ImportWorker.ImportJob.DropSlugConflicts | src/application/import/processor.ts:200-220 | Conflicting articles leave staging and become error rows, each counted once as failed |
| ImportWorker.ImportJob.StageEverything | src/application/import/processor.ts:117-220 | Everything before the merge leaves the reference's rows, errors and counters and cannot write the production tables |
| ImportWorker.ImportJob.MergeAndComplete | src/application/import/processor.ts:222-241 | A merge that is accepted completes the job with the written count; a refused one fails it and changes no table |
| ImportWorker.ImportJob.ProcessImportJob | src/application/import/processor.ts:98-246 | For every flush size and any leftovers of earlier attempts, the job completes with the tables, counters and error rows of the reference |
| ImportWorker.ImportJob.RunWithRestarts | src/application/import/processor.ts:117-119 | Any number of attempts that die anywhere before the merge, whatever they leave in staging, error log, counters and buffers, then a full one, equal one undisturbed attempt |
| SlugConflicts.FindSlugConflicts | src/infrastructure/repositories/stagingRepository.ts:112-168 | The two loops find exactly the conflicts of the specification, in line order |
| SlugConflicts.KeptIffAdmissible | src/infrastructure/repositories/stagingRepository.ts:146-168 | A staged article is kept exactly when its slug belongs to no other production row and to no earlier row that may keep it |
| SlugConflicts.SiftPartitions | src/infrastructure/repositories/stagingRepository.ts:143-176 | Every staged row is kept or reported, never both and never twice |
| SlugConflicts.SiftKeepsSlugs | src/infrastructure/repositories/stagingRepository.ts:146-168 | No kept row's slug belongs to another production row, and of the rows allowed a slug one keeps it |
| SlugConflicts.DeletingByLineKeepsTheRest | src/infrastructure/repositories/stagingRepository.ts:170-174 | With distinct lines, deleting the conflicts by line deletes exactly those rows |
| Merge.Database.MergeStagingRows | src/application/import/stagingMerger.ts:79-90 | One statement: either every staged row is upserted or the tables are as before, and it succeeds exactly when no row clashes, repeats an id or misses a reference; what it writes is `MergedFields.MergeStoresEveryField` |
| Merge.MergesExactly | src/application/import/stagingMerger.ts:6-57 | Rows with distinct ids and natural keys merge exactly if no row's key is held by another production row that no earlier row rewrites |
| Merge.MergeSucceeds | src/application/import/stagingMerger.ts:6-77 | Rows with distinct ids and natural keys that fit the table merge without error and give the overlay of the staged rows |
| MergedFields.MergeStoresEveryField | src/application/import/stagingMerger.ts:6-77 | After an accepted merge the row of every staged id has every field of the record, the update time given or now, the creation time of a new row given or now and of an existing one unchanged, for a comment always given or now; every other row and table is as before |
| MergedFields.MergedIdsAreDistinct | src/application/import/stagingMerger.ts:20-75 | An accepted merge writes no row twice |
| Uploads.UploadIsStored | src/application/import/processor.ts:98-246 | Each entry of an upload has an error row on its line, or the tables hold its record after the merge: in the row of the id it resolves to, each field is what the raw properties mean |
| Merge.OverlayIgnoresOrder | src/application/import/stagingMerger.ts:17-25 | Any order of the same staged rows gives the same table |
| Merge.MergeRowsKeepsUnique | prisma/schema.prisma:77-96 | Emails and slugs stay unique through every accepted merge |
| Merge.MergeRowsOnlyAddsIds | src/application/import/stagingMerger.ts:20-25 | A merge removes and renames no external id of any table |
| Merge.MergeRowsReferences | src/application/import/stagingMerger.ts:47-55 | If the staged references exist, every foreign key holds after the merge |
| MergeSafety.StagedUsersMergeable | src/application/import/batchFlusher.ts:103-171 | Users checked against the table being merged into clash with none of its rows |
| MergeSafety.StagedArticlesMergeable | src/application/import/batchFlusher.ts:205-261 | Articles staged and cleaned against the table being merged into clash with none of its rows |
| MergeSafety.CleanedArticlesMergeableExactly | src/infrastructure/repositories/stagingRepository.ts:112-177 | Whatever the flush lookups returned, articles cleaned against a table fit it exactly unless the first staged row with the slug of the article whose id is empty has an id itself |
| MergeSafety.KeptSlugsDistinct | src/infrastructure/repositories/stagingRepository.ts:155-168 | No two rows left by the cleanup share a slug |
| MergeSafety.EmptyIdDefeatsCleanup | src/infrastructure/repositories/stagingRepository.ts:150-152 | The overlooked case occurs: a kept row clashes with the article whose id is empty and the merge is refused |
| MergeSafety.OnlyLaterDuplicatesDropped | src/infrastructure/repositories/stagingRepository.ts:146-168 | If the table is the one seen while staging, only later rows with an already staged slug are dropped |
| MergeSafety.MergeIgnoresOrder | src/application/import/stagingMerger.ts:17-56 | Rows that can be merged can be merged in any order with one result, with unique keys at every prefix of every order |
| MergeSafety.FinishedMerges | src/application/import/processor.ts:222-223 | The merge of a finished job is never refused and keeps every constraint of the schema |
| Restarts.CommentsRunTwice | src/application/import/stagingMerger.ts:59-77 | A comments job run again after its merge stages the same rows and reports the same errors; at a later time it changes no table exactly if every staged comment carries created_at |
| Restarts.RunsAgreeExactly | src/application/import/processor.ts:132-198 | Two runs over one input with different lookups end alike exactly if every record got the same verdict |
| Restarts.OverlayTwiceExactly | src/application/import/stagingMerger.ts:6-77 | For each table, merging the same rows again leaves it as the first merge left it exactly if no time has passed or every row carries the timestamp an update writes |
| Restarts.UndatedCommentRedated | src/application/import/stagingMerger.ts:67-75 | A comment without created_at gets the time of every merge |
| Restarts.UsersRunTwiceExactly | src/application/import/stagingMerger.ts:6-27 | A users job run again after its merge repeats the first run exactly if no admitted record is unsettled by it; merging its rows again at a later time changes no table exactly if every one carries updated_at |
| Restarts.UsersRunTwice | src/application/import/stagingMerger.ts:17-25 | The second run repeats the first if the job renamed no existing user's email and the first run reported no duplicate id, and then changes no table exactly if every staged user carries updated_at or no time has passed |
| Restarts.UsersRunTwiceDiffers | src/application/import/stagingMerger.ts:17-25 | The first of those conditions is needed: after a rename the second run stages a row the first refused |
| Restarts.DuplicateIdRunTwiceDiffers | src/application/import/batchFlusher.ts:133-168 | So is the second: a duplicate id of the first run is a mismatch in the second |
| ArticleRestarts.ArticlesRunTwiceExactly | src/application/import/stagingMerger.ts:29-57 | An articles job run again after its merge repeats the first run, cleanup included, exactly if no admitted record with an existing author is unsettled by it; merging its rows again at a later time changes no table exactly if every one carries updated_at |
| ArticleRestarts.FinishedTellsRun | src/application/import/processor.ts:132-223 | Two articles jobs over one input that end alike had the same staged rows, errors and counters before the cleanup |
| ArticleRestarts.SlugConflictRunTwiceDiffers | src/infrastructure/repositories/stagingRepository.ts:155-168 | Two new articles with one slug: a slug conflict in the first run is a duplicate id in the second |
| Concurrency.FlushKeepsOk | src/application/import/batchFlusher.ts:58-77 | Rows staged on stale lookups still have distinct keys and name existing rows |
| Concurrency.DropKeepsOk | src/infrastructure/repositories/stagingRepository.ts:146-174 | Deleting slug conflicts by line, on a stale slug lookup, leaves rows with distinct slugs that were free when looked up |
| Concurrency.StepStaysAccounted | src/application/import/processor.ts:132-223 | Whatever other jobs do in between, each step of a job leaves every record it has read accounted for |
| Concurrency.ReadIsAccountedFor | src/application/import/processor.ts:132-223 | At every moment of every interleaving the counters of a job balance and each line it has read is in exactly one staged or merged row, one buffered record or one error row |
| Concurrency.MergeAccountsForInput | src/application/import/processor.ts:222-228 | A merge among other jobs changes nothing, or writes the staged rows into the tables as they are then; each line of the file is then in exactly one merged row or exactly one error row, and read = written + failed |
| Concurrency.MergeKeepsTables | src/application/import/stagingMerger.ts:6-77 | A merge among other jobs keeps every constraint of the schema and removes no id |
| Concurrency.StepKeepsInv | src/application/import/batchFlusher.ts:200-231 | Every step of every job keeps the schema's constraints, the ids seen by lookups, the references and distinct keys of all staged rows, and the account of every record read |
| Concurrency.Run | src/application/import/processor.ts:98-246 | The invariant holds after any interleaving of steps of any number of jobs |
| Concurrency.IdsOnlyGrow | src/application/import/stagingMerger.ts:20-75 | Over every interleaving no external id disappears |
| Concurrency.ForeignKeysAlwaysHold | src/application/import/batchFlusher.ts:308-329 | At every moment of every interleaving each article author, comment article and comment user exists, as does everything staged rows name |
| Concurrency.MergeRefusedExactly | src/application/import/stagingMerger.ts:6-77 | A reachable merge is refused exactly if a production row of another id holds a staged email or slug and no earlier row of the job rewrites it; a comments merge never is |
| Concurrency.CleanedMergesExactly | src/infrastructure/repositories/stagingRepository.ts:128-168 | An articles job whose cleanup saw the current slugs merges exactly if no staged slug is held by an article with an empty id that no earlier row rewrites |
| Concurrency.SecondMergeExactly | src/application/import/stagingMerger.ts:6-57 | Of two jobs that both fit the table the first to merge succeeds, and the second is refused exactly if they staged one email or slug for two ids and the second has no earlier row that rewrites the first one's row |
| Concurrency.SecondClaimRefused | src/application/import/stagingMerger.ts:6-27 | A second job that stages a new email of the first for another id is refused |
| Concurrency.RenameLetsSecondMerge | src/application/import/stagingMerger.ts:17-25 | The same job with an earlier row that moves the first one's user to another email is merged |
| JobAlone.LeftAloneIsReference | src/application/import/processor.ts:98-246 | A job among others that leave it alone, in any order of reads and flushes that reads all and ends with a flush, is merged with the rows, counters and errors of the reference |
| Csv.ParseCsvLine | src/application/common/recordStream.ts:99-145 | The scanning loop computes the suffix scan that the dialect lemmas are about, with both error cases |
| Csv.AcceptedIffGrammatical | src/application/common/recordStream.ts:99-145 | The scanner accepts a line exactly if it is comma-joined fields, each plain text or quoted text with doubled quotes followed by plain text |
| Csv.ValuesAreMeanings | src/application/common/recordStream.ts:99-145 | However a line is spelled in that grammar, the values read are what its fields mean |
| Csv.ReadingUndoesWriting | src/infrastructure/database/copyStream.ts:5-23 | Reading a written non-empty row, without its newline, gives exactly the row, for strings and numbers |
| Csv.DecimalDenotes | src/infrastructure/database/copyStream.ts:17-23 | A number is written in digits that stand for it, without a leading zero |
| Csv.WriterIsInjective | src/infrastructure/database/copyStream.ts:17-23 | Two different non-empty rows of text are never written alike |
| Csv.EmptyFieldIsEmptyText | src/infrastructure/database/copyStream.ts:5-15 | Only the empty text is written as an unquoted empty field |
| Csv.EmptyRowCollides | src/infrastructure/database/copyStream.ts:17-23 | The empty row is written like another row exactly when that row is one empty value |
| RecordStream.ReadRow | src/application/common/recordStream.ts:67-71 | The column loop builds the record of the row, later columns of one name winning |
| RecordStream.StreamCsv | src/application/common/recordStream.ts:31-75 | The CSV loop yields for each line that is neither blank nor the header its record or its error |
| RecordStream.StreamNdjson | src/application/common/recordStream.ts:77-96 | The NDJSON loop yields one record or error for each non-blank line, numbered in turn |
| RecordStream.StreamJson | src/application/common/recordStream.ts:13-29 | The array items are numbered in turn and a failure becomes one more record |
| RecordStream.RecordLinesAscend | src/application/common/recordStream.ts:7-97 | For every file of every format line numbers start at 1 or later and strictly increase |
| RecordStream.StreamInputRecords | src/application/common/recordStream.ts:7-97 | The stream is the records of the file, in ascending lines |
| LineEndings.EndedLines | src/application/common/recordStream.ts:32-38 | Lines free of CR and LF, each ended by LF or CR LF, are cut into just those lines |
| LineEndings.AnyEndingSameRecords | src/application/common/recordStream.ts:32-96 | A CSV or NDJSON file has the same records whether its lines end in LF or CR LF, each as it likes, and whether an unended last line has a CR |
| RecordStream.StagingKeysAreSafe | prisma/schema.prisma:141-147 | No two staged rows of a job share a line, whatever each of its flushes looked up, so deleting slug conflicts by line deletes exactly those |
| RecordStream.CsvLineIsPhysical | src/application/common/recordStream.ts:36-73 | A CSV record is reported at the physical line it stands on: the records are exactly the lines that are neither blank nor the header, each read on its own |
| CsvFiles.FileIsItsRows | src/application/common/recordStream.ts:32-37 | A written file of one-line values splits into exactly its written rows |
| CsvFiles.BreaksAreReported | src/application/common/recordStream.ts:32-48 | A row with a line break in a value is cut inside its quotes and gives a parse error, wherever it stands |
| CsvFiles.NoMoreThanRows | src/application/common/recordStream.ts:36-73 | A blank row gives no record, and without a header the first row is taken for one |
| CsvFiles.FileRoundTrip | src/application/common/recordStream.ts:31-73 | A written header of any cells and rows of that width come back as one record a row, by the trimmed names, on lines 2, 3, ... without errors exactly if no value holds LF, every row shows something, columns of one name agree and none is named after the prototype property |
| CsvFiles.PaddedCellIsName | src/application/common/recordStream.ts:50-55 | A header cell with spaces or a byte-order mark around its name is read as the bare name |
| Keyset.SortedIsListing | src/application/export/streamingExporter.ts:18-37 | The ordered query result holds every selected id once, in increasing order |
| Keyset.PageFacts | src/application/export/queryBuilder.ts:13-22 | A page holds the first ids after the cursor, and leaves one out only if it is full |
| Keyset.PageIsUnique | src/application/export/queryBuilder.ts:13-59 | Those conditions determine the page |
| Keyset.SliceIsPage | src/application/export/streamingExporter.ts:109-129 | A slice of the sorted listing is the page after the id before it |
| Keyset.PageExtends | src/application/export/pipeline.ts:33-47 | Appending a page fetched from a changed table keeps the order and skips no id that stayed |
| Keyset.NothingMore | src/application/export/streamingExporter.ts:118 | Once all ids are listed the next page is empty |
| ExportFilters.ActiveSelects | src/application/export/queryBuilder.ts:13-22 | The active filter alone selects the users with that flag |
| ExportFilters.RoleSelects | src/application/export/queryBuilder.ts:13-22 | The role filter alone selects the users with that role |
| ExportFilters.StatusSelects | src/application/export/queryBuilder.ts:35-47 | The status filter alone selects the articles with that status |
| ExportFilters.AuthorSelects | src/application/export/queryBuilder.ts:35-47 | The author filter alone selects the articles of that author |
| ExportFilters.ArticleSelects | src/application/export/queryBuilder.ts:50-59 | The article filter alone selects the comments on that article |
| ExportFilters.UserSelects | src/application/export/queryBuilder.ts:50-59 | The user filter alone selects the comments by that user |
| ExportFilters.PublishedAfterSelects | src/application/export/queryBuilder.ts:28-46 | The lower bound alone selects the articles published strictly later, and no unpublished one |
| ExportFilters.PublishedBeforeSelects | src/application/export/queryBuilder.ts:28-46 | The upper bound alone selects the articles published strictly earlier, and no unpublished one |
| ExportFilters.EmptyTextSelectsAll | src/application/export/queryBuilder.ts:17-57 | An empty text filter selects every row |
| ExportFilters.FiltersIntersect | src/application/export/queryBuilder.ts:13-59 | Several filters select exactly the rows each of them selects alone |
| Export.FetchExportRows | src/application/export/streamingExporter.ts:83-92 | A fetch returns the page after the cursor with the rows of those ids, each passing the filter |
| Export.UnderExtends | src/application/export/streamingExporter.ts:109-129 | One more fetch keeps order, genuineness and completeness, and a short page makes the listing complete |
| Export.ListedIsPage | src/application/export/streamingExporter.ts:109-129 | On an unchanging table what has been listed is one page from the start, whatever the page sizes were |
| Export.CountedExtends | src/application/export/pipeline.ts:33-47 | On an unchanging table every page but the last is full |
| Export.EmptyIdPassedExactly | src/application/export/queryBuilder.ts:20 | With the empty text sorted first, a listing starts over at an exported empty id exactly if its first page consists of that id alone |
| Export.CreateRowGenerator | src/application/export/pipeline.ts:29-49 | Ids come out strictly increasing whatever happens to the table; a run that ends has emitted every id that stayed; on a quiet table n fetches that do not end it have filled n - 1 pages, and the result is the whole table |
| Export.StreamExport | src/application/export/streamingExporter.ts:94-136 | The same for one call, which on a quiet table writes exactly the first limit rows after the cursor for every page size, and returns the last id, unless empty, as next cursor |
| Export.ChainExtends | src/application/export/streamingExporter.ts:131-135 | Another call of a chain continues the listing, and an empty one means the table is complete |
| Export.FollowCursors | src/application/export/streamingExporter.ts:94-136 | Following next cursors with any limits reads the whole sorted table once, and c calls of which the last is not empty have read more than (c - 1) times the smallest limit |
| Export.WriteJsonArray | src/application/export/pipeline.ts:66-111 | The two stages write one array of exactly the records |
| ErrorListing.BeforeIsStrictTotal | src/application/import/service.ts:400 | The compound order by time and id is a strict total order |
| ErrorListing.FetchIsPage | src/application/import/service.ts:378-403 | The two-branch cursor condition selects exactly what lies after the compound cursor |
| ErrorListing.QueryErrors | src/application/import/service.ts:378-403 | A query is a keyset page of the log |
| ErrorListing.IterateImportJobErrors | src/application/import/service.ts:365-422 | The loop, followed for any number of fetches, lists what the fetch-by-fetch specification says |
| ErrorListing.ExactPageEndsList | src/application/import/service.ts:373-421 | If the last row of every page reads back exactly, the listing ends after one fetch more than there are pages, with the whole log in order |
| ErrorListing.InexactCursorRepeats | src/application/import/service.ts:381-388 | A cursor read back below its row gives a non-empty page whose first row was already listed |
| ErrorListing.ListsEachOnceExactly | src/application/import/service.ts:373-421 | With timestamps read back rounded down, if at all, the listing ends and yields each error once exactly if the last row of every page reads back as stored |
| ErrorListing.NewestInexactNeverEnds | src/application/import/service.ts:418-420 | If the newest row reads back too early, the listing has not ended after any number of fetches |
| ErrorListing.MicrosecondsMatterAtPageEnds | src/application/import/service.ts:418-420 | A log of one error off the millisecond is never listed to an end; followed by one on a whole millisecond it is |
| Idempotency.StepKeepsJobs | src/infrastructure/repositories/jobRepository.ts:68-93 | Every job was created by the one request that owns its id, and its reservation stays in place |
| Idempotency.StepKeepsClaims | src/application/import/service.ts:188-199 | A job a request waits for or returns belongs to a request with the same key, user and fingerprint |
| Idempotency.StepKeepsFiles | src/application/import/service.ts:116-127 | A stored file is held by its request, is a job's input, or could not be removed |
| Idempotency.StepKeepsInv | src/application/import/service.ts:159-338 | Every step of every request keeps reservations, jobs, claims, results, files and deadlines consistent |
| Idempotency.RunKeepsInv | src/application/import/service.ts:159-338 | So does every schedule of any number of requests |
| Idempotency.OlderRowsStay | src/infrastructure/repositories/jobRepository.ts:281-290 | No request changes or removes a reservation, a job or a file that is older than the requests |
| Idempotency.AtMostOneJobPerKey | src/infrastructure/repositories/jobRepository.ts:232-291 | One key of one user never gets two jobs, and none if it was reserved before |
| Idempotency.SuccessesAgree | src/application/import/service.ts:159-212 | All successful requests with one key return the same job, created for their entity, format and content hash, or older and reserved with their content hash and no other entity or format; at most one says it is new |
| Idempotency.ResultNamesJob | src/application/import/service.ts:188-199 | A returned job exists and matches the request that got it, as far as its reservation is recorded |
| Idempotency.JobFilesStay | src/application/import/service.ts:221-275 | No request ever removes the input file of a job, new or older |
| Idempotency.NoFileLeftBehind | src/application/import/service.ts:305-338 | When all requests have finished and removals succeeded, the stored files are exactly the older ones and the input files of the new jobs |
| Idempotency.NoReservationLeftBehind | src/application/import/service.ts:104-114 | When all requests have finished and releases succeeded, the reservations are exactly the older ones and those of the new jobs, so a failed submission never blocks its key |
| Idempotency.AttemptsBounded | src/application/import/service.ts:46-47 | No request tries to reserve more than 51 times on any schedule |
| Idempotency.WaitingIsBounded | src/application/import/service.ts:173-211 | Every request finishes after at most 261 steps of its own that do not merely wait |
| Idempotency.MatchesExactly | src/application/import/service.ts:74-102 | A reservation is accepted exactly if it carries the hash of the request and no other entity or format; otherwise the conflict names the first of these that differs |
| Submissions.FreeKeyCreatesJob | src/application/import/service.ts:214-328 | If every call of a request succeeds and its key is absent, empty or free at its first insert, the finished request has created its job under its own id, for its entity, format and content, on its stored file |
| Submissions.ReservedKeyReturnsJob | src/application/import/service.ts:188-250 | If the key is reserved for the same entity, format and content by an existing job before a request reads it, and its calls then succeed, the finished request returns that job as not new |
| Submissions.ThrewHasReason | src/application/import/service.ts:159-338 | A failed request had a reason at a step of its own: a failed call, a reservation that differs or lacks a hash, a reservation released under it, or its deadline |
| Submissions.DeadlineIsFiveSeconds | src/application/import/service.ts:46-47 | The deadline of a waiting request is 5000 ms after its arrival |
| Submissions.RequestFinishes | src/application/import/service.ts:173-211 | After 261 turns at which it is not asleep a request has finished |
| Submissions.LeftoversNeedFailure | src/application/import/service.ts:104-127 | A reservation is left standing only if some release failed, and a file only if some removal failed |
| Submissions.KeylessStep | src/application/import/service.ts:165-171 | A request without a key, or with an empty one, never reserves, releases or waits |
| Reimport.ApplyFieldProjection | src/application/export/exportDto.ts:115-130 | The loop keeps exactly the requested fields that may be exported, with their values; no list keeps everything |
| Reimport.AllFieldsKeepRecord | src/application/export/exportDto.ts:56-75 | Every exported field may be asked for: asking for all of them keeps the record |
| Reimport.DtoValidates | src/application/export/exportDto.ts:77-113 | The validator accepts every exported row whose values it accepts and whose timestamps print as text it accepts, and reads it back unchanged, timestamps apart |
| Reimport.UnprintableIsRefused | src/application/export/exportDto.ts:104-113 | A comment whose time prints as text outside the validator's format is exported as a record the validator refuses |
| Reimport.FileLines | src/application/export/pipeline.ts:72-77 | An NDJSON file splits into exactly its encoded records |
| Reimport.ExportIsRead | src/application/common/recordStream.ts:77-96 | The record stream of an NDJSON export is the exported records in order, without an error |
| Reimport.JsonExportIsRead | src/application/common/recordStream.ts:13-19 | A JSON export gives the same record stream |
| Reimport.RowIsAccepted | src/application/import/batchFlusher.ts:88-171 | An exported row is staged under its own id, whatever exported rows were staged before it |
| Reimport.ExportIsClean | src/infrastructure/repositories/stagingRepository.ts:146-168 | The slug cleanup finds no conflict among exported articles |
| Reimport.EveryRowIsWritten | src/application/import/processor.ts:132-223 | Importing exported rows reads, validates and writes all of them and reports no error |
| Reimport.OverlayOfOwnRows | src/application/import/stagingMerger.ts:6-77 | Merging exported rows back leaves the tables as they were exactly when the rewritten timestamps read back as stored |
| RoundTrip.ReimportIsNoOp | src/application/export/exportDto.ts:77-113 | Importing an export, whole or filtered, whose rows satisfy the validator succeeds for every row and changes nothing exactly when the rewritten timestamps read back as stored |
| RoundTrip.ListTable | src/application/export/pipeline.ts:29-49 | The generator run to its end on a quiet table lists the selected rows in order |
| RoundTrip.WriteNdjson | src/application/export/pipeline.ts:66-77 | The file is one encoded record a line, in order |
| RoundTrip.EncodeDtos | src/application/export/pipeline.ts:51-64 | Each record is projected to the fields asked for and encoded, in order |
| RoundTrip.RunExportJob | src/application/export/pipeline.ts:157-205 | CSV is refused; otherwise the file is the rows selected by the filters (`ExportFilters`), in order, with the fields asked for, one to a line or as one array |
| RoundTrip.ExportThenImport | src/application/import/processor.ts:98-246 | The same no-op as a run of the export job and the import job, for every page size and flush size |
| RoundTrip.ImportFile | src/application/import/processor.ts:98-246 | For any file of any format, on tables no other job writes, the job ends as the reference says and read = written + failed, and each record line is in exactly one error row or merged row |
| RoundTrip.NoFiltersSelectAll | src/application/export/queryBuilder.ts:13-59 | Without filters every row is selected |
| RoundTrip.ResolvedIsNormal | src/application/import/batchFlusher.ts:88-101 | The id a record resolves to is trimmed and not empty |
| RoundTrip.ImportKeepsNormal | src/application/import/stagingMerger.ts:6-77 | An import keeps its table such that it can be exported and imported again exactly if every timestamp it writes, its own clock included, prints as text the validator accepts |

## Left out

- HTTP routes, authentication, rate limits, metrics, logging, configuration, the job queue, the Redis lock and job recovery.
- Streams, gzip, back-pressure and the file system: a file is its text, stored files are a set of paths; removing a partly written file on a failed upload or download is part of the failing step.
- Fetching URLs with redirects and size limits: a download is one step that succeeds or fails.
- SHA-256, UUIDs and base64url: hashes are compared for equality, candidate ids are distinct, and a cursor is the id it encodes (an unreadable cursor is an absent one).
- JSON parsing and printing: an inverse pair; the streaming array reader is its sequence of items and an optional failure message.
- Messages of the validator: an error row keeps its code, its line, its id and, for every issue, the path or the line it refers to; the raw copy stored with it is not modelled.
- Email and ISO 8601 syntax: abstract predicates; the staged timestamp text is converted when it is validated, not when it is merged, so a text PostgreSQL would refuse is not modelled.
- Dates of the export filters that cannot be read, which refuse the export: a bound is a time or absent.
- SQL beyond row-wise upsert on the external id, unique keys, foreign keys and atomic statements; the COALESCE defaults of role, active, status and tags, which validation has already filled in.
- The JSON payload column: a staged row carries the validated record.
- Totals saved while a job is running, time stamps of jobs, and the totals of export jobs.
- String lengths in UTF-16 units: lengths are counted in characters.
- An insert of a job that is committed although its call throws; removal of a job's file by other programs.
- The job and reservation tables of the submission protocol are values of a transition system, not objects updated in place, because its steps interleave.
- Access checks and the JSON encoding of the rows of the error listing.
- ImportWorker.ImportJob.ProcessImportJob: proved for tables no other job writes meanwhile; what other jobs can do is the subject of `Concurrency`. The copy of staged rows to PostgreSQL never fails in the model; in the source it fails, and with it the job, when a row with an empty external id is staged, because the empty field is read as NULL (`Csv.EmptyFieldIsEmptyText`). `ImportSpec.EmptyIdStagedExactly` says for which inputs that happens; `RoundTrip.ImportKeepsNormal` that imports alone never create such ids.
- Export.CreateRowGenerator: not proved for tables on which a page can consist of an empty external id alone; there the listing starts over, see `Export.EmptyIdPassedExactly`. For `Export.StreamExport` the excluded case is smaller, a page size of 1 and a limit of 2 or more without a cursor; for `Export.FollowCursors` it is a page size of 1 or a first limit of 1, where the client is told too early that there is no more.
- Export.FollowCursors: the table does not change between the calls.
- ErrorListing.ListsEachOnceExactly: for an error log that does not change, whose ids, UUIDs, are not empty.
- RoundTrip.ImportFile: proved for tables no other job writes meanwhile, as `ProcessImportJob`; that no line is lost among other jobs is `Concurrency.MergeAccountsForInput`.
- RoundTrip.ExportThenImport: the NDJSON export; a JSON export gives the same records (`Reimport.JsonExportIsRead`), its array reader being a library.
