/** Export, import and the tables in between: what a client sees who exports a whole table through
    the paged export and uploads the file again. */
module RoundTrip {
  import opened Model
  import opened Text
  import opened Validation
  import opened Staging
  import opened Merge
  import opened SlugConflicts
  import opened ImportSpec
  import opened MergeSafety
  import opened Keyset
  import opened Reimport
  import opened ImportWorker
  import Export
  import RecordStream

  // A listing of selected rows of the table repeats none of them.
  lemma ListingIsDistinct(lt: Export.Collation, entity: Entity, t: Tables, selected: set<Id>, ids: seq<Id>)
    requires StrictTotal(lt) && selected <= TableIds(entity, t) && Lists(lt, selected, ids)
    ensures DistinctSeq(ids) && FromTable(entity, t, ids) && ExportedIds(ids) == selected && |ids| == |selected|
  {
    forall i, j | 0 <= i < j < |ids| ensures ids[i] != ids[j] {
      assert InOrderAt(lt, ids, i, j) && OrderLaws(lt, ids[i], ids[i], ids[i]);
    }
    ListsIsSorted(lt, selected, ids);
    SortedIsListing(lt, selected);
    assert forall i :: 0 <= i < |ids| ==> ids[i] in ids;
  }

  // Imported again, a listing of selected rows is written in full over itself.
  lemma ReimportedIsOwn(rules: Rules, lt: Export.Collation, admit: Admitter, entity: Entity, t: Tables,
                        selected: set<Id>, ids: seq<Id>, now: Time)
    requires StrictTotal(lt) && AdmitsBy(admit, rules, entity) && SoundAdmitter(entity, admit) && Constrained(t)
    requires selected <= TableIds(entity, t) && Lists(lt, selected, ids) && FromTable(entity, t, ids)
    requires forall id :: id in selected ==> NormalRow(rules, entity, t, id)
    ensures LinesAscend(Records(rules, entity, t, ids))
    ensures var end := Finished(admit, entity, t, Records(rules, entity, t, ids));
            && end.totals == Totals(|selected|, |selected|, 0, |selected|) && end.errors == []
            && AllOf(entity, end.staged)
            && (Overlay(entity, t, end.staged, now) == t <==> TimesReadBack(rules, entity, t, selected))
  {
    ListingIsDistinct(lt, entity, t, selected, ids);
    RecordsAscend(rules, entity, t, ids);
    assert forall i :: 0 <= i < |ids| ==> ids[i] in ids;
    EveryRowIsWritten(admit, rules, entity, t, ids);
    FinishedMerges(admit, entity, t, Records(rules, entity, t, ids), now);
    OverlayOfOwnRows(rules, entity, t, ids, now);
  }

  // Every row the filters select satisfies the validator.
  ghost predicate NormalSelected(rules: Rules, entity: Entity, t: Tables, f: Export.Filters) {
    forall id :: id in Export.EligibleIds(entity, f, t) ==> NormalRow(rules, entity, t, id)
  }

  /** Importing an export of the current tables, whole or filtered, is a no-op: every exported row
      is read, valid and written, nothing fails, the merge is not refused, and the tables are the
      same afterwards exactly when the rewritten timestamps read back as stored. */
  lemma ReimportIsNoOp(c: Codec, rules: Rules, lt: Export.Collation, entity: Entity, t: Tables, f: Export.Filters,
                       ids: seq<Id>, now: Time)
    requires SoundCodec(c) && SoundRules(rules) && StrictTotal(lt)
    requires Constrained(t) && NormalSelected(rules, entity, t, f) && Lists(lt, Export.EligibleIds(entity, f, t), ids)
    ensures FromTable(entity, t, ids) && Export.EligibleIds(entity, f, t) <= TableIds(entity, t)
    ensures var file := RecordStream.NdjsonFile(Export.NdjsonText(Encoded(c, rules, entity, t, ids)));
            var entries := RecordStream.Records(c.parse, file);
            var n := |Export.EligibleIds(entity, f, t)|;
            var end := Finished(e => Admit(rules, entity, e), entity, t, entries);
            && LinesAscend(entries)
            && end.totals == Totals(n, n, 0, n) && end.errors == []
            && MergeStatement(t, end.staged, now).Some?
            && (MergeStatement(t, end.staged, now) == Some(t) <==>
                  TimesReadBack(rules, entity, t, Export.EligibleIds(entity, f, t)))
  {
    var admit: Admitter := e => Admit(rules, entity, e);
    ListingIsDistinct(lt, entity, t, Export.EligibleIds(entity, f, t), ids);
    ExportIsRead(c, rules, entity, t, ids);
    AdmitIsSound(rules, entity);
    ReimportedIsOwn(rules, lt, admit, entity, t, Export.EligibleIds(entity, f, t), ids, now);
    FinishedMerges(admit, entity, t, Records(rules, entity, t, ids), now);
  }

  // Without filters the whole table is exported.
  lemma NoFiltersSelectAll(entity: Entity, t: Tables)
    ensures Export.EligibleIds(entity, Export.NO_FILTERS, t) == TableIds(entity, t)
  {
  }

  // ---- The same as a run ----

  lemma EnoughFetches(batch: nat, n: nat)
    requires batch >= 1
    ensures batch * n >= n
  {
  }

  // The generator followed to its end on a table nobody else writes: n + 1 fetches are enough.
  method ListTable<V>(lt: Export.Collation, table: map<Id, V>, keep: V -> bool, batch: nat)
    returns (ids: seq<Id>, rows: seq<V>)
    requires StrictTotal(lt) && Export.EmptyIdPassed(lt, Export.Eligible(table, keep), None, batch) && batch >= 1
    ensures Lists(lt, Export.Eligible(table, keep), ids)
    ensures |rows| == |ids| && forall i :: 0 <= i < |ids| ==> ids[i] in table && rows[i] == table[ids[i]]
  {
    var tables := (i: nat) => table;
    assert Export.Unchanging(tables) && Export.CursorsKept(lt, tables, keep, None, batch);
    ghost var all := Export.Eligible(tables(0), keep);
    var fetches, ended;
    ids, rows, fetches, ended := Export.CreateRowGenerator(lt, tables, keep, batch, |table| + 1);
    EnoughFetches(batch, |table|);
    SubsetIsSmaller(all, table.Keys);
    assert |table.Keys| == |table|;
    forall i | 0 <= i < |ids| ensures ids[i] in table && rows[i] == table[ids[i]] {
      assert Export.FetchedFrom(tables, keep, fetches, ids[i], rows[i]);
    }
  }

  lemma {:induction false} SubsetIsSmaller(a: set<Id>, b: set<Id>)
    requires a <= b
    ensures |a| <= |b|
  {
    if x :| x in a {
      SubsetIsSmaller(a - {x}, b - {x});
    }
  }

  function EncodedDtos(c: Codec, entity: Entity, dtos: seq<map<string, Json>>,
                       fields: Option<seq<string>>): seq<string> {
    seq(|dtos|, i requires 0 <= i < |dtos| => c.encode(Obj(Projection(entity, dtos[i], fields))))
  }

  // The record stages of the export: projection and encoding.
  method EncodeDtos(c: Codec, entity: Entity, dtos: seq<map<string, Json>>, fields: Option<seq<string>>)
    returns (lines: seq<string>)
    ensures lines == EncodedDtos(c, entity, dtos, fields)
  {
    lines := [];
    for i := 0 to |dtos|
      invariant lines == EncodedDtos(c, entity, dtos, fields)[..i]
    {
      var projected := ApplyFieldProjection(entity, dtos[i], fields);
      lines := lines + [c.encode(Obj(projected))];
    }
  }

  method WriteNdjson(lines: seq<string>) returns (text: string)
    ensures text == Export.NdjsonText(lines)
  {
    text := "";
    for i := 0 to |lines|
      invariant text == Export.NdjsonText(lines[..i])
    {
      assert lines[..i + 1][..i] == lines[..i];
      text := text + lines[i] + "\n";
    }
    assert lines[..|lines|] == lines;
  }

  datatype BulkFormat = Json | Ndjson | Csv

  // The records of the listed rows, each with the fields asked for.
  function Lines(c: Codec, rules: Rules, entity: Entity, t: Tables, fields: Option<seq<string>>,
                 ids: seq<Id>): seq<string>
    requires FromTable(entity, t, ids)
  {
    seq(|ids|, i requires 0 <= i < |ids| =>
      c.encode(Obj(Projection(entity, ToDto(rules, entity, t, ids[i]).fields, fields))))
  }

  // No field of the record is left out of the export.
  predicate AllFields(entity: Entity, fields: Option<seq<string>>) {
    fields.None? || fields.value == [] || forall name :: name in AllowedFields(entity) ==> name in fields.value
  }

  lemma AllFieldsKeepLines(c: Codec, rules: Rules, entity: Entity, t: Tables, fields: Option<seq<string>>, ids: seq<Id>)
    requires FromTable(entity, t, ids) && AllFields(entity, fields)
    ensures Lines(c, rules, entity, t, fields, ids) == Encoded(c, rules, entity, t, ids)
  {
    forall i | 0 <= i < |ids|
      ensures Obj(Projection(entity, ToDto(rules, entity, t, ids[i]).fields, fields)) == ToDto(rules, entity, t, ids[i])
    {
      if fields.Some? && fields.value != [] {
        AllFieldsKeepRecord(rules, entity, t, ids[i], fields.value);
      }
    }
  }

  method FetchDtos(rules: Rules, lt: Export.Collation, entity: Entity, t: Tables, f: Export.Filters, batch: nat)
    returns (dtos: seq<map<string, Json>>, ids: seq<Id>)
    requires StrictTotal(lt) && batch >= 1 && Export.EmptyIdPassed(lt, Export.EligibleIds(entity, f, t), None, batch)
    ensures Lists(lt, Export.EligibleIds(entity, f, t), ids) && FromTable(entity, t, ids)
    ensures |dtos| == |ids| && forall i :: 0 <= i < |ids| ==> dtos[i] == ToDto(rules, entity, t, ids[i]).fields
  {
    match entity {
      case Users =>
        var keep := (row: UserRow) => Export.UserMatches(f, row);
        assert Export.Eligible(t.users, keep) == Export.EligibleIds(entity, f, t);
        var listed, rows := ListTable(lt, t.users, keep, batch);
        ids, dtos := listed, seq(|rows|, i requires 0 <= i < |rows| => UserDto(rules, listed[i], rows[i]).fields);
      case Articles =>
        var keep := (row: ArticleRow) => Export.ArticleMatches(f, row);
        assert Export.Eligible(t.articles, keep) == Export.EligibleIds(entity, f, t);
        var listed, rows := ListTable(lt, t.articles, keep, batch);
        ids, dtos := listed, seq(|rows|, i requires 0 <= i < |rows| => ArticleDto(rules, listed[i], rows[i]).fields);
      case Comments =>
        var keep := (row: CommentRow) => Export.CommentMatches(f, row);
        assert Export.Eligible(t.comments, keep) == Export.EligibleIds(entity, f, t);
        var listed, rows := ListTable(lt, t.comments, keep, batch);
        ids, dtos := listed, seq(|rows|, i requires 0 <= i < |rows| => CommentDto(rules, listed[i], rows[i]).fields);
    }
    assert forall i :: 0 <= i < |ids| ==> ids[i] in ids;
  }

  /** The asynchronous export job. A CSV export is refused; the others write the selected rows in
      order, with the fields asked for, one to a line or as one array. */
  method RunExportJob(c: Codec, rules: Rules, lt: Export.Collation, entity: Entity, t: Tables, f: Export.Filters,
                      fields: Option<seq<string>>, format: BulkFormat, batch: nat)
    returns (text: Option<string>, ids: seq<Id>)
    requires StrictTotal(lt) && batch >= 1 && Export.EmptyIdPassed(lt, Export.EligibleIds(entity, f, t), None, batch)
    ensures format.Csv? <==> text.None?
    ensures !format.Csv? ==> Lists(lt, Export.EligibleIds(entity, f, t), ids)
    ensures FromTable(entity, t, ids)
    ensures format.Ndjson? ==> text == Some(Export.NdjsonText(Lines(c, rules, entity, t, fields, ids)))
    ensures format.Json? ==> text == Some(Export.JsonArrayText(Lines(c, rules, entity, t, fields, ids)))
  {
    if format.Csv? {
      return None, [];
    }
    var dtos;
    dtos, ids := FetchDtos(rules, lt, entity, t, f, batch);
    var lines := EncodeDtos(c, entity, dtos, fields);
    assert lines == Lines(c, rules, entity, t, fields, ids);
    var written;
    if format.Json? {
      written := Export.WriteJsonArray(lines);
    } else {
      written := WriteNdjson(lines);
    }
    text := Some(written);
  }

  lemma NothingElse<T>(s: seq<T>)
    requires multiset(s) == multiset([])
    ensures s == []
  {
    assert |multiset(s)| == |s|;
  }

  // A job of its own for the given records.
  method ImportRecords(entity: Entity, rules: Rules, db: Database, entries: seq<Entry>, flushSize: nat, now: Time)
    returns (job: ImportJob)
    requires flushSize >= 1 && SoundRules(rules) && Constrained(db.tables) && LinesAscend(entries)
    modifies db
    ensures fresh(job) && AdmitsBy(job.admit, rules, entity) && SoundAdmitter(entity, job.admit)
    ensures AllOf(entity, Finished(job.admit, entity, old(db.tables), entries).staged)
    ensures var f := Finished(job.admit, entity, old(db.tables), entries);
            && job.status == Completed && job.totals == f.totals && multiset(job.errors) == multiset(f.errors)
            && db.tables == Overlay(entity, old(db.tables), f.staged, now)
  {
    job := new ImportJob(entity, rules, flushSize, db);
    job.ProcessImportJob(entries, now);
  }

  /** Export the selected rows of a table, with all their fields, then import the file: for every page size and every
      flush size the job completes with every row read, valid and written and no error row, and the
      database is left as it was exactly when the rewritten timestamps read back as stored. */
  method ExportThenImport(c: Codec, rules: Rules, lt: Export.Collation, entity: Entity, db: Database, f: Export.Filters,
                          fields: Option<seq<string>>, batch: nat, flushSize: nat, now: Time)
    returns (job: ImportJob)
    requires SoundCodec(c) && SoundRules(rules) && StrictTotal(lt) && batch >= 1 && flushSize >= 1
    requires Constrained(db.tables) && NormalSelected(rules, entity, db.tables, f) && AllFields(entity, fields)
    modifies db
    ensures fresh(job) && job.status == Completed && job.errors == []
    ensures var n := |Export.EligibleIds(entity, f, old(db.tables))|; job.totals == Totals(n, n, 0, n)
    ensures Export.EligibleIds(entity, f, old(db.tables)) <= TableIds(entity, old(db.tables))
    ensures db.tables == old(db.tables) <==>
            TimesReadBack(rules, entity, old(db.tables), Export.EligibleIds(entity, f, old(db.tables)))
  {
    ghost var t := db.tables;
    var written, ids := RunExportJob(c, rules, lt, entity, db.tables, f, fields, Ndjson, batch);
    AllFieldsKeepLines(c, rules, entity, t, fields, ids);
    var text := written.value;
    ExportIsRead(c, rules, entity, t, ids);
    var entries := RecordStream.StreamInputRecords(c.parse, RecordStream.NdjsonFile(text));
    RecordsAscend(rules, entity, t, ids);
    job := ImportRecords(entity, rules, db, entries, flushSize, now);
    ReimportedIsOwn(rules, lt, job.admit, entity, t, Export.EligibleIds(entity, f, t), ids, now);
    NothingElse(job.errors);
  }

  /** The whole import of one file, of any format and any content, into tables no other job writes:
      for every flush size the job ends as the record-by-record reference says, every record was
      written or failed, and each line that holds one is in exactly one error row or merged row. */
  method ImportFile(job: ImportJob, parse: string -> Option<Json>, source: RecordStream.Source, now: Time)
    requires job.Configured() && job.TablesReady()
    modifies job, job.db
    ensures var f := Finished(job.admit, job.entity, old(job.db.tables), RecordStream.Records(parse, source));
            && job.status == Completed && job.totals == f.totals && multiset(job.errors) == multiset(f.errors)
            && AllOf(job.entity, f.staged) && job.db.tables == Overlay(job.entity, old(job.db.tables), f.staged, now)
            && f.totals.read == |RecordStream.Records(parse, source)| == f.totals.written + f.totals.failed
            && f.totals.failed == |f.errors| && f.totals.written == |f.staged|
            && forall n: nat ::
                 RowsAt(f.staged, n) + ErrorsAt(f.errors, n) == EntriesAt(RecordStream.Records(parse, source), n) <= 1
    ensures Constrained(job.db.tables)
  {
    ghost var t := job.db.tables;
    var entries := RecordStream.StreamInputRecords(parse, source);
    job.ProcessImportJob(entries, now);
    CompletionConserves(job.admit, job.entity, t, entries);
    forall n: nat
      ensures RowsAt(Finished(job.admit, job.entity, t, entries).staged, n) +
              ErrorsAt(Finished(job.admit, job.entity, t, entries).errors, n) == EntriesAt(entries, n) <= 1
    {
      CompletionPartitions(job.admit, job.entity, t, entries, n);
      LineReadOnce(entries, n);
    }
  }

  // ---- Tables built by imports ----

  ghost predicate NormalPayloads(rules: Rules, entity: Entity, rows: seq<StagedRow>) {
    forall i :: 0 <= i < |rows| ==> OfEntity(entity, rows[i].payload) && Normal(rules, rows[i].payload)
  }

  lemma HandleKeepsNormal(rules: Rules, entity: Entity, k: Lookups, s: RunState, a: Admission)
    requires NormalPayloads(rules, entity, s.staged)
    requires a.Admitted? ==> OfEntity(entity, a.item.data) && Normal(rules, a.item.data)
    ensures NormalPayloads(rules, entity, Handle(k, s, a).staged)
  {
  }

  lemma {:induction false} StagedAreNormal(admit: Admitter, rules: Rules, entity: Entity, k: Lookups, s: RunState,
                                           entries: seq<Entry>)
    requires SoundRules(rules) && AdmitsBy(admit, rules, entity) && s.staged == []
    ensures NormalPayloads(rules, entity, RunFrom(admit, k, s, entries).staged)
  {
    if entries != [] {
      var init, e := entries[..|entries| - 1], entries[|entries| - 1];
      StagedAreNormal(admit, rules, entity, k, s, init);
      AdmittedIsNormal(admit, rules, entity, e);
      HandleKeepsNormal(rules, entity, k, RunFrom(admit, k, s, init), admit(e));
    }
  }

  // The id a record resolves to is fit to be exported and read again.
  lemma ResolvedIsNormal(rules: Rules, entity: Entity, t: Tables, d: ImportRecord)
    requires SoundRules(rules) && UniqueEmails(t.users) && UniqueSlugs(t.articles) && NormalTable(rules, entity, t)
    requires OfEntity(entity, d) && Normal(rules, d)
    ensures var x := ResolvedId(WholeTable(t), d); x != "" && Trimmed(x)
  {
    match d
    case UserRecord(_, email, _, _, _, _, _) =>
      assert SoundEmail(rules, email);
      if email in IdByEmail(t.users) {
        assert NormalRow(rules, entity, t, IdByEmail(t.users)[email]);
      }
    case ArticleRecord(_, slug, _, _, _, _, _, _, _, _) =>
      KebabIsTrimmed(slug);
      if slug in IdBySlug(t.articles) {
        assert NormalRow(rules, entity, t, IdBySlug(t.articles)[slug]);
      }
    case CommentRecord(_, _, _, _, _) =>
  }

  ghost predicate GoodRow(rules: Rules, entity: Entity, row: StagedRow) {
    && OfEntity(entity, row.payload) && Normal(rules, row.payload)
    && row.externalId != "" && Trimmed(row.externalId)
  }

  ghost predicate GoodRows(rules: Rules, entity: Entity, rows: seq<StagedRow>) {
    forall i :: 0 <= i < |rows| ==> GoodRow(rules, entity, rows[i])
  }

  // The timestamps a merge writes for a staged row print as text the validator accepts. An update
  // keeps the time of creation, except of a comment.
  predicate WritesPrintable(rules: Rules, t: Tables, row: StagedRow, now: Time) {
    match row.payload
    case UserRecord(_, _, _, _, _, createdAt, updatedAt) =>
      && Printable(rules, GetOr(updatedAt, now))
      && (row.externalId !in t.users ==> Printable(rules, GetOr(createdAt, now)))
    case ArticleRecord(_, _, _, _, _, _, publishedAt, _, createdAt, updatedAt) =>
      && Printable(rules, GetOr(updatedAt, now)) && PrintableOptional(rules, publishedAt)
      && (row.externalId !in t.articles ==> Printable(rules, GetOr(createdAt, now)))
    case CommentRecord(_, _, _, _, createdAt) => Printable(rules, GetOr(createdAt, now))
  }

  lemma UserIsNormal(rules: Rules, t: Tables, after: Tables, x: Id, row: StagedRow, now: Time)
    requires (x in t.users ==> NormalRow(rules, Users, t, x)) && GoodRow(rules, Users, row) && row.externalId == x
    requires x in after.users && after.users[x] == UpsertedUser(Get(t.users, x), row.payload, now)
    ensures NormalRow(rules, Users, after, x) <==> WritesPrintable(rules, t, row, now)
  {
  }

  lemma ArticleIsNormal(rules: Rules, t: Tables, after: Tables, x: Id, row: StagedRow, now: Time)
    requires (x in t.articles ==> NormalRow(rules, Articles, t, x)) && GoodRow(rules, Articles, row)
    requires row.externalId == x
    requires x in after.articles && after.articles[x] == UpsertedArticle(Get(t.articles, x), row.payload, now)
    ensures NormalRow(rules, Articles, after, x) <==> WritesPrintable(rules, t, row, now)
  {
  }

  lemma CommentIsNormal(rules: Rules, t: Tables, after: Tables, x: Id, row: StagedRow, now: Time)
    requires GoodRow(rules, Comments, row) && row.externalId == x
    requires x in after.comments && after.comments[x] == UpsertedComment(row.payload, now)
    ensures NormalRow(rules, Comments, after, x) <==> WritesPrintable(rules, t, row, now)
  {
  }

  lemma {:induction false} WrittenIsNormal(rules: Rules, entity: Entity, t: Tables, rows: seq<StagedRow>, now: Time,
                                           x: Id)
    requires NormalTable(rules, entity, t) && GoodRows(rules, entity, rows) && AllOf(entity, rows) && x in Ids(rows)
    ensures x in TableIds(entity, Overlay(entity, t, rows, now)) && RowFor(rows, x).Some?
    ensures NormalRow(rules, entity, Overlay(entity, t, rows, now), x) <==>
            WritesPrintable(rules, t, RowFor(rows, x).value, now)
  {
    RowForMember(rows, x);
    var after, row := Overlay(entity, t, rows, now), RowFor(rows, x).value;
    assert x in TableIds(entity, t) ==> NormalRow(rules, entity, t, x);
    match entity
    case Users => UserIsNormal(rules, t, after, x, row, now);
    case Articles => ArticleIsNormal(rules, t, after, x, row, now);
    case Comments => CommentIsNormal(rules, t, after, x, row, now);
  }

  lemma UntouchedIsNormal(rules: Rules, entity: Entity, t: Tables, rows: seq<StagedRow>, now: Time, x: Id)
    requires NormalTable(rules, entity, t) && AllOf(entity, rows) && x !in Ids(rows) && x in TableIds(entity, t)
    ensures x in TableIds(entity, Overlay(entity, t, rows, now))
    ensures NormalRow(rules, entity, Overlay(entity, t, rows, now), x)
  {
    RowForMember(rows, x);
    assert NormalRow(rules, entity, t, x);
  }

  lemma OverlayIds(entity: Entity, t: Tables, rows: seq<StagedRow>, now: Time)
    requires AllOf(entity, rows)
    ensures TableIds(entity, Overlay(entity, t, rows, now)) == TableIds(entity, t) + Ids(rows)
  {
  }

  lemma {:induction false} OverlayIsNormal(rules: Rules, entity: Entity, t: Tables, rows: seq<StagedRow>, now: Time)
    requires NormalTable(rules, entity, t) && GoodRows(rules, entity, rows) && AllOf(entity, rows) && DistinctIds(rows)
    ensures NormalTable(rules, entity, Overlay(entity, t, rows, now)) <==>
            forall i :: 0 <= i < |rows| ==> WritesPrintable(rules, t, rows[i], now)
  {
    var after := Overlay(entity, t, rows, now);
    OverlayIds(entity, t, rows, now);
    if forall i :: 0 <= i < |rows| ==> WritesPrintable(rules, t, rows[i], now) {
      forall x | x in TableIds(entity, after) ensures NormalRow(rules, entity, after, x) {
        RowForMember(rows, x);
        if x in Ids(rows) {
          WrittenIsNormal(rules, entity, t, rows, now, x);
        } else {
          UntouchedIsNormal(rules, entity, t, rows, now, x);
        }
      }
    }
    if NormalTable(rules, entity, after) {
      forall i | 0 <= i < |rows| ensures WritesPrintable(rules, t, rows[i], now) {
        OneRowPerId(rows, i);
        assert rows[i].externalId in Ids(rows);
        WrittenIsNormal(rules, entity, t, rows, now, rows[i].externalId);
        assert NormalRow(rules, entity, after, rows[i].externalId);
      }
    }
  }

  lemma ResolvedAreGood(rules: Rules, entity: Entity, t: Tables, rows: seq<StagedRow>)
    requires SoundRules(rules) && UniqueEmails(t.users) && UniqueSlugs(t.articles) && NormalTable(rules, entity, t)
    requires NormalPayloads(rules, entity, rows) && Resolved(WholeTable(t), rows)
    ensures GoodRows(rules, entity, rows)
  {
    forall i | 0 <= i < |rows| ensures GoodRow(rules, entity, rows[i]) {
      ResolvedIsNormal(rules, entity, t, rows[i].payload);
    }
  }

  lemma CleanedAreGood(rules: Rules, entity: Entity, t: Tables, rows: seq<StagedRow>)
    requires UniqueSlugs(t.articles) && GoodRows(rules, entity, rows)
    ensures GoodRows(rules, entity, Cleaned(entity, t, rows).kept)
  {
    SiftPartitions(IdBySlug(t.articles), rows);
    var kept := Cleaned(entity, t, rows).kept;
    forall i | 0 <= i < |kept| ensures GoodRow(rules, entity, kept[i]) {
      assert kept[i] in kept && kept[i] in rows;
    }
  }

  /** An import keeps its table such that it can be exported and imported again exactly if every
      timestamp it writes prints as text the validator accepts. */
  lemma {:induction false} ImportKeepsNormal(admit: Admitter, rules: Rules, entity: Entity, t: Tables,
                                             entries: seq<Entry>, now: Time)
    requires SoundRules(rules) && AdmitsBy(admit, rules, entity) && SoundAdmitter(entity, admit)
    requires Constrained(t) && NormalTable(rules, entity, t) && LinesAscend(entries)
    ensures var rows := Finished(admit, entity, t, entries).staged;
            var m := MergeStatement(t, rows, now);
            && m.Some? && Constrained(m.value)
            && (NormalTable(rules, entity, m.value) <==>
                  forall i :: 0 <= i < |rows| ==> WritesPrintable(rules, t, rows[i], now))
  {
    var k := WholeTable(t);
    var staged := OneByOne(admit, k, entries).staged;
    FinishedMerges(admit, entity, t, entries, now);
    StagedAreNormal(admit, rules, entity, k, START, entries);
    StagedIsWellStaged(admit, entity, k, entries, if entries == [] then 0 else entries[|entries| - 1].line + 1);
    ResolvedAreGood(rules, entity, t, staged);
    CleanedAreGood(rules, entity, t, staged);
    OverlayIsNormal(rules, entity, t, Finished(admit, entity, t, entries).staged, now);
  }
}
