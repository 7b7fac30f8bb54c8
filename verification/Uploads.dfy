/** From the uploaded record to the production row: a record that is not reported is stored, and
    every field of its row is what its raw properties mean. */
module Uploads {
  import opened Model
  import opened Validation
  import opened ValidationMeaning
  import opened Staging
  import opened Merge
  import opened MergedFields
  import opened SlugConflicts
  import opened ImportSpec
  import opened MergeSafety
  import ArticleRestarts

  lemma {:induction false} NoErrorAt(errors: seq<JobError>, n: nat)
    requires forall e :: e in errors ==> e.line != n
    ensures ErrorsAt(errors, n) == 0
  {
    if errors != [] {
      assert errors[|errors| - 1] in errors;
      NoErrorAt(errors[..|errors| - 1], n);
    }
  }

  lemma {:induction false} RowAt(rows: seq<StagedRow>, n: nat) returns (i: nat)
    requires RowsAt(rows, n) > 0
    ensures i < |rows| && rows[i].line == n
  {
    if rows[|rows| - 1].line == n {
      i := |rows| - 1;
    } else {
      i := RowAt(rows[..|rows| - 1], n);
    }
  }

  // A row a job merges carries an admitted record of its input, under the id that record resolves to.
  lemma {:induction false} MergedFromEntry(admit: Admitter, entity: Entity, t: Tables, entries: seq<Entry>,
                                           row: StagedRow) returns (j: nat)
    requires SoundAdmitter(entity, admit) && Constrained(t) && LinesAscend(entries)
    requires row in Finished(admit, entity, t, entries).staged
    ensures j < |entries| && entries[j].line == row.line && admit(entries[j]) == Admitted(Item(row.line, row.payload))
    ensures row.externalId == ResolvedId(WholeTable(t), row.payload)
  {
    var k := WholeTable(t);
    var staged := OneByOne(admit, k, entries).staged;
    SiftPartitions(IdBySlug(t.articles), staged);
    assert row in staged;
    StagedIsWellStaged(admit, entity, k, entries, if entries == [] then 0 else entries[|entries| - 1].line + 1);
    var n :| 0 <= n < |staged| && staged[n] == row;
    assert staged[n].externalId == ResolvedId(k, staged[n].payload);
    j := ArticleRestarts.StagedFromLine(admit, entity, k, entries, row);
  }

  // The record of the entry is stored in the row it resolves to.
  ghost predicate StoredFrom(rules: Rules, entity: Entity, t: Tables, after: Tables, e: Entry, row: StagedRow,
                             now: Time)
    requires UniqueEmails(t.users) && UniqueSlugs(t.articles)
  {
    && row.line == e.line && Means(rules, entity, e.raw, row.payload)
    && row.externalId == ResolvedId(WholeTable(t), row.payload) && Stored(t, after, row, now)
  }

  lemma FinishedIsStored(admit: Admitter, entity: Entity, t: Tables, entries: seq<Entry>, now: Time, i: nat)
    requires SoundAdmitter(entity, admit) && Constrained(t) && LinesAscend(entries)
    requires i < |Finished(admit, entity, t, entries).staged|
    ensures var rows := Finished(admit, entity, t, entries).staged;
            && MergeStatement(t, rows, now).Some?
            && Stored(t, MergeStatement(t, rows, now).value, rows[i], now)
  {
    FinishedMerges(admit, entity, t, entries, now);
    MergeStoresEveryField(entity, t, Finished(admit, entity, t, entries).staged, now);
  }

  /** Every entry of an upload has an error row on its line, or the tables hold its record after the
      merge: in the row of the id it resolves to, each field is what the raw properties mean. */
  lemma {:induction false} UploadIsStored(admit: Admitter, rules: Rules, entity: Entity, t: Tables, entries: seq<Entry>,
                                          now: Time, i: nat)
    requires AdmitsBy(admit, rules, entity) && SoundAdmitter(entity, admit) && Constrained(t) && LinesAscend(entries)
    requires i < |entries|
    ensures var f := Finished(admit, entity, t, entries);
            && MergeStatement(t, f.staged, now).Some?
            && ((exists e :: e in f.errors && e.line == entries[i].line) ||
                exists row :: row in f.staged &&
                  StoredFrom(rules, entity, t, MergeStatement(t, f.staged, now).value, entries[i], row, now))
  {
    var f, line := Finished(admit, entity, t, entries), entries[i].line;
    FinishedMerges(admit, entity, t, entries, now);
    if forall e :: e in f.errors ==> e.line != line {
      NoErrorAt(f.errors, line);
      CompletionPartitions(admit, entity, t, entries, line);
      var n := RowAt(f.staged, line);
      var row := f.staged[n];
      var j := MergedFromEntry(admit, entity, t, entries, row);
      assert j == i;
      StoredRecord(admit, rules, entity, entries[i], row);
      FinishedIsStored(admit, entity, t, entries, now, n);
      assert StoredFrom(rules, entity, t, MergeStatement(t, f.staged, now).value, entries[i], row, now);
    }
  }

  lemma {:induction false} StoredRecord(admit: Admitter, rules: Rules, entity: Entity, e: Entry, row: StagedRow)
    requires AdmitsBy(admit, rules, entity) && admit(e) == Admitted(Item(row.line, row.payload))
    ensures Means(rules, entity, e.raw, row.payload)
  {
    AcceptedExactly(rules, entity, e.raw, row.payload);
    assert admit(e) == Admit(rules, entity, e);
  }
}
