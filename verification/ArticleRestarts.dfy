/** Running a finished articles job once more. */
module ArticleRestarts {
  import opened Model
  import opened Staging
  import opened Merge
  import opened SlugConflicts
  import opened ImportSpec
  import opened MergeSafety
  import opened Restarts

  // Which article holds a slug once the staged rows are merged.
  function SlugOwnerAfter(k: Lookups, rows: seq<StagedRow>, slug: string): Option<Id> {
    var p, x := FirstBySlug(rows, slug), Get(k.idBySlug, slug);
    if p.Some? then Some(p.value.externalId)
    else if x.Some? && FirstById(rows, x.value).None? then x
    else None
  }

  lemma SlugOwner(t: Tables, rows: seq<StagedRow>, now: Time, slug: string)
    requires UniqueEmails(t.users) && UniqueSlugs(t.articles) && slug != ""
    requires AllOf(Articles, rows) && DistinctIds(rows)
    requires UniqueSlugs(OverlayArticles(t.articles, rows, now))
    ensures Get(IdBySlug(OverlayArticles(t.articles, rows, now)), slug) == SlugOwnerAfter(WholeTable(t), rows, slug)
  {
    var once := OverlayArticles(t.articles, rows, now);
    FirstBySlugMember(rows, slug);
    if FirstBySlug(rows, slug).Some? {
      var i :| 0 <= i < |rows| && SlugOf(rows[i]) == slug &&
               rows[i].externalId == FirstBySlug(rows, slug).value.externalId;
      OneRowPerId(rows, i);
      RowForMember(rows, rows[i].externalId);
      IdBySlugFinds(once, rows[i].externalId);
    } else {
      forall x ensures x in once && once[x].slug == Some(slug) <==>
                       x in t.articles && t.articles[x].slug == Some(slug) && FirstById(rows, x).None?
      {
        RowForMember(rows, x);
        FirstByIdIffPresent(rows, x);
      }
      if x :| x in once && once[x].slug == Some(slug) {
        IdBySlugFinds(once, x);
        IdBySlugFinds(t.articles, x);
      }
    }
  }

  // An article record that resolves to another id in a second run: its slug was freed, as its
  // holder was given another slug and the record alone does not resolve to that holder; or its
  // slug, new to the table, now belongs to a merged row under another id than the record's own.
  ghost predicate ArticleUnsettled(k: Lookups, rows: seq<StagedRow>, d: ImportRecord)
    requires d.ArticleRecord?
  {
    var alone, p := GetOr(d.id, d.slug), FirstBySlug(rows, d.slug);
    match Get(k.idBySlug, d.slug)
    case Some(x) => p.None? && IdStaged(rows, x) && alone != x
    case None => p.Some? && alone != p.value.externalId
  }

  lemma ArticleAgain(k: Lookups, other: Lookups, staged: seq<StagedRow>, rows: seq<StagedRow>, item: Item)
    requires item.data.ArticleRecord? && other.userIds == k.userIds && AllOf(Articles, rows) && Resolved(k, rows)
    requires Get(other.idBySlug, item.data.slug) == SlugOwnerAfter(k, rows, item.data.slug)
    ensures Decide(other, staged, item) == Decide(k, staged, item) <==>
            (item.data.authorId in k.userIds ==> !ArticleUnsettled(k, rows, item.data))
  {
    var d := item.data;
    FirstBySlugMember(rows, d.slug);
    if i :| 0 <= i < |rows| && SlugOf(rows[i]) == d.slug && FirstBySlug(rows, d.slug).Some? &&
            rows[i].externalId == FirstBySlug(rows, d.slug).value.externalId {
      assert rows[i].externalId == ResolvedId(k, rows[i].payload);
    }
    if Get(k.idBySlug, d.slug).Some? {
      FirstByIdIffPresent(rows, Get(k.idBySlug, d.slug).value);
    }
    assert ResolvedId(other, d) == ResolvedId(k, d) <==> !ArticleUnsettled(k, rows, d);
    FirstByIdNames(staged, ResolvedId(k, d));
    FirstByIdNames(staged, ResolvedId(other, d));
  }

  // ---- What the final state of an articles job tells about its read loop ----

  lemma {:induction false} SlugErrorsAt(rows: seq<StagedRow>, i: nat)
    requires i < |rows|
    ensures |SlugErrors(rows)| == |rows| && SlugErrors(rows)[i] == SlugError(rows[i])
  {
    SlugErrorsLength(rows);
    SlugErrorsLength(rows[..|rows| - 1]);
    if i < |rows| - 1 {
      SlugErrorsAt(rows[..|rows| - 1], i);
    }
  }

  // A staged row carries the record of the entry on its line.
  lemma {:induction false} StagedFromLine(admit: Admitter, entity: Entity, k: Lookups, entries: seq<Entry>,
                                          row: StagedRow)
    returns (i: nat)
    requires SoundAdmitter(entity, admit) && row in OneByOne(admit, k, entries).staged
    ensures i < |entries| && admit(entries[i]) == Admitted(Item(row.line, row.payload)) && entries[i].line == row.line
  {
    var n := |entries| - 1;
    var before := OneByOne(admit, k, entries[..n]).staged;
    if row in before {
      i := StagedFromLine(admit, entity, k, entries[..n], row);
    } else {
      i := n;
      assert SoundAt(entity, admit, entries[n]);
      DecideKeepsLine(k, before, admit(entries[n]).item);
    }
  }

  lemma LineTellsRecord(admit: Admitter, entity: Entity, k: Lookups, other: Lookups, entries: seq<Entry>,
                        a: StagedRow, b: StagedRow)
    requires SoundAdmitter(entity, admit) && LinesAscend(entries) && a.line == b.line
    requires a in OneByOne(admit, k, entries).staged && b in OneByOne(admit, other, entries).staged
    ensures a.payload == b.payload
  {
    var i := StagedFromLine(admit, entity, k, entries, a);
    var j := StagedFromLine(admit, entity, other, entries, b);
    assert i < j || i == j || j < i;
  }

  lemma LastAscends(rows: seq<StagedRow>, r: StagedRow)
    requires Ascending(rows) && r in rows
    ensures r == rows[|rows| - 1] || r.line < rows[|rows| - 1].line
    ensures r in rows[..|rows| - 1] <==> r != rows[|rows| - 1]
  {
    var i :| 0 <= i < |rows| && rows[i] == r;
    if i < |rows| - 1 {
      assert rows[..|rows| - 1][i] == r;
    }
  }

  lemma {:induction false} AscendingUnique(a: seq<StagedRow>, b: seq<StagedRow>)
    requires Ascending(a) && Ascending(b) && forall r :: r in a <==> r in b
    ensures a == b
  {
    assert |b| > 0 ==> b[0] in b;
    if a != [] {
      var x := a[|a| - 1];
      assert x in b;
      var y := b[|b| - 1];
      assert y in a;
      LastAscends(a, y);
      LastAscends(b, x);
      var p, q := a[..|a| - 1], b[..|b| - 1];
      forall r | r in p ensures r in q {
        LastAscends(a, r);
        LastAscends(b, r);
      }
      forall r | r in q ensures r in p {
        LastAscends(a, r);
        LastAscends(b, r);
      }
      AscendingUnique(p, q);
    }
  }

  lemma {:induction false} SiftSame(k: map<string, Id>, other: map<string, Id>, rows: seq<StagedRow>)
    requires forall i :: 0 <= i < |rows| ==> (Taken(k, rows[i]) <==> Taken(other, rows[i]))
    ensures Sift(k, rows) == Sift(other, rows)
  {
    if rows != [] {
      SiftSame(k, other, rows[..|rows| - 1]);
    }
  }

  lemma {:induction false} CleanedTheSame(t: Tables, u: Tables, rows: seq<StagedRow>)
    requires UniqueEmails(t.users) && UniqueSlugs(t.articles) && WellStaged(Articles, WholeTable(t), rows)
    requires UniqueEmails(u.users) && UniqueSlugs(u.articles) && WellStaged(Articles, WholeTable(u), rows)
    ensures Sift(IdBySlug(u.articles), rows) == Sift(IdBySlug(t.articles), rows)
  {
    forall i | 0 <= i < |rows| ensures !Taken(IdBySlug(t.articles), rows[i]) && !Taken(IdBySlug(u.articles), rows[i]) {
      OnlyLaterDuplicatesDropped(t, rows, i);
      OnlyLaterDuplicatesDropped(u, rows, i);
    }
    SiftSame(IdBySlug(t.articles), IdBySlug(u.articles), rows);
  }

  // The end of a list of errors that reports the given rows determines those rows and what came before.
  lemma {:induction false} ErrorsSplit(e: seq<JobError>, a: seq<StagedRow>, f: seq<JobError>, b: seq<StagedRow>)
    requires e + SlugErrors(a) == f + SlugErrors(b) && |a| == |b|
    ensures e == f && forall i :: 0 <= i < |a| ==> a[i].line == b[i].line && a[i].externalId == b[i].externalId
  {
    SlugErrorsLength(a);
    SlugErrorsLength(b);
    assert e == (e + SlugErrors(a))[..|e|] && f == (f + SlugErrors(b))[..|f|];
    assert |e| == |f|;
    forall i | 0 <= i < |a| ensures a[i].line == b[i].line && a[i].externalId == b[i].externalId {
      SlugErrorsAt(a, i);
      SlugErrorsAt(b, i);
      assert (e + SlugErrors(a))[|e| + i] == SlugErrors(a)[i] && (f + SlugErrors(b))[|f| + i] == SlugErrors(b)[i];
    }
  }

  lemma SameRowsByLine(admit: Admitter, k: Lookups, other: Lookups, entries: seq<Entry>, a: seq<StagedRow>,
                       b: seq<StagedRow>)
    requires SoundAdmitter(Articles, admit) && LinesAscend(entries) && |a| == |b|
    requires forall i :: 0 <= i < |a| ==> a[i].line == b[i].line && a[i].externalId == b[i].externalId
    requires forall r :: r in a ==> r in OneByOne(admit, k, entries).staged
    requires forall r :: r in b ==> r in OneByOne(admit, other, entries).staged
    ensures a == b
  {
    forall i | 0 <= i < |a| ensures a[i] == b[i] {
      assert a[i] in a && b[i] in b;
      LineTellsRecord(admit, Articles, k, other, entries, a[i], b[i]);
    }
  }

  // The end of a job, put together from its read loop and what the cleanup kept and dropped.
  function EndOf(r: RunState, c: Sifted): RunState {
    RunState(r.totals.(failed := r.totals.failed + |c.conflicts|, written := |c.kept|), c.kept,
             r.errors + SlugErrors(c.conflicts))
  }

  ghost predicate Counts(r: RunState, c: Sifted) {
    r.totals.valid == |r.staged| == |c.kept| + |c.conflicts| && r.totals.written == 0
  }

  lemma SameParts(r: RunState, c: Sifted, q: RunState, d: Sifted)
    requires Counts(r, c) && Counts(q, d) && EndOf(r, c) == EndOf(q, d)
    ensures r.totals == q.totals && r.errors == q.errors && c.kept == d.kept && |c.conflicts| == |d.conflicts|
    ensures forall i :: 0 <= i < |c.conflicts| ==>
              c.conflicts[i].line == d.conflicts[i].line && c.conflicts[i].externalId == d.conflicts[i].externalId
  {
    ErrorsSplit(r.errors, c.conflicts, q.errors, d.conflicts);
  }

  lemma {:induction false} SameSifted(k: map<string, Id>, a: seq<StagedRow>, other: map<string, Id>, b: seq<StagedRow>)
    requires Ascending(a) && Ascending(b) && Sift(k, a) == Sift(other, b)
    ensures a == b
  {
    SiftPartitions(k, a);
    SiftPartitions(other, b);
    AscendingUnique(a, b);
  }

  lemma {:induction false} DroppedWereStaged(k: map<string, Id>, rows: seq<StagedRow>)
    ensures forall r :: r in Sift(k, rows).conflicts ==> r in rows
  {
    SiftPartitions(k, rows);
  }

  lemma RunCounts(admit: Admitter, t: Tables, entries: seq<Entry>)
    requires SoundAdmitter(Articles, admit) && LinesAscend(entries) && UniqueEmails(t.users) && UniqueSlugs(t.articles)
    ensures var r := OneByOne(admit, WholeTable(t), entries);
            var c := Sift(IdBySlug(t.articles), r.staged);
            Counts(r, c) && Ascending(r.staged) && Finished(admit, Articles, t, entries) == EndOf(r, c)
  {
    ReadLoopConserves(admit, WholeTable(t), entries);
    StagedIsWellStaged(admit, Articles, WholeTable(t), entries,
                       if entries == [] then 0 else entries[|entries| - 1].line + 1);
    SiftCounts(IdBySlug(t.articles), OneByOne(admit, WholeTable(t), entries).staged);
  }

  /** An articles job that ends alike over two tables was alike already before the cleanup. */
  lemma FinishedTellsRun(admit: Admitter, t: Tables, u: Tables, entries: seq<Entry>)
    requires SoundAdmitter(Articles, admit) && LinesAscend(entries)
    requires UniqueEmails(t.users) && UniqueSlugs(t.articles) && UniqueEmails(u.users) && UniqueSlugs(u.articles)
    requires Finished(admit, Articles, u, entries) == Finished(admit, Articles, t, entries)
    ensures OneByOne(admit, WholeTable(u), entries) == OneByOne(admit, WholeTable(t), entries)
  {
    var r, q := OneByOne(admit, WholeTable(t), entries), OneByOne(admit, WholeTable(u), entries);
    var c, d := Sift(IdBySlug(t.articles), r.staged), Sift(IdBySlug(u.articles), q.staged);
    RunCounts(admit, t, entries);
    RunCounts(admit, u, entries);
    SameParts(r, c, q, d);
    DroppedWereStaged(IdBySlug(t.articles), r.staged);
    DroppedWereStaged(IdBySlug(u.articles), q.staged);
    SameRowsByLine(admit, WholeTable(t), WholeTable(u), entries, c.conflicts, d.conflicts);
    SameSifted(IdBySlug(t.articles), r.staged, IdBySlug(u.articles), q.staged);
  }

  // ---- The theorem ----

  ghost predicate ArticleSettledAt(admit: Admitter, k: Lookups, entries: seq<Entry>, rows: seq<StagedRow>, i: nat)
    requires i < |entries|
  {
    var a := admit(entries[i]);
    a.Admitted? && a.item.data.ArticleRecord? && a.item.data.authorId in k.userIds ==>
      !ArticleUnsettled(k, rows, a.item.data)
  }

  lemma ArticleSameVerdict(admit: Admitter, k: Lookups, other: Lookups, entries: seq<Entry>, rows: seq<StagedRow>,
                           i: nat)
    requires SoundAdmitter(Articles, admit) && i < |entries|
    requires other.userIds == k.userIds && AllOf(Articles, rows) && Resolved(k, rows)
    requires forall slug :: slug != "" ==> Get(other.idBySlug, slug) == SlugOwnerAfter(k, rows, slug)
    ensures SameVerdict(admit, k, other, entries, i) <==> ArticleSettledAt(admit, k, entries, rows, i)
  {
    assert SoundAt(Articles, admit, entries[i]);
    if admit(entries[i]).Admitted? {
      ArticleAgain(k, other, OneByOne(admit, k, entries[..i]).staged, rows, admit(entries[i]).item);
    }
  }

  lemma FinishedRowsResolve(admit: Admitter, t: Tables, entries: seq<Entry>)
    requires SoundAdmitter(Articles, admit) && LinesAscend(entries) && UniqueEmails(t.users) && UniqueSlugs(t.articles)
    ensures Resolved(WholeTable(t), Finished(admit, Articles, t, entries).staged)
  {
    var k := WholeTable(t);
    var staged := OneByOne(admit, k, entries).staged;
    StagedIsWellStaged(admit, Articles, k, entries, if entries == [] then 0 else entries[|entries| - 1].line + 1);
    KeptArticlesAreDistinct(IdBySlug(t.articles), staged);
    var kept := Finished(admit, Articles, t, entries).staged;
    forall i | 0 <= i < |kept| ensures kept[i].externalId == ResolvedId(k, kept[i].payload) {
      var j :| 0 <= j < |staged| && staged[j] == kept[i];
    }
  }

  // If the read loops agree, so do the cleanups and with them the whole jobs.
  lemma RunTellsFinished(admit: Admitter, t: Tables, u: Tables, entries: seq<Entry>)
    requires SoundAdmitter(Articles, admit) && LinesAscend(entries)
    requires UniqueEmails(t.users) && UniqueSlugs(t.articles) && UniqueEmails(u.users) && UniqueSlugs(u.articles)
    requires OneByOne(admit, WholeTable(u), entries) == OneByOne(admit, WholeTable(t), entries)
    ensures Finished(admit, Articles, u, entries) == Finished(admit, Articles, t, entries)
  {
    var next := if entries == [] then 0 else entries[|entries| - 1].line + 1;
    StagedIsWellStaged(admit, Articles, WholeTable(t), entries, next);
    StagedIsWellStaged(admit, Articles, WholeTable(u), entries, next);
    CleanedTheSame(t, u, OneByOne(admit, WholeTable(t), entries).staged);
  }

  /** An articles job that is run again after its merge stages the same rows and reports the same
      errors exactly if no admitted record with an existing author is unsettled; merging the first
      run's rows once more leaves the tables as they are exactly if no time has passed or every one of
      them carries `updated_at`. */
  lemma ArticlesRunTwiceExactly(admit: Admitter, t: Tables, entries: seq<Entry>, now: Time, later: Time)
    requires SoundAdmitter(Articles, admit) && Constrained(t) && LinesAscend(entries)
    ensures AllOf(Articles, Finished(admit, Articles, t, entries).staged)
    ensures var rows := Finished(admit, Articles, t, entries).staged;
            var once := Overlay(Articles, t, rows, now);
            && Constrained(once)
            && (Overlay(Articles, once, rows, later) == once <==> now == later || AllDated(rows))
            && (Finished(admit, Articles, once, entries) == Finished(admit, Articles, t, entries) <==>
                  forall i :: 0 <= i < |entries| ==> ArticleSettledAt(admit, WholeTable(t), entries, rows, i))
  {
    var k, rows := WholeTable(t), Finished(admit, Articles, t, entries).staged;
    FinishedMerges(admit, Articles, t, entries, now);
    var once := Overlay(Articles, t, rows, now);
    OverlayTwiceExactly(Articles, t, rows, now, later);
    FinishedRowsResolve(admit, t, entries);
    RunsAgreeExactly(admit, Articles, k, WholeTable(once), entries);
    forall slug | slug != "" ensures Get(WholeTable(once).idBySlug, slug) == SlugOwnerAfter(k, rows, slug) {
      SlugOwner(t, rows, now, slug);
    }
    forall i | 0 <= i < |entries|
      ensures SameVerdict(admit, k, WholeTable(once), entries, i) <==> ArticleSettledAt(admit, k, entries, rows, i)
    {
      ArticleSameVerdict(admit, k, WholeTable(once), entries, rows, i);
    }
    if Finished(admit, Articles, once, entries) == Finished(admit, Articles, t, entries) {
      FinishedTellsRun(admit, t, once, entries);
    } else if OneByOne(admit, WholeTable(once), entries) == OneByOne(admit, k, entries) {
      RunTellsFinished(admit, t, once, entries);
    }
  }

  // ---- The condition can fail ----

  function NewArticle(line: nat, id: Id): Item {
    Item(line, ArticleRecord(Some(id), "s", "t", "b", "u", [], None, "draft", None, None))
  }

  lemma OneNewArticle(t: Tables, r: StagedRow, now: Time)
    requires t.articles == map[] && AllOf(Articles, [r]) && r.payload.ArticleRecord? && r.payload.slug != ""
    ensures var once := Overlay(Articles, t, [r], now);
            UniqueSlugs(once.articles) && Get(IdBySlug(once.articles), r.payload.slug) == Some(r.externalId)
  {
    var once := Overlay(Articles, t, [r], now);
    forall x { RowForMember([r], x); }
    OneRowPerId([r], 0);
    assert [r][0].externalId in Ids([r]);
    IdBySlugFinds(once.articles, r.externalId);
  }

  lemma TwoWithOneSlug(r: StagedRow, q: StagedRow)
    requires SlugOf(r) == SlugOf(q) != "" && r.externalId != q.externalId
    ensures Sift(map[], [r, q]) == Sifted([r], [q])
  {
    assert [r, q][..1] == [r] && [r][..0] == [];
    assert Sift(map[], [r]) == Sifted([r], []);
    assert FirstBySlug([r], SlugOf(q)) == Some(Pointer(r.line, r.externalId));
  }

  /** Two new articles with one slug: the second is a slug conflict in the first run, and a
      duplicate of the first one's id in the second. */
  lemma SlugConflictRunTwiceDiffers(author: UserRow, now: Time)
    ensures var t := Tables(map["u" := author], map[], map[]);
            var i1, i2 := NewArticle(1, "a"), NewArticle(2, "b");
            var r1, r2 := StagedRow(1, "a", i1.data), StagedRow(2, "b", i2.data);
            && Decide(WholeTable(t), [], i1) == Accept(r1) && Decide(WholeTable(t), [r1], i2) == Accept(r2)
            && Sift(IdBySlug(t.articles), [r1, r2]) == Sifted([r1], [r2])
            && var once := Overlay(Articles, t, [r1], now);
            && UniqueSlugs(once.articles)
            && Decide(WholeTable(once), [], i1) == Accept(r1)
            && Decide(WholeTable(once), [r1], i2) == DuplicateIdVerdict(2, Pointer(1, "a"))
  {
    var t := Tables(map["u" := author], map[], map[]);
    var r1, r2 := StagedRow(1, "a", NewArticle(1, "a").data), StagedRow(2, "b", NewArticle(2, "b").data);
    FirstByIdIffPresent([r1], "b");
    assert FirstById([r1], "a") == Some(Pointer(1, "a"));
    assert IdBySlug(t.articles) == map[];
    TwoWithOneSlug(r1, r2);
    OneNewArticle(t, r1, now);
  }
}
