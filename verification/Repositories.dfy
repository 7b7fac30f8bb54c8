/** The lookups a flush makes, each a query followed by a loop that fills a map. */
module EntityRepository {
  import opened Model
  import opened Staging

  method FindUserExternalIdsByEmail(users: map<Id, UserRow>, emails: set<string>) returns (found: map<string, Id>)
    requires UniqueEmails(users)
    ensures forall e :: Get(found, e) == if e in emails then Get(IdByEmail(users), e) else None
  {
    found := map[];
    var rest := users.Keys;
    while rest != {}
      invariant rest <= users.Keys
      invariant forall e :: e in found ==> e in emails && found[e] in users && users[found[e]].email == e
      invariant forall x :: x in users && x !in rest && users[x].email in emails ==> users[x].email in found
    {
      var x :| x in rest;
      rest := rest - {x};
      if users[x].email in emails {
        found := found[users[x].email := x];
      }
    }
    forall e ensures Get(found, e) == if e in emails then Get(IdByEmail(users), e) else None {}
  }

  method FindArticleExternalIdsBySlug(articles: map<Id, ArticleRow>, slugs: set<string>)
    returns (found: map<string, Id>)
    requires UniqueSlugs(articles)
    ensures forall s :: Get(found, s) == if s in slugs then Get(IdBySlug(articles), s) else None
  {
    found := map[];
    var rest := articles.Keys;
    while rest != {}
      invariant rest <= articles.Keys
      invariant forall s :: s in found ==> s != "" && s in slugs && found[s] in articles
      invariant forall s :: s in found ==> articles[found[s]].slug == Some(s)
      invariant forall x :: x in articles && x !in rest && articles[x].slug.Some? && articles[x].slug.value in slugs ==>
                  articles[x].slug.value == "" || articles[x].slug.value in found
    {
      var x :| x in rest;
      rest := rest - {x};
      if articles[x].slug.Some? && articles[x].slug.value in slugs && articles[x].slug.value != "" {
        found := found[articles[x].slug.value := x];
      }
    }
    forall s ensures Get(found, s) == if s in slugs then Get(IdBySlug(articles), s) else None {}
  }
}

/** Queries over the staging rows of one job, which are kept in line order. */
module StagingRepository {
  import opened Model
  import opened Staging

  method FindStagedExternalIdPointers(staged: seq<StagedRow>, ids: set<Id>) returns (found: map<Id, Pointer>)
    ensures forall x :: x in found <==> x in ids && FirstById(staged, x).Some?
    ensures forall x :: x in found ==> found[x] == FirstById(staged, x).value
  {
    found := map[];
    for i := 0 to |staged|
      invariant forall x :: x in found <==> x in ids && FirstById(staged[..i], x).Some?
      invariant forall x :: x in found ==> found[x] == FirstById(staged[..i], x).value
    {
      var row := staged[i];
      assert staged[..i + 1] == staged[..i] + [row];
      forall x { FirstByIdSnoc(staged[..i], row, x); }
      if row.externalId in ids && row.externalId !in found {
        found := found[row.externalId := Pointer(row.line, row.externalId)];
      }
    }
    assert staged[..|staged|] == staged;
  }

  method FindStagedUsersByEmail(staged: seq<StagedRow>, emails: set<string>) returns (found: map<string, Pointer>)
    requires forall i :: 0 <= i < |staged| ==> staged[i].payload.UserRecord?
    ensures forall e :: e in found <==> e != "" && e in emails && FirstByEmail(staged, e).Some?
    ensures forall e :: e in found ==> found[e] == FirstByEmail(staged, e).value
  {
    found := map[];
    for i := 0 to |staged|
      invariant forall e :: e in found <==> e != "" && e in emails && FirstByEmail(staged[..i], e).Some?
      invariant forall e :: e in found ==> found[e] == FirstByEmail(staged[..i], e).value
    {
      var row := staged[i];
      var email := row.payload.email;
      assert staged[..i + 1] == staged[..i] + [row];
      forall e { FirstByEmailSnoc(staged[..i], row, e); }
      if email in emails && email != "" && email !in found {
        found := found[email := Pointer(row.line, row.externalId)];
      }
    }
    assert staged[..|staged|] == staged;
  }
}

/** Slug cleanup: before the merge, staged articles whose slug belongs to another production
    row, or to an earlier admissible staged row, are deleted from staging and reported. */
module SlugConflicts {
  import opened Model
  import opened Staging
  import opened EntityRepository

  function SlugOf(row: StagedRow): string {
    if row.payload.ArticleRecord? then row.payload.slug else ""
  }

  // The production table gives this row's slug to another article.
  predicate Taken(idBySlug: map<string, Id>, row: StagedRow) {
    var existing := Get(idBySlug, SlugOf(row));
    Truthy(existing) && existing.value != row.externalId
  }

  function FirstBySlug(rows: seq<StagedRow>, slug: string): Option<Pointer> {
    if rows == [] then None
    else if SlugOf(rows[0]) == slug then Some(Pointer(rows[0].line, rows[0].externalId))
    else FirstBySlug(rows[1..], slug)
  }

  datatype Sifted = Sifted(kept: seq<StagedRow>, conflicts: seq<StagedRow>)

  // The row's slug belongs to another production row or to another row already kept.
  predicate Conflicts(idBySlug: map<string, Id>, kept: seq<StagedRow>, row: StagedRow) {
    var first := FirstBySlug(kept, SlugOf(row));
    SlugOf(row) != "" && (Taken(idBySlug, row) || (first.Some? && first.value.externalId != row.externalId))
  }

  function Sift(idBySlug: map<string, Id>, rows: seq<StagedRow>): Sifted {
    if rows == [] then Sifted([], [])
    else
      SiftRow(idBySlug, Sift(idBySlug, rows[..|rows| - 1]), rows[|rows| - 1])
  }

  function SiftRow(idBySlug: map<string, Id>, s: Sifted, row: StagedRow): Sifted {
    if Conflicts(idBySlug, s.kept, row) then s.(conflicts := s.conflicts + [row]) else s.(kept := s.kept + [row])
  }

  lemma {:induction false} FirstBySlugSnoc(rows: seq<StagedRow>, row: StagedRow, slug: string)
    ensures FirstBySlug(rows + [row], slug) ==
            if FirstBySlug(rows, slug).Some? then FirstBySlug(rows, slug)
            else if SlugOf(row) == slug then Some(Pointer(row.line, row.externalId)) else None
  {
    if rows == [] {
      assert rows + [row] == [row];
    } else {
      FirstBySlugSnoc(rows[1..], row, slug);
      assert (rows + [row])[1..] == rows[1..] + [row];
    }
  }

  lemma {:induction false} FirstBySlugMember(rows: seq<StagedRow>, slug: string)
    ensures match FirstBySlug(rows, slug)
            case None => forall i :: 0 <= i < |rows| ==> SlugOf(rows[i]) != slug
            case Some(p) => exists i :: 0 <= i < |rows| && SlugOf(rows[i]) == slug && rows[i].externalId == p.externalId
  {
    if rows != [] && SlugOf(rows[0]) != slug {
      FirstBySlugMember(rows[1..], slug);
      if FirstBySlug(rows, slug).Some? {
        var i :| 0 <= i < |rows[1..]| && SlugOf(rows[1..][i]) == slug &&
                 rows[1..][i].externalId == FirstBySlug(rows, slug).value.externalId;
        assert rows[i + 1] == rows[1..][i];
      }
    }
  }

  // An earlier staged row has the slug and is not itself ruled out by the production table.
  ghost predicate Preceded(idBySlug: map<string, Id>, rows: seq<StagedRow>, i: nat)
    requires i < |rows|
  {
    exists j :: 0 <= j < i && SlugOf(rows[j]) == SlugOf(rows[i]) && !Taken(idBySlug, rows[j])
  }

  ghost predicate Admissible(idBySlug: map<string, Id>, rows: seq<StagedRow>, i: nat)
    requires i < |rows|
  {
    SlugOf(rows[i]) == "" || (!Taken(idBySlug, rows[i]) && !Preceded(idBySlug, rows, i))
  }

  lemma {:induction false} SiftKeepsIds(idBySlug: map<string, Id>, rows: seq<StagedRow>)
    requires DistinctIds(rows)
    ensures var kept := Sift(idBySlug, rows).kept; (forall r :: r in kept ==> r in rows) && DistinctIds(kept)
  {
    if rows != [] {
      var init, row := rows[..|rows| - 1], rows[|rows| - 1];
      SiftKeepsIds(idBySlug, init);
      var before := Sift(idBySlug, init).kept;
      forall i | 0 <= i < |before| ensures before[i].externalId != row.externalId {
        assert before[i] in init;
      }
      assert Sift(idBySlug, rows).kept == before || Sift(idBySlug, rows).kept == before + [row];
    }
  }

  // Every slug some row may have is kept by one, and no kept slug is taken.
  ghost predicate SlugsKept(idBySlug: map<string, Id>, rows: seq<StagedRow>, kept: seq<StagedRow>) {
    && (forall i :: 0 <= i < |rows| && SlugOf(rows[i]) != "" && !Taken(idBySlug, rows[i]) ==>
          FirstBySlug(kept, SlugOf(rows[i])).Some?)
    && (forall i :: 0 <= i < |kept| && SlugOf(kept[i]) != "" ==> !Taken(idBySlug, kept[i]))
  }

  lemma {:induction false} SlugsKeptStep(idBySlug: map<string, Id>, init: seq<StagedRow>, row: StagedRow,
                                         s: Sifted, rows: seq<StagedRow>, next: Sifted)
    requires SlugsKept(idBySlug, init, s.kept) && rows == init + [row] && next == SiftRow(idBySlug, s, row)
    ensures SlugsKept(idBySlug, rows, next.kept)
  {
    forall slug { FirstBySlugSnoc(s.kept, row, slug); }
  }

  lemma {:induction false} SiftSlugsKept(idBySlug: map<string, Id>, rows: seq<StagedRow>)
    ensures SlugsKept(idBySlug, rows, Sift(idBySlug, rows).kept)
  {
    if rows != [] {
      var init, row := rows[..|rows| - 1], rows[|rows| - 1];
      SiftSlugsKept(idBySlug, init);
      SlugsKeptStep(idBySlug, init, row, Sift(idBySlug, init), rows, Sift(idBySlug, rows));
    }
  }

  lemma {:induction false} SiftKeepsSlugs(idBySlug: map<string, Id>, rows: seq<StagedRow>)
    requires DistinctIds(rows)
    ensures var kept := Sift(idBySlug, rows).kept;
            (forall r :: r in kept ==> r in rows) && DistinctIds(kept) && SlugsKept(idBySlug, rows, kept)
  {
    SiftKeepsIds(idBySlug, rows);
    SiftSlugsKept(idBySlug, rows);
  }

  // Rows appended later do not change what is admissible before them.
  lemma AdmissiblePrefix(idBySlug: map<string, Id>, rows: seq<StagedRow>, i: nat)
    requires i < |rows| - 1
    ensures Admissible(idBySlug, rows, i) <==> Admissible(idBySlug, rows[..|rows| - 1], i)
  {
  }

  lemma SiftDecidesLast(idBySlug: map<string, Id>, rows: seq<StagedRow>)
    requires rows != [] && DistinctIds(rows)
    ensures var init, n := rows[..|rows| - 1], |rows| - 1;
            Sift(idBySlug, rows) == if Admissible(idBySlug, rows, n)
                                    then Sift(idBySlug, init).(kept := Sift(idBySlug, init).kept + [rows[n]])
                                    else Sift(idBySlug, init).(conflicts := Sift(idBySlug, init).conflicts + [rows[n]])
  {
    var n := |rows| - 1;
    var init, row, slug := rows[..n], rows[n], SlugOf(rows[n]);
    var kept := Sift(idBySlug, init).kept;
    SiftKeepsSlugs(idBySlug, init);
    FirstBySlugMember(kept, slug);
    if slug != "" {
      if Preceded(idBySlug, rows, n) {
        var j :| 0 <= j < n && SlugOf(rows[j]) == slug && !Taken(idBySlug, rows[j]);
        assert init[j] == rows[j];
      }
      if FirstBySlug(kept, slug).Some? {
        var i :| 0 <= i < |kept| && SlugOf(kept[i]) == slug &&
                 kept[i].externalId == FirstBySlug(kept, slug).value.externalId;
        assert kept[i] in kept && kept[i] in init;
        var j :| 0 <= j < |init| && init[j] == kept[i];
        assert rows[j] == kept[i] && !Taken(idBySlug, rows[j]);
        assert Preceded(idBySlug, rows, n);
      }
    }
  }

  lemma {:induction false} LastDecided(idBySlug: map<string, Id>, rows: seq<StagedRow>)
    requires rows != [] && DistinctIds(rows)
    ensures var n := |rows| - 1;
            && (rows[n] in Sift(idBySlug, rows).kept <==> Admissible(idBySlug, rows, n))
            && (rows[n] in Sift(idBySlug, rows).conflicts <==> !Admissible(idBySlug, rows, n))
  {
    var n := |rows| - 1;
    var init := rows[..n];
    SiftDecidesLast(idBySlug, rows);
    SiftPartitions(idBySlug, init);
    assert rows[n] !in init by {
      assert forall j :: 0 <= j < n ==> rows[j].externalId != rows[n].externalId;
    }
    assert rows[n] !in Sift(idBySlug, init).kept && rows[n] !in Sift(idBySlug, init).conflicts;
  }

  lemma {:induction false} EarlierStays(idBySlug: map<string, Id>, rows: seq<StagedRow>, i: nat)
    requires DistinctIds(rows) && i < |rows| - 1
    ensures rows[i] in Sift(idBySlug, rows).kept <==> rows[i] in Sift(idBySlug, rows[..|rows| - 1]).kept
    ensures rows[i] in Sift(idBySlug, rows).conflicts <==> rows[i] in Sift(idBySlug, rows[..|rows| - 1]).conflicts
  {
    assert rows[i] != rows[|rows| - 1];
  }

  /** Exactly the rows that are not admissible are conflicts: of the rows naming one slug, the
      lowest line the production table allows is kept and every other one is dropped. */
  lemma {:induction false} KeptIffAdmissible(idBySlug: map<string, Id>, rows: seq<StagedRow>, i: nat)
    requires DistinctIds(rows) && i < |rows|
    ensures rows[i] in Sift(idBySlug, rows).kept <==> Admissible(idBySlug, rows, i)
    ensures rows[i] in Sift(idBySlug, rows).conflicts <==> !Admissible(idBySlug, rows, i)
    decreases |rows|
  {
    if i < |rows| - 1 {
      KeptIffAdmissible(idBySlug, rows[..|rows| - 1], i);
      EarlierStays(idBySlug, rows, i);
      AdmissiblePrefix(idBySlug, rows, i);
    } else {
      LastDecided(idBySlug, rows);
    }
  }

  ghost predicate Partition(s: Sifted, rows: seq<StagedRow>) {
    multiset(s.kept) + multiset(s.conflicts) == multiset(rows)
  }

  lemma PartitionStep(idBySlug: map<string, Id>, s: Sifted, init: seq<StagedRow>, row: StagedRow, rows: seq<StagedRow>,
                      next: Sifted)
    requires Partition(s, init) && rows == init + [row] && next == SiftRow(idBySlug, s, row)
    ensures Partition(next, rows)
  {
  }

  lemma {:induction false} SiftIsPartition(idBySlug: map<string, Id>, rows: seq<StagedRow>)
    ensures Partition(Sift(idBySlug, rows), rows)
  {
    if rows != [] {
      var init, row := rows[..|rows| - 1], rows[|rows| - 1];
      SiftIsPartition(idBySlug, init);
      PartitionStep(idBySlug, Sift(idBySlug, init), init, row, rows, Sift(idBySlug, rows));
    }
  }

  lemma PartitionMembers(s: Sifted, rows: seq<StagedRow>)
    requires Partition(s, rows)
    ensures forall r :: r in s.kept || r in s.conflicts <==> r in rows
  {
    assert forall r :: r in rows <==> r in multiset(rows);
    assert forall r :: r in s.kept <==> r in multiset(s.kept);
    assert forall r :: r in s.conflicts <==> r in multiset(s.conflicts);
  }

  /** Every staged row is kept or reported, never both and never twice. */
  lemma {:induction false} SiftPartitions(idBySlug: map<string, Id>, rows: seq<StagedRow>)
    ensures var s := Sift(idBySlug, rows); multiset(s.kept) + multiset(s.conflicts) == multiset(rows)
    ensures var s := Sift(idBySlug, rows); forall r :: r in s.kept || r in s.conflicts <==> r in rows
  {
    SiftIsPartition(idBySlug, rows);
    PartitionMembers(Sift(idBySlug, rows), rows);
  }

  // The delete statement names the conflicting rows by line.
  function DeleteLines(rows: seq<StagedRow>, lines: set<nat>): seq<StagedRow> {
    if rows == [] then []
    else
      var init, row := DeleteLines(rows[..|rows| - 1], lines), rows[|rows| - 1];
      if row.line in lines then init else init + [row]
  }

  function LinesOf(rows: seq<StagedRow>): set<nat> {
    set i | 0 <= i < |rows| :: rows[i].line
  }

  lemma {:induction false} DeleteOnlyNamed(rows: seq<StagedRow>, a: set<nat>, b: set<nat>)
    requires forall i :: 0 <= i < |rows| ==> (rows[i].line in a <==> rows[i].line in b)
    ensures DeleteLines(rows, a) == DeleteLines(rows, b)
  {
    if rows != [] {
      DeleteOnlyNamed(rows[..|rows| - 1], a, b);
    }
  }

  lemma {:induction false} LinesOfSnoc(rows: seq<StagedRow>, row: StagedRow)
    ensures LinesOf(rows + [row]) == LinesOf(rows) + {row.line}
  {
    var more := rows + [row];
    assert more[|rows|].line in LinesOf(more);
    forall l | l in LinesOf(rows) ensures l in LinesOf(more) {
      var i :| 0 <= i < |rows| && rows[i].line == l;
      assert more[i].line == l;
    }
  }

  lemma {:induction false} DroppedLinesBefore(idBySlug: map<string, Id>, rows: seq<StagedRow>, line: nat)
    requires forall i :: 0 <= i < |rows| ==> rows[i].line < line
    ensures line !in LinesOf(Sift(idBySlug, rows).conflicts)
  {
    var dropped := Sift(idBySlug, rows).conflicts;
    SiftPartitions(idBySlug, rows);
    forall i | 0 <= i < |dropped| ensures dropped[i].line < line {
      assert dropped[i] in rows;
    }
  }

  /** Lines being distinct, deleting the conflicts by line removes those rows and no others. */
  lemma {:induction false} DeletingByLineKeepsTheRest(idBySlug: map<string, Id>, rows: seq<StagedRow>)
    requires Ascending(rows)
    ensures DeleteLines(rows, LinesOf(Sift(idBySlug, rows).conflicts)) == Sift(idBySlug, rows).kept
  {
    if rows != [] {
      var init, row := rows[..|rows| - 1], rows[|rows| - 1];
      var s := Sift(idBySlug, init);
      DeletingByLineKeepsTheRest(idBySlug, init);
      DroppedLinesBefore(idBySlug, init, row.line);
      LinesOfSnoc(s.conflicts, row);
      DeleteOnlyNamed(init, LinesOf(s.conflicts), LinesOf(s.conflicts + [row]));
    }
  }

  // The slugs the production lookup is restricted to.
  method CandidateSlugs(staged: seq<StagedRow>) returns (candidates: set<string>)
    ensures forall i :: 0 <= i < |staged| && SlugOf(staged[i]) != "" ==> SlugOf(staged[i]) in candidates
  {
    candidates := {};
    for i := 0 to |staged|
      invariant forall j :: 0 <= j < i && SlugOf(staged[j]) != "" ==> SlugOf(staged[j]) in candidates
    {
      if SlugOf(staged[i]) != "" {
        candidates := candidates + {SlugOf(staged[i])};
      }
    }
  }

  // The map of first kept rows, by slug.
  ghost predicate TracksSlugs(firstBySlug: map<string, Pointer>, kept: seq<StagedRow>) {
    forall slug :: slug != "" ==> Get(firstBySlug, slug) == FirstBySlug(kept, slug)
  }

  lemma TracksSlugsSnoc(firstBySlug: map<string, Pointer>, kept: seq<StagedRow>, row: StagedRow)
    requires TracksSlugs(firstBySlug, kept)
    ensures var slug := SlugOf(row);
            TracksSlugs(if slug == "" || slug in firstBySlug then firstBySlug
                        else firstBySlug[slug := Pointer(row.line, row.externalId)], kept + [row])
  {
    assert SlugOf(row) != "" ==> Get(firstBySlug, SlugOf(row)) == FirstBySlug(kept, SlugOf(row));
    forall slug { FirstBySlugSnoc(kept, row, slug); }
  }

  lemma {:induction false} SiftNext(idBySlug: map<string, Id>, rows: seq<StagedRow>, i: nat)
    requires i < |rows|
    ensures Sift(idBySlug, rows[..i + 1]) == SiftRow(idBySlug, Sift(idBySlug, rows[..i]), rows[i])
  {
    assert rows[..i + 1][..i] == rows[..i];
  }

  method FindSlugConflicts(articles: map<Id, ArticleRow>, staged: seq<StagedRow>) returns (conflicts: seq<StagedRow>)
    requires UniqueSlugs(articles)
    ensures conflicts == Sift(IdBySlug(articles), staged).conflicts
  {
    var candidates := CandidateSlugs(staged);
    var existingBySlug := FindArticleExternalIdsBySlug(articles, candidates);
    var firstStagedBySlug: map<string, Pointer> := map[];
    conflicts := [];
    ghost var k, s := IdBySlug(articles), Sifted([], []);
    for i := 0 to |staged|
      invariant s == Sift(k, staged[..i]) && conflicts == s.conflicts && TracksSlugs(firstStagedBySlug, s.kept)
    {
      var row := staged[i];
      var slug := SlugOf(row);
      SiftNext(k, staged, i);
      TracksSlugsSnoc(firstStagedBySlug, s.kept, row);
      assert slug != "" ==> Get(firstStagedBySlug, slug) == FirstBySlug(s.kept, slug);
      s := SiftRow(k, s, row);
      if slug == "" { continue; }
      assert Get(existingBySlug, slug) == Get(k, slug);
      if slug in existingBySlug && existingBySlug[slug] != "" && existingBySlug[slug] != row.externalId {
        conflicts := conflicts + [row];
        continue;
      }
      if slug !in firstStagedBySlug {
        firstStagedBySlug := firstStagedBySlug[slug := Pointer(row.line, row.externalId)];
        continue;
      }
      if firstStagedBySlug[slug].externalId != row.externalId {
        conflicts := conflicts + [row];
      }
    }
    assert staged[..|staged|] == staged;
  }
}
