/** Why the merge statement cannot fail: the checks made while staging, together with the slug
    cleanup, leave rows that fit the production table in every order and at every prefix. */
module MergeSafety {
  import opened Model
  import opened Staging
  import opened Merge
  import opened SlugConflicts
  import opened ImportSpec

  lemma EmailsAreNaturalKeys(rows: seq<StagedRow>)
    requires AllOf(Users, rows) && DistinctEmails(rows)
    ensures DistinctNaturalKeys(rows)
  {
  }

  /** Users staged against table t can be merged into t: no staged email belongs to another row. */
  lemma StagedUsersMergeable(t: Tables, rows: seq<StagedRow>)
    requires UniqueEmails(t.users) && UniqueSlugs(t.articles)
    requires WellStaged(Users, WholeTable(t), rows)
    ensures Mergeable(Users, t, rows)
  {
    EmailsAreNaturalKeys(rows);
    forall i | 0 <= i < |rows| ensures !Clash(t, rows[i]) {
      var email := rows[i].payload.email;
      forall x | x in t.users && t.users[x].email == email ensures x == rows[i].externalId {
        assert email in IdByEmail(t.users);
      }
    }
  }

  lemma {:induction false} KeptArticlesAreDistinct(k: map<string, Id>, rows: seq<StagedRow>)
    requires AcceptableRows(Articles, rows) && DistinctIds(rows)
    ensures var kept := Sift(k, rows).kept;
            && (forall i :: 0 <= i < |kept| ==> kept[i] in rows && Acceptable(Articles, kept[i].payload))
            && AllOf(Articles, kept) && DistinctIds(kept) && DistinctNaturalKeys(kept)
  {
    var kept := Sift(k, rows).kept;
    SiftKeepsSlugs(k, rows);
    KeptSlugsDistinct(k, rows);
    forall i | 0 <= i < |kept| ensures kept[i] in rows && Acceptable(Articles, kept[i].payload) {
      assert kept[i] in kept;
      var j :| 0 <= j < |rows| && rows[j] == kept[i];
    }
  }

  /** Articles staged and cleaned against one table can be merged into it: a slug that is taken
      was resolved to the id that holds it, whatever that id is. */
  lemma {:induction false} StagedArticlesMergeable(t: Tables, rows: seq<StagedRow>)
    requires UniqueEmails(t.users) && UniqueSlugs(t.articles)
    requires WellStaged(Articles, WholeTable(t), rows)
    ensures Mergeable(Articles, t, Sift(IdBySlug(t.articles), rows).kept)
  {
    var kept := Sift(IdBySlug(t.articles), rows).kept;
    KeptArticlesAreDistinct(IdBySlug(t.articles), rows);
    forall i | 0 <= i < |kept| ensures !Clash(t, kept[i]) {
      var j :| 0 <= j < |rows| && rows[j] == kept[i];
      forall x | x in t.articles && t.articles[x].slug == Some(kept[i].payload.slug) ensures x == kept[i].externalId {
        IdBySlugFinds(t.articles, x);
      }
    }
  }

  // The first staged row with the slug of the article whose external id is empty has an id itself.
  predicate EmptyIdOverlooked(t: Tables, rows: seq<StagedRow>) {
    "" in t.articles && t.articles[""].slug.Some? &&
    var first := FirstBySlug(rows, t.articles[""].slug.value);
    first.Some? && first.value.externalId != ""
  }

  /** Articles staged with any lookups at all, then cleaned against table t, fit t exactly unless
      the table has an article with an empty external id and the first staged row with its slug has
      another id: the cleanup reads the empty id as "no such row". */
  lemma {:induction false} CleanedArticlesMergeableExactly(t: Tables, rows: seq<StagedRow>)
    requires UniqueSlugs(t.articles) && AcceptableRows(Articles, rows) && DistinctIds(rows)
    ensures Mergeable(Articles, t, Sift(IdBySlug(t.articles), rows).kept) <==> !EmptyIdOverlooked(t, rows)
  {
    var k := IdBySlug(t.articles);
    var kept := Sift(k, rows).kept;
    KeptArticlesAreDistinct(k, rows);
    SiftKeepsSlugs(k, rows);
    if EmptyIdOverlooked(t, rows) {
      var slug := t.articles[""].slug.value;
      FirstBySlugIsKept(t, rows, slug);
      var i :| 0 <= i < |kept| && SlugOf(kept[i]) == slug && kept[i].externalId != "";
      assert Clash(t, kept[i]);
    } else {
      forall i | 0 <= i < |kept| ensures !Clash(t, kept[i]) {
        forall x | x in t.articles && t.articles[x].slug == Some(kept[i].payload.slug) ensures x == kept[i].externalId {
          IdBySlugFinds(t.articles, x);
          assert !Taken(k, kept[i]);
          if x == "" {
            KeptIsFirst(k, rows, i);
          }
        }
      }
    }
  }

  // Nobody but the empty id holds the slug, so the cleanup keeps the first row that has it.
  lemma {:induction false} FirstBySlugIsKept(t: Tables, rows: seq<StagedRow>, slug: string)
    requires UniqueSlugs(t.articles) && AcceptableRows(Articles, rows) && DistinctIds(rows)
    requires "" in t.articles && t.articles[""].slug == Some(slug) && FirstBySlug(rows, slug).Some?
    ensures var kept := Sift(IdBySlug(t.articles), rows).kept;
            exists i :: 0 <= i < |kept| && SlugOf(kept[i]) == slug &&
                        kept[i].externalId == FirstBySlug(rows, slug).value.externalId
  {
    var k, kept := IdBySlug(t.articles), Sift(IdBySlug(t.articles), rows).kept;
    var j := FirstBySlugIndex(rows, slug);
    assert Acceptable(Articles, rows[j].payload);
    IdBySlugFinds(t.articles, "");
    KeptIffAdmissible(k, rows, j);
    var i :| 0 <= i < |kept| && kept[i] == rows[j];
  }

  lemma FirstBySlugIndex(rows: seq<StagedRow>, slug: string) returns (j: nat)
    requires FirstBySlug(rows, slug).Some?
    ensures j < |rows| && SlugOf(rows[j]) == slug && rows[j].externalId == FirstBySlug(rows, slug).value.externalId
    ensures forall i :: 0 <= i < j ==> SlugOf(rows[i]) != slug
  {
    if SlugOf(rows[0]) == slug {
      j := 0;
    } else {
      var i := FirstBySlugIndex(rows[1..], slug);
      j := i + 1;
    }
  }

  // A kept row whose slug only the empty id holds is the first staged row with that slug.
  lemma {:induction false} KeptIsFirst(k: map<string, Id>, rows: seq<StagedRow>, i: nat)
    requires AcceptableRows(Articles, rows) && DistinctIds(rows) && i < |Sift(k, rows).kept|
    requires Get(k, SlugOf(Sift(k, rows).kept[i])) == Some("")
    ensures var row := Sift(k, rows).kept[i];
            FirstBySlug(rows, SlugOf(row)).Some? && FirstBySlug(rows, SlugOf(row)).value.externalId == row.externalId
  {
    var row := Sift(k, rows).kept[i];
    var slug := SlugOf(row);
    SiftPartitions(k, rows);
    assert row in Sift(k, rows).kept;
    var n :| 0 <= n < |rows| && rows[n] == row;
    assert Acceptable(Articles, rows[n].payload);
    KeptIffAdmissible(k, rows, n);
    FirstBySlugMember(rows, slug);
    var j := FirstBySlugIndex(rows, slug);
    assert !Taken(k, rows[j]) && SlugOf(rows[j]) == slug;
  }

  lemma {:induction false} KeptSlugsDistinct(k: map<string, Id>, rows: seq<StagedRow>)
    requires AcceptableRows(Articles, rows) && DistinctIds(rows)
    ensures DistinctNaturalKeys(Sift(k, rows).kept)
  {
    if rows != [] {
      var init, row := rows[..|rows| - 1], rows[|rows| - 1];
      KeptSlugsDistinct(k, init);
      SiftKeepsSlugs(k, init);
      var before := Sift(k, init).kept;
      assert forall i :: 0 <= i < |before| ==> before[i] in init;
      FirstBySlugMember(before, SlugOf(row));
    }
  }

  /** The overlooked case occurs: the one staged row has the slug of the article with the empty
      id, it is kept, and the merge is refused. */
  lemma {:induction false} EmptyIdDefeatsCleanup(row: ArticleRow, d: ImportRecord, now: Time)
    requires d.ArticleRecord? && d.slug == "s" && row.slug == Some("s")
    ensures var t := Tables(map[], map["" := row], map[]);
            var rows := [StagedRow(1, "x", d)];
            EmptyIdOverlooked(t, rows) && Sift(IdBySlug(t.articles), rows).kept == rows && MergeRows(t, rows, now).None?
  {
    var t := Tables(map[], map["" := row], map[]);
    var rows := [StagedRow(1, "x", d)];
    assert rows[..0] == [];
    IdBySlugFinds(t.articles, "");
    assert Sift(IdBySlug(t.articles), rows).kept == rows;
    assert t.articles[""].slug == Some("s");
    assert Clash(t, rows[0]);
  }

  /** If the table is still the one seen while staging, no staged slug is held by another
      article, so the cleanup drops only rows preceded by one with the same slug. */
  lemma {:induction false} OnlyLaterDuplicatesDropped(t: Tables, rows: seq<StagedRow>, i: nat)
    requires UniqueEmails(t.users) && UniqueSlugs(t.articles)
    requires WellStaged(Articles, WholeTable(t), rows) && i < |rows|
    ensures !Taken(IdBySlug(t.articles), rows[i])
    ensures rows[i] in Sift(IdBySlug(t.articles), rows).conflicts <==>
            exists j :: 0 <= j < i && rows[j].payload.slug == rows[i].payload.slug
  {
    var k := IdBySlug(t.articles);
    assert forall j :: 0 <= j < |rows| ==> OfEntity(Articles, rows[j].payload) && !Taken(k, rows[j]);
    KeptIffAdmissible(k, rows, i);
    if j :| 0 <= j < i && rows[j].payload.slug == rows[i].payload.slug {
      assert SlugOf(rows[j]) == SlugOf(rows[i]) && !Taken(k, rows[j]);
      assert Preceded(k, rows, i);
    }
  }

  lemma StagedCommentsMergeable(t: Tables, k: Lookups, rows: seq<StagedRow>)
    requires WellStaged(Comments, k, rows)
    ensures Mergeable(Comments, t, rows)
  {
  }

  lemma {:induction false} TwiceInMultiset<T>(s: seq<T>, i: nat, j: nat)
    requires i < j < |s| && s[i] == s[j]
    ensures multiset(s)[s[i]] >= 2
  {
    assert s == s[..j] + [s[j]] + s[j + 1..];
    assert s[..j][i] == s[i];
    assert s[i] in multiset(s[..j]);
  }

  lemma {:induction false} OnceInMultiset(rows: seq<StagedRow>, r: StagedRow)
    requires DistinctIds(rows)
    ensures multiset(rows)[r] <= 1
  {
    if rows != [] {
      var init, last := rows[..|rows| - 1], rows[|rows| - 1];
      OnceInMultiset(init, r);
      assert rows == init + [last];
      assert multiset(rows) == multiset(init) + multiset{last};
      if last == r {
        assert r !in init;
      }
    }
  }

  lemma DistinctIsOrderFree(rows: seq<StagedRow>, other: seq<StagedRow>, i: nat, j: nat)
    requires DistinctIds(rows) && DistinctNaturalKeys(rows) && multiset(rows) == multiset(other) && i < j < |other|
    ensures other[i].externalId != other[j].externalId && !SameNaturalKey(other[i].payload, other[j].payload)
  {
    if other[i] == other[j] {
      TwiceInMultiset(other, i, j);
      OnceInMultiset(rows, other[i]);
    }
    assert other[i] in multiset(rows) && other[j] in multiset(rows);
    var p :| 0 <= p < |rows| && rows[p] == other[i];
    var q :| 0 <= q < |rows| && rows[q] == other[j];
    assert p < q || q < p;
  }

  /** Rows that can be merged can be merged in any order, one at a time, with one result; no
      prefix of any order ever holds a natural key twice. */
  lemma {:induction false} MergeIgnoresOrder(entity: Entity, t: Tables, rows: seq<StagedRow>, other: seq<StagedRow>,
                                             n: nat, now: Time)
    requires Mergeable(entity, t, rows) && multiset(rows) == multiset(other) && n <= |other|
    requires UniqueEmails(t.users) && UniqueSlugs(t.articles)
    ensures MergeRows(t, other, now) == MergeRows(t, rows, now) == Some(Overlay(entity, t, rows, now))
    ensures MergeRows(t, other[..n], now).Some?
    ensures UniqueEmails(MergeRows(t, other[..n], now).value.users)
    ensures UniqueSlugs(MergeRows(t, other[..n], now).value.articles)
  {
    forall i | 0 <= i < |other| ensures other[i] in rows {
      assert other[i] in multiset(rows);
    }
    forall i, j | 0 <= i < j < |other|
      ensures other[i].externalId != other[j].externalId && !SameNaturalKey(other[i].payload, other[j].payload)
    {
      DistinctIsOrderFree(rows, other, i, j);
    }
    assert Mergeable(entity, t, other);
    MergeSucceeds(entity, t, rows, now);
    MergeSucceeds(entity, t, other, now);
    OverlayIgnoresOrder(entity, t, rows, other, now);
    MergeablePrefix(entity, t, other, n);
    MergeSucceeds(entity, t, other[..n], now);
    MergeRowsKeepsUnique(t, other[..n], now);
  }

  /** A job whose tables do not change under it always merges: its final rows fit the tables
      and name only rows that exist. */
  lemma FinishedMergeable(admit: Admitter, entity: Entity, t: Tables, entries: seq<Entry>)
    requires SoundAdmitter(entity, admit) && Constrained(t) && LinesAscend(entries)
    ensures Mergeable(entity, t, Finished(admit, entity, t, entries).staged)
    ensures ReferencesHold(t, Finished(admit, entity, t, entries).staged)
    ensures AcceptableRows(entity, Finished(admit, entity, t, entries).staged)
  {
    var k := WholeTable(t);
    var staged := OneByOne(admit, k, entries).staged;
    StagedIsWellStaged(admit, entity, k, entries, if entries == [] then 0 else entries[|entries| - 1].line + 1);
    match entity
    case Users => StagedUsersMergeable(t, staged);
    case Articles =>
      StagedArticlesMergeable(t, staged);
      KeptArticlesAreDistinct(IdBySlug(t.articles), staged);
      var kept := Sift(IdBySlug(t.articles), staged).kept;
      forall i | 0 <= i < |kept| ensures References(t.users.Keys, t.articles.Keys, kept[i].payload) {
        var j :| 0 <= j < |staged| && staged[j] == kept[i];
      }
    case Comments => StagedCommentsMergeable(t, k, staged);
  }

  /** The merge of a finished job never fails, and gives the unordered overlay of its rows. */
  lemma FinishedMerges(admit: Admitter, entity: Entity, t: Tables, entries: seq<Entry>, now: Time)
    requires SoundAdmitter(entity, admit) && Constrained(t) && LinesAscend(entries)
    ensures Mergeable(entity, t, Finished(admit, entity, t, entries).staged)
    ensures var rows := Finished(admit, entity, t, entries).staged;
            MergeStatement(t, rows, now) == Some(Overlay(entity, t, rows, now))
    ensures Constrained(MergeStatement(t, Finished(admit, entity, t, entries).staged, now).value)
  {
    var rows := Finished(admit, entity, t, entries).staged;
    FinishedMergeable(admit, entity, t, entries);
    MergeSucceeds(entity, t, rows, now);
    ReferencesSurvive(t, rows, now);
    MergeRowsKeepsUnique(t, rows, now);
    MergeRowsReferences(t, rows, now);
  }
}
