/** The merge statement: the staged rows are upserted into the production table one at a
    time, in line order, as PostgreSQL does inside one statement. A unique-key clash, a
    second write to the same row or a missing reference aborts the whole statement. */
module Merge {
  import opened Model
  import opened Staging

  function UpsertedUser(prior: Option<UserRow>, d: ImportRecord, now: Time): UserRow
    requires d.UserRecord?
  {
    UserRow(d.email, d.name, d.role, d.active,
            if prior.Some? then prior.value.createdAt else GetOr(d.createdAt, now), GetOr(d.updatedAt, now))
  }

  function UpsertedArticle(prior: Option<ArticleRow>, d: ImportRecord, now: Time): ArticleRow
    requires d.ArticleRecord?
  {
    ArticleRow(Some(d.slug), d.title, d.body, d.authorId, d.tags, d.publishedAt, d.status,
               if prior.Some? then prior.value.createdAt else GetOr(d.createdAt, now), GetOr(d.updatedAt, now))
  }

  // Unlike the other two tables, an updated comment also takes the new created_at.
  function UpsertedComment(d: ImportRecord, now: Time): CommentRow
    requires d.CommentRecord?
  {
    CommentRow(d.articleId, d.userId, d.body, GetOr(d.createdAt, now))
  }

  function Upsert(t: Tables, row: StagedRow, now: Time): Tables {
    var x := row.externalId;
    match row.payload
    case UserRecord(_, _, _, _, _, _, _) =>
      t.(users := t.users[x := UpsertedUser(Get(t.users, x), row.payload, now)])
    case ArticleRecord(_, _, _, _, _, _, _, _, _, _) =>
      t.(articles := t.articles[x := UpsertedArticle(Get(t.articles, x), row.payload, now)])
    case CommentRecord(_, _, _, _, _) =>
      t.(comments := t.comments[x := UpsertedComment(row.payload, now)])
  }

  // A production row other than the target already holds the staged email or slug.
  predicate Clash(t: Tables, row: StagedRow) {
    match row.payload
    case UserRecord(_, email, _, _, _, _, _) =>
      exists x :: x in t.users && x != row.externalId && t.users[x].email == email
    case ArticleRecord(_, slug, _, _, _, _, _, _, _, _) =>
      exists x :: x in t.articles && x != row.externalId && t.articles[x].slug == Some(slug)
    case CommentRecord(_, _, _, _, _) => false
  }

  // The upserts alone, with the checks made row by row.
  function MergeRows(t: Tables, rows: seq<StagedRow>, now: Time): Option<Tables> {
    if rows == [] then Some(t)
    else
      var init, row := rows[..|rows| - 1], rows[|rows| - 1];
      match MergeRows(t, init, now)
      case None => None
      case Some(m) =>
        if FirstById(init, row.externalId).Some? || Clash(m, row) then None
        else Some(Upsert(m, row, now))
  }

  predicate ReferencesHold(t: Tables, rows: seq<StagedRow>) {
    forall i :: 0 <= i < |rows| ==> References(t.users.Keys, t.articles.Keys, rows[i].payload)
  }

  // The whole statement: foreign keys are checked when it ends.
  function MergeStatement(t: Tables, rows: seq<StagedRow>, now: Time): Option<Tables> {
    match MergeRows(t, rows, now)
    case None => None
    case Some(m) => if ReferencesHold(m, rows) then Some(m) else None
  }

  // No production row other than the target holds a staged natural key.
  ghost predicate Fits(t: Tables, rows: seq<StagedRow>) {
    forall i :: 0 <= i < |rows| ==> !Clash(t, rows[i])
  }

  ghost predicate AllOf(entity: Entity, rows: seq<StagedRow>) {
    forall i :: 0 <= i < |rows| ==> OfEntity(entity, rows[i].payload)
  }

  // The staged row with the given external id; unique when the ids are distinct.
  function RowFor(rows: seq<StagedRow>, x: Id): Option<StagedRow> {
    if rows == [] then None
    else if rows[|rows| - 1].externalId == x then Some(rows[|rows| - 1])
    else RowFor(rows[..|rows| - 1], x)
  }

  function Ids(rows: seq<StagedRow>): set<Id> {
    set i | 0 <= i < |rows| :: rows[i].externalId
  }

  lemma {:induction false} RowForMember(rows: seq<StagedRow>, x: Id)
    ensures RowFor(rows, x).Some? <==> x in Ids(rows)
    ensures RowFor(rows, x).Some? ==> RowFor(rows, x).value in rows && RowFor(rows, x).value.externalId == x
  {
    if rows != [] {
      var init := rows[..|rows| - 1];
      RowForMember(init, x);
      assert rows == init + [rows[|rows| - 1]];
      assert forall i :: 0 <= i < |init| ==> init[i] == rows[i];
      if x in Ids(init) {
        var i :| 0 <= i < |init| && init[i].externalId == x;
        assert rows[i].externalId == x;
      }
      if x in Ids(rows) && rows[|rows| - 1].externalId != x {
        var i :| 0 <= i < |rows| && rows[i].externalId == x;
        assert init[i].externalId == x;
      }
    }
  }

  // The production table after the merge, said without an order: a row whose id was staged is
  // the upsert of that staged row, every other row is as before.
  function OverlayUsers(users: map<Id, UserRow>, rows: seq<StagedRow>, now: Time): map<Id, UserRow>
    requires AllOf(Users, rows)
  {
    map x | x in users.Keys + Ids(rows) ::
      RowForMember(rows, x); var r := RowFor(rows, x);
      if r.Some? then UpsertedUser(Get(users, x), r.value.payload, now) else users[x]
  }

  function OverlayArticles(articles: map<Id, ArticleRow>, rows: seq<StagedRow>, now: Time): map<Id, ArticleRow>
    requires AllOf(Articles, rows)
  {
    map x | x in articles.Keys + Ids(rows) ::
      RowForMember(rows, x); var r := RowFor(rows, x);
      if r.Some? then UpsertedArticle(Get(articles, x), r.value.payload, now) else articles[x]
  }

  function OverlayComments(comments: map<Id, CommentRow>, rows: seq<StagedRow>, now: Time): map<Id, CommentRow>
    requires AllOf(Comments, rows)
  {
    map x | x in comments.Keys + Ids(rows) ::
      RowForMember(rows, x); var r := RowFor(rows, x);
      if r.Some? then UpsertedComment(r.value.payload, now) else comments[x]
  }

  function Overlay(entity: Entity, t: Tables, rows: seq<StagedRow>, now: Time): Tables
    requires AllOf(entity, rows)
  {
    match entity
    case Users => t.(users := OverlayUsers(t.users, rows, now))
    case Articles => t.(articles := OverlayArticles(t.articles, rows, now))
    case Comments => t.(comments := OverlayComments(t.comments, rows, now))
  }

  lemma {:induction false} RowForStep(init: seq<StagedRow>, row: StagedRow)
    requires DistinctIds(init + [row])
    ensures row.externalId !in Ids(init) && RowFor(init, row.externalId) == None
    ensures Ids(init + [row]) == Ids(init) + {row.externalId}
    ensures forall x :: RowFor(init + [row], x) == if x == row.externalId then Some(row) else RowFor(init, x)
  {
    var rows := init + [row];
    assert rows[..|rows| - 1] == init && rows[|rows| - 1] == row;
    forall x | x in Ids(init) ensures x in Ids(rows) && x != row.externalId {
      var i :| 0 <= i < |init| && init[i].externalId == x;
      assert rows[i].externalId == x;
    }
    assert rows[|init|].externalId in Ids(rows);
    RowForMember(init, row.externalId);
  }

  lemma OverlayStep(entity: Entity, t: Tables, init: seq<StagedRow>, row: StagedRow, now: Time)
    requires AllOf(entity, init + [row]) && AllOf(entity, init) && DistinctIds(init + [row])
    ensures Overlay(entity, t, init + [row], now) == Upsert(Overlay(entity, t, init, now), row, now)
  {
    RowForStep(init, row);
    assert (init + [row])[|init|] == row;
    assert OfEntity(entity, row.payload);
    match entity
    case Users => OverlayUsersStep(t.users, init, row, now);
    case Articles => OverlayArticlesStep(t.articles, init, row, now);
    case Comments => OverlayCommentsStep(t.comments, init, row, now);
  }

  lemma OverlayUsersStep(m: map<Id, UserRow>, init: seq<StagedRow>, row: StagedRow, now: Time)
    requires AllOf(Users, init + [row]) && AllOf(Users, init) && DistinctIds(init + [row]) && row.payload.UserRecord?
    ensures OverlayUsers(m, init + [row], now) ==
            OverlayUsers(m, init, now)[row.externalId := UpsertedUser(Get(m, row.externalId), row.payload, now)]
  {
    RowForStep(init, row);
    RowForMember(init, row.externalId);
  }

  lemma OverlayArticlesStep(m: map<Id, ArticleRow>, init: seq<StagedRow>, row: StagedRow, now: Time)
    requires AllOf(Articles, init + [row]) && AllOf(Articles, init) && DistinctIds(init + [row])
    requires row.payload.ArticleRecord?
    ensures OverlayArticles(m, init + [row], now) ==
            OverlayArticles(m, init, now)[row.externalId := UpsertedArticle(Get(m, row.externalId), row.payload, now)]
  {
    RowForStep(init, row);
    RowForMember(init, row.externalId);
  }

  lemma OverlayCommentsStep(m: map<Id, CommentRow>, init: seq<StagedRow>, row: StagedRow, now: Time)
    requires AllOf(Comments, init + [row]) && AllOf(Comments, init) && DistinctIds(init + [row])
    requires row.payload.CommentRecord?
    ensures OverlayComments(m, init + [row], now) ==
            OverlayComments(m, init, now)[row.externalId := UpsertedComment(row.payload, now)]
  {
    RowForStep(init, row);
    RowForMember(init, row.externalId);
  }

  // Another production row, x, holds the email or slug that the staged row claims.
  ghost predicate Holds(t: Tables, x: Id, row: StagedRow) {
    match row.payload
    case UserRecord(_, email, _, _, _, _, _) => x in t.users && x != row.externalId && t.users[x].email == email
    case ArticleRecord(_, slug, _, _, _, _, _, _, _, _) =>
      x in t.articles && x != row.externalId && t.articles[x].slug == Some(slug)
    case CommentRecord(_, _, _, _, _) => false
  }

  // A production row that no earlier staged row rewrites holds the key of staged row i.
  ghost predicate Blocked(t: Tables, rows: seq<StagedRow>, i: nat)
    requires i < |rows|
  {
    exists x :: Holds(t, x, rows[i]) && x !in Ids(rows[..i])
  }

  // After some rows were merged, a key those rows do not claim is held by exactly the untouched holders.
  lemma ClashAfterOverlay(entity: Entity, t: Tables, init: seq<StagedRow>, row: StagedRow, now: Time)
    requires AllOf(entity, init + [row]) && AllOf(entity, init) && DistinctNaturalKeys(init + [row])
    ensures Clash(Overlay(entity, t, init, now), row) <==> exists x :: Holds(t, x, row) && x !in Ids(init)
  {
    var o := Overlay(entity, t, init, now);
    var rows := init + [row];
    assert rows[|init|] == row;
    assert OfEntity(entity, rows[|init|].payload);
    forall x { RowForMember(init, x); }
    forall x | x in Ids(init) ensures !SameNaturalKey(RowFor(init, x).value.payload, row.payload) {
      var i :| 0 <= i < |init| && init[i] == RowFor(init, x).value;
      assert rows[i] == init[i];
    }
    match entity
    case Users =>
      assert forall x :: Holds(t, x, row) && x !in Ids(init) ==> x in o.users && o.users[x] == t.users[x];
      assert forall x :: x in o.users && x !in Ids(init) ==> x in t.users && o.users[x] == t.users[x];
      assert forall x :: x in Ids(init) ==> x in o.users && o.users[x].email != row.payload.email;
    case Articles =>
      assert forall x :: Holds(t, x, row) && x !in Ids(init) ==> x in o.articles && o.articles[x] == t.articles[x];
      assert forall x :: x in o.articles && x !in Ids(init) ==> x in t.articles && o.articles[x] == t.articles[x];
      assert forall x :: x in Ids(init) ==> x in o.articles && o.articles[x].slug != Some(row.payload.slug);
    case Comments =>
  }

  ghost predicate Mergeable(entity: Entity, t: Tables, rows: seq<StagedRow>) {
    AllOf(entity, rows) && DistinctIds(rows) && DistinctNaturalKeys(rows) && Fits(t, rows)
  }

  lemma MergeablePrefix(entity: Entity, t: Tables, rows: seq<StagedRow>, n: nat)
    requires Mergeable(entity, t, rows) && n <= |rows|
    ensures Mergeable(entity, t, rows[..n])
  {
  }

  // Whenever the upserts are all accepted, the result is the unordered overlay.
  lemma {:induction false} MergedIsOverlay(entity: Entity, t: Tables, rows: seq<StagedRow>, now: Time)
    requires AllOf(entity, rows) && DistinctIds(rows) && MergeRows(t, rows, now).Some?
    ensures MergeRows(t, rows, now) == Some(Overlay(entity, t, rows, now))
  {
    if rows == [] {
      assert Overlay(entity, t, rows, now) == t;
    } else {
      var init, row := rows[..|rows| - 1], rows[|rows| - 1];
      assert rows == init + [row];
      MergedIsOverlay(entity, t, init, now);
      OverlayStep(entity, t, init, row, now);
    }
  }

  lemma BlockedPrefix(t: Tables, rows: seq<StagedRow>, i: nat)
    requires i < |rows| - 1
    ensures Blocked(t, rows, i) <==> Blocked(t, rows[..|rows| - 1], i)
  {
    assert rows[..|rows| - 1][..i] == rows[..i];
  }

  /** Staged rows of one entity with distinct ids and natural keys are merged exactly if no row's
      key is held by another production row that none of the rows before it rewrites. */
  lemma {:induction false} MergesExactly(entity: Entity, t: Tables, rows: seq<StagedRow>, now: Time)
    requires AllOf(entity, rows) && DistinctIds(rows) && DistinctNaturalKeys(rows)
    ensures MergeRows(t, rows, now).Some? <==> forall i :: 0 <= i < |rows| ==> !Blocked(t, rows, i)
  {
    if rows != [] {
      var n := |rows| - 1;
      var init, row := rows[..n], rows[n];
      assert rows == init + [row];
      MergesExactly(entity, t, init, now);
      forall i | 0 <= i < n ensures Blocked(t, rows, i) <==> Blocked(t, init, i) {
        BlockedPrefix(t, rows, i);
      }
      if MergeRows(t, init, now).Some? {
        MergedIsOverlay(entity, t, init, now);
        ClashAfterOverlay(entity, t, init, row, now);
        assert Blocked(t, rows, n) <==> exists x :: Holds(t, x, row) && x !in Ids(init);
        FirstByIdIffPresent(init, row.externalId);
        assert MergeRows(t, rows, now).Some? <==> !Blocked(t, rows, n);
      }
    }
  }

  /** Rows with distinct ids and natural keys that fit the table are merged without an error,
      none twice, at every prefix; the result is the unordered overlay. */
  lemma {:induction false} MergeSucceeds(entity: Entity, t: Tables, rows: seq<StagedRow>, now: Time)
    requires Mergeable(entity, t, rows)
    ensures MergeRows(t, rows, now) == Some(Overlay(entity, t, rows, now))
  {
    MergesExactly(entity, t, rows, now);
    forall i | 0 <= i < |rows| ensures !Blocked(t, rows, i) {
      assert !Clash(t, rows[i]);
    }
    MergedIsOverlay(entity, t, rows, now);
  }

  // Uniqueness of the natural keys survives every row the statement accepts.
  lemma UpsertKeepsUnique(t: Tables, row: StagedRow, now: Time)
    requires UniqueEmails(t.users) && UniqueSlugs(t.articles) && !Clash(t, row)
    ensures UniqueEmails(Upsert(t, row, now).users) && UniqueSlugs(Upsert(t, row, now).articles)
  {
  }

  lemma {:induction false} MergeRowsKeepsUnique(t: Tables, rows: seq<StagedRow>, now: Time)
    requires UniqueEmails(t.users) && UniqueSlugs(t.articles) && MergeRows(t, rows, now).Some?
    ensures var m := MergeRows(t, rows, now).value;
            UniqueEmails(m.users) && UniqueSlugs(m.articles)
  {
    if rows != [] {
      var init, row := rows[..|rows| - 1], rows[|rows| - 1];
      MergeRowsKeepsUnique(t, init, now);
      UpsertKeepsUnique(MergeRows(t, init, now).value, row, now);
    }
  }

  /** A merge renames and removes nothing: every external id of every table is still there. */
  lemma {:induction false} MergeRowsOnlyAddsIds(t: Tables, rows: seq<StagedRow>, now: Time)
    requires MergeRows(t, rows, now).Some?
    ensures var m := MergeRows(t, rows, now).value;
            t.users.Keys <= m.users.Keys && t.articles.Keys <= m.articles.Keys && t.comments.Keys <= m.comments.Keys
  {
    if rows != [] {
      MergeRowsOnlyAddsIds(t, rows[..|rows| - 1], now);
    }
  }

  lemma {:induction false} MergeRowsReferences(t: Tables, rows: seq<StagedRow>, now: Time)
    requires ForeignKeys(t) && MergeRows(t, rows, now).Some?
    requires ReferencesHold(t, rows)
    ensures ForeignKeys(MergeRows(t, rows, now).value)
  {
    if rows != [] {
      var init := rows[..|rows| - 1];
      assert ReferencesHold(t, init);
      MergeRowsReferences(t, init, now);
      MergeRowsOnlyAddsIds(t, init, now);
    }
  }

  lemma {:induction false} ReferencesSurvive(t: Tables, rows: seq<StagedRow>, now: Time)
    requires ReferencesHold(t, rows) && MergeRows(t, rows, now).Some?
    ensures ReferencesHold(MergeRows(t, rows, now).value, rows)
    ensures MergeStatement(t, rows, now) == MergeRows(t, rows, now)
  {
    MergeRowsOnlyAddsIds(t, rows, now);
  }

  lemma {:induction false} OneRowPerId(rows: seq<StagedRow>, i: nat)
    requires DistinctIds(rows) && i < |rows|
    ensures RowFor(rows, rows[i].externalId) == Some(rows[i])
  {
    if i < |rows| - 1 {
      OneRowPerId(rows[..|rows| - 1], i);
    }
  }

  lemma {:induction false} SameRowFor(a: seq<StagedRow>, b: seq<StagedRow>, x: Id)
    requires DistinctIds(a) && DistinctIds(b) && multiset(a) == multiset(b)
    ensures RowFor(a, x) == RowFor(b, x) && (x in Ids(a) <==> x in Ids(b))
  {
    RowForMember(a, x);
    RowForMember(b, x);
    assert forall r :: r in a <==> r in multiset(a);
    assert forall r :: r in b <==> r in multiset(b);
    if RowFor(a, x).Some? {
      var i :| 0 <= i < |b| && b[i] == RowFor(a, x).value;
      OneRowPerId(b, i);
    }
  }

  /** Any order of the same staged rows gives the same production tables. */
  lemma {:induction false} OverlayIgnoresOrder(entity: Entity, t: Tables, a: seq<StagedRow>, b: seq<StagedRow>,
                                               now: Time)
    requires AllOf(entity, a) && AllOf(entity, b) && DistinctIds(a) && DistinctIds(b)
    requires multiset(a) == multiset(b)
    ensures Overlay(entity, t, a, now) == Overlay(entity, t, b, now)
  {
    forall x ensures RowFor(a, x) == RowFor(b, x) && (x in Ids(a) <==> x in Ids(b)) {
      SameRowFor(a, b, x);
    }
    assert Ids(a) == Ids(b);
    match entity
    case Users => assert OverlayUsers(t.users, a, now) == OverlayUsers(t.users, b, now);
    case Articles => assert OverlayArticles(t.articles, a, now) == OverlayArticles(t.articles, b, now);
    case Comments => assert OverlayComments(t.comments, a, now) == OverlayComments(t.comments, b, now);
  }

  lemma {:induction false} FailedPrefixFails(t: Tables, rows: seq<StagedRow>, n: nat, now: Time)
    requires n <= |rows| && MergeRows(t, rows[..n], now).None?
    ensures MergeRows(t, rows, now).None?
    decreases |rows|
  {
    if n < |rows| {
      assert rows[..|rows| - 1][..n] == rows[..n];
      FailedPrefixFails(t, rows[..|rows| - 1], n, now);
    } else {
      assert rows[..n] == rows;
    }
  }

  /** The shared production tables. Each method is one SQL statement. */
  class Database {
    var tables: Tables

    constructor (t: Tables)
      ensures tables == t
    {
      tables := t;
    }

    // Atomic: either every row is upserted or nothing changes.
    method MergeStagingRows(rows: seq<StagedRow>, now: Time) returns (ok: bool)
      modifies this
      ensures ok <==> MergeStatement(old(tables), rows, now).Some?
      ensures tables == GetOr(MergeStatement(old(tables), rows, now), old(tables))
    {
      var t := tables;
      var touched: set<Id> := {};
      for i := 0 to |rows|
        invariant tables == old(tables)
        invariant MergeRows(tables, rows[..i], now) == Some(t)
        invariant touched == Ids(rows[..i])
      {
        var row := rows[i];
        assert rows[..i + 1][..i] == rows[..i];
        FirstByIdIffPresent(rows[..i], row.externalId);
        if row.externalId in touched || Clash(t, row) {
          FailedPrefixFails(tables, rows, i + 1, now);
          return false;
        }
        t := Upsert(t, row, now);
        touched := touched + {row.externalId};
        assert Ids(rows[..i + 1]) == Ids(rows[..i]) + {row.externalId} by {
          assert rows[..i + 1][i].externalId == row.externalId;
          assert forall j :: 0 <= j < i ==> rows[..i + 1][j] == rows[..i][j];
        }
      }
      assert rows[..|rows|] == rows;
      ok := ReferencesHold(t, rows);
      if ok {
        tables := t;
      }
    }
  }
}
