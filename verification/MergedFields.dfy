/** What the merge statement writes, field by field. */
module MergedFields {
  import opened Model
  import opened Staging
  import opened Merge

  // The timestamp given, or else the clock of the statement.
  predicate GivenOrNow(given: Option<Time>, now: Time, written: Time) {
    match given
    case Some(time) => written == time
    case None => written == now
  }

  // The time of creation: an existing row keeps its own.
  predicate CreatedOnce(existing: Option<Time>, given: Option<Time>, now: Time, written: Time) {
    match existing
    case Some(time) => written == time
    case None => GivenOrNow(given, now, written)
  }

  predicate UserStored(before: map<Id, UserRow>, after: map<Id, UserRow>, x: Id, d: ImportRecord, now: Time)
    requires d.UserRecord?
  {
    && x in after
    && after[x].email == d.email && after[x].name == d.name && after[x].role == d.role && after[x].active == d.active
    && GivenOrNow(d.updatedAt, now, after[x].updatedAt)
    && CreatedOnce(if x in before then Some(before[x].createdAt) else None, d.createdAt, now, after[x].createdAt)
  }

  predicate ArticleStored(before: map<Id, ArticleRow>, after: map<Id, ArticleRow>, x: Id, d: ImportRecord, now: Time)
    requires d.ArticleRecord?
  {
    && x in after
    && after[x].slug == Some(d.slug) && after[x].title == d.title && after[x].body == d.body
    && after[x].authorId == d.authorId && after[x].tags == d.tags && after[x].status == d.status
    && after[x].publishedAt == d.publishedAt
    && GivenOrNow(d.updatedAt, now, after[x].updatedAt)
    && CreatedOnce(if x in before then Some(before[x].createdAt) else None, d.createdAt, now, after[x].createdAt)
  }

  predicate CommentStored(after: map<Id, CommentRow>, x: Id, d: ImportRecord, now: Time)
    requires d.CommentRecord?
  {
    && x in after
    && after[x].articleId == d.articleId && after[x].userId == d.userId && after[x].body == d.body
    && GivenOrNow(d.createdAt, now, after[x].createdAt)
  }

  // The production row of the staged id has every field of the record.
  predicate Stored(before: Tables, after: Tables, row: StagedRow, now: Time) {
    match row.payload
    case UserRecord(_, _, _, _, _, _, _) =>
      UserStored(before.users, after.users, row.externalId, row.payload, now)
    case ArticleRecord(_, _, _, _, _, _, _, _, _, _) =>
      ArticleStored(before.articles, after.articles, row.externalId, row.payload, now)
    case CommentRecord(_, _, _, _, _) =>
      CommentStored(after.comments, row.externalId, row.payload, now)
  }

  // Every row of the entity's table whose id is not among the given ones, and both other tables, are as before.
  ghost predicate OthersUntouched(entity: Entity, before: Tables, after: Tables, ids: set<Id>) {
    match entity
    case Users =>
      && after.articles == before.articles && after.comments == before.comments
      && forall x :: x !in ids ==> Get(after.users, x) == Get(before.users, x)
    case Articles =>
      && after.users == before.users && after.comments == before.comments
      && forall x :: x !in ids ==> Get(after.articles, x) == Get(before.articles, x)
    case Comments =>
      && after.users == before.users && after.articles == before.articles
      && forall x :: x !in ids ==> Get(after.comments, x) == Get(before.comments, x)
  }

  // A row touched twice aborts the statement.
  lemma {:induction false} MergedIdsAreDistinct(t: Tables, rows: seq<StagedRow>, now: Time)
    requires MergeRows(t, rows, now).Some?
    ensures DistinctIds(rows)
  {
    if rows != [] {
      var init, row := rows[..|rows| - 1], rows[|rows| - 1];
      MergedIdsAreDistinct(t, init, now);
      FirstByIdIffPresent(init, row.externalId);
      assert forall i :: 0 <= i < |init| ==> rows[i] == init[i];
    }
  }

  lemma {:induction false} OverlayStores(entity: Entity, t: Tables, rows: seq<StagedRow>, now: Time, i: nat)
    requires AllOf(entity, rows) && DistinctIds(rows) && i < |rows|
    ensures Stored(t, Overlay(entity, t, rows, now), rows[i], now)
  {
    OneRowPerId(rows, i);
    assert rows[i].externalId in Ids(rows);
  }

  lemma OverlayLeavesOthers(entity: Entity, t: Tables, rows: seq<StagedRow>, now: Time)
    requires AllOf(entity, rows)
    ensures OthersUntouched(entity, t, Overlay(entity, t, rows, now), Ids(rows))
  {
    forall x { RowForMember(rows, x); }
  }

  /** An accepted merge writes every field of every staged row into the row of its id: the update
      time given or now, the creation time of a new row given or now and of an existing one
      unchanged, except that a comment always takes the time given or now. No other row changes. */
  lemma {:induction false} MergeStoresEveryField(entity: Entity, t: Tables, rows: seq<StagedRow>, now: Time)
    requires AllOf(entity, rows) && MergeStatement(t, rows, now).Some?
    ensures var after := MergeStatement(t, rows, now).value;
            && (forall i :: 0 <= i < |rows| ==> Stored(t, after, rows[i], now))
            && OthersUntouched(entity, t, after, Ids(rows))
  {
    MergedIdsAreDistinct(t, rows, now);
    MergedIsOverlay(entity, t, rows, now);
    forall i | 0 <= i < |rows| ensures Stored(t, Overlay(entity, t, rows, now), rows[i], now) {
      OverlayStores(entity, t, rows, now, i);
    }
    OverlayLeavesOthers(entity, t, rows, now);
  }
}
