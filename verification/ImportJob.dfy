/** The import worker. Records are buffered and flushed in batches of `flushSize`; each flush
    checks its batch against batch-local maps, the rows earlier batches staged and the
    production tables. Every method is proved against `ImportSpec`, which knows no batches. */
module ImportWorker {
  import opened Model
  import opened Validation
  import opened Staging
  import opened Merge
  import opened EntityRepository
  import opened StagingRepository
  import opened SlugConflicts
  import opened ImportSpec
  import opened Batches
  import opened MergeSafety

  datatype Status = Queued | Running | Completed | Failed

  // ---- The batch-local and staged pointer maps of a flush ----

  // The two maps together answer "who was staged first with this external id".
  ghost predicate TracksIds(staged: seq<StagedRow>, rows: seq<StagedRow>, ids: set<Id>,
                            stagedById: map<Id, Pointer>, batchById: map<Id, Pointer>)
  {
    && (forall x :: x in stagedById <==> x in ids && FirstById(staged, x).Some?)
    && (forall x :: x in stagedById ==> stagedById[x] == FirstById(staged, x).value)
    && (forall x :: Get(batchById, x) == FirstById(rows, x))
    && (forall x :: x in batchById ==> FirstById(staged, x).None?)
  }

  ghost predicate TracksEmails(staged: seq<StagedRow>, rows: seq<StagedRow>, emails: set<string>,
                               stagedByEmail: map<string, Pointer>, batchByEmail: map<string, Pointer>)
  {
    && (forall e :: e in stagedByEmail <==> e != "" && e in emails && FirstByEmail(staged, e).Some?)
    && (forall e :: e in stagedByEmail ==> stagedByEmail[e] == FirstByEmail(staged, e).value)
    && (forall e :: Get(batchByEmail, e) == FirstByEmail(rows, e))
    && (forall e :: e in batchByEmail ==> FirstByEmail(staged, e).None?)
  }

  // The batch is asked first, then the rows staged by earlier batches.
  function Seen(batchBy: map<string, Pointer>, stagedBy: map<string, Pointer>, key: string): Option<Pointer> {
    if key in batchBy then Some(batchBy[key]) else if key in stagedBy then Some(stagedBy[key]) else None
  }

  lemma {:induction false} SeenIdIsFirst(staged: seq<StagedRow>, rows: seq<StagedRow>, ids: set<Id>,
                                         stagedById: map<Id, Pointer>, batchById: map<Id, Pointer>, x: Id)
    requires TracksIds(staged, rows, ids, stagedById, batchById) && x in ids
    ensures Seen(batchById, stagedById, x) == FirstById(staged + rows, x)
  {
    FirstByIdConcat(staged, rows, x);
    assert Get(batchById, x) == FirstById(rows, x);
  }

  lemma {:induction false} SeenEmailIsFirst(staged: seq<StagedRow>, rows: seq<StagedRow>, emails: set<string>,
                                            stagedByEmail: map<string, Pointer>, batchByEmail: map<string, Pointer>,
                                            email: string)
    requires TracksEmails(staged, rows, emails, stagedByEmail, batchByEmail) && email in emails && email != ""
    ensures Seen(batchByEmail, stagedByEmail, email) == FirstByEmail(staged + rows, email)
  {
    FirstByEmailConcat(staged, rows, email);
    assert Get(batchByEmail, email) == FirstByEmail(rows, email);
  }

  lemma TracksIdsSnoc(staged: seq<StagedRow>, rows: seq<StagedRow>, ids: set<Id>,
                      stagedById: map<Id, Pointer>, batchById: map<Id, Pointer>, row: StagedRow)
    requires TracksIds(staged, rows, ids, stagedById, batchById) && row.externalId in ids
    requires Seen(batchById, stagedById, row.externalId).None?
    ensures TracksIds(staged, rows + [row], ids, stagedById,
                      batchById[row.externalId := Pointer(row.line, row.externalId)])
  {
    forall x
      ensures Get(batchById[row.externalId := Pointer(row.line, row.externalId)], x) == FirstById(rows + [row], x)
    {
      FirstByIdSnoc(rows, row, x);
      assert Get(batchById, x) == FirstById(rows, x);
    }
  }

  lemma TracksEmailsSnoc(staged: seq<StagedRow>, rows: seq<StagedRow>, emails: set<string>,
                         stagedByEmail: map<string, Pointer>, batchByEmail: map<string, Pointer>, row: StagedRow)
    requires TracksEmails(staged, rows, emails, stagedByEmail, batchByEmail)
    requires row.payload.UserRecord? && row.payload.email in emails && row.payload.email != ""
    requires Seen(batchByEmail, stagedByEmail, row.payload.email).None?
    ensures TracksEmails(staged, rows + [row], emails, stagedByEmail,
                         batchByEmail[row.payload.email := Pointer(row.line, row.externalId)])
  {
    var email := row.payload.email;
    forall e ensures Get(batchByEmail[email := Pointer(row.line, row.externalId)], e) == FirstByEmail(rows + [row], e) {
      FirstByEmailSnoc(rows, row, e);
      assert Get(batchByEmail, e) == FirstByEmail(rows, e);
    }
  }

  // The keys a query is restricted to: it must cover every key of the batch.
  method UniqueStrings(values: seq<string>) returns (unique: set<string>)
    ensures forall v :: v in values ==> v in unique
  {
    unique := {};
    for i := 0 to |values|
      invariant forall v :: v in values[..i] ==> v in unique
    {
      unique := unique + {values[i]};
    }
    assert values[..|values|] == values;
  }

  // The queries of a users flush covered every email and every resolved id of the batch.
  ghost predicate LookedUp(batch: seq<Item>, k: Lookups, emails: set<string>, ids: set<Id>,
                           existingByEmail: map<string, Id>)
  {
    forall i :: 0 <= i < |batch| ==>
      && batch[i].data.UserRecord? && batch[i].data.email in emails
      && Get(existingByEmail, batch[i].data.email) == Get(k.idByEmail, batch[i].data.email)
      && Resolve(Get(existingByEmail, batch[i].data.email), batch[i].data.id, batch[i].data.email) in ids
  }

  lemma LookedUpBatch(batch: seq<Item>, k: Lookups, emailOf: seq<string>, idOf: seq<Id>,
                      emails: set<string>, ids: set<Id>, existingByEmail: map<string, Id>)
    requires |emailOf| == |idOf| == |batch| && AcceptableItems(Users, batch)
    requires forall i :: 0 <= i < |batch| ==> emailOf[i] == batch[i].data.email
    requires forall i :: 0 <= i < |batch| ==>
      idOf[i] == Resolve(Get(existingByEmail, batch[i].data.email), batch[i].data.id, batch[i].data.email)
    requires forall v :: v in emailOf ==> v in emails
    requires forall v :: v in idOf ==> v in ids
    requires forall e :: Get(existingByEmail, e) == if e in emails then Get(k.idByEmail, e) else None
    ensures LookedUp(batch, k, emails, ids, existingByEmail)
  {
  }

  lemma {:induction false} ClassifyNext(k: Lookups, staged: seq<StagedRow>, items: seq<Item>, i: nat, e: Effect,
                                        v: Verdict)
    requires i < |items| && e == Classify(k, staged, items[..i]) && v == Decide(k, staged + e.rows, items[i])
    ensures Classify(k, staged, items[..i + 1]) == Absorb(e, v)
  {
    ClassifyStep(k, staged, items, i);
  }

  // The verdict extends the batch's effect as the reference does, and the maps can be carried on
  // past an accepted row.
  lemma {:induction false} UserVerdictDecides(k: Lookups, staged: seq<StagedRow>, batch: seq<Item>, i: nat, e: Effect,
                                              existing: Option<Id>, emails: set<string>, ids: set<Id>,
                                              stagedByEmail: map<string, Pointer>, batchByEmail: map<string, Pointer>,
                                              stagedById: map<Id, Pointer>, batchById: map<Id, Pointer>)
    requires i < |batch| && e == Classify(k, staged, batch[..i])
    requires batch[i].data.UserRecord? && batch[i].data.email != ""
    requires existing == Get(k.idByEmail, batch[i].data.email)
    requires TracksEmails(staged, e.rows, emails, stagedByEmail, batchByEmail) && batch[i].data.email in emails
    requires TracksIds(staged, e.rows, ids, stagedById, batchById)
    requires Resolve(existing, batch[i].data.id, batch[i].data.email) in ids
    ensures var item := batch[i]; var email, x := item.data.email, Resolve(existing, item.data.id, item.data.email);
            var v := UserVerdict(existing, Seen(batchByEmail, stagedByEmail, email),
                                 Seen(batchById, stagedById, x), item);
            && Classify(k, staged, batch[..i + 1]) == Absorb(e, v)
            && (v.Accept? ==>
                 && TracksEmails(staged, e.rows + [v.row], emails, stagedByEmail,
                                 batchByEmail[email := Pointer(item.line, x)])
                 && TracksIds(staged, e.rows + [v.row], ids, stagedById, batchById[x := Pointer(item.line, x)]))
  {
    var item := batch[i];
    var email, x := item.data.email, Resolve(existing, item.data.id, item.data.email);
    SeenEmailIsFirst(staged, e.rows, emails, stagedByEmail, batchByEmail, email);
    SeenIdIsFirst(staged, e.rows, ids, stagedById, batchById, x);
    var v := UserVerdict(existing, Seen(batchByEmail, stagedByEmail, email), Seen(batchById, stagedById, x), item);
    assert v == Decide(k, staged + e.rows, item);
    ClassifyNext(k, staged, batch, i, e, v);
    if v.Accept? {
      TracksEmailsSnoc(staged, e.rows, emails, stagedByEmail, batchByEmail, v.row);
      TracksIdsSnoc(staged, e.rows, ids, stagedById, batchById, v.row);
    }
  }

  lemma {:induction false} ArticleVerdictDecides(k: Lookups, staged: seq<StagedRow>, batch: seq<Item>, i: nat,
                                                 e: Effect,
                                                 hasAuthor: bool, existing: Option<Id>, ids: set<Id>,
                                                 stagedById: map<Id, Pointer>, batchById: map<Id, Pointer>)
    requires i < |batch| && e == Classify(k, staged, batch[..i])
    requires batch[i].data.ArticleRecord? && existing == Get(k.idBySlug, batch[i].data.slug)
    requires hasAuthor == (batch[i].data.authorId in k.userIds)
    requires TracksIds(staged, e.rows, ids, stagedById, batchById)
    requires Resolve(existing, batch[i].data.id, batch[i].data.slug) in ids
    ensures var item := batch[i]; var x := Resolve(existing, item.data.id, item.data.slug);
            var v := ArticleVerdict(hasAuthor, existing, Seen(batchById, stagedById, x), item);
            && Classify(k, staged, batch[..i + 1]) == Absorb(e, v)
            && (v.Accept? ==>
                  TracksIds(staged, e.rows + [v.row], ids, stagedById, batchById[x := Pointer(item.line, x)]))
  {
    var item := batch[i];
    var x := Resolve(existing, item.data.id, item.data.slug);
    SeenIdIsFirst(staged, e.rows, ids, stagedById, batchById, x);
    var v := ArticleVerdict(hasAuthor, existing, Seen(batchById, stagedById, x), item);
    assert v == Decide(k, staged + e.rows, item);
    ClassifyNext(k, staged, batch, i, e, v);
    if v.Accept? {
      TracksIdsSnoc(staged, e.rows, ids, stagedById, batchById, v.row);
    }
  }

  lemma {:induction false} CommentVerdictDecides(k: Lookups, staged: seq<StagedRow>, batch: seq<Item>, i: nat,
                                                 e: Effect,
                                                 hasUser: bool, hasArticle: bool, ids: set<Id>,
                                                 stagedById: map<Id, Pointer>, batchById: map<Id, Pointer>)
    requires i < |batch| && e == Classify(k, staged, batch[..i])
    requires batch[i].data.CommentRecord?
    requires hasUser == (batch[i].data.userId in k.userIds) && hasArticle == (batch[i].data.articleId in k.articleIds)
    requires TracksIds(staged, e.rows, ids, stagedById, batchById) && batch[i].data.commentId in ids
    ensures var item := batch[i]; var x := item.data.commentId;
            var v := CommentVerdict(hasUser, hasArticle, Seen(batchById, stagedById, x), item);
            && Classify(k, staged, batch[..i + 1]) == Absorb(e, v)
            && (v.Accept? ==>
                  TracksIds(staged, e.rows + [v.row], ids, stagedById, batchById[x := Pointer(item.line, x)]))
  {
    var item := batch[i];
    var x := item.data.commentId;
    SeenIdIsFirst(staged, e.rows, ids, stagedById, batchById, x);
    var v := CommentVerdict(hasUser, hasArticle, Seen(batchById, stagedById, x), item);
    assert v == Decide(k, staged + e.rows, item);
    ClassifyNext(k, staged, batch, i, e, v);
    if v.Accept? {
      TracksIdsSnoc(staged, e.rows, ids, stagedById, batchById, v.row);
    }
  }

  // The job's state while a batch with effect e is under way: rejections are recorded at once,
  // rows are written when the batch ends.
  function UnderWay(s: RunState, e: Effect): RunState {
    RunState(Moved(s.totals, |e.rejects|), s.staged, s.errors + e.rejects)
  }

  function Rejecting(s: RunState, error: JobError): RunState {
    s.(totals := Moved(s.totals, 1), errors := s.errors + [error])
  }

  lemma RejectUnderWay(s: RunState, e: Effect, error: JobError)
    ensures Rejecting(UnderWay(s, e), error) == UnderWay(s, Absorb(e, Reject(error)))
  {
  }

  function AfterCleanup(entity: Entity, t: Tables, s: RunState): RunState
    requires UniqueSlugs(t.articles)
  {
    if entity.Articles? then WithoutConflicts(IdBySlug(t.articles), s) else s
  }

  lemma CleanedIsFinished(admit: Admitter, entity: Entity, t: Tables, entries: seq<Entry>, s: RunState)
    requires UniqueEmails(t.users) && UniqueSlugs(t.articles) && Ascending(s.staged)
    requires var r := OneByOne(admit, WholeTable(t), entries);
             s.staged == r.staged && s.totals == r.totals && multiset(s.errors) == multiset(r.errors)
    ensures var f, c := Finished(admit, entity, t, entries), AfterCleanup(entity, t, s);
            && c.staged == f.staged && c.totals.(written := |c.staged|) == f.totals
            && multiset(c.errors) == multiset(f.errors)
  {
    DeletingByLineKeepsTheRest(IdBySlug(t.articles), s.staged);
  }

  // What an attempt that died may leave: staging rows, error rows, counters, buffers and status.
  datatype Leftover = Leftover(status: Status, state: RunState, users: seq<Item>, articles: seq<Item>,
                               comments: seq<Item>)

  class ImportJob {
    const entity: Entity
    const admit: Admitter
    const flushSize: nat
    const db: Database
    var status: Status
    var totals: Totals
    var staged: seq<StagedRow>   // this job's staging rows, in line order
    var errors: seq<JobError>    // this job's error log
    var users: seq<Item>
    var articles: seq<Item>
    var comments: seq<Item>

    constructor (entity: Entity, rules: Rules, flushSize: nat, db: Database)
      requires flushSize >= 1 && SoundRules(rules)
      ensures Configured() && this.entity == entity && this.db == db
      ensures AdmitsBy(admit, rules, entity)
    {
      AdmitIsSound(rules, entity);
      this.entity, this.flushSize, this.db := entity, flushSize, db;
      admit := e => Admit(rules, entity, e);
      status, totals, staged, errors := Queued, ZERO_TOTALS, [], [];
      users, articles, comments := [], [], [];
    }

    ghost predicate Configured() {
      flushSize >= 1 && SoundAdmitter(entity, admit)
    }

    ghost predicate TablesReady()
      reads db
    {
      Constrained(db.tables)
    }

    function State(): RunState
      reads this
    {
      RunState(totals, staged, errors)
    }

    function Buffer(): seq<Item>
      reads this
    {
      match entity
      case Users => users
      case Articles => articles
      case Comments => comments
    }

    function Work(): Work
      reads this
    {
      Batches.Work(State(), Buffer())
    }

    ghost predicate OtherBuffersEmpty()
      reads this
    {
      && (entity != Users ==> users == [])
      && (entity != Articles ==> articles == [])
      && (entity != Comments ==> comments == [])
    }

    // The job is between two records of its input.
    ghost predicate Reading()
      reads this
    {
      && Configured() && OtherBuffersEmpty() && |Buffer()| < flushSize
      && AcceptableItems(entity, Buffer()) && AcceptableRows(entity, staged)
      && Balanced(State(), Buffer(), [])
    }

    // A record that turns out to be a duplicate, a mismatch or an orphan.
    method RecordRejected(error: JobError)
      modifies `totals, `errors
      ensures State() == Rejecting(old(State()), error)
    {
      totals := totals.(valid := totals.valid - 1, failed := totals.failed + 1);
      errors := errors + [error];
    }

    method FlushUsersBatch(batch: seq<Item>)
      requires UniqueEmails(db.tables.users) && UniqueSlugs(db.tables.articles)
      requires AcceptableItems(Users, batch)
      requires batch != [] ==> AcceptableRows(Users, staged)
      modifies `totals, `errors, `staged
      ensures State() == Flushed(WholeTable(db.tables), old(State()), batch)
    {
      if |batch| == 0 {
        FlushedNothing(WholeTable(db.tables), State());
        return;
      }
      ghost var k := WholeTable(db.tables);
      var emailOf := seq(|batch|, i requires 0 <= i < |batch| => batch[i].data.email);
      var emails := UniqueStrings(emailOf);
      var existingByEmail := FindUserExternalIdsByEmail(db.tables.users, emails);
      var stagedByEmail := FindStagedUsersByEmail(staged, emails);
      var idOf := seq(|batch|, i requires 0 <= i < |batch| =>
        Resolve(Get(existingByEmail, batch[i].data.email), batch[i].data.id, batch[i].data.email));
      var resolvedIds := UniqueStrings(idOf);
      var stagedByExternalId := FindStagedExternalIdPointers(staged, resolvedIds);
      assert LookedUp(batch, k, emails, resolvedIds, existingByEmail) by {
        LookedUpBatch(batch, k, emailOf, idOf, emails, resolvedIds, existingByEmail);
      }
      StageUsers(batch, k, emails, resolvedIds, existingByEmail, stagedByEmail, stagedByExternalId);
    }

    // The loop of the users flush, with the answers to its queries at hand.
    method StageUsers(batch: seq<Item>, ghost k: Lookups, ghost emails: set<string>, ghost resolvedIds: set<Id>,
                      existingByEmail: map<string, Id>, stagedByEmail: map<string, Pointer>,
                      stagedByExternalId: map<Id, Pointer>)
      requires AcceptableItems(Users, batch)
      requires TracksEmails(staged, [], emails, stagedByEmail, map[])
      requires TracksIds(staged, [], resolvedIds, stagedByExternalId, map[])
      requires LookedUp(batch, k, emails, resolvedIds, existingByEmail)
      modifies `totals, `errors, `staged
      ensures State() == Flushed(k, old(State()), batch)
    {
      ghost var s, e := State(), Effect([], []);
      var batchByEmail: map<string, Pointer> := map[];
      var batchByExternalId: map<Id, Pointer> := map[];
      var rowsToWrite: seq<StagedRow> := [];

      for i := 0 to |batch|
        invariant e == Classify(k, s.staged, batch[..i]) && State() == UnderWay(s, e) && rowsToWrite == e.rows
        invariant TracksEmails(s.staged, rowsToWrite, emails, stagedByEmail, batchByEmail)
        invariant TracksIds(s.staged, rowsToWrite, resolvedIds, stagedByExternalId, batchByExternalId)
      {
        var item := batch[i];
        var email := item.data.email;
        var existing := Get(existingByEmail, email);
        var resolvedId := Resolve(existing, item.data.id, email);
        var verdict := UserVerdict(existing, Seen(batchByEmail, stagedByEmail, email),
                                   Seen(batchByExternalId, stagedByExternalId, resolvedId), item);
        UserVerdictDecides(k, s.staged, batch, i, e, existing, emails, resolvedIds,
                           stagedByEmail, batchByEmail, stagedByExternalId, batchByExternalId);
        match verdict {
          case Reject(error) =>
            RejectUnderWay(s, e, error);
            RecordRejected(error);
          case Accept(row) =>
            batchByEmail := batchByEmail[email := Pointer(item.line, resolvedId)];
            batchByExternalId := batchByExternalId[resolvedId := Pointer(item.line, resolvedId)];
            rowsToWrite := rowsToWrite + [row];
        }
        e := Absorb(e, verdict);
      }
      assert batch[..|batch|] == batch;
      staged := staged + rowsToWrite;
    }

    method FlushArticlesBatch(batch: seq<Item>)
      requires UniqueEmails(db.tables.users) && UniqueSlugs(db.tables.articles)
      requires AcceptableItems(Articles, batch)
      modifies `totals, `errors, `staged
      ensures State() == Flushed(WholeTable(db.tables), old(State()), batch)
    {
      if |batch| == 0 {
        FlushedNothing(WholeTable(db.tables), State());
        return;
      }
      ghost var k := WholeTable(db.tables);
      var authorOf := seq(|batch|, i requires 0 <= i < |batch| => batch[i].data.authorId);
      var slugOf := seq(|batch|, i requires 0 <= i < |batch| => batch[i].data.slug);
      var authorIds := UniqueStrings(authorOf);
      var slugs := UniqueStrings(slugOf);
      var existingAuthors := authorIds * db.tables.users.Keys;
      var existingBySlug := FindArticleExternalIdsBySlug(db.tables.articles, slugs);
      var idOf := seq(|batch|, i requires 0 <= i < |batch| =>
        Resolve(Get(existingBySlug, batch[i].data.slug), batch[i].data.id, batch[i].data.slug));
      var resolvedIds := UniqueStrings(idOf);
      var stagedByExternalId := FindStagedExternalIdPointers(staged, resolvedIds);
      forall i | 0 <= i < |batch|
        ensures (batch[i].data.authorId in existingAuthors) == (batch[i].data.authorId in k.userIds)
        ensures Get(existingBySlug, batch[i].data.slug) == Get(k.idBySlug, batch[i].data.slug)
        ensures Resolve(Get(existingBySlug, batch[i].data.slug), batch[i].data.id, batch[i].data.slug) in resolvedIds
      {
        assert authorOf[i] in authorOf && slugOf[i] in slugOf && idOf[i] in idOf;
      }
      StageArticles(batch, k, resolvedIds, existingAuthors, existingBySlug, stagedByExternalId);
    }

    method StageArticles(batch: seq<Item>, ghost k: Lookups, ghost resolvedIds: set<Id>, existingAuthors: set<Id>,
                         existingBySlug: map<string, Id>, stagedByExternalId: map<Id, Pointer>)
      requires AcceptableItems(Articles, batch) && TracksIds(staged, [], resolvedIds, stagedByExternalId, map[])
      requires forall i :: 0 <= i < |batch| ==>
        && (batch[i].data.authorId in existingAuthors) == (batch[i].data.authorId in k.userIds)
        && Get(existingBySlug, batch[i].data.slug) == Get(k.idBySlug, batch[i].data.slug)
        && Resolve(Get(existingBySlug, batch[i].data.slug), batch[i].data.id, batch[i].data.slug) in resolvedIds
      modifies `totals, `errors, `staged
      ensures State() == Flushed(k, old(State()), batch)
    {
      ghost var s, e := State(), Effect([], []);
      var batchByExternalId: map<Id, Pointer> := map[];
      var rowsToWrite: seq<StagedRow> := [];

      for i := 0 to |batch|
        invariant e == Classify(k, s.staged, batch[..i]) && State() == UnderWay(s, e) && rowsToWrite == e.rows
        invariant TracksIds(s.staged, rowsToWrite, resolvedIds, stagedByExternalId, batchByExternalId)
      {
        var item := batch[i];
        var existing := Get(existingBySlug, item.data.slug);
        var resolvedId := Resolve(existing, item.data.id, item.data.slug);
        var verdict := ArticleVerdict(item.data.authorId in existingAuthors, existing,
                                      Seen(batchByExternalId, stagedByExternalId, resolvedId), item);
        ArticleVerdictDecides(k, s.staged, batch, i, e, item.data.authorId in existingAuthors, existing,
                              resolvedIds, stagedByExternalId, batchByExternalId);
        match verdict {
          case Reject(error) =>
            RejectUnderWay(s, e, error);
            RecordRejected(error);
          case Accept(row) =>
            batchByExternalId := batchByExternalId[resolvedId := Pointer(item.line, resolvedId)];
            rowsToWrite := rowsToWrite + [row];
        }
        e := Absorb(e, verdict);
      }
      assert batch[..|batch|] == batch;
      staged := staged + rowsToWrite;
    }

    method FlushCommentsBatch(batch: seq<Item>)
      requires UniqueEmails(db.tables.users) && UniqueSlugs(db.tables.articles)
      requires AcceptableItems(Comments, batch)
      modifies `totals, `errors, `staged
      ensures State() == Flushed(WholeTable(db.tables), old(State()), batch)
    {
      if |batch| == 0 {
        FlushedNothing(WholeTable(db.tables), State());
        return;
      }
      ghost var k := WholeTable(db.tables);
      var userOf := seq(|batch|, i requires 0 <= i < |batch| => batch[i].data.userId);
      var articleOf := seq(|batch|, i requires 0 <= i < |batch| => batch[i].data.articleId);
      var idOf := seq(|batch|, i requires 0 <= i < |batch| => batch[i].data.commentId);
      var userIds := UniqueStrings(userOf);
      var articleIds := UniqueStrings(articleOf);
      var commentIds := UniqueStrings(idOf);
      var existingUsers := userIds * db.tables.users.Keys;
      var existingArticles := articleIds * db.tables.articles.Keys;
      var stagedByExternalId := FindStagedExternalIdPointers(staged, commentIds);
      forall i | 0 <= i < |batch|
        ensures (batch[i].data.userId in existingUsers) == (batch[i].data.userId in k.userIds)
        ensures (batch[i].data.articleId in existingArticles) == (batch[i].data.articleId in k.articleIds)
        ensures batch[i].data.commentId in commentIds
      {
        assert userOf[i] in userOf && articleOf[i] in articleOf && idOf[i] in idOf;
      }
      StageComments(batch, k, commentIds, existingUsers, existingArticles, stagedByExternalId);
    }

    method StageComments(batch: seq<Item>, ghost k: Lookups, ghost commentIds: set<Id>, existingUsers: set<Id>,
                         existingArticles: set<Id>, stagedByExternalId: map<Id, Pointer>)
      requires AcceptableItems(Comments, batch) && TracksIds(staged, [], commentIds, stagedByExternalId, map[])
      requires forall i :: 0 <= i < |batch| ==>
        && (batch[i].data.userId in existingUsers) == (batch[i].data.userId in k.userIds)
        && (batch[i].data.articleId in existingArticles) == (batch[i].data.articleId in k.articleIds)
        && batch[i].data.commentId in commentIds
      modifies `totals, `errors, `staged
      ensures State() == Flushed(k, old(State()), batch)
    {
      ghost var s, e := State(), Effect([], []);
      var batchByExternalId: map<Id, Pointer> := map[];
      var rowsToWrite: seq<StagedRow> := [];

      for i := 0 to |batch|
        invariant e == Classify(k, s.staged, batch[..i]) && State() == UnderWay(s, e) && rowsToWrite == e.rows
        invariant TracksIds(s.staged, rowsToWrite, commentIds, stagedByExternalId, batchByExternalId)
      {
        var item := batch[i];
        var id := item.data.commentId;
        var verdict := CommentVerdict(item.data.userId in existingUsers, item.data.articleId in existingArticles,
                                      Seen(batchByExternalId, stagedByExternalId, id), item);
        CommentVerdictDecides(k, s.staged, batch, i, e, item.data.userId in existingUsers,
                              item.data.articleId in existingArticles, commentIds,
                              stagedByExternalId, batchByExternalId);
        match verdict {
          case Reject(error) =>
            RejectUnderWay(s, e, error);
            RecordRejected(error);
          case Accept(row) =>
            batchByExternalId := batchByExternalId[id := Pointer(item.line, id)];
            rowsToWrite := rowsToWrite + [row];
        }
        e := Absorb(e, verdict);
      }
      assert batch[..|batch|] == batch;
      staged := staged + rowsToWrite;
    }

    // Every buffer is emptied; a job has records in at most one of them.
    method FlushAllBuffers()
      requires UniqueEmails(db.tables.users) && UniqueSlugs(db.tables.articles)
      requires OtherBuffersEmpty() && AcceptableItems(entity, Buffer()) && AcceptableRows(entity, staged)
      modifies `totals, `errors, `staged, `users, `articles, `comments
      ensures State() == Flushed(WholeTable(db.tables), old(State()), old(Buffer()))
      ensures users == articles == comments == []
      ensures AcceptableRows(entity, staged)
    {
      ClassifyKeepsEntity(entity, WholeTable(db.tables), staged, Buffer());
      FlushedNothing(WholeTable(db.tables), State());
      FlushedNothing(WholeTable(db.tables), Flushed(WholeTable(db.tables), State(), Buffer()));
      var batch := users;
      users := [];
      FlushUsersBatch(batch);
      batch := articles;
      articles := [];
      FlushArticlesBatch(batch);
      batch := comments;
      comments := [];
      FlushCommentsBatch(batch);
    }

    // One entry of the record stream: parse error, validation error, or buffered and, when the
    // buffer is full, flushed.
    method ProcessEntry(e: Entry, ghost r: RunState)
      requires Reading() && UniqueEmails(db.tables.users) && UniqueSlugs(db.tables.articles)
      requires StandsFor(WholeTable(db.tables), Work(), r)
      modifies `totals, `errors, `staged, `users, `articles, `comments
      ensures Reading()
      ensures var w := Counted(old(Work()), admit(e));
              Work() == if |w.buffer| >= flushSize then Written(WholeTable(db.tables), w) else w
      ensures StandsFor(WholeTable(db.tables), Work(), Handle(WholeTable(db.tables), r, admit(e)))
    {
      assert SoundAt(entity, admit, e);
      ghost var k, w := WholeTable(db.tables), Counted(Work(), admit(e));
      CountedStandsFor(k, Work(), r, admit(e));
      CountAdmission(admit(e));
      if |Buffer()| >= flushSize {
        FlushBalances(k, w);
        FlushedStandsFor(k, w, Handle(k, r, admit(e)));
        FlushBuffer();
      }
    }

    method CountAdmission(a: Admission)
      requires OtherBuffersEmpty() && AcceptableItems(entity, Buffer())
      requires a.Admitted? ==> Acceptable(entity, a.item.data)
      requires Balanced(State(), Buffer(), [])
      modifies `totals, `errors, `users, `articles, `comments
      ensures Work() == Counted(old(Work()), a)
      ensures OtherBuffersEmpty() && AcceptableItems(entity, Buffer()) && Balanced(State(), Buffer(), [])
      ensures |Buffer()| <= old(|Buffer()|) + 1
    {
      match a {
        case Turned(error) =>
          totals := totals.(read := totals.read + 1, failed := totals.failed + 1);
          errors := errors + [error];
        case Admitted(item) =>
          totals := totals.(read := totals.read + 1, valid := totals.valid + 1);
          Push(item);
      }
    }

    method Push(item: Item)
      requires OtherBuffersEmpty()
      modifies `users, `articles, `comments
      ensures OtherBuffersEmpty() && Buffer() == old(Buffer()) + [item]
    {
      match entity
      case Users => users := users + [item];
      case Articles => articles := articles + [item];
      case Comments => comments := comments + [item];
    }

    method FlushBuffer()
      requires OtherBuffersEmpty() && AcceptableItems(entity, Buffer()) && AcceptableRows(entity, staged)
      requires UniqueEmails(db.tables.users) && UniqueSlugs(db.tables.articles)
      modifies `totals, `errors, `staged, `users, `articles, `comments
      ensures Work() == Written(WholeTable(db.tables), old(Work()))
      ensures OtherBuffersEmpty() && Buffer() == [] && AcceptableRows(entity, staged)
    {
      ClassifyKeepsEntity(entity, WholeTable(db.tables), staged, Buffer());
      match entity {
        case Users =>
          var batch := users;
          users := [];
          FlushUsersBatch(batch);
        case Articles =>
          var batch := articles;
          articles := [];
          FlushArticlesBatch(batch);
        case Comments =>
          var batch := comments;
          comments := [];
          FlushCommentsBatch(batch);
      }
    }

    // Staging rows and error rows of an earlier attempt are deleted before anything is read.
    method ClearPreviousAttempt()
      requires Configured()
      modifies this
      ensures Reading() && State() == START && Buffer() == [] && status == Running
    {
      status := Running;
      staged, errors, totals := [], [], ZERO_TOTALS;
      users, articles, comments := [], [], [];
    }

    method ReadRecords(entries: seq<Entry>)
      requires Reading() && Buffer() == []
      requires UniqueEmails(db.tables.users) && UniqueSlugs(db.tables.articles)
      modifies `totals, `errors, `staged, `users, `articles, `comments
      ensures Reading()
      ensures StandsFor(WholeTable(db.tables), Work(),
                        RunFrom(admit, WholeTable(db.tables), old(State()), entries))
    {
      ghost var k, s, r := WholeTable(db.tables), State(), State();
      StandsForItself(k, s);
      for i := 0 to |entries|
        invariant Reading() && StandsFor(k, Work(), r)
        invariant r == RunFrom(admit, k, s, entries[..i])
      {
        RunFromStep(admit, k, s, entries, i, r);
        ProcessEntry(entries[i], r);
        r := Handle(k, r, admit(entries[i]));
      }
      assert entries[..|entries|] == entries;
    }

    // Conflicting staged articles are deleted by line and reported one by one.
    method DropSlugConflicts()
      requires UniqueSlugs(db.tables.articles)
      modifies `staged, `errors, `totals
      ensures State() == WithoutConflicts(IdBySlug(db.tables.articles), old(State()))
    {
      var conflicts := FindSlugConflicts(db.tables.articles, staged);
      staged := DeleteLines(staged, LinesOf(conflicts));
      ReportConflicts(conflicts);
    }

    method ReportConflicts(conflicts: seq<StagedRow>)
      modifies `errors, `totals
      ensures errors == old(errors) + SlugErrors(conflicts)
      ensures totals == old(totals).(failed := old(totals).failed + |conflicts|)
    {
      for i := 0 to |conflicts|
        invariant errors == old(errors) + SlugErrors(conflicts[..i])
        invariant totals == old(totals).(failed := old(totals).failed + i)
      {
        assert conflicts[..i + 1][..i] == conflicts[..i];
        totals := totals.(failed := totals.failed + 1);
        errors := errors + [SlugError(conflicts[i])];
      }
      assert conflicts[..|conflicts|] == conflicts;
    }

    // The read loop and the final flush leave what the record-by-record run leaves.
    method ReadAndFlush(entries: seq<Entry>)
      requires Reading() && Buffer() == []
      requires UniqueEmails(db.tables.users) && UniqueSlugs(db.tables.articles)
      modifies `totals, `errors, `staged, `users, `articles, `comments
      ensures var r := RunFrom(admit, WholeTable(db.tables), old(State()), entries);
              staged == r.staged && totals == r.totals && multiset(errors) == multiset(r.errors)
    {
      ghost var k := WholeTable(db.tables);
      ghost var r := RunFrom(admit, k, State(), entries);
      ReadRecords(entries);
      FlushedStandsFor(k, Work(), r);
      FlushAllBuffers();
      NothingPending(k, State(), r);
    }

    // Everything up to the merge. It cannot write the production tables: they are not in its frame.
    method StageEverything(entries: seq<Entry>)
      requires Configured() && TablesReady() && LinesAscend(entries)
      modifies this
      ensures var f := Finished(admit, entity, db.tables, entries);
              && staged == f.staged && multiset(errors) == multiset(f.errors)
              && totals.(written := |staged|) == f.totals && status == Running
    {
      ClearPreviousAttempt();
      ReadAndFlush(entries);
      ghost var s := State();
      assert Ascending(staged) by {
        StagedIsWellStaged(admit, entity, WholeTable(db.tables), entries,
                           if entries == [] then 0 else entries[|entries| - 1].line + 1);
      }
      if entity.Articles? {
        DropSlugConflicts();
      }
      CleanedIsFinished(admit, entity, db.tables, entries, s);
    }

    /** The whole job, against tables no other job changes meanwhile. Whatever an earlier attempt
        left in the staging table, the error log and the counters, and whatever the flush size, the
        job completes with the tables, counters and error rows of the record-by-record reference. */
    method ProcessImportJob(entries: seq<Entry>, now: Time)
      requires Configured() && TablesReady() && LinesAscend(entries)
      modifies this, db
      ensures AllOf(entity, Finished(admit, entity, old(db.tables), entries).staged)
      ensures var f := Finished(admit, entity, old(db.tables), entries);
              && status == Completed && staged == []
              && totals == f.totals && multiset(errors) == multiset(f.errors)
              && db.tables == Overlay(entity, old(db.tables), f.staged, now)
      ensures Constrained(db.tables)
    {
      FinishedMerges(admit, entity, db.tables, entries, now);
      StageEverything(entries);
      MergeAndComplete(now);
    }

    // The merge, the final count and the cleanup; a refused merge fails the job and changes no table.
    method MergeAndComplete(now: Time)
      modifies this, db
      ensures errors == old(errors) && staged == []
      ensures match MergeStatement(old(db.tables), old(staged), now)
              case Some(t) => status == Completed && db.tables == t && totals == old(totals).(written := |old(staged)|)
              case None => status == Failed && db.tables == old(db.tables) && totals == old(totals)
    {
      var ok := db.MergeStagingRows(staged, now);
      if ok {
        totals := totals.(written := |staged|);
      }
      staged := [];
      status := if ok then Completed else Failed;
    }

    // An attempt that dies anywhere before the merge, be it inside a flush, the cleanup or the
    // clearing: all that is known of it is what it can write. StageEverything has the same frame.
    method StoppedAttempt(left: Leftover)
      modifies this
      ensures State() == left.state && status == left.status
      ensures users == left.users && articles == left.articles && comments == left.comments
    {
      status, totals, staged, errors := left.status, left.state.totals, left.state.staged, left.state.errors;
      users, articles, comments := left.users, left.articles, left.comments;
    }

    /** Any number of attempts that die before the merge, whatever each of them leaves behind, then
        one that runs: the outcome is that of a single undisturbed attempt. */
    method RunWithRestarts(entries: seq<Entry>, stopped: seq<Leftover>, now: Time)
      requires Configured() && TablesReady() && LinesAscend(entries)
      modifies this, db
      ensures AllOf(entity, Finished(admit, entity, old(db.tables), entries).staged)
      ensures var f := Finished(admit, entity, old(db.tables), entries);
              && status == Completed && totals == f.totals && multiset(errors) == multiset(f.errors)
              && db.tables == Overlay(entity, old(db.tables), f.staged, now)
    {
      for i := 0 to |stopped|
        invariant db.tables == old(db.tables)
      {
        StoppedAttempt(stopped[i]);
      }
      ProcessImportJob(entries, now);
    }
  }
}
