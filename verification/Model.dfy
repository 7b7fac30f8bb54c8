/** The data the importer and exporter work on: validated records, staged rows,
    error rows, counters and the three production tables. */
module Model {

  datatype Option<+T> = None | Some(value: T)

  function GetOr<T>(o: Option<T>, default: T): T {
    if o.Some? then o.value else default
  }

  function Get<K, V>(m: map<K, V>, k: K): Option<V> {
    if k in m then Some(m[k]) else None
  }

  type Id = string

  // Microseconds, the resolution of the database's timestamps.
  type Time = int

  datatype Entity = Users | Articles | Comments

  // A record the validator has accepted. Absent optional fields are None.
  datatype ImportRecord =
    | UserRecord(id: Option<Id>, email: string, name: string, role: string, active: bool,
                 createdAt: Option<Time>, updatedAt: Option<Time>)
    | ArticleRecord(id: Option<Id>, slug: string, title: string, body: string, authorId: Id,
                    tags: seq<string>, publishedAt: Option<Time>, status: string,
                    createdAt: Option<Time>, updatedAt: Option<Time>)
    | CommentRecord(commentId: Id, articleId: Id, userId: Id, body: string, createdAt: Option<Time>)

  predicate OfEntity(entity: Entity, r: ImportRecord) {
    match entity
    case Users => r.UserRecord?
    case Articles => r.ArticleRecord?
    case Comments => r.CommentRecord?
  }

  // What validation guarantees and the later stages rely on: natural keys are never empty.
  predicate Acceptable(entity: Entity, r: ImportRecord) {
    OfEntity(entity, r) && (r.UserRecord? ==> r.email != "") && (r.ArticleRecord? ==> r.slug != "")
  }

  datatype Item = Item(line: nat, data: ImportRecord)

  // A row of the job's staging table. The payload's own copy of the external id is
  // written from the same value and is not kept twice.
  datatype StagedRow = StagedRow(line: nat, externalId: Id, payload: ImportRecord)

  datatype ErrorCode =
    | ParseError | ValidationError | DuplicateNaturalKey | DuplicateId
    | IdNaturalKeyMismatch | FkError | SlugConflict

  datatype Issue =
    | Unparsable(message: string)
    | InvalidField(path: string)
    | InvalidItem(path: string, index: nat)
    | EmailFirstSeen(line: nat)
    | IdFirstSeen(line: nat)
    | IdDoesNotMatchEmail
    | MissingReference(path: string)
    | SlugTaken(slug: string)

  datatype JobError = JobError(line: nat, externalId: Option<Id>, code: ErrorCode, issues: seq<Issue>)

  datatype Totals = Totals(read: int, valid: int, failed: int, written: int)

  const ZERO_TOTALS := Totals(0, 0, 0, 0)

  datatype UserRow = UserRow(email: string, name: string, role: string, active: bool,
                             createdAt: Time, updatedAt: Time)

  datatype ArticleRow = ArticleRow(slug: Option<string>, title: string, body: string, authorId: Id,
                                   tags: seq<string>, publishedAt: Option<Time>, status: string,
                                   createdAt: Time, updatedAt: Time)

  datatype CommentRow = CommentRow(articleId: Id, userId: Id, body: string, createdAt: Time)

  // The production tables, each keyed by its unique external id.
  datatype Tables = Tables(users: map<Id, UserRow>, articles: map<Id, ArticleRow>,
                           comments: map<Id, CommentRow>)

  ghost predicate UniqueEmails(users: map<Id, UserRow>) {
    forall x, y :: x in users && y in users && users[x].email == users[y].email ==> x == y
  }

  ghost predicate UniqueSlugs(articles: map<Id, ArticleRow>) {
    forall x, y :: (x in articles && y in articles && articles[x].slug.Some? &&
                    articles[x].slug == articles[y].slug) ==> x == y
  }

  ghost predicate ForeignKeys(t: Tables) {
    && (forall x :: x in t.articles ==> t.articles[x].authorId in t.users)
    && (forall x :: x in t.comments ==> t.comments[x].articleId in t.articles)
    && (forall x :: x in t.comments ==> t.comments[x].userId in t.users)
  }

  // The constraints the schema declares.
  ghost predicate Constrained(t: Tables) {
    UniqueEmails(t.users) && UniqueSlugs(t.articles) && ForeignKeys(t)
  }
}
