/** What one record does to a job: it is staged or it becomes an error row. `Decide`
    looks at one record, the rows staged before it and the production keys. `Classify`
    runs it over a list, one record at a time: it is the reference the batched flush
    is proved against. */
module Staging {
  import opened Model

  // The production keys a flush consults.
  datatype Lookups = Lookups(userIds: set<Id>, articleIds: set<Id>,
                             idByEmail: map<string, Id>, idBySlug: map<string, Id>)

  function Emails(users: map<Id, UserRow>): set<string> {
    set x | x in users :: users[x].email
  }

  function IdByEmail(users: map<Id, UserRow>): map<string, Id>
    requires UniqueEmails(users)
  {
    map e | e in Emails(users) :: var x :| x in users && users[x].email == e; x
  }

  predicate HasSlug(row: ArticleRow) {
    row.slug.Some? && row.slug.value != ""
  }

  function Slugs(articles: map<Id, ArticleRow>): set<string> {
    set x | x in articles && HasSlug(articles[x]) :: articles[x].slug.value
  }

  function IdBySlug(articles: map<Id, ArticleRow>): map<string, Id>
    requires UniqueSlugs(articles)
  {
    map s | s in Slugs(articles) :: var x :| x in articles && articles[x].slug == Some(s); x
  }

  lemma IdByEmailFinds(users: map<Id, UserRow>, x: Id)
    requires UniqueEmails(users) && x in users
    ensures Get(IdByEmail(users), users[x].email) == Some(x)
  {
  }

  lemma IdBySlugFinds(articles: map<Id, ArticleRow>, x: Id)
    requires UniqueSlugs(articles) && x in articles && HasSlug(articles[x])
    ensures Get(IdBySlug(articles), articles[x].slug.value) == Some(x)
  {
  }

  function WholeTable(t: Tables): Lookups
    requires UniqueEmails(t.users) && UniqueSlugs(t.articles)
  {
    Lookups(t.users.Keys, t.articles.Keys, IdByEmail(t.users), IdBySlug(t.articles))
  }

  datatype Pointer = Pointer(line: nat, externalId: Id)

  // The first staged row with the given external id, in staging order.
  function FirstById(rows: seq<StagedRow>, x: Id): Option<Pointer> {
    if rows == [] then None
    else if rows[0].externalId == x then Some(Pointer(rows[0].line, x))
    else FirstById(rows[1..], x)
  }

  predicate HasEmail(row: StagedRow, email: string) {
    row.payload.UserRecord? && row.payload.email == email
  }

  function FirstByEmail(rows: seq<StagedRow>, email: string): Option<Pointer> {
    if rows == [] then None
    else if HasEmail(rows[0], email) then Some(Pointer(rows[0].line, rows[0].externalId))
    else FirstByEmail(rows[1..], email)
  }

  lemma {:induction false} FirstByIdIffPresent(rows: seq<StagedRow>, x: Id)
    ensures FirstById(rows, x).Some? <==> exists i :: 0 <= i < |rows| && rows[i].externalId == x
  {
    if rows != [] {
      FirstByIdIffPresent(rows[1..], x);
      if i :| 0 <= i < |rows| && rows[i].externalId == x {
        assert i > 0 ==> rows[1..][i - 1] == rows[i];
      }
    }
  }

  lemma {:induction false} FirstByEmailIffPresent(rows: seq<StagedRow>, email: string)
    ensures FirstByEmail(rows, email).Some? <==> exists i :: 0 <= i < |rows| && HasEmail(rows[i], email)
  {
    if rows != [] {
      FirstByEmailIffPresent(rows[1..], email);
      if i :| 0 <= i < |rows| && HasEmail(rows[i], email) {
        assert i > 0 ==> rows[1..][i - 1] == rows[i];
      }
    }
  }

  lemma {:induction false} FirstByIdSnoc(rows: seq<StagedRow>, row: StagedRow, x: Id)
    ensures FirstById(rows + [row], x) ==
            if FirstById(rows, x).Some? then FirstById(rows, x)
            else if row.externalId == x then Some(Pointer(row.line, x)) else None
  {
    if rows == [] {
      assert rows + [row] == [row];
    } else {
      FirstByIdSnoc(rows[1..], row, x);
      assert (rows + [row])[1..] == rows[1..] + [row];
    }
  }

  lemma {:induction false} FirstByEmailSnoc(rows: seq<StagedRow>, row: StagedRow, email: string)
    ensures FirstByEmail(rows + [row], email) ==
            if FirstByEmail(rows, email).Some? then FirstByEmail(rows, email)
            else if HasEmail(row, email) then Some(Pointer(row.line, row.externalId)) else None
  {
    if rows == [] {
      assert rows + [row] == [row];
    } else {
      FirstByEmailSnoc(rows[1..], row, email);
      assert (rows + [row])[1..] == rows[1..] + [row];
    }
  }

  lemma {:induction false} FirstByIdConcat(a: seq<StagedRow>, b: seq<StagedRow>, x: Id)
    ensures FirstById(a + b, x) == if FirstById(a, x).Some? then FirstById(a, x) else FirstById(b, x)
  {
    if a == [] {
      assert a + b == b;
    } else {
      FirstByIdConcat(a[1..], b, x);
      assert (a + b)[1..] == a[1..] + b;
    }
  }

  lemma {:induction false} FirstByEmailConcat(a: seq<StagedRow>, b: seq<StagedRow>, email: string)
    ensures FirstByEmail(a + b, email) ==
            if FirstByEmail(a, email).Some? then FirstByEmail(a, email) else FirstByEmail(b, email)
  {
    if a == [] {
      assert a + b == b;
    } else {
      FirstByEmailConcat(a[1..], b, email);
      assert (a + b)[1..] == a[1..] + b;
    }
  }

  datatype Verdict = Accept(row: StagedRow) | Reject(error: JobError)

  predicate Truthy(s: Option<string>) {
    s.Some? && s.value != ""
  }

  // The natural key's owner wins, then the record's own id, then the natural key itself.
  function Resolve(existing: Option<Id>, id: Option<Id>, naturalKey: string): Id {
    if existing.Some? then existing.value else GetOr(id, naturalKey)
  }

  function DuplicateIdVerdict(line: nat, first: Pointer): Verdict {
    Reject(JobError(line, Some(first.externalId), DuplicateId, [IdFirstSeen(first.line)]))
  }

  // ---- One record, judged by what the lookups found ----

  function UserVerdict(existing: Option<Id>, sameEmail: Option<Pointer>, sameId: Option<Pointer>, item: Item): Verdict
    requires item.data.UserRecord?
  {
    if sameEmail.Some? then
      Reject(JobError(item.line, Some(sameEmail.value.externalId), DuplicateNaturalKey,
                      [EmailFirstSeen(sameEmail.value.line)]))
    else if Truthy(existing) && Truthy(item.data.id) && existing != item.data.id then
      Reject(JobError(item.line, item.data.id, IdNaturalKeyMismatch, [IdDoesNotMatchEmail]))
    else if sameId.Some? then
      DuplicateIdVerdict(item.line, sameId.value)
    else
      Accept(StagedRow(item.line, Resolve(existing, item.data.id, item.data.email), item.data))
  }

  function ArticleVerdict(hasAuthor: bool, existing: Option<Id>, sameId: Option<Pointer>, item: Item): Verdict
    requires item.data.ArticleRecord?
  {
    if !hasAuthor then
      Reject(JobError(item.line, Some(GetOr(item.data.id, item.data.slug)), FkError, [MissingReference("author_id")]))
    else if sameId.Some? then
      DuplicateIdVerdict(item.line, sameId.value)
    else
      Accept(StagedRow(item.line, Resolve(existing, item.data.id, item.data.slug), item.data))
  }

  function CommentVerdict(hasUser: bool, hasArticle: bool, sameId: Option<Pointer>, item: Item): Verdict
    requires item.data.CommentRecord?
  {
    if !hasUser || !hasArticle then
      Reject(JobError(item.line, Some(item.data.commentId), FkError,
                      (if hasUser then [] else [MissingReference("user_id")]) +
                      (if hasArticle then [] else [MissingReference("article_id")])))
    else if sameId.Some? then
      DuplicateIdVerdict(item.line, sameId.value)
    else
      Accept(StagedRow(item.line, item.data.commentId, item.data))
  }

  // The reference: the same verdicts, with everything staged before and the whole tables looked up.
  function DecideUser(k: Lookups, staged: seq<StagedRow>, item: Item): Verdict
    requires item.data.UserRecord?
  {
    var d, existing := item.data, Get(k.idByEmail, item.data.email);
    UserVerdict(existing, FirstByEmail(staged, d.email), FirstById(staged, Resolve(existing, d.id, d.email)), item)
  }

  function DecideArticle(k: Lookups, staged: seq<StagedRow>, item: Item): Verdict
    requires item.data.ArticleRecord?
  {
    var d, existing := item.data, Get(k.idBySlug, item.data.slug);
    ArticleVerdict(d.authorId in k.userIds, existing, FirstById(staged, Resolve(existing, d.id, d.slug)), item)
  }

  function DecideComment(k: Lookups, staged: seq<StagedRow>, item: Item): Verdict
    requires item.data.CommentRecord?
  {
    var d := item.data;
    CommentVerdict(d.userId in k.userIds, d.articleId in k.articleIds, FirstById(staged, d.commentId), item)
  }

  function Decide(k: Lookups, staged: seq<StagedRow>, item: Item): Verdict {
    match item.data
    case UserRecord(_, _, _, _, _, _, _) => DecideUser(k, staged, item)
    case ArticleRecord(_, _, _, _, _, _, _, _, _, _) => DecideArticle(k, staged, item)
    case CommentRecord(_, _, _, _, _) => DecideComment(k, staged, item)
  }

  datatype Effect = Effect(rows: seq<StagedRow>, rejects: seq<JobError>)

  function Absorb(e: Effect, v: Verdict): Effect {
    match v
    case Accept(row) => e.(rows := e.rows + [row])
    case Reject(error) => e.(rejects := e.rejects + [error])
  }

  // One record at a time, each seeing every row staged before it.
  function Classify(k: Lookups, staged: seq<StagedRow>, items: seq<Item>): Effect {
    if items == [] then Effect([], [])
    else
      var e := Classify(k, staged, items[..|items| - 1]);
      Absorb(e, Decide(k, staged + e.rows, items[|items| - 1]))
  }

  lemma {:induction false} ClassifyStep(k: Lookups, staged: seq<StagedRow>, items: seq<Item>, i: nat)
    requires i < |items|
    ensures Classify(k, staged, items[..i + 1]) ==
            var e := Classify(k, staged, items[..i]);
            Absorb(e, Decide(k, staged + e.rows, items[i]))
  {
    assert items[..i + 1][..i] == items[..i];
  }

  ghost predicate DistinctIds(rows: seq<StagedRow>) {
    forall i, j :: 0 <= i < j < |rows| ==> rows[i].externalId != rows[j].externalId
  }

  // Two staged rows of one entity that claim the same email or the same slug.
  predicate SameNaturalKey(a: ImportRecord, b: ImportRecord) {
    || (a.UserRecord? && b.UserRecord? && a.email == b.email)
    || (a.ArticleRecord? && b.ArticleRecord? && a.slug == b.slug)
  }

  ghost predicate DistinctNaturalKeys(rows: seq<StagedRow>) {
    forall i, j :: 0 <= i < j < |rows| ==> !SameNaturalKey(rows[i].payload, rows[j].payload)
  }

  ghost predicate DistinctEmails(rows: seq<StagedRow>) {
    forall i, j :: 0 <= i < j < |rows| ==>
      !(rows[i].payload.UserRecord? && HasEmail(rows[j], rows[i].payload.email))
  }

  ghost predicate Ascending(rows: seq<StagedRow>) {
    forall i, j :: 0 <= i < j < |rows| ==> rows[i].line < rows[j].line
  }

  // The staged row a foreign-key check let through still names existing rows.
  predicate References(userIds: set<Id>, articleIds: set<Id>, r: ImportRecord) {
    && (r.ArticleRecord? ==> r.authorId in userIds)
    && (r.CommentRecord? ==> r.userId in userIds && r.articleId in articleIds)
  }

  // A staged row carries the item's own line and record; so does the error row's line.
  lemma DecideKeepsLine(k: Lookups, staged: seq<StagedRow>, item: Item)
    ensures match Decide(k, staged, item)
            case Accept(row) => row.line == item.line && row.payload == item.data
            case Reject(error) => error.line == item.line
  {
  }

  // Whatever the lookups answered, a staged id is new to the staging table.
  lemma AcceptedIdIsNew(k: Lookups, staged: seq<StagedRow>, item: Item)
    requires Decide(k, staged, item).Accept?
    ensures forall i :: 0 <= i < |staged| ==> staged[i].externalId != Decide(k, staged, item).row.externalId
  {
    FirstByIdIffPresent(staged, Decide(k, staged, item).row.externalId);
  }

  lemma AcceptedEmailIsNew(k: Lookups, staged: seq<StagedRow>, item: Item)
    requires Decide(k, staged, item).Accept? && item.data.UserRecord?
    ensures forall i :: 0 <= i < |staged| ==> !HasEmail(staged[i], item.data.email)
  {
    FirstByEmailIffPresent(staged, item.data.email);
  }

  /** Whatever the lookups answered at flush time, staged external ids stay distinct, staged
      emails stay distinct, and every staged reference was among the keys seen. */
  lemma {:induction false} ClassifyKeepsKeysDistinct(k: Lookups, staged: seq<StagedRow>, items: seq<Item>)
    requires DistinctIds(staged) && DistinctEmails(staged)
    ensures var rows := Classify(k, staged, items).rows;
            && DistinctIds(staged + rows) && DistinctEmails(staged + rows)
            && (forall i :: 0 <= i < |rows| ==> References(k.userIds, k.articleIds, rows[i].payload))
  {
    if items == [] {
      assert staged + [] == staged;
    } else {
      var init, item := items[..|items| - 1], items[|items| - 1];
      ClassifyKeepsKeysDistinct(k, staged, init);
      var before := staged + Classify(k, staged, init).rows;
      if Decide(k, before, item).Accept? {
        var row := Decide(k, before, item).row;
        AcceptedIdIsNew(k, before, item);
        DecideKeepsLine(k, before, item);
        if item.data.UserRecord? {
          AcceptedEmailIsNew(k, before, item);
        }
        assert staged + Classify(k, staged, items).rows == before + [row];
      }
    }
  }

  lemma {:induction false} ClassifyKeepsEntity(entity: Entity, k: Lookups, staged: seq<StagedRow>, items: seq<Item>)
    requires forall i :: 0 <= i < |items| ==> Acceptable(entity, items[i].data)
    ensures forall i :: 0 <= i < |Classify(k, staged, items).rows| ==>
              Acceptable(entity, Classify(k, staged, items).rows[i].payload)
  {
    if items != [] {
      var init := items[..|items| - 1];
      ClassifyKeepsEntity(entity, k, staged, init);
      DecideKeepsLine(k, staged + Classify(k, staged, init).rows, items[|items| - 1]);
    }
  }
}
