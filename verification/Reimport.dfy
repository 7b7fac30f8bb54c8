/** Exporting a whole table and importing the file back. */
module Reimport {
  import opened Model
  import opened Text
  import opened Validation
  import opened Staging
  import opened Merge
  import opened SlugConflicts
  import opened ImportSpec
  import opened MergeSafety
  import RecordStream
  import Export

  // JSON text as an inverse pair. The encoder writes one line that neither starts nor ends in a space.
  datatype Codec = Codec(encode: Json -> string, parse: string -> Option<Json>)

  ghost predicate CodesAt(c: Codec, j: Json) {
    var s := c.encode(j);
    c.parse(s) == Some(j) && s != "" && Trimmed(s) && '\n' !in s
  }

  ghost predicate SoundCodec(c: Codec) {
    forall j :: CodesAt(c, j)
  }

  // ---- The exported record ----

  function TimeText(rules: Rules, t: Option<Time>): Json {
    if t.Some? then Str(rules.iso(t.value)) else Null
  }

  function TextOrNull(s: Option<string>): Json {
    if s.Some? then Str(s.value) else Null
  }

  function TagList(tags: seq<string>): Json {
    Arr(seq(|tags|, i requires 0 <= i < |tags| => Str(tags[i])))
  }

  function UserDto(rules: Rules, id: Id, row: UserRow): Json {
    Obj(map["id" := Str(id), "email" := Str(row.email), "name" := Str(row.name), "role" := Str(row.role),
            "active" := Bool(row.active), "created_at" := Str(rules.iso(row.createdAt)),
            "updated_at" := Str(rules.iso(row.updatedAt))])
  }

  function ArticleDto(rules: Rules, id: Id, row: ArticleRow): Json {
    Obj(map["id" := Str(id), "slug" := TextOrNull(row.slug), "title" := Str(row.title), "body" := Str(row.body),
            "author_id" := Str(row.authorId), "tags" := TagList(row.tags),
            "published_at" := TimeText(rules, row.publishedAt), "status" := Str(row.status),
            "created_at" := Str(rules.iso(row.createdAt)), "updated_at" := Str(rules.iso(row.updatedAt))])
  }

  function CommentDto(rules: Rules, id: Id, row: CommentRow): Json {
    Obj(map["id" := Str(id), "article_id" := Str(row.articleId), "user_id" := Str(row.userId),
            "body" := Str(row.body), "created_at" := Str(rules.iso(row.createdAt))])
  }

  function TableIds(entity: Entity, t: Tables): set<Id> {
    match entity
    case Users => t.users.Keys
    case Articles => t.articles.Keys
    case Comments => t.comments.Keys
  }

  function ToDto(rules: Rules, entity: Entity, t: Tables, id: Id): (dto: Json)
    requires id in TableIds(entity, t)
    ensures dto.Obj?
  {
    match entity
    case Users => UserDto(rules, id, t.users[id])
    case Articles => ArticleDto(rules, id, t.articles[id])
    case Comments => CommentDto(rules, id, t.comments[id])
  }

  // ---- Field projection ----

  function AllowedFields(entity: Entity): seq<string> {
    match entity
    case Users => ["id", "email", "name", "role", "active", "created_at", "updated_at"]
    case Articles =>
      ["id", "slug", "title", "body", "author_id", "tags", "published_at", "status", "created_at", "updated_at"]
    case Comments => ["id", "article_id", "user_id", "body", "created_at"]
  }

  // The fields asked for that may be exported, each with its value; no list asks for everything.
  function Projection(entity: Entity, dto: map<string, Json>, fields: Option<seq<string>>): map<string, Json> {
    if fields.None? || fields.value == [] then dto
    else map f | f in dto && f in fields.value && f in AllowedFields(entity) :: dto[f]
  }

  method ApplyFieldProjection(entity: Entity, dto: map<string, Json>, fields: Option<seq<string>>)
    returns (projected: map<string, Json>)
    ensures projected == Projection(entity, dto, fields)
  {
    if fields.None? || |fields.value| == 0 {
      return dto;
    }
    projected := map[];
    for i := 0 to |fields.value|
      invariant forall f :: f in projected <==> f in fields.value[..i] && f in AllowedFields(entity) && f in dto
      invariant forall f :: f in projected ==> projected[f] == dto[f]
    {
      var field := fields.value[i];
      assert fields.value[..i + 1] == fields.value[..i] + [field];
      if field in AllowedFields(entity) && field in dto {
        projected := projected[field := dto[field]];
      }
    }
    assert fields.value[..|fields.value|] == fields.value;
  }

  /** Every exported field may be asked for: asking for all of them keeps the record. */
  lemma AllFieldsKeepRecord(rules: Rules, entity: Entity, t: Tables, id: Id, fields: seq<string>)
    requires id in TableIds(entity, t) && forall f :: f in AllowedFields(entity) ==> f in fields
    ensures Projection(entity, ToDto(rules, entity, t, id).fields, Some(fields)) == ToDto(rules, entity, t, id).fields
  {
  }

  // ---- Reading one exported record ----

  function ReadBack(rules: Rules, t: Time): Time {
    rules.timeOf(rules.iso(t))
  }

  function ReadBackOptional(rules: Rules, t: Option<Time>): Option<Time> {
    if t.Some? then Some(ReadBack(rules, t.value)) else None
  }

  // What the validator makes of an exported row: the row, with its timestamps read back.
  function RowRecord(rules: Rules, entity: Entity, t: Tables, id: Id): ImportRecord
    requires id in TableIds(entity, t)
  {
    match entity
    case Users =>
      var r := t.users[id];
      UserRecord(Some(id), r.email, r.name, r.role, r.active,
                 Some(ReadBack(rules, r.createdAt)), Some(ReadBack(rules, r.updatedAt)))
    case Articles =>
      var r := t.articles[id];
      ArticleRecord(Some(id), GetOr(r.slug, ""), r.title, r.body, r.authorId, r.tags,
                    ReadBackOptional(rules, r.publishedAt), r.status,
                    Some(ReadBack(rules, r.createdAt)), Some(ReadBack(rules, r.updatedAt)))
    case Comments =>
      var r := t.comments[id];
      CommentRecord(id, r.articleId, r.userId, r.body, Some(ReadBack(rules, r.createdAt)))
  }

  // The timestamp prints as text the validator accepts. From year 10000 on that text has a sign and
  // six digits, and is refused.
  predicate Printable(rules: Rules, t: Time) {
    rules.isDatetime(rules.iso(t)) && rules.iso(t) != "" && Trimmed(rules.iso(t))
  }

  predicate PrintableOptional(rules: Rules, t: Option<Time>) {
    t.Some? ==> Printable(rules, t.value)
  }

  predicate TimesPrintable(rules: Rules, entity: Entity, t: Tables, id: Id)
    requires id in TableIds(entity, t)
  {
    match entity
    case Users => Printable(rules, t.users[id].createdAt) && Printable(rules, t.users[id].updatedAt)
    case Articles =>
      && Printable(rules, t.articles[id].createdAt) && Printable(rules, t.articles[id].updatedAt)
      && PrintableOptional(rules, t.articles[id].publishedAt)
    case Comments => Printable(rules, t.comments[id].createdAt)
  }

  // A stored row satisfies the validator.
  ghost predicate NormalRow(rules: Rules, entity: Entity, t: Tables, id: Id)
    requires id in TableIds(entity, t)
  {
    && id != "" && Normal(rules, RowRecord(rules, entity, t, id)) && TimesPrintable(rules, entity, t, id)
    && (entity.Articles? ==> t.articles[id].slug.Some?)
  }

  ghost predicate NormalTable(rules: Rules, entity: Entity, t: Tables) {
    forall id :: id in TableIds(entity, t) ==> NormalRow(rules, entity, t, id)
  }

  lemma TextIsFine(s: string, max: Option<nat>)
    requires s != "" && Trimmed(s) && (max.Some? ==> |s| <= max.value)
    ensures CheckText(Some(Str(s)), max) == Fine(s) && OptionalString(Some(Str(s))) == Some(s)
  {
  }

  lemma TimeIsFine(rules: Rules, t: Option<Time>)
    requires PrintableOptional(rules, t)
    ensures CheckTime(rules, Some(TimeText(rules, t))) == Fine(ReadBackOptional(rules, t))
  {
    if t.Some? {
      TextIsFine(rules.iso(t.value), None);
    }
  }

  lemma TagsAreFine(tags: seq<string>)
    ensures CheckTags(Some(TagList(tags))) == Fine(tags)
  {
    var items := TagList(tags).items;
    assert seq(|items|, i requires 0 <= i < |items| => items[i].s) == tags;
  }

  lemma KebabIsTrimmed(s: string)
    requires Kebab(s)
    ensures Trimmed(s)
  {
  }

  /** The validator accepts every exported row and reads it back, timestamps apart, unchanged. */
  lemma DtoValidates(rules: Rules, entity: Entity, t: Tables, id: Id)
    requires id in TableIds(entity, t) && NormalRow(rules, entity, t, id)
    ensures Validate(rules, entity, ToDto(rules, entity, t, id)) == Accepted(RowRecord(rules, entity, t, id))
  {
    TextIsFine(id, None);
    match entity
    case Users => UserDtoValidates(rules, t, id);
    case Articles => ArticleDtoValidates(rules, t, id);
    case Comments => CommentDtoValidates(rules, t, id);
  }

  lemma {:induction false} FirstFieldIs(raw: Json, names: seq<string>)
    requires names != [] && Field(raw, names[0]).Some? && !Field(raw, names[0]).value.Null?
    ensures FirstField(raw, names) == Field(raw, names[0])
  {
  }

  lemma UserDtoValidates(rules: Rules, t: Tables, id: Id)
    requires id in t.users && NormalRow(rules, Users, t, id)
    ensures ValidateUser(rules, UserDto(rules, id, t.users[id])) == Accepted(RowRecord(rules, Users, t, id))
  {
    UserFromFields(rules, UserDto(rules, id, t.users[id]), id, t.users[id]);
  }

  lemma UserFromFields(rules: Rules, raw: Json, id: Id, r: UserRow)
    requires id != "" && Trimmed(id) && rules.isEmail(r.email) && rules.lower(r.email) == r.email
    requires Printable(rules, r.createdAt) && Printable(rules, r.updatedAt)
    requires r.name != "" && Trimmed(r.name) && |r.name| <= 200 && r.role in ROLES
    requires Field(raw, "id") == Some(Str(id)) && Field(raw, "email") == Some(Str(r.email))
    requires Field(raw, "name") == Some(Str(r.name)) && Field(raw, "role") == Some(Str(r.role))
    requires Field(raw, "active") == Some(Bool(r.active))
    requires Field(raw, "created_at") == Some(Str(rules.iso(r.createdAt)))
    requires Field(raw, "updated_at") == Some(Str(rules.iso(r.updatedAt)))
    ensures ValidateUser(rules, raw) ==
            Accepted(UserRecord(Some(id), r.email, r.name, r.role, r.active,
                                Some(ReadBack(rules, r.createdAt)), Some(ReadBack(rules, r.updatedAt))))
  {
    FirstFieldIs(raw, ["id", "externalId"]);
    FirstFieldIs(raw, ["created_at", "createdAt"]);
    FirstFieldIs(raw, ["updated_at", "updatedAt"]);
    TextIsFine(id, None);
    TextIsFine(r.name, Some(200));
    TimeIsFine(rules, Some(r.createdAt));
    TimeIsFine(rules, Some(r.updatedAt));
  }

  lemma ArticleDtoValidates(rules: Rules, t: Tables, id: Id)
    requires id in t.articles && NormalRow(rules, Articles, t, id)
    ensures ValidateArticle(rules, ArticleDto(rules, id, t.articles[id])) == Accepted(RowRecord(rules, Articles, t, id))
  {
    ArticleDtoFields(rules, id, t.articles[id]);
    ArticleFromFields(rules, ArticleDto(rules, id, t.articles[id]), id, t.articles[id]);
  }

  ghost predicate ArticleFields(rules: Rules, raw: Json, id: Id, r: ArticleRow) {
    && Field(raw, "id") == Some(Str(id)) && Field(raw, "slug") == Some(TextOrNull(r.slug))
    && Field(raw, "title") == Some(Str(r.title)) && Field(raw, "body") == Some(Str(r.body))
    && Field(raw, "author_id") == Some(Str(r.authorId)) && Field(raw, "tags") == Some(TagList(r.tags))
    && Field(raw, "published_at") == Some(TimeText(rules, r.publishedAt)) && Field(raw, "publishedAt").None?
    && Field(raw, "status") == Some(Str(r.status))
    && Field(raw, "created_at") == Some(Str(rules.iso(r.createdAt)))
    && Field(raw, "updated_at") == Some(Str(rules.iso(r.updatedAt)))
  }

  lemma ArticleDtoFields(rules: Rules, id: Id, r: ArticleRow)
    ensures ArticleFields(rules, ArticleDto(rules, id, r), id, r)
  {
  }

  lemma ArticleFromFields(rules: Rules, raw: Json, id: Id, r: ArticleRow)
    requires id != "" && Trimmed(id) && r.slug.Some? && Kebab(r.slug.value)
    requires Printable(rules, r.createdAt) && Printable(rules, r.updatedAt) && PrintableOptional(rules, r.publishedAt)
    requires r.title != "" && Trimmed(r.title) && |r.title| <= 500 && r.body != "" && Trimmed(r.body)
    requires r.authorId != "" && Trimmed(r.authorId)
    requires r.status in STATUSES && (r.status == "draft" ==> r.publishedAt.None?)
    requires ArticleFields(rules, raw, id, r)
    ensures ValidateArticle(rules, raw) ==
            Accepted(ArticleRecord(Some(id), r.slug.value, r.title, r.body, r.authorId, r.tags,
                                   ReadBackOptional(rules, r.publishedAt), r.status,
                                   Some(ReadBack(rules, r.createdAt)), Some(ReadBack(rules, r.updatedAt))))
  {
    FirstFieldIs(raw, ["id", "externalId"]);
    FirstFieldIs(raw, AUTHOR_NAMES);
    FirstFieldIs(raw, ["created_at", "createdAt"]);
    FirstFieldIs(raw, ["updated_at", "updatedAt"]);
    PublishedIsFine(rules, raw, r.publishedAt);
    KebabIsTrimmed(r.slug.value);
    TextIsFine(id, None);
    TextIsFine(r.slug.value, None);
    TextIsFine(r.title, Some(500));
    TextIsFine(r.body, None);
    TextIsFine(r.authorId, None);
    TagsAreFine(r.tags);
    TimeIsFine(rules, Some(r.createdAt));
    TimeIsFine(rules, Some(r.updatedAt));
  }

  // An unpublished article is exported with null, and null falls through to the absent second name.
  lemma {:induction false} PublishedIsFine(rules: Rules, raw: Json, t: Option<Time>)
    requires PrintableOptional(rules, t)
    requires Field(raw, "published_at") == Some(TimeText(rules, t)) && Field(raw, "publishedAt").None?
    ensures CheckTime(rules, FirstField(raw, ["published_at", "publishedAt"])) == Fine(ReadBackOptional(rules, t))
  {
    TimeIsFine(rules, t);
    assert ["published_at", "publishedAt"][1..] == ["publishedAt"];
    assert FirstField(raw, ["publishedAt"]) == None;
  }

  lemma CommentDtoValidates(rules: Rules, t: Tables, id: Id)
    requires id in t.comments && NormalRow(rules, Comments, t, id)
    ensures ValidateComment(rules, CommentDto(rules, id, t.comments[id])) == Accepted(RowRecord(rules, Comments, t, id))
  {
    CommentFromFields(rules, CommentDto(rules, id, t.comments[id]), id, t.comments[id]);
  }

  lemma CommentFromFields(rules: Rules, raw: Json, id: Id, r: CommentRow)
    requires id != "" && Trimmed(id) && r.articleId != "" && Trimmed(r.articleId) && Printable(rules, r.createdAt)
    requires r.userId != "" && Trimmed(r.userId) && r.body != "" && Trimmed(r.body) && WordCount(r.body) <= 500
    requires Field(raw, "id") == Some(Str(id)) && Field(raw, "article_id") == Some(Str(r.articleId))
    requires Field(raw, "user_id") == Some(Str(r.userId)) && Field(raw, "body") == Some(Str(r.body))
    requires Field(raw, "created_at") == Some(Str(rules.iso(r.createdAt)))
    ensures ValidateComment(rules, raw) ==
            Accepted(CommentRecord(id, r.articleId, r.userId, r.body, Some(ReadBack(rules, r.createdAt))))
  {
    FirstFieldIs(raw, ["id", "externalId"]);
    FirstFieldIs(raw, ARTICLE_NAMES);
    FirstFieldIs(raw, USER_NAMES);
    FirstFieldIs(raw, ["created_at", "createdAt"]);
    TextIsFine(id, None);
    TextIsFine(r.articleId, None);
    TextIsFine(r.userId, None);
    TextIsFine(r.body, None);
    TimeIsFine(rules, Some(r.createdAt));
  }

  /** The condition on timestamps is needed: a stored comment whose time prints as other text is
      exported as a record the validator refuses. */
  lemma {:induction false} UnprintableIsRefused(rules: Rules, id: Id, r: CommentRow)
    requires var text := rules.iso(r.createdAt); text != "" && Trimmed(text) && !rules.isDatetime(text)
    ensures Validate(rules, Comments, CommentDto(rules, id, r)).Refused?
  {
    var raw := CommentDto(rules, id, r);
    FirstFieldIs(raw, ["created_at", "createdAt"]);
    TextIsFine(rules.iso(r.createdAt), None);
  }

  // ---- The exported file as a record stream ----

  // The NDJSON lines of the listed rows.
  function Encoded(c: Codec, rules: Rules, entity: Entity, t: Tables, ids: seq<Id>): seq<string>
    requires forall i :: 0 <= i < |ids| ==> ids[i] in TableIds(entity, t)
  {
    seq(|ids|, i requires 0 <= i < |ids| => c.encode(ToDto(rules, entity, t, ids[i])))
  }

  // One record a row, on lines 1, 2, ...
  function Records(rules: Rules, entity: Entity, t: Tables, ids: seq<Id>): seq<Entry>
    requires forall i :: 0 <= i < |ids| ==> ids[i] in TableIds(entity, t)
  {
    seq(|ids|, i requires 0 <= i < |ids| => Entry(i + 1, ToDto(rules, entity, t, ids[i]), None))
  }

  predicate CleanLine(s: string) {
    s != "" && Trimmed(s) && '\n' !in s
  }

  lemma {:induction false} FileLines(records: seq<string>, rest: string)
    requires forall i :: 0 <= i < |records| ==> CleanLine(records[i])
    ensures RecordStream.SplitLines(Export.NdjsonText(records) + rest) == records + RecordStream.SplitLines(rest)
  {
    if records == [] {
      assert Export.NdjsonText(records) + rest == rest;
      assert records + RecordStream.SplitLines(rest) == RecordStream.SplitLines(rest);
    } else {
      var init, last := records[..|records| - 1], records[|records| - 1];
      FileLines(init, last + "\n" + rest);
      RecordStream.SplitAtBreak("", last, rest);
      assert CleanLine(last) && "" + last == last;
      var text := Export.NdjsonText(init);
      assert text + last + "\n" + rest == text + (last + "\n" + rest);
      assert records == init + [last];
      assert init + ([last] + RecordStream.SplitLines(rest)) == records + RecordStream.SplitLines(rest);
    }
  }

  lemma {:induction false} LinesAreRecords(c: Codec, values: seq<Json>, n: nat)
    requires SoundCodec(c)
    ensures var lines := seq(|values|, i requires 0 <= i < |values| => c.encode(values[i]));
            RecordStream.NdjsonEntries(c.parse, n, lines) ==
            seq(|values|, i requires 0 <= i < |values| => Entry(n + i + 1, values[i], None))
    decreases |values|
  {
    var lines := seq(|values|, i requires 0 <= i < |values| => c.encode(values[i]));
    if values != [] {
      var more := values[1..];
      LinesAreRecords(c, more, n + 1);
      assert lines[1..] == seq(|more|, i requires 0 <= i < |more| => c.encode(more[i]));
      assert CodesAt(c, values[0]);
      TrimmedIsFixed(lines[0]);
    }
  }

  /** The record stream of an exported file is the exported records, in order, without an error. */
  lemma ExportIsRead(c: Codec, rules: Rules, entity: Entity, t: Tables, ids: seq<Id>)
    requires SoundCodec(c) && forall i :: 0 <= i < |ids| ==> ids[i] in TableIds(entity, t)
    ensures var file := RecordStream.NdjsonFile(Export.NdjsonText(Encoded(c, rules, entity, t, ids)));
            RecordStream.Records(c.parse, file) == Records(rules, entity, t, ids)
  {
    var values := seq(|ids|, i requires 0 <= i < |ids| => ToDto(rules, entity, t, ids[i]));
    var lines := Encoded(c, rules, entity, t, ids);
    forall i | 0 <= i < |lines| ensures CleanLine(lines[i]) {
      assert CodesAt(c, values[i]);
    }
    FileLines(lines, "");
    assert Export.NdjsonText(lines) + "" == Export.NdjsonText(lines);
    assert lines + RecordStream.SplitLines("") == lines;
    assert lines == seq(|values|, i requires 0 <= i < |values| => c.encode(values[i]));
    LinesAreRecords(c, values, 0);
  }

  lemma {:induction false} ItemsAreRecords(values: seq<Json>, n: nat)
    ensures RecordStream.JsonEntries(n, values, None) ==
            seq(|values|, i requires 0 <= i < |values| => Entry(n + i + 1, values[i], None))
    decreases |values|
  {
    if values != [] {
      ItemsAreRecords(values[1..], n + 1);
    }
  }

  /** A JSON export, whose array reader yields the exported records, gives the same stream. */
  lemma JsonExportIsRead(c: Codec, rules: Rules, entity: Entity, t: Tables, ids: seq<Id>)
    requires forall i :: 0 <= i < |ids| ==> ids[i] in TableIds(entity, t)
    ensures var items := seq(|ids|, i requires 0 <= i < |ids| => ToDto(rules, entity, t, ids[i]));
            RecordStream.Records(c.parse, RecordStream.JsonFile(items, None)) == Records(rules, entity, t, ids)
  {
    var items := seq(|ids|, i requires 0 <= i < |ids| => ToDto(rules, entity, t, ids[i]));
    ItemsAreRecords(items, 0);
  }

  // ---- Importing the records ----

  ghost predicate DistinctSeq(ids: seq<Id>) {
    forall i, j :: 0 <= i < j < |ids| ==> ids[i] != ids[j]
  }

  ghost predicate FromTable(entity: Entity, t: Tables, ids: seq<Id>) {
    forall i :: 0 <= i < |ids| ==> ids[i] in TableIds(entity, t)
  }

  // The staged rows the exported records become.
  function RowsOf(rules: Rules, entity: Entity, t: Tables, ids: seq<Id>): seq<StagedRow>
    requires FromTable(entity, t, ids)
  {
    seq(|ids|, i requires 0 <= i < |ids| => StagedRow(i + 1, ids[i], RowRecord(rules, entity, t, ids[i])))
  }

  // Every listed row satisfies the validator; the other rows of the table need not.
  ghost predicate NormalListed(rules: Rules, entity: Entity, t: Tables, ids: seq<Id>)
    requires FromTable(entity, t, ids)
  {
    forall i :: 0 <= i < |ids| ==> NormalRow(rules, entity, t, ids[i])
  }

  lemma RowIsAccepted(rules: Rules, entity: Entity, t: Tables, ids: seq<Id>, id: Id)
    requires Constrained(t) && FromTable(entity, t, ids)
    requires id in TableIds(entity, t) && id !in ids && NormalRow(rules, entity, t, id)
    ensures Decide(WholeTable(t), RowsOf(rules, entity, t, ids), Item(|ids| + 1, RowRecord(rules, entity, t, id))) ==
            Accept(StagedRow(|ids| + 1, id, RowRecord(rules, entity, t, id)))
  {
    var rows := RowsOf(rules, entity, t, ids);
    FirstByIdIffPresent(rows, id);
    match entity
    case Users =>
      var email := t.users[id].email;
      FirstByEmailIffPresent(rows, email);
      forall i | 0 <= i < |rows| ensures !HasEmail(rows[i], email) {
        assert ids[i] in t.users && ids[i] != id;
      }
      IdByEmailFinds(t.users, id);
    case Articles =>
      IdBySlugFinds(t.articles, id);
    case Comments =>
  }

  // The state s after further records that were all staged, as the given rows.
  function Grown(s: RunState, rows: seq<StagedRow>): RunState {
    s.(totals := s.totals.(read := s.totals.read + |rows|, valid := s.totals.valid + |rows|), staged := s.staged + rows)
  }

  // Entry i is admitted and, after the first i rows were staged, accepted as row i.
  ghost predicate AcceptedAt(admit: Admitter, k: Lookups, entries: seq<Entry>, rows: seq<StagedRow>, i: nat)
    requires i < |entries| == |rows|
  {
    admit(entries[i]).Admitted? && Decide(k, rows[..i], admit(entries[i]).item) == Accept(rows[i])
  }

  lemma {:induction false} AllAreStaged(admit: Admitter, k: Lookups, s: RunState, entries: seq<Entry>,
                                        rows: seq<StagedRow>, n: nat)
    requires |entries| == |rows| && s.staged == [] && n <= |rows|
    requires forall i :: 0 <= i < |rows| ==> AcceptedAt(admit, k, entries, rows, i)
    ensures RunFrom(admit, k, s, entries[..n]) == Grown(s, rows[..n])
  {
    if n == 0 {
      assert s.staged + rows[..0] == s.staged;
    } else {
      AllAreStaged(admit, k, s, entries, rows, n - 1);
      RunFromStep(admit, k, s, entries, n - 1, Grown(s, rows[..n - 1]));
      assert AcceptedAt(admit, k, entries, rows, n - 1);
      GrownByOne(k, s, rows[..n - 1], admit(entries[n - 1]).item, rows[n - 1]);
      assert rows[..n] == rows[..n - 1] + [rows[n - 1]];
    }
  }

  lemma GrownByOne(k: Lookups, s: RunState, rows: seq<StagedRow>, item: Item, row: StagedRow)
    requires s.staged == [] && Decide(k, rows, item) == Accept(row)
    ensures Handle(k, Grown(s, rows), Admitted(item)) == Grown(s, rows + [row])
  {
    assert s.staged + rows == rows && s.staged + (rows + [row]) == rows + [row];
  }

  lemma AcceptedIsAdmitted(admit: Admitter, rules: Rules, entity: Entity, e: Entry, record: ImportRecord)
    requires AdmitsBy(admit, rules, entity) && e.parseError.None? && Validate(rules, entity, e.raw) == Accepted(record)
    ensures admit(e) == Admitted(Item(e.line, record))
  {
  }

  lemma DtoIsAdmitted(admit: Admitter, rules: Rules, entity: Entity, t: Tables, id: Id, line: nat)
    requires AdmitsBy(admit, rules, entity) && id in TableIds(entity, t)
    requires NormalRow(rules, entity, t, id)
    ensures admit(Entry(line, ToDto(rules, entity, t, id), None)) ==
            Admitted(Item(line, RowRecord(rules, entity, t, id)))
  {
    var raw, record := ToDto(rules, entity, t, id), RowRecord(rules, entity, t, id);
    assert Validate(rules, entity, raw) == Accepted(record) by {
      DtoValidates(rules, entity, t, id);
    }
    AcceptedIsAdmitted(admit, rules, entity, Entry(line, raw, None), record);
  }

  lemma RowsPrefix(rules: Rules, entity: Entity, t: Tables, ids: seq<Id>, i: nat)
    requires FromTable(entity, t, ids) && i <= |ids|
    ensures RowsOf(rules, entity, t, ids)[..i] == RowsOf(rules, entity, t, ids[..i])
  {
  }

  lemma EachIsAccepted(admit: Admitter, rules: Rules, entity: Entity, t: Tables, ids: seq<Id>, i: nat)
    requires Constrained(t) && FromTable(entity, t, ids) && NormalListed(rules, entity, t, ids) && DistinctSeq(ids)
    requires i < |ids|
    requires admit(Records(rules, entity, t, ids)[i]) == Admitted(Item(i + 1, RowRecord(rules, entity, t, ids[i])))
    ensures AcceptedAt(admit, WholeTable(t), Records(rules, entity, t, ids), RowsOf(rules, entity, t, ids), i)
  {
    RowsPrefix(rules, entity, t, ids, i);
    RowIsAccepted(rules, entity, t, ids[..i], ids[i]);
  }

  lemma RowIsAcceptedAt(admit: Admitter, rules: Rules, entity: Entity, t: Tables, ids: seq<Id>, i: nat)
    requires AdmitsBy(admit, rules, entity) && i < |ids|
    requires Constrained(t) && FromTable(entity, t, ids) && NormalListed(rules, entity, t, ids) && DistinctSeq(ids)
    ensures AcceptedAt(admit, WholeTable(t), Records(rules, entity, t, ids), RowsOf(rules, entity, t, ids), i)
  {
    assert NormalRow(rules, entity, t, ids[i]);
    DtoIsAdmitted(admit, rules, entity, t, ids[i], i + 1);
    EachIsAccepted(admit, rules, entity, t, ids, i);
  }

  lemma {:induction false} EveryRowIsStaged(admit: Admitter, rules: Rules, entity: Entity, t: Tables, ids: seq<Id>,
                                            s: RunState)
    requires AdmitsBy(admit, rules, entity) && s.staged == []
    requires Constrained(t) && FromTable(entity, t, ids) && NormalListed(rules, entity, t, ids) && DistinctSeq(ids)
    ensures RunFrom(admit, WholeTable(t), s, Records(rules, entity, t, ids)) == Grown(s, RowsOf(rules, entity, t, ids))
  {
    var k, entries, rows := WholeTable(t), Records(rules, entity, t, ids), RowsOf(rules, entity, t, ids);
    forall i | 0 <= i < |rows| ensures AcceptedAt(admit, k, entries, rows, i) {
      RowIsAcceptedAt(admit, rules, entity, t, ids, i);
    }
    AllAreStaged(admit, k, s, entries, rows, |rows|);
    assert entries[..|rows|] == entries && rows[..|rows|] == rows;
  }

  lemma FinishedCleanly(admit: Admitter, entity: Entity, t: Tables, entries: seq<Entry>, rows: seq<StagedRow>)
    requires UniqueEmails(t.users) && UniqueSlugs(t.articles)
    requires OneByOne(admit, WholeTable(t), entries) == Grown(START, rows)
    requires Cleaned(entity, t, rows) == Sifted(rows, [])
    ensures Finished(admit, entity, t, entries) == RunState(Totals(|rows|, |rows|, 0, |rows|), rows, [])
  {
    assert START.staged + rows == rows;
  }

  lemma {:induction false} NothingToSift(k: map<string, Id>, rows: seq<StagedRow>)
    requires forall i :: 0 <= i < |rows| ==> rows[i] !in Sift(k, rows).conflicts
    ensures Sift(k, rows) == Sifted(rows, [])
    decreases |rows|
  {
    if rows != [] {
      var init, row := rows[..|rows| - 1], rows[|rows| - 1];
      assert row == rows[|rows| - 1] && rows == init + [row];
      assert Sift(k, rows).conflicts == Sift(k, init).conflicts;
      forall i | 0 <= i < |init| ensures init[i] !in Sift(k, init).conflicts {
        assert init[i] == rows[i];
      }
      NothingToSift(k, init);
    }
  }

  // Slugs being unique in the table, the cleanup finds no conflict among its exported rows.
  lemma ExportIsClean(rules: Rules, t: Tables, ids: seq<Id>)
    requires Constrained(t) && FromTable(Articles, t, ids) && NormalListed(rules, Articles, t, ids) && DistinctSeq(ids)
    requires WellStaged(Articles, WholeTable(t), RowsOf(rules, Articles, t, ids))
    ensures Sift(IdBySlug(t.articles), RowsOf(rules, Articles, t, ids)) == Sifted(RowsOf(rules, Articles, t, ids), [])
  {
    var rows := RowsOf(rules, Articles, t, ids);
    forall i | 0 <= i < |rows| ensures rows[i] !in Sift(IdBySlug(t.articles), rows).conflicts {
      OnlyLaterDuplicatesDropped(t, rows, i);
      forall j | 0 <= j < i ensures rows[j].payload.slug != rows[i].payload.slug {
        assert NormalRow(rules, Articles, t, ids[i]) && NormalRow(rules, Articles, t, ids[j]) && ids[j] != ids[i];
      }
    }
    NothingToSift(IdBySlug(t.articles), rows);
  }

  lemma RecordsAscend(rules: Rules, entity: Entity, t: Tables, ids: seq<Id>)
    requires FromTable(entity, t, ids)
    ensures LinesAscend(Records(rules, entity, t, ids))
  {
  }

  /** Importing exported rows of the current table rejects nothing: every row is read, valid and
      written, under its own id, and the error log is empty. */
  lemma EveryRowIsWritten(admit: Admitter, rules: Rules, entity: Entity, t: Tables, ids: seq<Id>)
    requires AdmitsBy(admit, rules, entity) && SoundAdmitter(entity, admit)
    requires Constrained(t) && FromTable(entity, t, ids) && NormalListed(rules, entity, t, ids) && DistinctSeq(ids)
    ensures Finished(admit, entity, t, Records(rules, entity, t, ids)) ==
            RunState(Totals(|ids|, |ids|, 0, |ids|), RowsOf(rules, entity, t, ids), [])
  {
    var entries, rows := Records(rules, entity, t, ids), RowsOf(rules, entity, t, ids);
    EveryRowIsStaged(admit, rules, entity, t, ids, START);
    assert START.staged + rows == rows;
    if entity.Articles? {
      RecordsAscend(rules, entity, t, ids);
      StagedIsWellStaged(admit, entity, WholeTable(t), entries, |ids| + 1);
      ExportIsClean(rules, t, ids);
    }
    FinishedCleanly(admit, entity, t, entries, rows);
  }

  // ---- The tables afterwards ----

  function ExportedIds(ids: seq<Id>): set<Id> {
    set i | 0 <= i < |ids| :: ids[i]
  }

  // The timestamps a merge writes again come back, for the exported rows, as they were stored.
  ghost predicate TimesReadBack(rules: Rules, entity: Entity, t: Tables, exported: set<Id>)
    requires exported <= TableIds(entity, t)
  {
    forall x :: x in exported ==> RowReadsBack(rules, entity, t, x)
  }

  ghost predicate RowReadsBack(rules: Rules, entity: Entity, t: Tables, x: Id)
    requires x in TableIds(entity, t)
  {
    match entity
    case Users => ReadBack(rules, t.users[x].updatedAt) == t.users[x].updatedAt
    case Articles =>
      && ReadBack(rules, t.articles[x].updatedAt) == t.articles[x].updatedAt
      && ReadBackOptional(rules, t.articles[x].publishedAt) == t.articles[x].publishedAt
    case Comments => ReadBack(rules, t.comments[x].createdAt) == t.comments[x].createdAt
  }

  // Each exported row is staged once, under its own id, as what it reads back as.
  ghost predicate OwnRows(rules: Rules, entity: Entity, t: Tables, rows: seq<StagedRow>, exported: set<Id>) {
    && AllOf(entity, rows) && Ids(rows) == exported && exported <= TableIds(entity, t)
    && forall x :: x in exported ==>
         RowFor(rows, x).Some? && RowFor(rows, x).value.payload == RowRecord(rules, entity, t, x)
  }

  lemma RowsAreOwn(rules: Rules, entity: Entity, t: Tables, ids: seq<Id>)
    requires DistinctSeq(ids) && FromTable(entity, t, ids) && AllOf(entity, RowsOf(rules, entity, t, ids))
    ensures OwnRows(rules, entity, t, RowsOf(rules, entity, t, ids), ExportedIds(ids))
  {
    var rows := RowsOf(rules, entity, t, ids);
    assert Ids(rows) == ExportedIds(ids) by {
      assert forall i :: 0 <= i < |ids| ==> rows[i].externalId == ids[i];
    }
    forall x | x in ExportedIds(ids)
      ensures RowFor(rows, x).Some? && RowFor(rows, x).value.payload == RowRecord(rules, entity, t, x)
    {
      var i :| 0 <= i < |ids| && ids[i] == x;
      OneRowPerId(rows, i);
    }
  }

  /** Merging exported rows back leaves every row of the tables as it was, exactly when the
      timestamps that are written again read back as stored. */
  lemma OverlayOfOwnRows(rules: Rules, entity: Entity, t: Tables, ids: seq<Id>, now: Time)
    requires DistinctSeq(ids) && FromTable(entity, t, ids) && NormalListed(rules, entity, t, ids)
    requires AllOf(entity, RowsOf(rules, entity, t, ids))
    ensures ExportedIds(ids) <= TableIds(entity, t)
    ensures Overlay(entity, t, RowsOf(rules, entity, t, ids), now) == t <==>
            TimesReadBack(rules, entity, t, ExportedIds(ids))
  {
    var rows := RowsOf(rules, entity, t, ids);
    RowsAreOwn(rules, entity, t, ids);
    match entity
    case Users => OwnUsers(rules, t, rows, ExportedIds(ids), now);
    case Articles =>
      assert forall i :: 0 <= i < |ids| ==> NormalRow(rules, Articles, t, ids[i]);
      OwnArticles(rules, t, rows, ExportedIds(ids), now);
    case Comments => OwnComments(rules, t, rows, ExportedIds(ids), now);
  }

  function RedatedUser(rules: Rules, r: UserRow): UserRow {
    r.(updatedAt := ReadBack(rules, r.updatedAt))
  }

  lemma OwnUsers(rules: Rules, t: Tables, rows: seq<StagedRow>, exported: set<Id>, now: Time)
    requires OwnRows(rules, Users, t, rows, exported)
    ensures OverlayUsers(t.users, rows, now) == t.users <==> TimesReadBack(rules, Users, t, exported)
  {
    var o := OverlayUsers(t.users, rows, now);
    forall x | x in t.users ensures o[x] == if x in exported then RedatedUser(rules, t.users[x]) else t.users[x] {
      RowForMember(rows, x);
    }
    forall x | x in exported ensures o[x] == t.users[x] <==> RowReadsBack(rules, Users, t, x) {}
    assert o.Keys == t.users.Keys;
  }

  function RedatedArticle(rules: Rules, r: ArticleRow): ArticleRow {
    r.(updatedAt := ReadBack(rules, r.updatedAt), publishedAt := ReadBackOptional(rules, r.publishedAt))
  }

  lemma OwnArticles(rules: Rules, t: Tables, rows: seq<StagedRow>, exported: set<Id>, now: Time)
    requires OwnRows(rules, Articles, t, rows, exported) && (forall x :: x in exported ==> t.articles[x].slug.Some?)
    ensures OverlayArticles(t.articles, rows, now) == t.articles <==> TimesReadBack(rules, Articles, t, exported)
  {
    var o := OverlayArticles(t.articles, rows, now);
    forall x | x in t.articles
      ensures o[x] == if x in exported then RedatedArticle(rules, t.articles[x]) else t.articles[x]
    {
      OwnArticle(rules, t, rows, exported, now, x);
    }
    forall x | x in exported ensures o[x] == t.articles[x] <==> RowReadsBack(rules, Articles, t, x) {}
    assert o.Keys == t.articles.Keys;
  }

  lemma OwnArticle(rules: Rules, t: Tables, rows: seq<StagedRow>, exported: set<Id>, now: Time, x: Id)
    requires OwnRows(rules, Articles, t, rows, exported) && x in t.articles
    requires (x in exported ==> t.articles[x].slug.Some?)
    ensures OverlayArticles(t.articles, rows, now)[x] ==
            if x in exported then RedatedArticle(rules, t.articles[x]) else t.articles[x]
  {
    RowForMember(rows, x);
  }

  function RedatedComment(rules: Rules, r: CommentRow): CommentRow {
    r.(createdAt := ReadBack(rules, r.createdAt))
  }

  lemma OwnComments(rules: Rules, t: Tables, rows: seq<StagedRow>, exported: set<Id>, now: Time)
    requires OwnRows(rules, Comments, t, rows, exported)
    ensures OverlayComments(t.comments, rows, now) == t.comments <==> TimesReadBack(rules, Comments, t, exported)
  {
    var o := OverlayComments(t.comments, rows, now);
    forall x | x in t.comments
      ensures o[x] == if x in exported then RedatedComment(rules, t.comments[x]) else t.comments[x]
    {
      RowForMember(rows, x);
    }
    forall x | x in exported ensures o[x] == t.comments[x] <==> RowReadsBack(rules, Comments, t, x) {}
    assert o.Keys == t.comments.Keys;
  }
}
