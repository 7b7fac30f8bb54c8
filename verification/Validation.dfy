/** Normalisation and validation of one raw record. */
module Validation {
  import opened Model
  import opened Text

  // What is decided outside the model: email syntax, lower-casing, ISO 8601 syntax and the
  // two conversions between a timestamp and its text.
  datatype Rules = Rules(isEmail: string -> bool, lower: string -> string,
                         isDatetime: string -> bool, timeOf: string -> Time, iso: Time -> string)

  // An accepted email is trimmed text that stays accepted in lower case.
  ghost predicate SoundEmail(r: Rules, s: string) {
    r.isEmail(s) ==> s != "" && Trimmed(s) && r.isEmail(r.lower(s))
  }

  ghost predicate SoundLower(r: Rules, s: string) {
    r.lower(r.lower(s)) == r.lower(s)
  }

  ghost predicate SoundRules(r: Rules) {
    (forall s :: SoundEmail(r, s)) && (forall s :: SoundLower(r, s))
  }

  // An absent property is None; null stays a value.
  function Field(raw: Json, name: string): Option<Json> {
    if raw.Obj? && name in raw.fields then Some(raw.fields[name]) else None
  }

  // The nullish operator: the next name is tried when the property is absent or null.
  function FirstField(raw: Json, names: seq<string>): Option<Json>
    requires names != []
  {
    var v := Field(raw, names[0]);
    if |names| > 1 && (v.None? || v.value.Null?) then FirstField(raw, names[1..]) else v
  }

  function OptionalString(v: Option<Json>): Option<string> {
    if v.Some? && v.value.Str? && Trim(v.value.s) != "" then Some(Trim(v.value.s)) else None
  }

  // A value of the right type that breaks a rule, and maybe further ones, is dirty; a wrong type
  // aborts the record, so that rules over several fields are not tried.
  datatype Check<+T> = Fine(value: T) | Dirty(further: nat) | Aborted

  function CheckText(v: Option<Json>, max: Option<nat>): Check<string> {
    if v.None? || !v.value.Str? then Aborted
    else
      var s := Trim(v.value.s);
      if s == "" || (max.Some? && |s| > max.value) then Dirty(0) else Fine(s)
  }

  function CheckEmail(rules: Rules, v: Option<Json>): Check<string> {
    if v.None? || !v.value.Str? then Aborted
    else if rules.isEmail(v.value.s) then Fine(rules.lower(v.value.s))
    else Dirty(0)
  }

  function CheckEnum(v: Option<Json>, allowed: seq<string>, default: string): Check<string> {
    match v
    case None => Fine(default)
    case Some(j) => if j.Str? && j.s in allowed then Fine(j.s) else Aborted
  }

  function CheckActive(rules: Rules, v: Option<Json>): Check<bool> {
    match v
    case None => Fine(true)
    case Some(Bool(b)) => Fine(b)
    case Some(Str(s)) =>
      var n := rules.lower(Trim(s));
      if n == "" || n == "true" then Fine(true) else if n == "false" then Fine(false) else Aborted
    case Some(_) => Aborted
  }

  function CheckTime(rules: Rules, v: Option<Json>): Check<Option<Time>> {
    match OptionalString(v)
    case None => Fine(None)
    case Some(s) => if rules.isDatetime(s) then Fine(Some(rules.timeOf(s))) else Dirty(0)
  }

  predicate Strings(items: seq<Json>) {
    forall i :: 0 <= i < |items| ==> items[i].Str?
  }

  function CheckTags(v: Option<Json>): Check<seq<string>> {
    match v
    case None => Fine([])
    case Some(j) =>
      if j.Arr? && Strings(j.items) then Fine(seq(|j.items|, i requires 0 <= i < |j.items| => j.items[i].s))
      else Aborted
  }

  // Each issue names a field or an item of one.
  predicate AboutFields(issues: seq<Issue>) {
    forall i :: 0 <= i < |issues| ==> issues[i].InvalidField? || issues[i].InvalidItem?
  }

  // One issue for every item that is not a string, named by its place.
  function ItemIssues(items: seq<Json>): (issues: seq<Issue>)
    ensures AboutFields(issues) && (issues == [] <==> Strings(items))
  {
    if items == [] then []
    else
      var n := |items| - 1;
      ItemIssues(items[..n]) + (if items[n].Str? then [] else [InvalidItem("tags", n)])
  }

  function TagIssues(v: Option<Json>): (issues: seq<Issue>)
    ensures AboutFields(issues) && (issues == [] <==> CheckTags(v).Fine?)
  {
    match v
    case None => []
    case Some(j) => if j.Arr? then ItemIssues(j.items) else [InvalidField("tags")]
  }

  predicate KebabChar(c: char) {
    'a' <= c <= 'z' || '0' <= c <= '9'
  }

  // Lower-case words or numbers joined by single hyphens.
  predicate Kebab(s: string) {
    && s != "" && KebabChar(s[0]) && KebabChar(s[|s| - 1])
    && (forall i :: 0 <= i < |s| ==> KebabChar(s[i]) || s[i] == '-')
    && (forall i :: 0 <= i < |s| - 1 ==> KebabChar(s[i]) || KebabChar(s[i + 1]))
  }

  predicate KebabWord(w: string) {
    w != "" && forall i :: 0 <= i < |w| ==> KebabChar(w[i])
  }

  function Hyphenated(words: seq<string>): string
    requires words != []
  {
    if |words| == 1 then words[0] else words[0] + "-" + Hyphenated(words[1..])
  }

  ghost predicate KebabWords(words: seq<string>) {
    words != [] && forall i :: 0 <= i < |words| ==> KebabWord(words[i])
  }

  lemma {:induction false} HyphenatedIsKebab(words: seq<string>)
    requires KebabWords(words)
    ensures Kebab(Hyphenated(words))
  {
    if |words| > 1 {
      HyphenatedIsKebab(words[1..]);
      var w, rest := words[0], Hyphenated(words[1..]);
      var s := Hyphenated(words);
      assert KebabWord(w);
      assert s == w + "-" + rest;
      assert forall i :: |w| < i < |s| ==> s[i] == rest[i - |w| - 1];
    }
  }

  lemma FirstHyphen(s: string) returns (i: nat)
    ensures i <= |s| && (forall j :: 0 <= j < i ==> s[j] != '-') && (i < |s| ==> s[i] == '-')
  {
    i := 0;
    while i < |s| && s[i] != '-'
      invariant i <= |s| && forall j :: 0 <= j < i ==> s[j] != '-'
    {
      i := i + 1;
    }
  }

  lemma {:induction false} KebabSplits(s: string) returns (words: seq<string>)
    requires Kebab(s)
    ensures KebabWords(words) && s == Hyphenated(words)
    decreases |s|
  {
    var i := FirstHyphen(s);
    if i == |s| {
      words := [s];
    } else {
      var more := KebabSplits(s[i + 1..]);
      words := [s[..i]] + more;
      assert words[1..] == more;
    }
  }

  /** A slug is accepted exactly if it is one or more lower-case words joined by single hyphens. */
  lemma KebabIffJoinedWords(s: string)
    ensures Kebab(s) <==> exists words :: KebabWords(words) && s == Hyphenated(words)
  {
    if Kebab(s) {
      var words := KebabSplits(s);
    }
    if words :| KebabWords(words) && s == Hyphenated(words) {
      HyphenatedIsKebab(words);
    }
  }

  function CheckSlug(v: Option<Json>): Check<string> {
    var c := CheckText(v, None);
    match c
    case Fine(s) => if Kebab(s) then c else Dirty(0)
    case Dirty(n) => Dirty(n + 1) // an empty slug is not kebab-case either
    case Aborted => Aborted
  }

  function WordCount(s: string): nat {
    if s == "" then 0
    else WordCount(s[..|s| - 1]) +
         (if !IsSpace(s[|s| - 1]) && (|s| == 1 || IsSpace(s[|s| - 2])) then 1 else 0)
  }

  predicate Word(w: string) {
    w != "" && forall i :: 0 <= i < |w| ==> !IsSpace(w[i])
  }

  ghost predicate Spaced(gap: string) {
    forall i :: 0 <= i < |gap| ==> IsSpace(gap[i])
  }

  lemma {:induction false} GapAddsNothing(s: string, gap: string)
    requires Spaced(gap)
    ensures WordCount(s + gap) == WordCount(s)
  {
    if gap == "" {
      assert s + gap == s;
    } else {
      var n := |gap| - 1;
      GapAddsNothing(s, gap[..n]);
      assert (s + gap)[..|s + gap| - 1] == s + gap[..n];
      assert (s + gap)[|s + gap| - 1] == gap[n];
    }
  }

  /** The count is the number of words: after nothing or a space, one more word counts one more. */
  lemma {:induction false} WordAddsOne(s: string, w: string)
    requires Word(w) && (s != "" ==> IsSpace(s[|s| - 1]))
    ensures WordCount(s + w) == WordCount(s) + 1
  {
    var t, n := s + w, |w| - 1;
    assert t[|t| - 1] == w[n];
    if n == 0 {
      assert t[..|t| - 1] == s;
    } else {
      WordAddsOne(s, w[..n]);
      assert t[..|t| - 1] == s + w[..n];
      assert t[|t| - 2] == w[n - 1];
    }
  }

  function CheckCommentBody(v: Option<Json>): Check<string> {
    var c := CheckText(v, None);
    if c.Fine? && WordCount(c.value) > 500 then Dirty(0) else c
  }

  // The names a reference may go by; the first one present counts.
  const AUTHOR_NAMES: seq<string> := ["author_id", "authorId", "author_external_id", "authorExternalId"]
  const ARTICLE_NAMES: seq<string> := ["article_id", "articleId", "article_external_id", "articleExternalId"]
  const USER_NAMES: seq<string> := ["user_id", "userId", "user_external_id", "userExternalId"]

  const ROLES: seq<string> := ["admin", "author", "moderator", "user"]
  const STATUSES: seq<string> := ["draft", "published", "archived"]

  datatype Validated = Accepted(record: ImportRecord) | Refused(issues: seq<Issue>)

  function IssuesOf<T>(c: Check<T>, path: string): (issues: seq<Issue>)
    ensures AboutFields(issues) && (issues == [] <==> c.Fine?)
  {
    match c
    case Fine(_) => []
    case Dirty(n) => seq(n + 1, i => InvalidField(path))
    case Aborted => [InvalidField(path)]
  }

  function All(parts: seq<seq<Issue>>): (issues: seq<Issue>)
    ensures (forall i :: 0 <= i < |parts| ==> AboutFields(parts[i])) ==> AboutFields(issues)
    ensures (forall i :: 0 <= i < |parts| ==> parts[i] == []) <==> issues == []
  {
    if parts == [] then [] else All(parts[..|parts| - 1]) + parts[|parts| - 1]
  }

  function UserIssues(email: Check<string>, name: Check<string>, role: Check<string>, active: Check<bool>,
                      createdAt: Check<Option<Time>>, updatedAt: Check<Option<Time>>): (issues: seq<Issue>)
    ensures AboutFields(issues)
    ensures issues == [] <==>
            email.Fine? && name.Fine? && role.Fine? && active.Fine? && createdAt.Fine? && updatedAt.Fine?
  {
    var parts := [IssuesOf(email, "email"), IssuesOf(name, "name"), IssuesOf(role, "role"), IssuesOf(active, "active"),
                  IssuesOf(createdAt, "created_at"), IssuesOf(updatedAt, "updated_at")];
    assert (parts[0] == [] && parts[1] == [] && parts[2] == [] && parts[3] == [] && parts[4] == [] &&
            parts[5] == []) <==>
           (email.Fine? && name.Fine? && role.Fine? && active.Fine? && createdAt.Fine? && updatedAt.Fine?);
    All(parts)
  }

  function ValidateUser(rules: Rules, raw: Json): Validated {
    var id := OptionalString(FirstField(raw, ["id", "externalId"]));
    var email := CheckEmail(rules, Field(raw, "email"));
    var name := CheckText(Field(raw, "name"), Some(200));
    var role := CheckEnum(Field(raw, "role"), ROLES, "user");
    var active := CheckActive(rules, Field(raw, "active"));
    var createdAt := CheckTime(rules, FirstField(raw, ["created_at", "createdAt"]));
    var updatedAt := CheckTime(rules, FirstField(raw, ["updated_at", "updatedAt"]));
    if email.Fine? && name.Fine? && role.Fine? && active.Fine? && createdAt.Fine? && updatedAt.Fine? then
      Accepted(UserRecord(id, email.value, name.value, role.value, active.value, createdAt.value, updatedAt.value))
    else
      Refused(UserIssues(email, name, role, active, createdAt, updatedAt))
  }

  // The rule over two fields: a draft has no publication date, not even an invalid one.
  function DraftIssues(status: string, publishedAt: Check<Option<Time>>): seq<Issue> {
    if status == "draft" && publishedAt != Fine(None) then [InvalidField("published_at")] else []
  }

  // Every field of an article record, checked on its own.
  datatype ArticleChecks = ArticleChecks(
    slug: Check<string>, title: Check<string>, body: Check<string>, authorId: Check<string>, tags: Check<seq<string>>,
    publishedAt: Check<Option<Time>>, status: Check<string>,
    createdAt: Check<Option<Time>>, updatedAt: Check<Option<Time>>)

  predicate Passes(c: ArticleChecks) {
    && c.slug.Fine? && c.title.Fine? && c.body.Fine? && c.authorId.Fine? && c.tags.Fine? && c.publishedAt.Fine?
    && c.status.Fine? && c.createdAt.Fine? && c.updatedAt.Fine? && DraftIssues(c.status.value, c.publishedAt) == []
  }

  predicate AbortsRecord(c: ArticleChecks) {
    c.slug.Aborted? || c.title.Aborted? || c.body.Aborted? || c.authorId.Aborted? || c.tags.Aborted? || !c.status.Fine?
  }

  // The issues of each field, and of the rule over two of them, in the order they are checked.
  function ArticleParts(c: ArticleChecks, tagIssues: seq<Issue>): (parts: seq<seq<Issue>>)
    ensures |parts| == 10
  {
    [IssuesOf(c.slug, "slug"), IssuesOf(c.title, "title"), IssuesOf(c.body, "body"),
     IssuesOf(c.authorId, "author_id"), tagIssues, IssuesOf(c.publishedAt, "published_at"),
     IssuesOf(c.status, "status"), IssuesOf(c.createdAt, "created_at"), IssuesOf(c.updatedAt, "updated_at"),
     if AbortsRecord(c) then [] else DraftIssues(c.status.value, c.publishedAt)]
  }

  function ArticleIssues(c: ArticleChecks, tagIssues: seq<Issue>): (issues: seq<Issue>)
    requires AboutFields(tagIssues) && (tagIssues == [] <==> c.tags.Fine?)
    ensures AboutFields(issues) && (issues == [] <==> Passes(c))
  {
    var parts := ArticleParts(c, tagIssues);
    assert (parts[0] == [] && parts[1] == [] && parts[2] == [] && parts[3] == [] && parts[4] == [] && parts[5] == [] &&
            parts[6] == [] && parts[7] == [] && parts[8] == [] && parts[9] == []) <==> Passes(c);
    All(parts)
  }

  function CheckArticle(rules: Rules, raw: Json): ArticleChecks {
    ArticleChecks(
      CheckSlug(Field(raw, "slug")),
      CheckText(Field(raw, "title"), Some(500)),
      CheckText(Field(raw, "body"), None),
      CheckText(FirstField(raw, AUTHOR_NAMES), None),
      CheckTags(Field(raw, "tags")),
      CheckTime(rules, FirstField(raw, ["published_at", "publishedAt"])),
      CheckEnum(Field(raw, "status"), STATUSES, "draft"),
      CheckTime(rules, FirstField(raw, ["created_at", "createdAt"])),
      CheckTime(rules, FirstField(raw, ["updated_at", "updatedAt"])))
  }

  function ValidateArticle(rules: Rules, raw: Json): Validated {
    var id := OptionalString(FirstField(raw, ["id", "externalId"]));
    var c := CheckArticle(rules, raw);
    if Passes(c) then
      Accepted(ArticleRecord(id, c.slug.value, c.title.value, c.body.value, c.authorId.value, c.tags.value,
                             c.publishedAt.value, c.status.value, c.createdAt.value, c.updatedAt.value))
    else
      Refused(ArticleIssues(c, TagIssues(Field(raw, "tags"))))
  }

  function CommentIssues(id: Option<string>, articleId: Check<string>, userId: Check<string>, body: Check<string>,
                         createdAt: Check<Option<Time>>): (issues: seq<Issue>)
    ensures AboutFields(issues)
    ensures issues == [] <==> id.Some? && articleId.Fine? && userId.Fine? && body.Fine? && createdAt.Fine?
  {
    var parts := [if id.None? then [InvalidField("id")] else [], IssuesOf(articleId, "article_id"),
                  IssuesOf(userId, "user_id"), IssuesOf(body, "body"), IssuesOf(createdAt, "created_at")];
    assert (parts[0] == [] && parts[1] == [] && parts[2] == [] && parts[3] == [] && parts[4] == []) <==>
           (id.Some? && articleId.Fine? && userId.Fine? && body.Fine? && createdAt.Fine?);
    All(parts)
  }

  function ValidateComment(rules: Rules, raw: Json): Validated {
    var id := OptionalString(FirstField(raw, ["id", "externalId"]));
    var articleId := CheckText(FirstField(raw, ARTICLE_NAMES), None);
    var userId := CheckText(FirstField(raw, USER_NAMES), None);
    var body := CheckCommentBody(Field(raw, "body"));
    var createdAt := CheckTime(rules, FirstField(raw, ["created_at", "createdAt"]));
    if id.Some? && articleId.Fine? && userId.Fine? && body.Fine? && createdAt.Fine? then
      Accepted(CommentRecord(id.value, articleId.value, userId.value, body.value, createdAt.value))
    else
      Refused(CommentIssues(id, articleId, userId, body, createdAt))
  }

  function Validate(rules: Rules, entity: Entity, raw: Json): Validated {
    match entity
    case Users => ValidateUser(rules, raw)
    case Articles => ValidateArticle(rules, raw)
    case Comments => ValidateComment(rules, raw)
  }

  /** A refused record has at least one issue, and every issue names a field. */
  lemma RefusedHasIssues(rules: Rules, entity: Entity, raw: Json)
    requires Validate(rules, entity, raw).Refused?
    ensures var issues := Validate(rules, entity, raw).issues; issues != [] && AboutFields(issues)
  {
  }

  // The shape every accepted record has.
  ghost predicate Normal(rules: Rules, r: ImportRecord) {
    match r
    case UserRecord(id, email, name, role, _, _, _) =>
      && (id.Some? ==> id.value != "" && Trimmed(id.value))
      && rules.isEmail(email) && rules.lower(email) == email
      && name != "" && Trimmed(name) && |name| <= 200 && role in ROLES
    case ArticleRecord(id, slug, title, body, authorId, _, publishedAt, status, _, _) =>
      && (id.Some? ==> id.value != "" && Trimmed(id.value))
      && Kebab(slug) && title != "" && Trimmed(title) && |title| <= 500
      && body != "" && Trimmed(body) && authorId != "" && Trimmed(authorId)
      && status in STATUSES && (status == "draft" ==> publishedAt.None?)
    case CommentRecord(id, articleId, userId, body, _) =>
      && id != "" && Trimmed(id) && articleId != "" && Trimmed(articleId) && userId != "" && Trimmed(userId)
      && body != "" && Trimmed(body) && WordCount(body) <= 500
  }

  lemma OptionalIsTrimmed(v: Option<Json>)
    ensures OptionalString(v).Some? ==> OptionalString(v).value != "" && Trimmed(OptionalString(v).value)
  {
    if v.Some? && v.value.Str? {
      TrimTrims(v.value.s);
    }
  }

  lemma CheckedIsTrimmed(v: Option<Json>, max: Option<nat>)
    ensures CheckText(v, max).Fine? ==> CheckText(v, max).value != "" && Trimmed(CheckText(v, max).value)
  {
    if v.Some? && v.value.Str? {
      TrimTrims(v.value.s);
    }
  }

  lemma {:induction false} AcceptedUser(rules: Rules, raw: Json)
    requires SoundRules(rules) && ValidateUser(rules, raw).Accepted?
    ensures var r := ValidateUser(rules, raw).record; Acceptable(Users, r) && Normal(rules, r)
  {
    var email := Field(raw, "email").value.s;
    OptionalIsTrimmed(FirstField(raw, ["id", "externalId"]));
    assert SoundEmail(rules, email) && SoundEmail(rules, rules.lower(email)) && SoundLower(rules, email);
    CheckedIsTrimmed(Field(raw, "name"), Some(200));
  }

  lemma {:induction false} AcceptedArticle(rules: Rules, raw: Json)
    requires ValidateArticle(rules, raw).Accepted?
    ensures var r := ValidateArticle(rules, raw).record; Acceptable(Articles, r) && Normal(rules, r)
  {
    OptionalIsTrimmed(FirstField(raw, ["id", "externalId"]));
    CheckedIsTrimmed(Field(raw, "title"), Some(500));
    CheckedIsTrimmed(Field(raw, "body"), None);
    CheckedIsTrimmed(FirstField(raw, AUTHOR_NAMES), None);
  }

  lemma {:induction false} AcceptedComment(rules: Rules, raw: Json)
    requires ValidateComment(rules, raw).Accepted?
    ensures var r := ValidateComment(rules, raw).record; Acceptable(Comments, r) && Normal(rules, r)
  {
    OptionalIsTrimmed(FirstField(raw, ["id", "externalId"]));
    CheckedIsTrimmed(Field(raw, "body"), None);
    CheckedIsTrimmed(FirstField(raw, ARTICLE_NAMES), None);
    CheckedIsTrimmed(FirstField(raw, USER_NAMES), None);
  }

  /** Every accepted record belongs to the entity and is in normal form. */
  lemma {:induction false} AcceptedIsNormal(rules: Rules, entity: Entity, raw: Json)
    requires SoundRules(rules) && Validate(rules, entity, raw).Accepted?
    ensures var r := Validate(rules, entity, raw).record; Acceptable(entity, r) && Normal(rules, r)
  {
    match entity
    case Users => AcceptedUser(rules, raw);
    case Articles => AcceptedArticle(rules, raw);
    case Comments => AcceptedComment(rules, raw);
  }
}
