/** What the validator makes of a raw record, said about the properties of that record: exactly when
    it is accepted, what every field of the accepted record is, and which fields a refusal names. */
module ValidationMeaning {
  import opened Model
  import opened Text
  import opened Validation

  // ---- Properties ----

  predicate Has(raw: Json, name: string, v: Json) {
    raw.Obj? && name in raw.fields && raw.fields[name] == v
  }

  predicate Lacks(raw: Json, name: string) {
    !raw.Obj? || name !in raw.fields
  }

  // The property with name number i is v, and the names before it are absent or null.
  ghost predicate ReachedAt(raw: Json, names: seq<string>, v: Json, i: nat) {
    i < |names| && Has(raw, names[i], v) && forall j :: 0 <= j < i ==> Lacks(raw, names[j]) || Has(raw, names[j], Null)
  }

  // The value of the first of these properties that is present and not null.
  ghost predicate FirstOf(raw: Json, names: seq<string>, v: Json) {
    v != Null && exists i: nat :: ReachedAt(raw, names, v, i)
  }

  lemma {:induction false} ReachedLater(raw: Json, names: seq<string>, v: Json, i: nat)
    requires names != [] && (Lacks(raw, names[0]) || Has(raw, names[0], Null))
    ensures ReachedAt(raw, names[1..], v, i) ==> ReachedAt(raw, names, v, i + 1)
    ensures i > 0 && ReachedAt(raw, names, v, i) ==> ReachedAt(raw, names[1..], v, i - 1)
  {
    assert forall j :: 0 <= j < |names| - 1 ==> names[1..][j] == names[j + 1];
  }

  lemma {:induction false} FirstFieldExactly(raw: Json, names: seq<string>, v: Json)
    requires names != [] && v != Null
    ensures FirstField(raw, names) == Some(v) <==> FirstOf(raw, names, v)
  {
    var first := Field(raw, names[0]);
    if first.Some? && !first.value.Null? {
      assert ReachedAt(raw, names, first.value, 0);
      if i: nat :| ReachedAt(raw, names, v, i) {
        assert i == 0;
      }
    } else if |names| > 1 {
      FirstFieldExactly(raw, names[1..], v);
      if i: nat :| ReachedAt(raw, names[1..], v, i) {
        ReachedLater(raw, names, v, i);
      }
      if i: nat :| ReachedAt(raw, names, v, i) {
        ReachedLater(raw, names, v, i);
      }
    } else {
      assert forall i: nat :: !ReachedAt(raw, names, v, i);
    }
  }

  lemma {:induction false} SingleName(raw: Json, name: string)
    ensures FirstField(raw, [name]) == Field(raw, name)
  {
  }

  // ---- Fields ----

  // A required text: the property is a string, trimmed not empty and not too long.
  ghost predicate TextOf(raw: Json, names: seq<string>, max: Option<nat>, s: string) {
    && s != "" && (max.Some? ==> |s| <= max.value)
    && exists u: string :: FirstOf(raw, names, Str(u)) && s == Trim(u)
  }

  // An optional text: what is missing, no string or blank is absent.
  ghost predicate OptionalTextOf(raw: Json, names: seq<string>, o: Option<string>) {
    match o
    case Some(s) => TextOf(raw, names, None, s)
    case None => forall u: string :: FirstOf(raw, names, Str(u)) ==> Trim(u) == ""
  }

  ghost predicate OptionalTimeOf(rules: Rules, raw: Json, names: seq<string>, o: Option<Time>) {
    match o
    case Some(t) =>
      exists s: string :: TextOf(raw, names, None, s) && rules.isDatetime(s) && t == rules.timeOf(s)
    case None => forall u: string :: FirstOf(raw, names, Str(u)) ==> Trim(u) == ""
  }

  ghost predicate EmailOf(rules: Rules, raw: Json, email: string) {
    exists u: string :: Has(raw, "email", Str(u)) && rules.isEmail(u) && email == rules.lower(u)
  }

  // One of the allowed words, or the default if the property is missing.
  ghost predicate ChoiceOf(raw: Json, name: string, allowed: set<string>, default: string, s: string) {
    (Lacks(raw, name) && s == default) || (Has(raw, name, Str(s)) && s in allowed)
  }

  // A flag, or a word for one in any case and with spaces around it; true if it is missing or blank.
  ghost predicate ActiveOf(rules: Rules, raw: Json, active: bool) {
    || (Lacks(raw, "active") && active)
    || Has(raw, "active", Bool(active))
    || exists u: string :: Has(raw, "active", Str(u)) && rules.lower(Trim(u)) in ActiveWords(active)
  }

  function ActiveWords(active: bool): set<string> {
    if active then {"", "true"} else {"false"}
  }

  ghost predicate TagsOf(raw: Json, tags: seq<string>) {
    || (Lacks(raw, "tags") && tags == [])
    || (exists items: seq<Json> :: Has(raw, "tags", Arr(items)) && |items| == |tags| &&
          forall i :: 0 <= i < |tags| ==> items[i] == Str(tags[i]))
  }

  lemma {:induction false} TextExactly(raw: Json, names: seq<string>, max: Option<nat>, s: string)
    requires names != []
    ensures CheckText(FirstField(raw, names), max) == Fine(s) <==> TextOf(raw, names, max, s)
  {
    var v := FirstField(raw, names);
    if v.Some? && v.value.Str? {
      FirstFieldExactly(raw, names, v.value);
    }
    forall u: string | FirstOf(raw, names, Str(u)) ensures v == Some(Str(u)) {
      FirstFieldExactly(raw, names, Str(u));
    }
  }

  lemma {:induction false} OptionalTextExactly(raw: Json, names: seq<string>, o: Option<string>)
    requires names != []
    ensures OptionalString(FirstField(raw, names)) == o <==> OptionalTextOf(raw, names, o)
  {
    var v := FirstField(raw, names);
    if v.Some? && v.value.Str? {
      FirstFieldExactly(raw, names, v.value);
    }
    forall u: string | FirstOf(raw, names, Str(u)) ensures v == Some(Str(u)) {
      FirstFieldExactly(raw, names, Str(u));
    }
  }

  lemma {:induction false} TimeExactly(rules: Rules, raw: Json, names: seq<string>, o: Option<Time>)
    requires names != []
    ensures CheckTime(rules, FirstField(raw, names)) == Fine(o) <==> OptionalTimeOf(rules, raw, names, o)
  {
    var text := OptionalString(FirstField(raw, names));
    OptionalTextExactly(raw, names, text);
    OptionalTextExactly(raw, names, None);
    forall s: string | TextOf(raw, names, None, s) ensures text == Some(s) {
      OptionalTextExactly(raw, names, Some(s));
    }
  }

  lemma EmailExactly(rules: Rules, raw: Json, email: string)
    ensures CheckEmail(rules, Field(raw, "email")) == Fine(email) <==> EmailOf(rules, raw, email)
  {
  }

  lemma ChoiceExactly(raw: Json, name: string, allowed: seq<string>, words: set<string>, default: string, s: string)
    requires forall w :: w in allowed <==> w in words
    ensures CheckEnum(Field(raw, name), allowed, default) == Fine(s) <==> ChoiceOf(raw, name, words, default, s)
  {
  }

  lemma ActiveExactly(rules: Rules, raw: Json, active: bool)
    ensures CheckActive(rules, Field(raw, "active")) == Fine(active) <==> ActiveOf(rules, raw, active)
  {
  }

  lemma TagsExactly(raw: Json, tags: seq<string>)
    ensures CheckTags(Field(raw, "tags")) == Fine(tags) <==> TagsOf(raw, tags)
  {
    if Lacks(raw, "tags") || !raw.fields["tags"].Arr? {
      assert forall items: seq<Json> :: !Has(raw, "tags", Arr(items));
    } else {
      var items := raw.fields["tags"].items;
      assert Has(raw, "tags", Arr(items));
      if Strings(items) {
        var texts := seq(|items|, i requires 0 <= i < |items| => items[i].s);
        assert CheckTags(Field(raw, "tags")) == Fine(texts);
        if TagsOf(raw, tags) {
          assert texts == tags;
        }
      }
    }
  }

  // ---- Records ----

  ghost predicate UserMeans(rules: Rules, raw: Json, r: ImportRecord) {
    && r.UserRecord?
    && OptionalTextOf(raw, ["id", "externalId"], r.id)
    && EmailOf(rules, raw, r.email)
    && TextOf(raw, ["name"], Some(200), r.name)
    && ChoiceOf(raw, "role", {"admin", "author", "moderator", "user"}, "user", r.role)
    && ActiveOf(rules, raw, r.active)
    && OptionalTimeOf(rules, raw, ["created_at", "createdAt"], r.createdAt)
    && OptionalTimeOf(rules, raw, ["updated_at", "updatedAt"], r.updatedAt)
  }

  ghost predicate ArticleMeans(rules: Rules, raw: Json, r: ImportRecord) {
    && r.ArticleRecord?
    && OptionalTextOf(raw, ["id", "externalId"], r.id)
    && TextOf(raw, ["slug"], None, r.slug) && Kebab(r.slug)
    && TextOf(raw, ["title"], Some(500), r.title)
    && TextOf(raw, ["body"], None, r.body)
    && TextOf(raw, ["author_id", "authorId", "author_external_id", "authorExternalId"], None, r.authorId)
    && TagsOf(raw, r.tags)
    && OptionalTimeOf(rules, raw, ["published_at", "publishedAt"], r.publishedAt)
    && ChoiceOf(raw, "status", {"draft", "published", "archived"}, "draft", r.status)
    && (r.status == "draft" ==> r.publishedAt.None?)
    && OptionalTimeOf(rules, raw, ["created_at", "createdAt"], r.createdAt)
    && OptionalTimeOf(rules, raw, ["updated_at", "updatedAt"], r.updatedAt)
  }

  ghost predicate CommentMeans(rules: Rules, raw: Json, r: ImportRecord) {
    && r.CommentRecord?
    && TextOf(raw, ["id", "externalId"], None, r.commentId)
    && TextOf(raw, ["article_id", "articleId", "article_external_id", "articleExternalId"], None, r.articleId)
    && TextOf(raw, ["user_id", "userId", "user_external_id", "userExternalId"], None, r.userId)
    && TextOf(raw, ["body"], None, r.body) && WordCount(r.body) <= 500
    && OptionalTimeOf(rules, raw, ["created_at", "createdAt"], r.createdAt)
  }

  ghost predicate Means(rules: Rules, entity: Entity, raw: Json, r: ImportRecord) {
    match entity
    case Users => UserMeans(rules, raw, r)
    case Articles => ArticleMeans(rules, raw, r)
    case Comments => CommentMeans(rules, raw, r)
  }

  lemma {:induction false} UserExactly(rules: Rules, raw: Json, r: ImportRecord)
    ensures ValidateUser(rules, raw) == Accepted(r) <==> UserMeans(rules, raw, r)
  {
    if r.UserRecord? {
      OptionalTextExactly(raw, ["id", "externalId"], r.id);
      EmailExactly(rules, raw, r.email);
      SingleName(raw, "name");
      TextExactly(raw, ["name"], Some(200), r.name);
      ChoiceExactly(raw, "role", ROLES, {"admin", "author", "moderator", "user"}, "user", r.role);
      ActiveExactly(rules, raw, r.active);
      TimeExactly(rules, raw, ["created_at", "createdAt"], r.createdAt);
      TimeExactly(rules, raw, ["updated_at", "updatedAt"], r.updatedAt);
    }
  }

  lemma {:induction false} SlugExactly(raw: Json, s: string)
    ensures CheckSlug(Field(raw, "slug")) == Fine(s) <==> TextOf(raw, ["slug"], None, s) && Kebab(s)
  {
    SingleName(raw, "slug");
    TextExactly(raw, ["slug"], None, s);
  }

  ghost predicate ArticleFieldsFine(c: ArticleChecks, r: ImportRecord)
    requires r.ArticleRecord?
  {
    && c.slug == Fine(r.slug) && c.title == Fine(r.title) && c.body == Fine(r.body) && c.authorId == Fine(r.authorId)
    && c.tags == Fine(r.tags) && c.publishedAt == Fine(r.publishedAt) && c.status == Fine(r.status)
    && c.createdAt == Fine(r.createdAt) && c.updatedAt == Fine(r.updatedAt)
  }

  lemma {:induction false} ArticleFieldsExactly(rules: Rules, raw: Json, r: ImportRecord)
    requires r.ArticleRecord?
    ensures (ArticleFieldsFine(CheckArticle(rules, raw), r) && (r.status == "draft" ==> r.publishedAt.None?) &&
             OptionalTextOf(raw, ["id", "externalId"], r.id)) <==> ArticleMeans(rules, raw, r)
  {
    SlugExactly(raw, r.slug);
    SingleName(raw, "title");
    TextExactly(raw, ["title"], Some(500), r.title);
    SingleName(raw, "body");
    TextExactly(raw, ["body"], None, r.body);
    TextExactly(raw, ["author_id", "authorId", "author_external_id", "authorExternalId"], None, r.authorId);
    TagsExactly(raw, r.tags);
    TimeExactly(rules, raw, ["published_at", "publishedAt"], r.publishedAt);
    ChoiceExactly(raw, "status", STATUSES, {"draft", "published", "archived"}, "draft", r.status);
    TimeExactly(rules, raw, ["created_at", "createdAt"], r.createdAt);
    TimeExactly(rules, raw, ["updated_at", "updatedAt"], r.updatedAt);
  }

  lemma {:induction false} ArticleExactly(rules: Rules, raw: Json, r: ImportRecord)
    ensures ValidateArticle(rules, raw) == Accepted(r) <==> ArticleMeans(rules, raw, r)
  {
    if r.ArticleRecord? {
      ArticleFieldsExactly(rules, raw, r);
      OptionalTextExactly(raw, ["id", "externalId"], r.id);
    }
  }

  lemma {:induction false} CommentExactly(rules: Rules, raw: Json, r: ImportRecord)
    ensures ValidateComment(rules, raw) == Accepted(r) <==> CommentMeans(rules, raw, r)
  {
    if r.CommentRecord? {
      OptionalTextExactly(raw, ["id", "externalId"], Some(r.commentId));
      TextExactly(raw, ["article_id", "articleId", "article_external_id", "articleExternalId"], None, r.articleId);
      TextExactly(raw, ["user_id", "userId", "user_external_id", "userExternalId"], None, r.userId);
      SingleName(raw, "body");
      TextExactly(raw, ["body"], None, r.body);
      TimeExactly(rules, raw, ["created_at", "createdAt"], r.createdAt);
    }
  }

  /** A raw record of an entity is accepted as record r exactly if every field of r is what the raw
      properties mean; it is refused exactly if they mean no record. */
  lemma {:induction false} AcceptedExactly(rules: Rules, entity: Entity, raw: Json, r: ImportRecord)
    ensures Validate(rules, entity, raw) == Accepted(r) <==> Means(rules, entity, raw, r)
  {
    match entity
    case Users => UserExactly(rules, raw, r);
    case Articles => ArticleExactly(rules, raw, r);
    case Comments => CommentExactly(rules, raw, r);
  }

  lemma {:induction false} RefusedExactly(rules: Rules, entity: Entity, raw: Json)
    ensures Validate(rules, entity, raw).Refused? <==> forall r :: !Means(rules, entity, raw, r)
  {
    forall r ensures Validate(rules, entity, raw) == Accepted(r) <==> Means(rules, entity, raw, r) {
      AcceptedExactly(rules, entity, raw, r);
    }
    if Validate(rules, entity, raw).Accepted? {
      assert Means(rules, entity, raw, Validate(rules, entity, raw).record);
    }
  }

  // ---- What a refusal names ----

  lemma {:induction false} InAll(parts: seq<seq<Issue>>, issue: Issue)
    ensures issue in All(parts) <==> exists i :: 0 <= i < |parts| && issue in parts[i]
  {
    if parts != [] {
      var n := |parts| - 1;
      InAll(parts[..n], issue);
      assert forall i :: 0 <= i < n ==> parts[..n][i] == parts[i];
    }
  }

  lemma {:induction false} InTen(parts: seq<seq<Issue>>, issue: Issue)
    requires |parts| == 10
    ensures issue in All(parts) <==>
            || issue in parts[0] || issue in parts[1] || issue in parts[2] || issue in parts[3] || issue in parts[4]
            || issue in parts[5] || issue in parts[6] || issue in parts[7] || issue in parts[8] || issue in parts[9]
  {
    InAll(parts, issue);
  }

  lemma InIssuesOf<T>(c: Check<T>, path: string, issue: Issue)
    ensures issue in IssuesOf(c, path) <==> !c.Fine? && issue == InvalidField(path)
  {
    if !c.Fine? {
      assert IssuesOf(c, path)[0] == InvalidField(path);
    }
  }

  // The property breaks its rule: it means no text.
  ghost predicate NoText(raw: Json, names: seq<string>, max: Option<nat>) {
    forall s: string :: !TextOf(raw, names, max, s)
  }

  ghost predicate NoTime(rules: Rules, raw: Json, names: seq<string>) {
    forall o: Option<Time> :: !OptionalTimeOf(rules, raw, names, o)
  }

  ghost predicate NoChoice(raw: Json, name: string, allowed: set<string>) {
    !Lacks(raw, name) && forall s: string :: !(Has(raw, name, Str(s)) && s in allowed)
  }

  lemma {:induction false} NoTextExactly(raw: Json, names: seq<string>, max: Option<nat>)
    requires names != []
    ensures CheckText(FirstField(raw, names), max).Fine? <==> !NoText(raw, names, max)
  {
    forall s ensures CheckText(FirstField(raw, names), max) == Fine(s) <==> TextOf(raw, names, max, s) {
      TextExactly(raw, names, max, s);
    }
    if CheckText(FirstField(raw, names), max).Fine? {
      assert TextOf(raw, names, max, CheckText(FirstField(raw, names), max).value);
    }
  }

  lemma {:induction false} NoTimeExactly(rules: Rules, raw: Json, names: seq<string>)
    requires names != []
    ensures CheckTime(rules, FirstField(raw, names)).Fine? <==> !NoTime(rules, raw, names)
  {
    forall o ensures CheckTime(rules, FirstField(raw, names)) == Fine(o) <==> OptionalTimeOf(rules, raw, names, o) {
      TimeExactly(rules, raw, names, o);
    }
    if CheckTime(rules, FirstField(raw, names)).Fine? {
      assert OptionalTimeOf(rules, raw, names, CheckTime(rules, FirstField(raw, names)).value);
    }
  }

  lemma NoChoiceExactly(raw: Json, name: string, allowed: seq<string>, words: set<string>, default: string)
    requires forall w :: w in allowed <==> w in words
    ensures CheckEnum(Field(raw, name), allowed, default).Fine? <==> !NoChoice(raw, name, words)
  {
  }

  lemma {:induction false} EmailFine(rules: Rules, raw: Json)
    ensures CheckEmail(rules, Field(raw, "email")).Fine? <==> exists email :: EmailOf(rules, raw, email)
  {
    if CheckEmail(rules, Field(raw, "email")).Fine? {
      EmailExactly(rules, raw, CheckEmail(rules, Field(raw, "email")).value);
    }
    if email :| EmailOf(rules, raw, email) {
      EmailExactly(rules, raw, email);
    }
  }

  lemma {:induction false} ActiveFine(rules: Rules, raw: Json)
    ensures CheckActive(rules, Field(raw, "active")).Fine? <==>
            ActiveOf(rules, raw, true) || ActiveOf(rules, raw, false)
  {
    ActiveExactly(rules, raw, true);
    ActiveExactly(rules, raw, false);
  }

  // The fields of a users record that break their rule, by the names of the issues.
  ghost predicate UserFault(rules: Rules, raw: Json, issue: Issue) {
    || (issue == InvalidField("email") && forall email :: !EmailOf(rules, raw, email))
    || (issue == InvalidField("name") && NoText(raw, ["name"], Some(200)))
    || (issue == InvalidField("role") && NoChoice(raw, "role", {"admin", "author", "moderator", "user"}))
    || (issue == InvalidField("active") && !ActiveOf(rules, raw, true) && !ActiveOf(rules, raw, false))
    || (issue == InvalidField("created_at") && NoTime(rules, raw, ["created_at", "createdAt"]))
    || (issue == InvalidField("updated_at") && NoTime(rules, raw, ["updated_at", "updatedAt"]))
  }

  lemma {:induction false} UserIssuesExactly(email: Check<string>, name: Check<string>, role: Check<string>,
                                             active: Check<bool>, createdAt: Check<Option<Time>>,
                                             updatedAt: Check<Option<Time>>, issue: Issue)
    ensures issue in UserIssues(email, name, role, active, createdAt, updatedAt) <==>
            || (issue == InvalidField("email") && !email.Fine?) || (issue == InvalidField("name") && !name.Fine?)
            || (issue == InvalidField("role") && !role.Fine?) || (issue == InvalidField("active") && !active.Fine?)
            || (issue == InvalidField("created_at") && !createdAt.Fine?)
            || (issue == InvalidField("updated_at") && !updatedAt.Fine?)
  {
    var parts := [IssuesOf(email, "email"), IssuesOf(name, "name"), IssuesOf(role, "role"), IssuesOf(active, "active"),
                  IssuesOf(createdAt, "created_at"), IssuesOf(updatedAt, "updated_at")];
    InAll(parts, issue);
    InIssuesOf(email, "email", issue);
    InIssuesOf(name, "name", issue);
    InIssuesOf(role, "role", issue);
    InIssuesOf(active, "active", issue);
    InIssuesOf(createdAt, "created_at", issue);
    InIssuesOf(updatedAt, "updated_at", issue);
    assert issue in All(parts) <==>
           issue in parts[0] || issue in parts[1] || issue in parts[2] || issue in parts[3] || issue in parts[4] ||
           issue in parts[5];
  }

  lemma {:induction false} UserFaultsNamed(rules: Rules, raw: Json, issue: Issue)
    requires ValidateUser(rules, raw).Refused?
    ensures issue in ValidateUser(rules, raw).issues <==> UserFault(rules, raw, issue)
  {
    SingleName(raw, "name");
    EmailFine(rules, raw);
    NoTextExactly(raw, ["name"], Some(200));
    NoChoiceExactly(raw, "role", ROLES, {"admin", "author", "moderator", "user"}, "user");
    ActiveFine(rules, raw);
    NoTimeExactly(rules, raw, ["created_at", "createdAt"]);
    NoTimeExactly(rules, raw, ["updated_at", "updatedAt"]);
    UserIssuesExactly(CheckEmail(rules, Field(raw, "email")), CheckText(Field(raw, "name"), Some(200)),
                      CheckEnum(Field(raw, "role"), ROLES, "user"), CheckActive(rules, Field(raw, "active")),
                      CheckTime(rules, FirstField(raw, ["created_at", "createdAt"])),
                      CheckTime(rules, FirstField(raw, ["updated_at", "updatedAt"])), issue);
  }

  // The property is not even a string.
  ghost predicate NoString(raw: Json, names: seq<string>) {
    forall u: string :: !FirstOf(raw, names, Str(u))
  }

  lemma {:induction false} NoStringExactly(raw: Json, names: seq<string>, max: Option<nat>)
    requires names != []
    ensures CheckText(FirstField(raw, names), max).Aborted? <==> NoString(raw, names)
  {
    var v := FirstField(raw, names);
    if v.Some? && v.value.Str? {
      FirstFieldExactly(raw, names, v.value);
    }
    forall u: string | FirstOf(raw, names, Str(u)) ensures v == Some(Str(u)) {
      FirstFieldExactly(raw, names, Str(u));
    }
  }

  // The tags are there and are no array.
  predicate NoArray(raw: Json) {
    !Lacks(raw, "tags") && !raw.fields["tags"].Arr?
  }

  // Item n of the tags is no string.
  predicate BadTag(raw: Json, n: nat) {
    && !Lacks(raw, "tags") && raw.fields["tags"].Arr?
    && n < |raw.fields["tags"].items| && !raw.fields["tags"].items[n].Str?
  }

  lemma {:induction false} ItemIssuesExactly(items: seq<Json>, issue: Issue)
    ensures issue in ItemIssues(items) <==>
            exists n: nat :: n < |items| && !items[n].Str? && issue == InvalidItem("tags", n)
  {
    if items != [] {
      var n := |items| - 1;
      ItemIssuesExactly(items[..n], issue);
      assert forall i :: 0 <= i < n ==> items[..n][i] == items[i];
    }
  }

  lemma {:induction false} TagIssuesExactly(raw: Json, issue: Issue)
    ensures issue in TagIssues(Field(raw, "tags")) <==> TagFault(raw, issue)
  {
    if !Lacks(raw, "tags") && raw.fields["tags"].Arr? {
      ItemIssuesExactly(raw.fields["tags"].items, issue);
    }
  }

  // Some field of the record has a wrong type, so that rules over several fields are not tried.
  ghost predicate WrongType(raw: Json) {
    || NoString(raw, ["slug"]) || NoString(raw, ["title"]) || NoString(raw, ["body"])
    || NoString(raw, ["author_id", "authorId", "author_external_id", "authorExternalId"])
    || NoArray(raw) || (exists n: nat :: BadTag(raw, n))
    || NoChoice(raw, "status", {"draft", "published", "archived"})
  }

  // A draft with a publication date, be it valid or not.
  ghost predicate PublishedDraft(rules: Rules, raw: Json) {
    && !WrongType(raw) && ChoiceOf(raw, "status", {"draft", "published", "archived"}, "draft", "draft")
    && !OptionalTimeOf(rules, raw, ["published_at", "publishedAt"], None)
  }

  ghost predicate ArticleFieldFault(rules: Rules, raw: Json, issue: Issue) {
    || (issue == InvalidField("slug") && forall s: string :: !(TextOf(raw, ["slug"], None, s) && Kebab(s)))
    || (issue == InvalidField("title") && NoText(raw, ["title"], Some(500)))
    || (issue == InvalidField("body") && NoText(raw, ["body"], None))
    || (issue == InvalidField("author_id") &&
        NoText(raw, ["author_id", "authorId", "author_external_id", "authorExternalId"], None))
    || (issue == InvalidField("published_at") &&
        (NoTime(rules, raw, ["published_at", "publishedAt"]) || PublishedDraft(rules, raw)))
    || (issue == InvalidField("status") && NoChoice(raw, "status", {"draft", "published", "archived"}))
    || (issue == InvalidField("created_at") && NoTime(rules, raw, ["created_at", "createdAt"]))
    || (issue == InvalidField("updated_at") && NoTime(rules, raw, ["updated_at", "updatedAt"]))
  }

  ghost predicate TagFault(raw: Json, issue: Issue) {
    || (issue == InvalidField("tags") && NoArray(raw))
    || (exists n: nat :: BadTag(raw, n) && issue == InvalidItem("tags", n))
  }

  ghost predicate ArticleFault(rules: Rules, raw: Json, issue: Issue) {
    ArticleFieldFault(rules, raw, issue) || TagFault(raw, issue)
  }

  predicate DraftFault(c: ArticleChecks) {
    !AbortsRecord(c) && c.status.value == "draft" && c.publishedAt != Fine(None)
  }

  // The same, by the checks of the fields.
  predicate ArticleCheckFault(c: ArticleChecks, issue: Issue) {
    || (issue == InvalidField("slug") && !c.slug.Fine?) || (issue == InvalidField("title") && !c.title.Fine?)
    || (issue == InvalidField("body") && !c.body.Fine?) || (issue == InvalidField("author_id") && !c.authorId.Fine?)
    || (issue == InvalidField("published_at") && (!c.publishedAt.Fine? || DraftFault(c)))
    || (issue == InvalidField("status") && !c.status.Fine?)
    || (issue == InvalidField("created_at") && !c.createdAt.Fine?)
    || (issue == InvalidField("updated_at") && !c.updatedAt.Fine?)
  }

  lemma {:induction false} ArticleIssuesExactly(c: ArticleChecks, tagIssues: seq<Issue>, issue: Issue)
    requires AboutFields(tagIssues) && (tagIssues == [] <==> c.tags.Fine?)
    ensures issue in ArticleIssues(c, tagIssues) <==>
            ArticleCheckFault(c, issue) || issue in tagIssues
  {
    var parts := ArticleParts(c, tagIssues);
    InIssuesOf(c.slug, "slug", issue);
    InIssuesOf(c.title, "title", issue);
    InIssuesOf(c.body, "body", issue);
    InIssuesOf(c.authorId, "author_id", issue);
    InIssuesOf(c.publishedAt, "published_at", issue);
    InIssuesOf(c.status, "status", issue);
    InIssuesOf(c.createdAt, "created_at", issue);
    InIssuesOf(c.updatedAt, "updated_at", issue);
    InTen(parts, issue);
  }

  lemma {:induction false} SlugFine(raw: Json)
    ensures CheckSlug(Field(raw, "slug")).Fine? <==> exists s: string :: TextOf(raw, ["slug"], None, s) && Kebab(s)
    ensures CheckSlug(Field(raw, "slug")).Aborted? <==> NoString(raw, ["slug"])
  {
    if CheckSlug(Field(raw, "slug")).Fine? {
      SlugExactly(raw, CheckSlug(Field(raw, "slug")).value);
    }
    if s: string :| TextOf(raw, ["slug"], None, s) && Kebab(s) {
      SlugExactly(raw, s);
    }
    SingleName(raw, "slug");
    NoStringExactly(raw, ["slug"], None);
  }

  lemma {:induction false} WrongTypeExactly(rules: Rules, raw: Json)
    ensures AbortsRecord(CheckArticle(rules, raw)) <==> WrongType(raw)
    ensures CheckArticle(rules, raw).tags.Fine? <==> !NoArray(raw) && !exists n: nat :: BadTag(raw, n)
  {
    SlugFine(raw);
    SingleName(raw, "title");
    SingleName(raw, "body");
    NoStringExactly(raw, ["title"], Some(500));
    NoStringExactly(raw, ["body"], None);
    NoStringExactly(raw, ["author_id", "authorId", "author_external_id", "authorExternalId"], None);
    NoChoiceExactly(raw, "status", STATUSES, {"draft", "published", "archived"}, "draft");
    BadTagExactly(raw);
  }

  lemma BadTagExactly(raw: Json)
    ensures CheckTags(Field(raw, "tags")).Fine? <==> !NoArray(raw) && !exists n: nat :: BadTag(raw, n)
    ensures !CheckTags(Field(raw, "tags")).Fine? ==> CheckTags(Field(raw, "tags")).Aborted?
  {
    if !Lacks(raw, "tags") && raw.fields["tags"].Arr? {
      var items := raw.fields["tags"].items;
      if n: nat :| BadTag(raw, n) {
        assert !items[n].Str?;
      } else {
        forall i | 0 <= i < |items| ensures items[i].Str? {
          assert !BadTag(raw, i);
        }
      }
    }
  }

  lemma {:induction false} DraftExactly(rules: Rules, raw: Json)
    ensures var c := CheckArticle(rules, raw);
            DraftFault(c) <==> PublishedDraft(rules, raw)
  {
    WrongTypeExactly(rules, raw);
    TimeExactly(rules, raw, ["published_at", "publishedAt"], None);
    ChoiceExactly(raw, "status", STATUSES, {"draft", "published", "archived"}, "draft", "draft");
  }

  lemma {:induction false} ArticleFaultsNamed(rules: Rules, raw: Json, issue: Issue)
    requires ValidateArticle(rules, raw).Refused?
    ensures issue in ValidateArticle(rules, raw).issues <==> ArticleFault(rules, raw, issue)
  {
    ArticleIssuesExactly(CheckArticle(rules, raw), TagIssues(Field(raw, "tags")), issue);
    FieldFaultsExactly(rules, raw, issue);
    TagIssuesExactly(raw, issue);
  }

  lemma {:induction false} FieldFaultsExactly(rules: Rules, raw: Json, issue: Issue)
    ensures ArticleCheckFault(CheckArticle(rules, raw), issue) <==> ArticleFieldFault(rules, raw, issue)
  {
    ArticleFieldFaults(rules, raw);
    DraftExactly(rules, raw);
  }

  lemma {:induction false} ArticleFieldFaults(rules: Rules, raw: Json)
    ensures var c := CheckArticle(rules, raw);
            && (c.slug.Fine? <==> exists s: string :: TextOf(raw, ["slug"], None, s) && Kebab(s))
            && (c.title.Fine? <==> !NoText(raw, ["title"], Some(500)))
            && (c.body.Fine? <==> !NoText(raw, ["body"], None))
            && (c.authorId.Fine? <==>
                  !NoText(raw, ["author_id", "authorId", "author_external_id", "authorExternalId"], None))
            && (c.publishedAt.Fine? <==> !NoTime(rules, raw, ["published_at", "publishedAt"]))
            && (c.status.Fine? <==> !NoChoice(raw, "status", {"draft", "published", "archived"}))
            && (c.createdAt.Fine? <==> !NoTime(rules, raw, ["created_at", "createdAt"]))
            && (c.updatedAt.Fine? <==> !NoTime(rules, raw, ["updated_at", "updatedAt"]))
  {
    SlugFine(raw);
    SingleName(raw, "title");
    SingleName(raw, "body");
    NoTextExactly(raw, ["title"], Some(500));
    NoTextExactly(raw, ["body"], None);
    NoTextExactly(raw, ["author_id", "authorId", "author_external_id", "authorExternalId"], None);
    NoTimeExactly(rules, raw, ["published_at", "publishedAt"]);
    NoChoiceExactly(raw, "status", STATUSES, {"draft", "published", "archived"}, "draft");
    NoTimeExactly(rules, raw, ["created_at", "createdAt"]);
    NoTimeExactly(rules, raw, ["updated_at", "updatedAt"]);
  }

  ghost predicate CommentFault(rules: Rules, raw: Json, issue: Issue) {
    || (issue == InvalidField("id") && NoText(raw, ["id", "externalId"], None))
    || (issue == InvalidField("article_id") &&
        NoText(raw, ["article_id", "articleId", "article_external_id", "articleExternalId"], None))
    || (issue == InvalidField("user_id") &&
        NoText(raw, ["user_id", "userId", "user_external_id", "userExternalId"], None))
    || (issue == InvalidField("body") &&
        forall s: string :: !(TextOf(raw, ["body"], None, s) && WordCount(s) <= 500))
    || (issue == InvalidField("created_at") && NoTime(rules, raw, ["created_at", "createdAt"]))
  }

  lemma {:induction false} CommentIssuesExactly(id: Option<string>, articleId: Check<string>, userId: Check<string>,
                                                body: Check<string>, createdAt: Check<Option<Time>>, issue: Issue)
    ensures issue in CommentIssues(id, articleId, userId, body, createdAt) <==>
            || (issue == InvalidField("id") && id.None?)
            || (issue == InvalidField("article_id") && !articleId.Fine?)
            || (issue == InvalidField("user_id") && !userId.Fine?) || (issue == InvalidField("body") && !body.Fine?)
            || (issue == InvalidField("created_at") && !createdAt.Fine?)
  {
    var parts := [if id.None? then [InvalidField("id")] else [], IssuesOf(articleId, "article_id"),
                  IssuesOf(userId, "user_id"), IssuesOf(body, "body"), IssuesOf(createdAt, "created_at")];
    InAll(parts, issue);
    InIssuesOf(articleId, "article_id", issue);
    InIssuesOf(userId, "user_id", issue);
    InIssuesOf(body, "body", issue);
    InIssuesOf(createdAt, "created_at", issue);
    assert issue in All(parts) <==>
           issue in parts[0] || issue in parts[1] || issue in parts[2] || issue in parts[3] || issue in parts[4];
  }

  lemma {:induction false} IdFine(raw: Json)
    ensures OptionalString(FirstField(raw, ["id", "externalId"])).None? <==> NoText(raw, ["id", "externalId"], None)
  {
    forall s: string
      ensures OptionalString(FirstField(raw, ["id", "externalId"])) == Some(s) <==>
              TextOf(raw, ["id", "externalId"], None, s)
    {
      OptionalTextExactly(raw, ["id", "externalId"], Some(s));
    }
    if OptionalString(FirstField(raw, ["id", "externalId"])).Some? {
      assert TextOf(raw, ["id", "externalId"], None, OptionalString(FirstField(raw, ["id", "externalId"])).value);
    }
  }

  lemma {:induction false} BodyFine(raw: Json)
    ensures CheckCommentBody(Field(raw, "body")).Fine? <==>
            exists s: string :: TextOf(raw, ["body"], None, s) && WordCount(s) <= 500
  {
    SingleName(raw, "body");
    if CheckText(Field(raw, "body"), None).Fine? {
      TextExactly(raw, ["body"], None, CheckText(Field(raw, "body"), None).value);
    }
    forall s: string | TextOf(raw, ["body"], None, s) ensures CheckText(Field(raw, "body"), None) == Fine(s) {
      TextExactly(raw, ["body"], None, s);
    }
  }

  lemma {:induction false} CommentFaultsNamed(rules: Rules, raw: Json, issue: Issue)
    requires ValidateComment(rules, raw).Refused?
    ensures issue in ValidateComment(rules, raw).issues <==> CommentFault(rules, raw, issue)
  {
    IdFine(raw);
    NoTextExactly(raw, ["article_id", "articleId", "article_external_id", "articleExternalId"], None);
    NoTextExactly(raw, ["user_id", "userId", "user_external_id", "userExternalId"], None);
    BodyFine(raw);
    NoTimeExactly(rules, raw, ["created_at", "createdAt"]);
    CommentIssuesExactly(OptionalString(FirstField(raw, ["id", "externalId"])),
                         CheckText(FirstField(raw, ARTICLE_NAMES), None), CheckText(FirstField(raw, USER_NAMES), None),
                         CheckCommentBody(Field(raw, "body")),
                         CheckTime(rules, FirstField(raw, ["created_at", "createdAt"])), issue);
  }

  ghost predicate Fault(rules: Rules, entity: Entity, raw: Json, issue: Issue) {
    match entity
    case Users => UserFault(rules, raw, issue)
    case Articles => ArticleFault(rules, raw, issue)
    case Comments => CommentFault(rules, raw, issue)
  }

  /** A refusal names exactly the fields, and items of fields, whose properties break their rule, and
      the publication date of a draft. */
  lemma {:induction false} RefusalNamesFaults(rules: Rules, entity: Entity, raw: Json, issue: Issue)
    requires Validate(rules, entity, raw).Refused?
    ensures issue in Validate(rules, entity, raw).issues <==> Fault(rules, entity, raw, issue)
  {
    match entity
    case Users => UserFaultsNamed(rules, raw, issue);
    case Articles => ArticleFaultsNamed(rules, raw, issue);
    case Comments => CommentFaultsNamed(rules, raw, issue);
  }
}
