/** What a job reports: for each record that is not merged one error row, whose code, id and issues
    are said here in terms of the record, the lookups and the rows staged before it. */
module ErrorRows {
  import opened Model
  import opened Text
  import opened Validation
  import opened ValidationMeaning
  import opened Staging
  import opened SlugConflicts
  import opened ImportSpec
  import opened Batches
  import ArticleRestarts

  // ---- Before the buffer ----

  // The id shown for a raw record: its own, as it stands, if that is a text that is not blank.
  predicate RawIdOf(raw: Json, id: Option<Id>) {
    match id
    case Some(s) => Has(raw, "id", Str(s)) && Trim(s) != ""
    case None => Lacks(raw, "id") || !raw.fields["id"].Str? || Trim(raw.fields["id"].s) == ""
  }

  /** An entry is admitted as a record exactly if it was parsed and its properties mean that record. */
  lemma {:induction false} AdmittedExactly(rules: Rules, entity: Entity, e: Entry, r: ImportRecord)
    ensures Admit(rules, entity, e) == Admitted(Item(e.line, r)) <==>
            (e.parseError.None? || e.parseError.value == "") && Means(rules, entity, e.raw, r)
  {
    AcceptedExactly(rules, entity, e.raw, r);
  }

  ghost predicate TurnedError(rules: Rules, entity: Entity, e: Entry, error: JobError) {
    && error.line == e.line
    && if e.parseError.Some? && e.parseError.value != "" then
         error.code == ParseError && error.externalId == None && error.issues == [Unparsable(e.parseError.value)]
       else
         && error.code == ValidationError && RawIdOf(e.raw, error.externalId)
         && forall issue :: issue in error.issues <==> Fault(rules, entity, e.raw, issue)
  }

  /** An entry turned away is reported on its line: one that could not be parsed with the reader's
      message and no id, another one with the id of its raw record and exactly its faults. */
  lemma {:induction false} TurnedExactly(rules: Rules, entity: Entity, e: Entry)
    requires Admit(rules, entity, e).Turned?
    ensures TurnedError(rules, entity, e, Admit(rules, entity, e).error)
  {
    if !Truthy(e.parseError) {
      forall issue ensures issue in Validate(rules, entity, e.raw).issues <==> Fault(rules, entity, e.raw, issue) {
        RefusalNamesFaults(rules, entity, e.raw, issue);
      }
    }
  }

  // ---- At the flush ----

  // Row i is the first staged one with this id.
  ghost predicate FirstWithId(rows: seq<StagedRow>, x: Id, i: nat) {
    i < |rows| && rows[i].externalId == x && forall j :: 0 <= j < i ==> rows[j].externalId != x
  }

  ghost predicate FirstWithEmail(rows: seq<StagedRow>, email: string, i: nat) {
    i < |rows| && HasEmail(rows[i], email) && forall j :: 0 <= j < i ==> !HasEmail(rows[j], email)
  }

  lemma {:induction false} FirstIdAt(rows: seq<StagedRow>, x: Id) returns (i: nat)
    requires FirstById(rows, x).Some?
    ensures FirstWithId(rows, x, i) && FirstById(rows, x).value == Pointer(rows[i].line, x)
  {
    if rows[0].externalId == x {
      i := 0;
    } else {
      var n := FirstIdAt(rows[1..], x);
      i := n + 1;
      assert forall j :: 0 < j < i ==> rows[j] == rows[1..][j - 1];
    }
  }

  lemma {:induction false} FirstEmailAt(rows: seq<StagedRow>, email: string) returns (i: nat)
    requires FirstByEmail(rows, email).Some?
    ensures FirstWithEmail(rows, email, i)
    ensures FirstByEmail(rows, email).value == Pointer(rows[i].line, rows[i].externalId)
  {
    if HasEmail(rows[0], email) {
      i := 0;
    } else {
      var n := FirstEmailAt(rows[1..], email);
      i := n + 1;
      assert forall j :: 0 < j < i ==> rows[j] == rows[1..][j - 1];
    }
  }

  // The reference that does not exist is named; of a comment the user first.
  ghost predicate ReferenceError(k: Lookups, d: ImportRecord, error: JobError) {
    match d
    case UserRecord(_, _, _, _, _, _, _) => false
    case ArticleRecord(id, slug, _, _, authorId, _, _, _, _, _) =>
      && authorId !in k.userIds && error.issues == [MissingReference("author_id")]
      && error.externalId == Some(if id.Some? then id.value else slug)
    case CommentRecord(id, articleId, userId, _, _) =>
      && error.externalId == Some(id)
      && if articleId in k.articleIds then userId !in k.userIds && error.issues == [MissingReference("user_id")]
         else if userId in k.userIds then error.issues == [MissingReference("article_id")]
         else error.issues == [MissingReference("user_id"), MissingReference("article_id")]
  }

  ghost predicate DuplicateEmailError(staged: seq<StagedRow>, d: ImportRecord, error: JobError) {
    && d.UserRecord?
    && (exists i: nat :: FirstWithEmail(staged, d.email, i) && error.externalId == Some(staged[i].externalId) &&
          error.issues == [EmailFirstSeen(staged[i].line)])
  }

  ghost predicate DuplicateIdError(staged: seq<StagedRow>, x: Id, error: JobError) {
    exists i: nat :: FirstWithId(staged, x, i) && error.externalId == Some(x) &&
      error.issues == [IdFirstSeen(staged[i].line)]
  }

  ghost predicate RejectedError(k: Lookups, staged: seq<StagedRow>, item: Item, error: JobError) {
    && error.line == item.line
    && match error.code
       case FkError => ReferenceError(k, item.data, error)
       case DuplicateNaturalKey => DuplicateEmailError(staged, item.data, error)
       case IdNaturalKeyMismatch =>
         item.data.UserRecord? && error.externalId == item.data.id && error.issues == [IdDoesNotMatchEmail]
       case DuplicateId => DuplicateIdError(staged, ResolvedId(k, item.data), error)
       case _ => false
  }

  /** A record refused at a flush is reported on its line with the code of the first check it fails:
      a missing reference is named, a duplicate shows the first staged row it repeats. */
  lemma {:induction false} RejectedExactly(k: Lookups, staged: seq<StagedRow>, item: Item)
    requires Decide(k, staged, item).Reject?
    ensures var error := Decide(k, staged, item).error;
            RejectedError(k, staged, item, error) && error.code == FirstFailure(k, staged, item.data)
  {
    var x := ResolvedId(k, item.data);
    StagedExactly(k, staged, item);
    if FirstById(staged, x).Some? {
      var i := FirstIdAt(staged, x);
    }
    if item.data.UserRecord? && FirstByEmail(staged, item.data.email).Some? {
      var i := FirstEmailAt(staged, item.data.email);
    }
  }

  // ---- At the cleanup ----

  /** Each article the cleanup drops is reported, in order, on its line, under its id, with its slug. */
  lemma {:induction false} DroppedExactly(idBySlug: map<string, Id>, s: RunState, i: nat)
    requires AcceptableRows(Articles, s.staged) && i < |Sift(idBySlug, s.staged).conflicts|
    ensures var row, errors := Sift(idBySlug, s.staged).conflicts[i], WithoutConflicts(idBySlug, s).errors;
            && row.payload.ArticleRecord?
            && |errors| == |s.errors| + |Sift(idBySlug, s.staged).conflicts|
            && errors[..|s.errors|] == s.errors
            && errors[|s.errors| + i] ==
               JobError(row.line, Some(row.externalId), SlugConflict, [SlugTaken(row.payload.slug)])
  {
    var dropped := Sift(idBySlug, s.staged).conflicts;
    SiftPartitions(idBySlug, s.staged);
    assert dropped[i] in s.staged;
    var j :| 0 <= j < |s.staged| && s.staged[j] == dropped[i];
    assert Acceptable(Articles, s.staged[j].payload);
    ArticleRestarts.SlugErrorsAt(dropped, i);
  }
}
