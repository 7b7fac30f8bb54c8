/** What one import job does, said without batches: every entry of the input is handled in
    turn against the rows staged so far and the whole production tables. The job in
    `ImportJob` is proved to agree with it for every flush size. */
module ImportSpec {
  import opened Model
  import opened Text
  import opened Validation
  import opened Staging
  import opened SlugConflicts

  // One element of the record stream.
  datatype Entry = Entry(line: nat, raw: Json, parseError: Option<string>)

  // The external id an error row shows for a record that was not accepted.
  function IdFromRaw(raw: Json): Option<Id> {
    match Field(raw, "id")
    case Some(Str(s)) => if Trim(s) != "" then Some(s) else None
    case _ => None
  }

  datatype Admission = Admitted(item: Item) | Turned(error: JobError)

  function Admit(rules: Rules, entity: Entity, e: Entry): Admission {
    if Truthy(e.parseError) then
      Turned(JobError(e.line, None, ParseError, [Unparsable(e.parseError.value)]))
    else
      match Validate(rules, entity, e.raw)
      case Refused(issues) => Turned(JobError(e.line, IdFromRaw(e.raw), ValidationError, issues))
      case Accepted(record) => Admitted(Item(e.line, record))
  }

  // The check one record passes before it is buffered. The worker runs with `Admit` for its own
  // rules and entity; the rest of the specification only needs it to be sound.
  type Admitter = Entry -> Admission

  function AdmissionLine(a: Admission): nat {
    match a
    case Turned(error) => error.line
    case Admitted(item) => item.line
  }

  ghost predicate SoundAt(entity: Entity, admit: Admitter, e: Entry) {
    AdmissionLine(admit(e)) == e.line && (admit(e).Admitted? ==> Acceptable(entity, admit(e).item.data))
  }

  ghost predicate SoundAdmitter(entity: Entity, admit: Admitter) {
    forall e :: SoundAt(entity, admit, e)
  }

  ghost predicate AdmitsBy(admit: Admitter, rules: Rules, entity: Entity) {
    forall e :: admit(e) == Admit(rules, entity, e)
  }

  /** What is admitted belongs to the entity and is in the validator's normal form. */
  lemma AdmittedIsNormal(admit: Admitter, rules: Rules, entity: Entity, e: Entry)
    requires SoundRules(rules) && AdmitsBy(admit, rules, entity)
    ensures AdmissionLine(admit(e)) == e.line
    ensures admit(e).Admitted? ==>
              Acceptable(entity, admit(e).item.data) && Normal(rules, admit(e).item.data)
  {
    if Admit(rules, entity, e).Admitted? {
      AcceptedIsNormal(rules, entity, e.raw);
    }
  }

  lemma AdmitIsSound(rules: Rules, entity: Entity)
    requires SoundRules(rules)
    ensures SoundAdmitter(entity, e => Admit(rules, entity, e))
  {
    var admit: Admitter := e => Admit(rules, entity, e);
    forall e ensures SoundAt(entity, admit, e) {
      AdmittedIsNormal(admit, rules, entity, e);
    }
  }

  datatype RunState = RunState(totals: Totals, staged: seq<StagedRow>, errors: seq<JobError>)

  const START := RunState(ZERO_TOTALS, [], [])

  function Failing(s: RunState, error: JobError): RunState {
    s.(totals := s.totals.(read := s.totals.read + 1, failed := s.totals.failed + 1), errors := s.errors + [error])
  }

  function Handle(k: Lookups, s: RunState, a: Admission): RunState {
    match a
    case Turned(error) => Failing(s, error)
    case Admitted(item) =>
      match Decide(k, s.staged, item)
      case Reject(error) => Failing(s, error)
      case Accept(row) =>
        s.(totals := s.totals.(read := s.totals.read + 1, valid := s.totals.valid + 1), staged := s.staged + [row])
  }

  // One record after another, starting from s.
  function RunFrom(admit: Admitter, k: Lookups, s: RunState, entries: seq<Entry>): RunState {
    if entries == [] then s
    else Handle(k, RunFrom(admit, k, s, entries[..|entries| - 1]), admit(entries[|entries| - 1]))
  }

  function OneByOne(admit: Admitter, k: Lookups, entries: seq<Entry>): RunState {
    RunFrom(admit, k, START, entries)
  }

  lemma {:induction false} RunFromStep(admit: Admitter, k: Lookups, s: RunState, entries: seq<Entry>, i: nat,
                                       r: RunState)
    requires i < |entries| && r == RunFrom(admit, k, s, entries[..i])
    ensures RunFrom(admit, k, s, entries[..i + 1]) == Handle(k, r, admit(entries[i]))
  {
    assert entries[..i + 1][..i] == entries[..i];
  }

  function SlugError(row: StagedRow): JobError {
    JobError(row.line, Some(row.externalId), SlugConflict, [SlugTaken(SlugOf(row))])
  }

  function SlugErrors(rows: seq<StagedRow>): seq<JobError> {
    if rows == [] then [] else SlugErrors(rows[..|rows| - 1]) + [SlugError(rows[|rows| - 1])]
  }

  function Cleaned(entity: Entity, t: Tables, staged: seq<StagedRow>): Sifted
    requires UniqueSlugs(t.articles)
  {
    if entity.Articles? then Sift(IdBySlug(t.articles), staged) else Sifted(staged, [])
  }

  // The job after slug cleanup: `staged` is what the merge writes, `errors` the whole error log.
  function Finished(admit: Admitter, entity: Entity, t: Tables, entries: seq<Entry>): RunState
    requires UniqueEmails(t.users) && UniqueSlugs(t.articles)
  {
    var r := OneByOne(admit, WholeTable(t), entries);
    var c := Cleaned(entity, t, r.staged);
    RunState(r.totals.(failed := r.totals.failed + |c.conflicts|, written := |c.kept|),
             c.kept, r.errors + SlugErrors(c.conflicts))
  }

  ghost predicate LinesAscend(entries: seq<Entry>) {
    forall i, j :: 0 <= i < j < |entries| ==> entries[i].line < entries[j].line
  }

  ghost predicate AcceptableRows(entity: Entity, rows: seq<StagedRow>) {
    forall i :: 0 <= i < |rows| ==> Acceptable(entity, rows[i].payload)
  }

  // The external id a record resolves to, given what the natural-key lookup answered.
  function ResolvedId(k: Lookups, d: ImportRecord): Id {
    match d
    case UserRecord(id, email, _, _, _, _, _) => Resolve(Get(k.idByEmail, email), id, email)
    case ArticleRecord(id, slug, _, _, _, _, _, _, _, _) => Resolve(Get(k.idBySlug, slug), id, slug)
    case CommentRecord(id, _, _, _, _) => id
  }

  ghost predicate Resolved(k: Lookups, rows: seq<StagedRow>) {
    forall i :: 0 <= i < |rows| ==> rows[i].externalId == ResolvedId(k, rows[i].payload)
  }

  ghost predicate Referenced(k: Lookups, rows: seq<StagedRow>) {
    forall i :: 0 <= i < |rows| ==> References(k.userIds, k.articleIds, rows[i].payload)
  }

  // Everything the staged rows of a job satisfy before the slug cleanup.
  ghost predicate WellStaged(entity: Entity, k: Lookups, rows: seq<StagedRow>) {
    && AcceptableRows(entity, rows) && DistinctIds(rows) && DistinctEmails(rows) && Ascending(rows)
    && Resolved(k, rows) && Referenced(k, rows)
  }

  ghost predicate Below(rows: seq<StagedRow>, line: nat) {
    forall i :: 0 <= i < |rows| ==> rows[i].line < line
  }

  lemma AcceptKeepsWellStaged(entity: Entity, k: Lookups, rows: seq<StagedRow>, item: Item)
    requires WellStaged(entity, k, rows) && Below(rows, item.line) && Acceptable(entity, item.data)
    requires Decide(k, rows, item).Accept?
    ensures WellStaged(entity, k, rows + [Decide(k, rows, item).row])
    ensures Decide(k, rows, item).row.line == item.line
  {
    DecideKeepsLine(k, rows, item);
    AcceptedIdIsNew(k, rows, item);
    var row := Decide(k, rows, item).row;
    if item.data.UserRecord? {
      AcceptedEmailIsNew(k, rows, item);
      assert DistinctEmails(rows + [row]);
    }
    assert row.externalId == ResolvedId(k, row.payload);
    assert References(k.userIds, k.articleIds, row.payload);
  }

  lemma {:induction false} StagedIsWellStaged(admit: Admitter, entity: Entity, k: Lookups, entries: seq<Entry>,
                                              next: nat)
    requires SoundAdmitter(entity, admit) && LinesAscend(entries)
    requires (forall i :: 0 <= i < |entries| ==> entries[i].line < next)
    ensures WellStaged(entity, k, OneByOne(admit, k, entries).staged)
    ensures Below(OneByOne(admit, k, entries).staged, next)
  {
    if entries != [] {
      var init, e := entries[..|entries| - 1], entries[|entries| - 1];
      StagedIsWellStaged(admit, entity, k, init, e.line);
      var before := OneByOne(admit, k, init).staged;
      assert SoundAt(entity, admit, e);
      match admit(e)
      case Turned(_) =>
      case Admitted(item) =>
        if Decide(k, before, item).Accept? {
          AcceptKeepsWellStaged(entity, k, before, item);
        }
    }
  }

  // ---- What becomes of one record ----

  ghost predicate IdStaged(rows: seq<StagedRow>, x: Id) {
    exists i :: 0 <= i < |rows| && rows[i].externalId == x
  }

  ghost predicate EmailStaged(rows: seq<StagedRow>, d: ImportRecord) {
    d.UserRecord? && exists i :: 0 <= i < |rows| && HasEmail(rows[i], d.email)
  }

  // The record names an id of its own, and its email belongs to another one.
  predicate Mismatched(k: Lookups, d: ImportRecord) {
    d.UserRecord? && Truthy(d.id) && Truthy(Get(k.idByEmail, d.email)) && Get(k.idByEmail, d.email) != d.id
  }

  // The first check a refused record fails.
  ghost function FirstFailure(k: Lookups, staged: seq<StagedRow>, d: ImportRecord): ErrorCode {
    if !References(k.userIds, k.articleIds, d) then FkError
    else if EmailStaged(staged, d) then DuplicateNaturalKey
    else if Mismatched(k, d) then IdNaturalKeyMismatch
    else DuplicateId
  }

  /** A record is staged, under the id it resolves to, exactly when everything it names exists and
      neither its email nor its id was staged before nor its id contradicts its email; otherwise
      its one error row has the code of the first of these checks it fails. */
  lemma StagedExactly(k: Lookups, staged: seq<StagedRow>, item: Item)
    ensures var d, v := item.data, Decide(k, staged, item);
            var x := ResolvedId(k, d);
            && (v.Accept? <==>
                  && References(k.userIds, k.articleIds, d) && !EmailStaged(staged, d)
                  && !Mismatched(k, d) && !IdStaged(staged, x))
            && (v.Accept? ==> v.row == StagedRow(item.line, x, d))
            && (v.Reject? ==> v.error.line == item.line && v.error.code == FirstFailure(k, staged, d))
  {
    FirstByIdIffPresent(staged, ResolvedId(k, item.data));
    if item.data.UserRecord? {
      FirstByEmailIffPresent(staged, item.data.email);
    }
  }

  // The record would be staged under an empty id: a production row with that id has its natural key.
  predicate ClaimsEmptyId(k: Lookups, a: Admission) {
    a.Admitted? && References(k.userIds, k.articleIds, a.item.data) &&
    match a.item.data
    case UserRecord(_, email, _, _, _, _, _) => Get(k.idByEmail, email) == Some("")
    case ArticleRecord(_, slug, _, _, _, _, _, _, _, _) => Get(k.idBySlug, slug) == Some("")
    case CommentRecord(_, _, _, _, _) => false
  }

  lemma EmptyIdStep(rules: Rules, entity: Entity, k: Lookups, staged: seq<StagedRow>, item: Item)
    requires SoundRules(rules) && OfEntity(entity, item.data) && Normal(rules, item.data)
    requires WellStaged(entity, k, staged)
    ensures var v := Decide(k, staged, item);
            IdStaged(staged, "") || (v.Accept? && v.row.externalId == "") <==>
            IdStaged(staged, "") || ClaimsEmptyId(k, Admitted(item))
  {
    StagedExactly(k, staged, item);
    if item.data.UserRecord? {
      assert SoundEmail(rules, item.data.email);
      if EmailStaged(staged, item.data) {
        var i :| 0 <= i < |staged| && HasEmail(staged[i], item.data.email);
        assert staged[i].externalId == ResolvedId(k, staged[i].payload);
      }
    }
  }

  ghost predicate NormalAdmission(rules: Rules, entity: Entity, a: Admission) {
    a.Admitted? ==> OfEntity(entity, a.item.data) && Normal(rules, a.item.data)
  }

  lemma {:induction false} EmptyIdStaged(admit: Admitter, rules: Rules, entity: Entity, k: Lookups,
                                         entries: seq<Entry>, next: nat)
    requires SoundRules(rules) && SoundAdmitter(entity, admit) && LinesAscend(entries)
    requires forall i :: 0 <= i < |entries| ==> entries[i].line < next
    requires forall i :: 0 <= i < |entries| ==> NormalAdmission(rules, entity, admit(entries[i]))
    ensures IdStaged(OneByOne(admit, k, entries).staged, "") <==>
            exists i :: 0 <= i < |entries| && ClaimsEmptyId(k, admit(entries[i]))
  {
    if entries != [] {
      var n := |entries| - 1;
      var init, a := entries[..n], admit(entries[n]);
      EmptyIdStaged(admit, rules, entity, k, init, entries[n].line);
      StagedIsWellStaged(admit, entity, k, init, entries[n].line);
      assert NormalAdmission(rules, entity, a);
      var s := OneByOne(admit, k, init);
      assert IdStaged(s.staged, "") <==> exists i :: 0 <= i < n && ClaimsEmptyId(k, admit(entries[i])) by {
        assert forall i :: 0 <= i < n ==> init[i] == entries[i];
      }
      if a.Admitted? {
        EmptyIdStep(rules, entity, k, s.staged, a.item);
      }
      EmptyIdHandled(k, s, a);
    }
  }

  /** A job stages a row with an empty external id exactly if some admitted record whose references
      exist carries the email, or slug, of a production row whose external id is empty. */
  lemma EmptyIdStagedExactly(admit: Admitter, rules: Rules, entity: Entity, k: Lookups, entries: seq<Entry>)
    requires SoundRules(rules) && AdmitsBy(admit, rules, entity) && SoundAdmitter(entity, admit) && LinesAscend(entries)
    ensures IdStaged(OneByOne(admit, k, entries).staged, "") <==>
            exists i :: 0 <= i < |entries| && ClaimsEmptyId(k, admit(entries[i]))
  {
    forall i | 0 <= i < |entries| ensures NormalAdmission(rules, entity, admit(entries[i])) {
      AdmittedIsNormal(admit, rules, entity, entries[i]);
    }
    EmptyIdStaged(admit, rules, entity, k, entries, if entries == [] then 0 else entries[|entries| - 1].line + 1);
  }

  lemma EmptyIdHandled(k: Lookups, s: RunState, a: Admission)
    ensures IdStaged(Handle(k, s, a).staged, "") <==>
            IdStaged(s.staged, "") ||
            (a.Admitted? && Decide(k, s.staged, a.item).Accept? && Decide(k, s.staged, a.item).row.externalId == "")
  {
    var rows := Handle(k, s, a).staged;
    if rows != s.staged {
      assert rows[|s.staged|] == Decide(k, s.staged, a.item).row;
      assert forall i :: 0 <= i < |s.staged| ==> rows[i] == s.staged[i];
    }
  }

  // "First seen at line n" names a staged row on an earlier line n, and shows that row's id.
  ghost predicate FirstSeenAt(rows: seq<StagedRow>, e: JobError, n: nat) {
    exists i :: 0 <= i < |rows| && rows[i].line == n < e.line && e.externalId == Some(rows[i].externalId)
  }

  ghost predicate FirstSeenTrue(rows: seq<StagedRow>, e: JobError) {
    forall n: nat :: e.issues == [EmailFirstSeen(n)] || e.issues == [IdFirstSeen(n)] ==> FirstSeenAt(rows, e, n)
  }

  ghost predicate StagedAs(rows: seq<StagedRow>, p: Pointer) {
    exists i :: 0 <= i < |rows| && rows[i].line == p.line && rows[i].externalId == p.externalId
  }

  lemma StagedLater(rows: seq<StagedRow>, p: Pointer)
    requires rows != [] && StagedAs(rows[1..], p)
    ensures StagedAs(rows, p)
  {
    var i :| 0 <= i < |rows| - 1 && rows[1..][i].line == p.line && rows[1..][i].externalId == p.externalId;
    assert rows[i + 1].line == p.line && rows[i + 1].externalId == p.externalId;
  }

  lemma {:induction false} FirstByIdIsStaged(rows: seq<StagedRow>, x: Id)
    ensures FirstById(rows, x).Some? ==> StagedAs(rows, FirstById(rows, x).value)
  {
    if rows != [] && FirstById(rows, x).Some? {
      if rows[0].externalId == x {
        assert StagedAs(rows, Pointer(rows[0].line, x));
      } else {
        FirstByIdIsStaged(rows[1..], x);
        StagedLater(rows, FirstById(rows, x).value);
      }
    }
  }

  lemma {:induction false} FirstByEmailIsStaged(rows: seq<StagedRow>, email: string)
    ensures FirstByEmail(rows, email).Some? ==> StagedAs(rows, FirstByEmail(rows, email).value)
  {
    if rows != [] && FirstByEmail(rows, email).Some? {
      if HasEmail(rows[0], email) {
        assert StagedAs(rows, Pointer(rows[0].line, rows[0].externalId));
      } else {
        FirstByEmailIsStaged(rows[1..], email);
        StagedLater(rows, FirstByEmail(rows, email).value);
      }
    }
  }

  lemma RejectionNamesStaged(k: Lookups, staged: seq<StagedRow>, item: Item)
    requires Below(staged, item.line) && Decide(k, staged, item).Reject?
    ensures FirstSeenTrue(staged, Decide(k, staged, item).error)
  {
    var e := Decide(k, staged, item).error;
    FirstByIdIsStaged(staged, ResolvedId(k, item.data));
    if item.data.UserRecord? {
      FirstByEmailIsStaged(staged, item.data.email);
    }
    forall n: nat | e.issues == [EmailFirstSeen(n)] || e.issues == [IdFirstSeen(n)] ensures FirstSeenAt(staged, e, n) {
      assert e.issues[0] == EmailFirstSeen(n) || e.issues[0] == IdFirstSeen(n);
      var i :| 0 <= i < |staged| && staged[i].line == n && e.externalId == Some(staged[i].externalId);
    }
  }

  lemma FirstSeenStays(rows: seq<StagedRow>, row: StagedRow, e: JobError)
    requires FirstSeenTrue(rows, e)
    ensures FirstSeenTrue(rows + [row], e)
  {
    forall n: nat | e.issues == [EmailFirstSeen(n)] || e.issues == [IdFirstSeen(n)]
      ensures FirstSeenAt(rows + [row], e, n)
    {
      var i :| 0 <= i < |rows| && rows[i].line == n < e.line && e.externalId == Some(rows[i].externalId);
      assert (rows + [row])[i] == rows[i];
    }
  }

  // A record the reader or the validator turned away carries neither message.
  lemma TurnedNamesNothing(rules: Rules, entity: Entity, e: Entry, rows: seq<StagedRow>)
    requires Admit(rules, entity, e).Turned?
    ensures FirstSeenTrue(rows, Admit(rules, entity, e).error)
  {
    var error := Admit(rules, entity, e).error;
    if !Truthy(e.parseError) {
      RefusedHasIssues(rules, entity, e.raw);
    }
    NamesNothing(rows, error);
  }

  lemma NamesNothing(rows: seq<StagedRow>, error: JobError)
    requires error.issues != [] && !error.issues[0].EmailFirstSeen? && !error.issues[0].IdFirstSeen?
    ensures FirstSeenTrue(rows, error)
  {
    forall n: nat ensures error.issues != [EmailFirstSeen(n)] && error.issues != [IdFirstSeen(n)] {
      assert [EmailFirstSeen(n)][0].EmailFirstSeen? && [IdFirstSeen(n)][0].IdFirstSeen?;
    }
  }

  /** Every duplicate a job reports points at a row that was staged, on an earlier line. */
  lemma {:induction false} FirstSeenIsStaged(admit: Admitter, rules: Rules, entity: Entity, k: Lookups,
                                             entries: seq<Entry>, next: nat)
    requires SoundAdmitter(entity, admit) && AdmitsBy(admit, rules, entity)
    requires LinesAscend(entries) && (forall i :: 0 <= i < |entries| ==> entries[i].line < next)
    ensures var s := OneByOne(admit, k, entries);
            forall i :: 0 <= i < |s.errors| ==> FirstSeenTrue(s.staged, s.errors[i])
  {
    if entries != [] {
      var init, e := entries[..|entries| - 1], entries[|entries| - 1];
      FirstSeenIsStaged(admit, rules, entity, k, init, e.line);
      StagedIsWellStaged(admit, entity, k, init, e.line);
      var s := OneByOne(admit, k, init);
      assert SoundAt(entity, admit, e);
      if Admit(rules, entity, e).Turned? {
        TurnedNamesNothing(rules, entity, e, s.staged);
      }
      FirstSeenStep(k, s, admit(e));
    }
  }

  lemma FirstSeenStep(k: Lookups, s: RunState, a: Admission)
    requires forall i :: 0 <= i < |s.errors| ==> FirstSeenTrue(s.staged, s.errors[i])
    requires Below(s.staged, AdmissionLine(a))
    requires a.Turned? ==> FirstSeenTrue(s.staged, a.error)
    ensures var s' := Handle(k, s, a); forall i :: 0 <= i < |s'.errors| ==> FirstSeenTrue(s'.staged, s'.errors[i])
  {
    if a.Admitted? {
      if Decide(k, s.staged, a.item).Reject? {
        RejectionNamesStaged(k, s.staged, a.item);
      } else {
        forall i | 0 <= i < |s.errors|
          ensures FirstSeenTrue(s.staged + [Decide(k, s.staged, a.item).row], s.errors[i])
        {
          FirstSeenStays(s.staged, Decide(k, s.staged, a.item).row, s.errors[i]);
        }
      }
    }
  }

  // ---- Conservation ----

  /** While the input is read, every record is valid or failed, every valid one is staged, and
      every failed one has an error row. */
  lemma {:induction false} ReadLoopConserves(admit: Admitter, k: Lookups, entries: seq<Entry>)
    ensures var s := OneByOne(admit, k, entries);
            && s.totals.read == |entries| && s.totals.read == s.totals.valid + s.totals.failed
            && s.totals.valid == |s.staged| && s.totals.failed == |s.errors| && s.totals.written == 0
  {
    if entries != [] {
      ReadLoopConserves(admit, k, entries[..|entries| - 1]);
    }
  }

  lemma {:induction false} SlugErrorsLength(rows: seq<StagedRow>)
    ensures |SlugErrors(rows)| == |rows|
  {
    if rows != [] {
      SlugErrorsLength(rows[..|rows| - 1]);
    }
  }

  /** At completion nothing is lost: every record read was written or failed, and the failures
      are the error rows. Only articles staged and then dropped stay counted as valid. */
  lemma CompletionConserves(admit: Admitter, entity: Entity, t: Tables, entries: seq<Entry>)
    requires UniqueEmails(t.users) && UniqueSlugs(t.articles)
    ensures var s := Finished(admit, entity, t, entries);
            && s.totals.read == |entries| == s.totals.written + s.totals.failed
            && s.totals.failed == |s.errors| && s.totals.written == |s.staged|
            && s.totals.valid == s.totals.written +
                 |Cleaned(entity, t, OneByOne(admit, WholeTable(t), entries).staged).conflicts|
            && (!entity.Articles? ==> s.totals.valid == s.totals.written)
  {
    var r := OneByOne(admit, WholeTable(t), entries);
    ReadLoopConserves(admit, WholeTable(t), entries);
    SiftPartitions(IdBySlug(t.articles), r.staged);
    var c := Cleaned(entity, t, r.staged);
    SlugErrorsLength(c.conflicts);
    assert |multiset(c.kept)| + |multiset(c.conflicts)| == |multiset(r.staged)|;
  }

  // How many entries, staged rows and error rows carry line n.
  function EntriesAt(entries: seq<Entry>, n: nat): nat {
    if entries == [] then 0
    else EntriesAt(entries[..|entries| - 1], n) + if entries[|entries| - 1].line == n then 1 else 0
  }

  function RowsAt(rows: seq<StagedRow>, n: nat): nat {
    if rows == [] then 0 else RowsAt(rows[..|rows| - 1], n) + if rows[|rows| - 1].line == n then 1 else 0
  }

  function ErrorsAt(errors: seq<JobError>, n: nat): nat {
    if errors == [] then 0 else ErrorsAt(errors[..|errors| - 1], n) + if errors[|errors| - 1].line == n then 1 else 0
  }

  lemma {:induction false} RowsAtSnoc(rows: seq<StagedRow>, row: StagedRow, n: nat)
    ensures RowsAt(rows + [row], n) == RowsAt(rows, n) + if row.line == n then 1 else 0
  {
  }

  lemma {:induction false} ErrorsAtSnoc(errors: seq<JobError>, e: JobError, n: nat)
    ensures ErrorsAt(errors + [e], n) == ErrorsAt(errors, n) + if e.line == n then 1 else 0
  {
  }

  lemma {:induction false} HandlePlacesLine(k: Lookups, s: RunState, a: Admission, n: nat)
    ensures var s' := Handle(k, s, a);
            RowsAt(s'.staged, n) + ErrorsAt(s'.errors, n) ==
            RowsAt(s.staged, n) + ErrorsAt(s.errors, n) + if AdmissionLine(a) == n then 1 else 0
  {
    match a
    case Turned(error) => ErrorsAtSnoc(s.errors, error, n);
    case Admitted(item) =>
      DecideKeepsLine(k, s.staged, item);
      match Decide(k, s.staged, item)
      case Reject(error) => ErrorsAtSnoc(s.errors, error, n);
      case Accept(row) => RowsAtSnoc(s.staged, row, n);
  }

  lemma {:induction false} ReadLoopPartitions(admit: Admitter, entity: Entity, k: Lookups, entries: seq<Entry>, n: nat)
    requires SoundAdmitter(entity, admit)
    ensures var s := OneByOne(admit, k, entries);
            RowsAt(s.staged, n) + ErrorsAt(s.errors, n) == EntriesAt(entries, n)
  {
    if entries != [] {
      var init, e := entries[..|entries| - 1], entries[|entries| - 1];
      ReadLoopPartitions(admit, entity, k, init, n);
      assert SoundAt(entity, admit, e);
      HandlePlacesLine(k, OneByOne(admit, k, init), admit(e), n);
    }
  }

  lemma {:induction false} SiftCounts(k: map<string, Id>, rows: seq<StagedRow>)
    ensures |Sift(k, rows).kept| + |Sift(k, rows).conflicts| == |rows|
  {
    SiftPartitions(k, rows);
    var s := Sift(k, rows);
    assert |multiset(s.kept) + multiset(s.conflicts)| == |multiset(rows)|;
  }

  lemma {:induction false} SiftRowKeepsLines(idBySlug: map<string, Id>, s: Sifted, row: StagedRow, n: nat)
    ensures var next := SiftRow(idBySlug, s, row);
            RowsAt(next.kept, n) + RowsAt(next.conflicts, n) ==
            RowsAt(s.kept, n) + RowsAt(s.conflicts, n) + if row.line == n then 1 else 0
  {
    RowsAtSnoc(s.kept, row, n);
    RowsAtSnoc(s.conflicts, row, n);
  }

  lemma {:induction false} SiftKeepsLines(idBySlug: map<string, Id>, rows: seq<StagedRow>, n: nat)
    ensures var s := Sift(idBySlug, rows); RowsAt(s.kept, n) + RowsAt(s.conflicts, n) == RowsAt(rows, n)
  {
    if rows != [] {
      var init, row := rows[..|rows| - 1], rows[|rows| - 1];
      SiftKeepsLines(idBySlug, init, n);
      SiftRowKeepsLines(idBySlug, Sift(idBySlug, init), row, n);
    }
  }

  lemma {:induction false} SlugErrorsLines(errors: seq<JobError>, rows: seq<StagedRow>, n: nat)
    ensures ErrorsAt(errors + SlugErrors(rows), n) == ErrorsAt(errors, n) + RowsAt(rows, n)
  {
    if rows == [] {
      assert errors + SlugErrors(rows) == errors;
    } else {
      var init, row := rows[..|rows| - 1], rows[|rows| - 1];
      SlugErrorsLines(errors, init, n);
      ErrorsAtSnoc(errors + SlugErrors(init), SlugError(row), n);
      assert errors + SlugErrors(rows) == errors + SlugErrors(init) + [SlugError(row)];
    }
  }

  lemma {:induction false} LineReadOnce(entries: seq<Entry>, n: nat)
    requires LinesAscend(entries)
    ensures EntriesAt(entries, n) == if exists i :: 0 <= i < |entries| && entries[i].line == n then 1 else 0
  {
    if entries != [] {
      var init := entries[..|entries| - 1];
      LineReadOnce(init, n);
      if i :| 0 <= i < |entries| && entries[i].line == n && i < |entries| - 1 {
        assert init[i].line == n;
      }
      if i :| 0 <= i < |init| && init[i].line == n {
        assert entries[i].line == n;
      }
    }
  }

  /** At completion every line of the input is in exactly one error row or exactly one merged
      row, and no other line is in either. */
  lemma {:induction false} CompletionPartitions(admit: Admitter, entity: Entity, t: Tables, entries: seq<Entry>, n: nat)
    requires SoundAdmitter(entity, admit) && UniqueEmails(t.users) && UniqueSlugs(t.articles) && LinesAscend(entries)
    ensures var s := Finished(admit, entity, t, entries);
            RowsAt(s.staged, n) + ErrorsAt(s.errors, n) ==
            if exists i :: 0 <= i < |entries| && entries[i].line == n then 1 else 0
  {
    var r := OneByOne(admit, WholeTable(t), entries);
    ReadLoopPartitions(admit, entity, WholeTable(t), entries, n);
    SiftKeepsLines(IdBySlug(t.articles), r.staged, n);
    SlugErrorsLines(r.errors, Cleaned(entity, t, r.staged).conflicts, n);
    LineReadOnce(entries, n);
  }
}
