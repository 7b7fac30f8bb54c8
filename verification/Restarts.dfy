/** Running a finished job once more, at a later time. Attempts that stop before the merge are
    harmless (see ImportWorker.RunWithRestarts). An attempt that stops after it judges every record
    as before, for users and articles exactly under the conditions given here; merging the same rows
    again changes no table exactly if every row carries the timestamp that an update writes. */
module Restarts {
  import opened Model
  import opened Staging
  import opened Merge
  import opened ImportSpec
  import opened MergeSafety

  // ---- The same rows merged twice, each time with the clock of that moment ----

  // The record carries the timestamp that an update writes, so the merge does not take its own.
  predicate Dated(d: ImportRecord) {
    match d
    case UserRecord(_, _, _, _, _, _, updatedAt) => updatedAt.Some?
    case ArticleRecord(_, _, _, _, _, _, _, _, _, updatedAt) => updatedAt.Some?
    case CommentRecord(_, _, _, _, createdAt) => createdAt.Some?
  }

  ghost predicate AllDated(rows: seq<StagedRow>) {
    forall i :: 0 <= i < |rows| ==> Dated(rows[i].payload)
  }

  // The second merge writes the row of id x as it is, unless it redates it.
  ghost predicate KeptByAgain(rows: seq<StagedRow>, x: Id, now: Time, later: Time) {
    x in Ids(rows) && RowFor(rows, x).Some? ==> now == later || Dated(RowFor(rows, x).value.payload)
  }

  lemma {:induction false} KeptIffDated(rows: seq<StagedRow>, now: Time, later: Time)
    requires DistinctIds(rows)
    ensures (forall x :: KeptByAgain(rows, x, now, later)) <==> now == later || AllDated(rows)
  {
    forall x { RowForMember(rows, x); }
    if now != later && forall x :: KeptByAgain(rows, x, now, later) {
      forall i | 0 <= i < |rows| ensures Dated(rows[i].payload) {
        OneRowPerId(rows, i);
        assert KeptByAgain(rows, rows[i].externalId, now, later);
      }
    }
  }

  lemma {:induction false} UserAgainKept(m: map<Id, UserRow>, rows: seq<StagedRow>, now: Time, later: Time, x: Id)
    requires AllOf(Users, rows)
    ensures var once := OverlayUsers(m, rows, now); var twice := OverlayUsers(once, rows, later);
            Get(twice, x) == Get(once, x) <==> KeptByAgain(rows, x, now, later)
  {
    RowForMember(rows, x);
  }

  lemma {:induction false} ArticleAgainKept(m: map<Id, ArticleRow>, rows: seq<StagedRow>, now: Time, later: Time,
                                            x: Id)
    requires AllOf(Articles, rows)
    ensures var once := OverlayArticles(m, rows, now); var twice := OverlayArticles(once, rows, later);
            Get(twice, x) == Get(once, x) <==> KeptByAgain(rows, x, now, later)
  {
    RowForMember(rows, x);
  }

  lemma {:induction false} CommentAgainKept(m: map<Id, CommentRow>, rows: seq<StagedRow>, now: Time, later: Time,
                                            x: Id)
    requires AllOf(Comments, rows)
    ensures var once := OverlayComments(m, rows, now); var twice := OverlayComments(once, rows, later);
            Get(twice, x) == Get(once, x) <==> KeptByAgain(rows, x, now, later)
  {
    RowForMember(rows, x);
  }

  lemma SameMap<K, V>(a: map<K, V>, b: map<K, V>)
    ensures a == b <==> forall k :: Get(a, k) == Get(b, k)
  {
    if forall k :: Get(a, k) == Get(b, k) {
      forall k ensures k in a <==> k in b {
        assert Get(a, k) == Get(b, k);
      }
      forall k | k in a ensures a[k] == b[k] {
        assert Get(a, k) == Get(b, k);
      }
    }
  }

  /** Merging the same rows again leaves the tables as the first merge left them exactly if no time
      has passed or every row carries its timestamp: `created_at` of a comment, `updated_at` of a
      user or an article. */
  lemma {:induction false} OverlayTwiceExactly(entity: Entity, t: Tables, rows: seq<StagedRow>, now: Time, later: Time)
    requires AllOf(entity, rows) && DistinctIds(rows)
    ensures var once := Overlay(entity, t, rows, now);
            Overlay(entity, once, rows, later) == once <==> now == later || AllDated(rows)
  {
    KeptIffDated(rows, now, later);
    match entity
    case Users =>
      var once := OverlayUsers(t.users, rows, now);
      SameMap(OverlayUsers(once, rows, later), once);
      forall x { UserAgainKept(t.users, rows, now, later, x); }
    case Articles =>
      var once := OverlayArticles(t.articles, rows, now);
      SameMap(OverlayArticles(once, rows, later), once);
      forall x { ArticleAgainKept(t.articles, rows, now, later, x); }
    case Comments =>
      var once := OverlayComments(t.comments, rows, now);
      SameMap(OverlayComments(once, rows, later), once);
      forall x { CommentAgainKept(t.comments, rows, now, later, x); }
  }

  /** A comments job that is run again after its merge stages the same rows and reports the same
      errors; it leaves the tables as the first run left them exactly if no time has passed or every
      staged comment carries `created_at`. */
  lemma CommentsRunTwice(admit: Admitter, t: Tables, entries: seq<Entry>, now: Time, later: Time)
    requires SoundAdmitter(Comments, admit) && Constrained(t) && LinesAscend(entries)
    ensures AllOf(Comments, Finished(admit, Comments, t, entries).staged)
    ensures var rows := Finished(admit, Comments, t, entries).staged;
            var once := Overlay(Comments, t, rows, now);
            && Constrained(once)
            && Finished(admit, Comments, once, entries) == Finished(admit, Comments, t, entries)
            && (Overlay(Comments, once, rows, later) == once <==> now == later || AllDated(rows))
  {
    FinishedMerges(admit, Comments, t, entries, now);
    OverlayTwiceExactly(Comments, t, Finished(admit, Comments, t, entries).staged, now, later);
  }

  /** The condition can fail: one comment without `created_at` is redated by every later merge. */
  lemma UndatedCommentRedated(t: Tables, line: nat, id: Id, articleId: Id, userId: Id, now: Time, later: Time)
    ensures var rows := [StagedRow(line, id, CommentRecord(id, articleId, userId, "b", None))];
            && AllOf(Comments, rows)
            && var once := Overlay(Comments, t, rows, now);
            && id in once.comments && once.comments[id].createdAt == now
            && var twice := Overlay(Comments, once, rows, later);
            && id in twice.comments && twice.comments[id].createdAt == later
  {
    var rows := [StagedRow(line, id, CommentRecord(id, articleId, userId, "b", None))];
    OneRowPerId(rows, 0);
    RowForMember(rows, id);
  }

  // ---- Two runs over the same input, record by record ----

  // Record i gets the same verdict from both lookups, after the rows the first run staged before it.
  ghost predicate SameVerdict(admit: Admitter, k: Lookups, other: Lookups, entries: seq<Entry>, i: nat)
    requires i < |entries|
  {
    var a, staged := admit(entries[i]), OneByOne(admit, k, entries[..i]).staged;
    a.Admitted? ==> Decide(other, staged, a.item) == Decide(k, staged, a.item)
  }

  lemma SnocInjective<T>(a: seq<T>, x: T, b: seq<T>, y: T)
    requires a + [x] == b + [y]
    ensures a == b && x == y
  {
    assert |a + [x]| == |b + [y]|;
    assert a == (a + [x])[..|a|] && b == (b + [y])[..|b|];
    assert (a + [x])[|a|] == (b + [y])[|b|];
  }

  lemma LastStagedLine(k: Lookups, s: RunState, item: Item)
    requires Below(s.staged, item.line)
    ensures var rows := Handle(k, s, Admitted(item)).staged;
            Decide(k, s.staged, item).Accept? <==> rows != [] && rows[|rows| - 1].line == item.line
  {
    DecideKeepsLine(k, s.staged, item);
  }

  // A step can be undone: the last line tells whether its record was staged or reported.
  lemma HandleUndone(k: Lookups, other: Lookups, s: RunState, u: RunState, a: Admission)
    requires Below(s.staged, AdmissionLine(a)) && Below(u.staged, AdmissionLine(a))
    requires Handle(k, s, a) == Handle(other, u, a)
    ensures s == u && (a.Admitted? ==> Decide(other, s.staged, a.item) == Decide(k, s.staged, a.item))
  {
    match a {
      case Turned(error) =>
        SnocInjective(s.errors, error, u.errors, error);
      case Admitted(item) =>
        DecideKeepsLine(k, s.staged, item);
        DecideKeepsLine(other, u.staged, item);
        LastStagedLine(k, s, item);
        LastStagedLine(other, u, item);
        match Decide(k, s.staged, item) {
          case Accept(r) =>
            if Decide(other, u.staged, item).Accept? {
              SnocInjective(s.staged, r, u.staged, Decide(other, u.staged, item).row);
            }
          case Reject(e) =>
            if Decide(other, u.staged, item).Reject? {
              SnocInjective(s.errors, e, u.errors, Decide(other, u.staged, item).error);
            }
        }
    }
  }

  /** Two runs over one input end alike exactly if every record got the same verdict. */
  lemma {:induction false} RunsAgreeExactly(admit: Admitter, entity: Entity, k: Lookups, other: Lookups,
                                            entries: seq<Entry>)
    requires SoundAdmitter(entity, admit) && LinesAscend(entries)
    ensures OneByOne(admit, other, entries) == OneByOne(admit, k, entries) <==>
            forall i :: 0 <= i < |entries| ==> SameVerdict(admit, k, other, entries, i)
  {
    if entries != [] {
      var n := |entries| - 1;
      var init, e := entries[..n], entries[n];
      RunsAgreeExactly(admit, entity, k, other, init);
      forall i | 0 <= i < n
        ensures SameVerdict(admit, k, other, init, i) <==> SameVerdict(admit, k, other, entries, i)
      {
        assert init[..i] == entries[..i];
      }
      StagedIsWellStaged(admit, entity, k, init, e.line);
      StagedIsWellStaged(admit, entity, other, init, e.line);
      assert SoundAt(entity, admit, e);
      LastStepAgrees(k, other, OneByOne(admit, k, init), OneByOne(admit, other, init), admit(e));
      assert SameVerdict(admit, k, other, entries, n) <==>
             (admit(e).Admitted? ==> Decide(other, OneByOne(admit, k, init).staged, admit(e).item) ==
                                     Decide(k, OneByOne(admit, k, init).staged, admit(e).item));
    }
  }

  lemma LastStepAgrees(k: Lookups, other: Lookups, s: RunState, u: RunState, a: Admission)
    requires Below(s.staged, AdmissionLine(a)) && Below(u.staged, AdmissionLine(a))
    ensures Handle(k, s, a) == Handle(other, u, a) <==>
            s == u && (a.Admitted? ==> Decide(other, s.staged, a.item) == Decide(k, s.staged, a.item))
  {
    if Handle(k, s, a) == Handle(other, u, a) {
      HandleUndone(k, other, s, u, a);
    }
  }

  // The rows staged before record i are the first of those staged in the end.
  lemma {:induction false} StagedBefore(admit: Admitter, k: Lookups, entries: seq<Entry>, i: nat)
    requires i <= |entries|
    ensures OneByOne(admit, k, entries[..i]).staged <= OneByOne(admit, k, entries).staged
    ensures OneByOne(admit, k, entries[..i]).errors <= OneByOne(admit, k, entries).errors
    decreases |entries| - i
  {
    if i < |entries| {
      StagedBefore(admit, k, entries, i + 1);
      RunFromStep(admit, k, START, entries, i, OneByOne(admit, k, entries[..i]));
    } else {
      assert entries[..i] == entries;
    }
  }

  lemma AcceptedIsStaged(admit: Admitter, k: Lookups, entries: seq<Entry>, i: nat)
    requires i < |entries| && admit(entries[i]).Admitted?
    requires Decide(k, OneByOne(admit, k, entries[..i]).staged, admit(entries[i]).item).Accept?
    ensures Decide(k, OneByOne(admit, k, entries[..i]).staged, admit(entries[i]).item).row
            in OneByOne(admit, k, entries).staged
  {
    var before := OneByOne(admit, k, entries[..i]);
    RunFromStep(admit, k, START, entries, i, before);
    StagedBefore(admit, k, entries, i + 1);
    var row := Decide(k, before.staged, admit(entries[i]).item).row;
    assert (before.staged + [row])[|before.staged|] == row;
  }

  lemma RejectedIsReported(admit: Admitter, k: Lookups, entries: seq<Entry>, i: nat)
    requires i < |entries| && admit(entries[i]).Admitted?
    requires Decide(k, OneByOne(admit, k, entries[..i]).staged, admit(entries[i]).item).Reject?
    ensures Decide(k, OneByOne(admit, k, entries[..i]).staged, admit(entries[i]).item).error
            in OneByOne(admit, k, entries).errors
  {
    var before := OneByOne(admit, k, entries[..i]);
    RunFromStep(admit, k, START, entries, i, before);
    StagedBefore(admit, k, entries, i + 1);
    var error := Decide(k, before.staged, admit(entries[i]).item).error;
    assert (before.errors + [error])[|before.errors|] == error;
  }

  // ---- Users ----

  // Who holds an email once the staged rows are merged.
  function EmailOwnerAfter(k: Lookups, rows: seq<StagedRow>, email: string): Option<Id> {
    var p, x := FirstByEmail(rows, email), Get(k.idByEmail, email);
    if p.Some? then Some(p.value.externalId)
    else if x.Some? && FirstById(rows, x.value).None? then x
    else None
  }

  lemma {:induction false} OnlyRowWithEmail(rows: seq<StagedRow>, email: string, i: nat)
    requires DistinctEmails(rows) && i < |rows| && HasEmail(rows[i], email)
    ensures FirstByEmail(rows, email) == Some(Pointer(rows[i].line, rows[i].externalId))
  {
    if i > 0 {
      assert !HasEmail(rows[0], email);
      assert rows[1..][i - 1] == rows[i];
      OnlyRowWithEmail(rows[1..], email, i - 1);
    }
  }

  lemma EmailOwner(t: Tables, rows: seq<StagedRow>, now: Time, email: string)
    requires UniqueEmails(t.users) && UniqueSlugs(t.articles) && WellStaged(Users, WholeTable(t), rows)
    requires AllOf(Users, rows) && UniqueEmails(OverlayUsers(t.users, rows, now))
    ensures Get(IdByEmail(OverlayUsers(t.users, rows, now)), email) == EmailOwnerAfter(WholeTable(t), rows, email)
  {
    var once, k := OverlayUsers(t.users, rows, now), WholeTable(t);
    FirstByEmailIffPresent(rows, email);
    if i :| 0 <= i < |rows| && HasEmail(rows[i], email) {
      OnlyRowWithEmail(rows, email, i);
      OneRowPerId(rows, i);
      RowForMember(rows, rows[i].externalId);
      IdByEmailFinds(once, rows[i].externalId);
    } else {
      forall x ensures x in once && once[x].email == email <==>
                       x in t.users && t.users[x].email == email && FirstById(rows, x).None?
      {
        RowForMember(rows, x);
        FirstByIdIffPresent(rows, x);
      }
      if x :| x in once && once[x].email == email {
        IdByEmailFinds(once, x);
        IdByEmailFinds(t.users, x);
      }
    }
  }

  // A user record that a second run judges differently: its email was freed, as its holder was
  // renamed by the job and the record alone does not resolve to that holder; or it was refused
  // because of its id and its email, new to the table, is staged later.
  ghost predicate UserUnsettled(k: Lookups, staged: seq<StagedRow>, rows: seq<StagedRow>, d: ImportRecord)
    requires d.UserRecord?
  {
    var alone := GetOr(d.id, d.email);
    match Get(k.idByEmail, d.email)
    case Some(x) => IdStaged(rows, x) && !EmailStaged(rows, d) && alone != x
    case None => IdStaged(staged, alone) && !EmailStaged(staged, d) && EmailStaged(rows, d)
  }

  // Both verdicts as three questions: is the email staged, who holds it, is the resolved id staged.
  lemma {:induction false} UserVerdictParts(k: Lookups, staged: seq<StagedRow>, item: Item)
    requires item.data.UserRecord?
    ensures var d := item.data;
            Decide(k, staged, item) ==
            UserVerdict(Get(k.idByEmail, d.email), FirstByEmail(staged, d.email),
                        FirstById(staged, ResolvedId(k, d)), item)
    ensures FirstByEmail(staged, item.data.email).Some? <==> EmailStaged(staged, item.data)
    ensures FirstById(staged, ResolvedId(k, item.data)).Some? <==> IdStaged(staged, ResolvedId(k, item.data))
  {
    FirstByEmailIffPresent(staged, item.data.email);
    FirstByIdIffPresent(staged, ResolvedId(k, item.data));
  }

  lemma StagedInBoth(staged: seq<StagedRow>, rows: seq<StagedRow>, x: Id, d: ImportRecord)
    requires staged <= rows
    ensures IdStaged(staged, x) ==> IdStaged(rows, x)
    ensures EmailStaged(staged, d) ==> EmailStaged(rows, d)
  {
    assert forall i :: 0 <= i < |staged| ==> staged[i] == rows[i];
  }

  // The row that claims the email is among the earlier ones, or its id is new to them.
  lemma {:induction false} ClaimIsEarlierOrNew(staged: seq<StagedRow>, rows: seq<StagedRow>, i: nat, email: string)
    requires staged <= rows && DistinctIds(rows) && i < |rows| && HasEmail(rows[i], email)
    ensures (exists j :: 0 <= j < |staged| && HasEmail(staged[j], email)) || !IdStaged(staged, rows[i].externalId)
  {
    if i < |staged| {
      assert staged[i] == rows[i];
    } else {
      assert forall j :: 0 <= j < |staged| ==> staged[j] == rows[j] && rows[j].externalId != rows[i].externalId;
    }
  }

  lemma NewEmailAgain(k: Lookups, other: Lookups, staged: seq<StagedRow>, rows: seq<StagedRow>, item: Item)
    requires item.data.UserRecord? && staged <= rows && WellStaged(Users, k, rows)
    requires Get(k.idByEmail, item.data.email).None?
    requires Get(other.idByEmail, item.data.email) == EmailOwnerAfter(k, rows, item.data.email)
    requires Decide(k, staged, item).Accept? ==> Decide(k, staged, item).row in rows
    ensures Decide(other, staged, item) == Decide(k, staged, item) <==> !UserUnsettled(k, staged, rows, item.data)
  {
    var d := item.data;
    UserVerdictParts(k, staged, item);
    UserVerdictParts(other, staged, item);
    FirstByEmailIffPresent(rows, d.email);
    if i :| 0 <= i < |rows| && HasEmail(rows[i], d.email) {
      OnlyRowWithEmail(rows, d.email, i);
      ClaimIsEarlierOrNew(staged, rows, i, d.email);
    }
    if Decide(k, staged, item).Accept? {
      var i :| 0 <= i < |rows| && rows[i] == Decide(k, staged, item).row;
      OnlyRowWithEmail(rows, d.email, i);
    }
  }

  lemma {:induction false} FirstByIdNames(rows: seq<StagedRow>, x: Id)
    ensures FirstById(rows, x).Some? ==> FirstById(rows, x).value.externalId == x
  {
    if rows != [] && rows[0].externalId != x {
      FirstByIdNames(rows[1..], x);
    }
  }

  lemma HeldEmailAgain(k: Lookups, other: Lookups, staged: seq<StagedRow>, rows: seq<StagedRow>, item: Item, x: Id)
    requires item.data.UserRecord? && staged <= rows && WellStaged(Users, k, rows)
    requires Get(k.idByEmail, item.data.email) == Some(x)
    requires Get(other.idByEmail, item.data.email) == EmailOwnerAfter(k, rows, item.data.email)
    requires Decide(k, staged, item).Accept? ==> Decide(k, staged, item).row in rows
    ensures Decide(other, staged, item) == Decide(k, staged, item) <==> !UserUnsettled(k, staged, rows, item.data)
  {
    var d := item.data;
    UserVerdictParts(k, staged, item);
    UserVerdictParts(other, staged, item);
    StagedInBoth(staged, rows, x, d);
    FirstByEmailIffPresent(rows, d.email);
    FirstByIdIffPresent(rows, x);
    if i :| 0 <= i < |rows| && HasEmail(rows[i], d.email) {
      OnlyRowWithEmail(rows, d.email, i);
      assert rows[i].externalId == ResolvedId(k, rows[i].payload);
    } else if IdStaged(rows, x) {
      var alone := GetOr(d.id, d.email);
      FirstByIdNames(staged, x);
      FirstByIdNames(staged, alone);
      assert Decide(k, staged, item).Reject?;
    }
  }

  // Of a user record settled means: a second run, whose lookups see the merged rows, judges it alike.
  lemma UserAgain(k: Lookups, other: Lookups, staged: seq<StagedRow>, rows: seq<StagedRow>, item: Item)
    requires item.data.UserRecord? && staged <= rows && WellStaged(Users, k, rows)
    requires Get(other.idByEmail, item.data.email) == EmailOwnerAfter(k, rows, item.data.email)
    requires Decide(k, staged, item).Accept? ==> Decide(k, staged, item).row in rows
    ensures Decide(other, staged, item) == Decide(k, staged, item) <==> !UserUnsettled(k, staged, rows, item.data)
  {
    match Get(k.idByEmail, item.data.email)
    case Some(x) => HeldEmailAgain(k, other, staged, rows, item, x);
    case None => NewEmailAgain(k, other, staged, rows, item);
  }

  ghost predicate UserSettledAt(admit: Admitter, k: Lookups, entries: seq<Entry>, rows: seq<StagedRow>, i: nat)
    requires i < |entries|
  {
    var a := admit(entries[i]);
    a.Admitted? && a.item.data.UserRecord? ==>
      !UserUnsettled(k, OneByOne(admit, k, entries[..i]).staged, rows, a.item.data)
  }

  lemma UserSameVerdict(admit: Admitter, k: Lookups, other: Lookups, entries: seq<Entry>, i: nat)
    requires SoundAdmitter(Users, admit) && LinesAscend(entries) && i < |entries|
    requires WellStaged(Users, k, OneByOne(admit, k, entries).staged)
    requires forall email ::
               Get(other.idByEmail, email) == EmailOwnerAfter(k, OneByOne(admit, k, entries).staged, email)
    ensures SameVerdict(admit, k, other, entries, i) <==>
            UserSettledAt(admit, k, entries, OneByOne(admit, k, entries).staged, i)
  {
    assert SoundAt(Users, admit, entries[i]);
    if admit(entries[i]).Admitted? {
      var item, staged := admit(entries[i]).item, OneByOne(admit, k, entries[..i]).staged;
      StagedBefore(admit, k, entries, i);
      if Decide(k, staged, item).Accept? {
        AcceptedIsStaged(admit, k, entries, i);
      }
      UserAgain(k, other, staged, OneByOne(admit, k, entries).staged, item);
    }
  }

  // Without a cleanup the final state of a job tells what its read loop left.
  lemma FinishedTellsRun(admit: Admitter, entity: Entity, t: Tables, u: Tables, entries: seq<Entry>)
    requires !entity.Articles? && UniqueEmails(t.users) && UniqueSlugs(t.articles)
    requires UniqueEmails(u.users) && UniqueSlugs(u.articles)
    ensures Finished(admit, entity, u, entries) == Finished(admit, entity, t, entries) <==>
            OneByOne(admit, WholeTable(u), entries) == OneByOne(admit, WholeTable(t), entries)
    ensures Finished(admit, entity, t, entries).staged == OneByOne(admit, WholeTable(t), entries).staged
  {
    var r, q := OneByOne(admit, WholeTable(t), entries), OneByOne(admit, WholeTable(u), entries);
    ReadLoopConserves(admit, WholeTable(t), entries);
    ReadLoopConserves(admit, WholeTable(u), entries);
    assert r.errors + SlugErrors([]) == r.errors && q.errors + SlugErrors([]) == q.errors;
  }

  // No admitted record is unsettled by the rows of the job.
  ghost predicate AllSettled(admit: Admitter, k: Lookups, entries: seq<Entry>, rows: seq<StagedRow>) {
    forall i :: 0 <= i < |entries| ==> UserSettledAt(admit, k, entries, rows, i)
  }

  /** A users job that is run again after its merge stages the same rows and reports the same errors
      exactly if no admitted record is unsettled; merging the first run's rows once more leaves the
      tables as they are exactly if no time has passed or every one of them carries `updated_at`. */
  lemma UsersRunTwiceExactly(admit: Admitter, t: Tables, entries: seq<Entry>, now: Time, later: Time)
    requires SoundAdmitter(Users, admit) && Constrained(t) && LinesAscend(entries)
    ensures AllOf(Users, Finished(admit, Users, t, entries).staged)
    ensures var rows := Finished(admit, Users, t, entries).staged;
            var once := Overlay(Users, t, rows, now);
            && Constrained(once)
            && (Overlay(Users, once, rows, later) == once <==> now == later || AllDated(rows))
            && (Finished(admit, Users, once, entries) == Finished(admit, Users, t, entries) <==>
                  AllSettled(admit, WholeTable(t), entries, rows))
  {
    var k, rows := WholeTable(t), Finished(admit, Users, t, entries).staged;
    FinishedMerges(admit, Users, t, entries, now);
    var once := Overlay(Users, t, rows, now);
    FinishedTellsRun(admit, Users, t, once, entries);
    OverlayTwiceExactly(Users, t, rows, now, later);
    StagedIsWellStaged(admit, Users, k, entries, if entries == [] then 0 else entries[|entries| - 1].line + 1);
    RunsAgreeExactly(admit, Users, k, WholeTable(once), entries);
    forall email ensures Get(WholeTable(once).idByEmail, email) == EmailOwnerAfter(k, rows, email) {
      EmailOwner(t, rows, now, email);
    }
    forall i | 0 <= i < |entries|
      ensures SameVerdict(admit, k, WholeTable(once), entries, i) <==> UserSettledAt(admit, k, entries, rows, i)
    {
      UserSameVerdict(admit, k, WholeTable(once), entries, i);
    }
  }

  // No staged row gives an existing user another email.
  ghost predicate NoRename(t: Tables, rows: seq<StagedRow>) {
    forall i :: 0 <= i < |rows| && rows[i].externalId in t.users && rows[i].payload.UserRecord? ==>
      rows[i].payload.email == t.users[rows[i].externalId].email
  }

  lemma SettledWithoutRename(admit: Admitter, t: Tables, entries: seq<Entry>, i: nat)
    requires UniqueEmails(t.users) && UniqueSlugs(t.articles) && i < |entries|
    requires WellStaged(Users, WholeTable(t), OneByOne(admit, WholeTable(t), entries).staged)
    requires NoRename(t, OneByOne(admit, WholeTable(t), entries).staged)
    requires forall e :: e in OneByOne(admit, WholeTable(t), entries).errors ==> e.code != DuplicateId
    ensures UserSettledAt(admit, WholeTable(t), entries, OneByOne(admit, WholeTable(t), entries).staged, i)
  {
    var k, a := WholeTable(t), admit(entries[i]);
    var rows, staged := OneByOne(admit, k, entries).staged, OneByOne(admit, k, entries[..i]).staged;
    if a.Admitted? && a.item.data.UserRecord? {
      var d := a.item.data;
      match Get(k.idByEmail, d.email)
      case Some(x) =>
        if j :| 0 <= j < |rows| && rows[j].externalId == x {
          assert Acceptable(Users, rows[j].payload);
          assert HasEmail(rows[j], d.email);
        }
      case None =>
        UserVerdictParts(k, staged, a.item);
        if Decide(k, staged, a.item).Reject? {
          RejectedIsReported(admit, k, entries, i);
        }
    }
  }

  lemma {:induction false} FinishedIsRun(admit: Admitter, t: Tables, entries: seq<Entry>)
    requires SoundAdmitter(Users, admit) && Constrained(t) && LinesAscend(entries)
    ensures Finished(admit, Users, t, entries).staged == OneByOne(admit, WholeTable(t), entries).staged
    ensures WellStaged(Users, WholeTable(t), OneByOne(admit, WholeTable(t), entries).staged)
  {
    FinishedTellsRun(admit, Users, t, t, entries);
    StagedIsWellStaged(admit, Users, WholeTable(t), entries,
                       if entries == [] then 0 else entries[|entries| - 1].line + 1);
  }

  lemma {:induction false} AllSettledWithoutRename(admit: Admitter, t: Tables, entries: seq<Entry>)
    requires SoundAdmitter(Users, admit) && Constrained(t) && LinesAscend(entries)
    requires NoRename(t, Finished(admit, Users, t, entries).staged)
    requires forall e :: e in OneByOne(admit, WholeTable(t), entries).errors ==> e.code != DuplicateId
    ensures AllSettled(admit, WholeTable(t), entries, Finished(admit, Users, t, entries).staged)
  {
    var k, rows := WholeTable(t), Finished(admit, Users, t, entries).staged;
    FinishedIsRun(admit, t, entries);
    forall i | 0 <= i < |entries| ensures UserSettledAt(admit, k, entries, rows, i) {
      SettledWithoutRename(admit, t, entries, i);
    }
  }

  /** In particular the second run repeats the first if the job renames no existing user's email and
      the first run reported no duplicate id; its own merge then changes nothing exactly if no time
      has passed or every staged user carries `updated_at`. */
  lemma {:induction false} UsersRunTwice(admit: Admitter, t: Tables, entries: seq<Entry>, now: Time, later: Time)
    requires SoundAdmitter(Users, admit) && Constrained(t) && LinesAscend(entries)
    requires NoRename(t, Finished(admit, Users, t, entries).staged)
    requires forall e :: e in OneByOne(admit, WholeTable(t), entries).errors ==> e.code != DuplicateId
    ensures AllOf(Users, Finished(admit, Users, t, entries).staged)
    ensures var once := Overlay(Users, t, Finished(admit, Users, t, entries).staged, now);
            && Constrained(once)
            && Finished(admit, Users, once, entries) == Finished(admit, Users, t, entries)
            && (Overlay(Users, once, Finished(admit, Users, once, entries).staged, later) == once <==>
                  now == later || AllDated(Finished(admit, Users, t, entries).staged))
  {
    UsersRunTwiceExactly(admit, t, entries, now, later);
    AllSettledWithoutRename(admit, t, entries);
  }

  function Rename(line: nat, id: Option<Id>, email: string): Item {
    Item(line, UserRecord(id, email, "n", "user", true, None, None))
  }

  /** The first condition is needed. The table has one user `a` with the first email; line 1 moves
      it to the second and line 2, another id with the first email, is refused because that is
      taken. After the merge it is free, so a second run stages line 2 as well. */
  lemma UsersRunTwiceDiffers(a: Id, b: Id, email: string, other: string, row: UserRow, now: Time)
    requires a != "" && b != "" && a != b && email != other && row.email == email
    ensures var t := Tables(map[a := row], map[], map[]);
            var i1, i2 := Rename(1, Some(a), other), Rename(2, Some(b), email);
            var r1, r2 := StagedRow(1, a, i1.data), StagedRow(2, b, i2.data);
            && Decide(WholeTable(t), [], i1) == Accept(r1)
            && Decide(WholeTable(t), [r1], i2) ==
               Reject(JobError(2, Some(b), IdNaturalKeyMismatch, [IdDoesNotMatchEmail]))
            && var once := Overlay(Users, t, [r1], now);
            && UniqueEmails(once.users)
            && Decide(WholeTable(once), [], i1) == Accept(r1)
            && Decide(WholeTable(once), [r1], i2) == Accept(r2)
  {
    var t := Tables(map[a := row], map[], map[]);
    var r1 := StagedRow(1, a, Rename(1, Some(a), other).data);
    IdByEmailFinds(t.users, a);
    FirstByEmailIffPresent([r1], email);
    FirstByIdIffPresent([r1], b);
    OnlyUserRenamed(t, a, r1, now);
  }

  lemma OnlyUserRenamed(t: Tables, a: Id, r: StagedRow, now: Time)
    requires t.users.Keys == {a} && r.externalId == a && r.payload.UserRecord?
    ensures AllOf(Users, [r])
    ensures var once := Overlay(Users, t, [r], now);
            && UniqueEmails(once.users)
            && forall email :: Get(IdByEmail(once.users), email) == if email == r.payload.email then Some(a) else None
  {
    var once := Overlay(Users, t, [r], now);
    OneRowPerId([r], 0);
    RowForMember([r], a);
    assert [r][0].externalId in Ids([r]);
    assert once.users.Keys == {a};
    assert once.users[a].email == r.payload.email;
    IdByEmailFinds(once.users, a);
  }

  /** So is the second. Over an empty table line 2 is refused because its id "a" was staged on line
      1; its email "y" is then staged for "b" on line 3. After the merge "y" belongs to "b", so the
      second run refuses line 2 for another reason. */
  lemma DuplicateIdRunTwiceDiffers(now: Time)
    ensures var t := Tables(map[], map[], map[]);
            var i1, i2, i3 := Rename(1, Some("a"), "x"), Rename(2, Some("a"), "y"), Rename(3, Some("b"), "y");
            var r1, r3 := StagedRow(1, "a", i1.data), StagedRow(3, "b", i3.data);
            && Decide(WholeTable(t), [], i1) == Accept(r1)
            && Decide(WholeTable(t), [r1], i2) == DuplicateIdVerdict(2, Pointer(1, "a"))
            && Decide(WholeTable(t), [r1], i3) == Accept(r3)
            && var once := Overlay(Users, t, [r1, r3], now);
            && UniqueEmails(once.users)
            && Decide(WholeTable(once), [r1], i2) ==
               Reject(JobError(2, Some("a"), IdNaturalKeyMismatch, [IdDoesNotMatchEmail]))
  {
    var t := Tables(map[], map[], map[]);
    var i1, i2, i3 := Rename(1, Some("a"), "x"), Rename(2, Some("a"), "y"), Rename(3, Some("b"), "y");
    var r1, r3 := StagedRow(1, "a", i1.data), StagedRow(3, "b", i3.data);
    FirstByEmailIffPresent([r1], "y");
    FirstByIdIffPresent([r1], "b");
    assert [r1][0].externalId == "a";
    assert FirstById([r1], "a") == Some(Pointer(1, "a"));
    OwnerOfSecond(t, r1, r3, now);
  }

  lemma OwnerOfSecond(t: Tables, r: StagedRow, q: StagedRow, now: Time)
    requires t.users == map[] && AllOf(Users, [r, q]) && r.externalId != q.externalId
    requires r.payload.UserRecord? && q.payload.UserRecord? && r.payload.email != q.payload.email
    ensures var once := Overlay(Users, t, [r, q], now);
            UniqueEmails(once.users) && Get(IdByEmail(once.users), q.payload.email) == Some(q.externalId)
  {
    var once := Overlay(Users, t, [r, q], now);
    TwoRows(r, q);
    assert once.users.Keys == {r.externalId, q.externalId};
    assert once.users[r.externalId].email == r.payload.email && once.users[q.externalId].email == q.payload.email;
    IdByEmailFinds(once.users, q.externalId);
  }

  lemma {:induction false} TwoRows(r: StagedRow, q: StagedRow)
    requires r.externalId != q.externalId
    ensures Ids([r, q]) == {r.externalId, q.externalId}
    ensures RowFor([r, q], r.externalId) == Some(r) && RowFor([r, q], q.externalId) == Some(q)
  {
    assert [r, q][0].externalId in Ids([r, q]) && [r, q][1].externalId in Ids([r, q]);
    OneRowPerId([r, q], 0);
    OneRowPerId([r, q], 1);
  }
}
