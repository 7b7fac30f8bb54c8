/** Many import jobs on the same production tables. Every read of a record, every query of a flush,
    the copy of its rows, the slug cleanup and the merge are separate steps of their job, and the
    steps of all jobs interleave freely; a job that dies is one that takes no more steps, or restarts. */
module Concurrency {
  import opened Model
  import opened Staging
  import opened Merge
  import opened SlugConflicts
  import opened ImportSpec
  import opened Batches
  import opened MergeSafety

  // `dropped` are the rows the cleanup took out of staging, `rows` those the merge wrote.
  datatype Phase =
    | Filling
    | Cleaned(dropped: seq<StagedRow>)
    | Merged(dropped: seq<StagedRow>, rows: seq<StagedRow>)
    | Refused

  // A job on its input. `view` holds what the lookups of the current flush answered, each at its
  // own moment; `slugsSeen` what the lookup of the cleanup answered.
  datatype Job = Job(entity: Entity, admit: Admitter, entries: seq<Entry>, view: Lookups, slugsSeen: map<string, Id>,
                     phase: Phase, progress: Progress)

  type JobId = nat

  datatype World = World(tables: Tables, jobs: map<JobId, Job>)

  datatype Action =
    | Restart
    | ReadRecord
    | SeeUserIds
    | SeeArticleIds
    | SeeEmails
    | SeeSlugs
    | FlushBatch
    | SeeCleanupSlugs
    | DropConflicts
    | MergeStaged(now: Time)

  datatype Move = Move(job: JobId, action: Action)

  function Staged(job: Job): seq<StagedRow> {
    job.progress.work.run.staged
  }

  // The whole input is read and the last batch is flushed.
  predicate AllStaged(job: Job) {
    job.phase.Filling? && job.progress.read == |job.entries| && job.progress.work.buffer == []
  }

  predicate ReadyToMerge(job: Job) {
    if job.entity.Articles? then job.phase.Cleaned? else AllStaged(job)
  }

  predicate Enabled(job: Job, a: Action) {
    match a
    case ReadRecord => job.phase.Filling? && job.progress.read < |job.entries|
    case FlushBatch => job.phase.Filling?
    case SeeCleanupSlugs => AllStaged(job) && job.entity.Articles?
    case DropConflicts => AllStaged(job) && job.entity.Articles?
    case MergeStaged(_) => ReadyToMerge(job)
    case _ => true
  }

  function Dropped(phase: Phase): seq<StagedRow> {
    match phase
    case Cleaned(dropped) => dropped
    case Merged(dropped, _) => dropped
    case _ => []
  }

  // The job after its merge: staging is emptied whether the merge succeeded or not.
  function Ended(job: Job, ok: bool): Job {
    var s := job.progress.work.run;
    var totals := if ok then s.totals.(written := |s.staged|) else s.totals;
    job.(phase := if ok then Merged(Dropped(job.phase), s.staged) else Refused,
         progress := Progress(job.progress.read, Work(RunState(totals, [], s.errors), [])))
  }

  function CleanedJob(job: Job): Job {
    var s := job.progress.work.run;
    job.(phase := Cleaned(Sift(job.slugsSeen, s.staged).conflicts),
         progress := Progress(job.progress.read, Work(WithoutConflicts(job.slugsSeen, s), [])))
  }

  // The job's own part of a step.
  function JobAfter(t: Tables, job: Job, a: Action): Job
    requires UniqueEmails(t.users) && UniqueSlugs(t.articles)
  {
    match a
    case Restart => job.(phase := Filling, progress := UNREAD)
    case ReadRecord => job.(progress := After(job.admit, job.entries, job.progress, Read))
    case SeeUserIds => job.(view := job.view.(userIds := t.users.Keys))
    case SeeArticleIds => job.(view := job.view.(articleIds := t.articles.Keys))
    case SeeEmails => job.(view := job.view.(idByEmail := IdByEmail(t.users)))
    case SeeSlugs => job.(view := job.view.(idBySlug := IdBySlug(t.articles)))
    case FlushBatch => job.(progress := After(job.admit, job.entries, job.progress, Flush(job.view)))
    case SeeCleanupSlugs => job.(slugsSeen := IdBySlug(t.articles))
    case DropConflicts => CleanedJob(job)
    case MergeStaged(now) => Ended(job, MergeStatement(t, Staged(job), now).Some?)
  }

  function TablesAfter(t: Tables, job: Job, a: Action): Tables {
    match a
    case MergeStaged(now) => GetOr(MergeStatement(t, Staged(job), now), t)
    case _ => t
  }

  ghost function Step(w: World, m: Move): World
    requires UniqueEmails(w.tables.users) && UniqueSlugs(w.tables.articles)
  {
    if m.job !in w.jobs || !Enabled(w.jobs[m.job], m.action) then w
    else
      var job := w.jobs[m.job];
      World(TablesAfter(w.tables, job, m.action), w.jobs[m.job := JobAfter(w.tables, job, m.action)])
  }

  // ---- The invariant ----

  ghost predicate NoneTaken(idBySlug: map<string, Id>, rows: seq<StagedRow>) {
    forall i :: 0 <= i < |rows| ==> !Taken(idBySlug, rows[i])
  }

  // Seen ids still exist, staged rows name existing rows, and staged keys are distinct.
  ghost predicate JobOk(t: Tables, job: Job) {
    && job.view.userIds <= t.users.Keys && job.view.articleIds <= t.articles.Keys
    && AcceptableItems(job.entity, job.progress.work.buffer)
    && AcceptableRows(job.entity, Staged(job)) && DistinctIds(Staged(job)) && DistinctEmails(Staged(job))
    && ReferencesHold(t, Staged(job))
    && (job.phase.Cleaned? ==>
          job.entity.Articles? && DistinctNaturalKeys(Staged(job)) && NoneTaken(job.slugsSeen, Staged(job)))
  }

  // The input of a job is a record stream.
  ghost predicate WellFed(job: Job) {
    SoundAdmitter(job.entity, job.admit) && LinesAscend(job.entries)
  }

  // Every record read so far is accounted for, by rows that are staged, dropped or merged, by the
  // buffer or by error rows. Of a job whose merge was refused nothing is left but its errors.
  ghost predicate Accounted(job: Job) {
    var w := job.progress.work;
    match job.phase
    case Filling => OnTrack(job.entries, job.progress) && w.run.totals.written == 0
    case Cleaned(dropped) =>
      && Accounts(job.entries, w, dropped) && w.buffer == [] && Ascending(w.run.staged)
      && job.progress.read == |job.entries| && w.run.totals.written == 0
    case Merged(dropped, rows) =>
      && Accounts(job.entries, Work(w.run.(staged := rows), []), dropped) && w.buffer == []
      && job.progress.read == |job.entries| && w.run.totals.written == |rows|
    case Refused => true
  }

  ghost predicate JobInv(t: Tables, job: Job) {
    JobOk(t, job) && WellFed(job) && Accounted(job)
  }

  ghost predicate Inv(w: World) {
    Constrained(w.tables) && forall j :: j in w.jobs ==> JobInv(w.tables, w.jobs[j])
  }

  // No external id of any table is gone.
  ghost predicate Grows(before: Tables, after: Tables) {
    && before.users.Keys <= after.users.Keys && before.articles.Keys <= after.articles.Keys
    && before.comments.Keys <= after.comments.Keys
  }

  lemma OkStaysOk(t: Tables, after: Tables, job: Job)
    requires JobOk(t, job) && Grows(t, after)
    ensures JobOk(after, job)
  {
  }

  lemma MergeKeepsTables(t: Tables, job: Job, now: Time)
    requires Constrained(t) && JobOk(t, job)
    ensures Constrained(TablesAfter(t, job, MergeStaged(now))) && Grows(t, TablesAfter(t, job, MergeStaged(now)))
  {
    if MergeStatement(t, Staged(job), now).Some? {
      MergeRowsKeepsUnique(t, Staged(job), now);
      MergeRowsOnlyAddsIds(t, Staged(job), now);
      MergeRowsReferences(t, Staged(job), now);
    }
  }

  lemma ReadKeepsOk(t: Tables, job: Job)
    requires UniqueEmails(t.users) && UniqueSlugs(t.articles) && JobOk(t, job) && WellFed(job)
    requires Enabled(job, ReadRecord)
    ensures JobOk(t, JobAfter(t, job, ReadRecord))
  {
    assert SoundAt(job.entity, job.admit, job.entries[job.progress.read]);
  }

  lemma FlushKeepsOk(t: Tables, job: Job)
    requires UniqueEmails(t.users) && UniqueSlugs(t.articles) && JobOk(t, job) && Enabled(job, FlushBatch)
    ensures JobOk(t, JobAfter(t, job, FlushBatch))
  {
    ClassifyKeepsKeysDistinct(job.view, Staged(job), job.progress.work.buffer);
    ClassifyKeepsEntity(job.entity, job.view, Staged(job), job.progress.work.buffer);
  }

  lemma DropKeepsOk(t: Tables, job: Job)
    requires UniqueEmails(t.users) && UniqueSlugs(t.articles) && JobOk(t, job) && Enabled(job, DropConflicts)
    requires Ascending(Staged(job))
    ensures JobOk(t, JobAfter(t, job, DropConflicts))
  {
    var kept := Sift(job.slugsSeen, Staged(job)).kept;
    DeletingByLineKeepsTheRest(job.slugsSeen, Staged(job));
    SiftKeepsSlugs(job.slugsSeen, Staged(job));
    KeptSlugsDistinct(job.slugsSeen, Staged(job));
    forall i | 0 <= i < |kept|
      ensures Acceptable(Articles, kept[i].payload) && References(t.users.Keys, t.articles.Keys, kept[i].payload)
    {
      assert kept[i] in kept;
      var j :| 0 <= j < |Staged(job)| && Staged(job)[j] == kept[i];
    }
  }

  lemma ActorStaysOk(t: Tables, job: Job, a: Action)
    requires Constrained(t) && JobInv(t, job) && Enabled(job, a)
    ensures JobOk(TablesAfter(t, job, a), JobAfter(t, job, a))
    ensures Constrained(TablesAfter(t, job, a)) && Grows(t, TablesAfter(t, job, a))
  {
    match a
    case ReadRecord => ReadKeepsOk(t, job);
    case FlushBatch => FlushKeepsOk(t, job);
    case DropConflicts => DropKeepsOk(t, job);
    case MergeStaged(now) => MergeKeepsTables(t, job, now);
    case _ =>
  }

  // A job that has read everything and holds nothing back accounts for its whole input.
  lemma AllIsAccounted(job: Job)
    requires Accounted(job) && AllStaged(job)
    ensures Accounts(job.entries, Work(job.progress.work.run, []), []) && Ascending(Staged(job))
  {
    assert job.entries[..|job.entries|] == job.entries;
    assert job.progress.work == Work(job.progress.work.run, []);
  }

  lemma DropStaysAccounted(job: Job)
    requires Accounted(job) && Enabled(job, DropConflicts)
    ensures Accounted(CleanedJob(job)) && Staged(CleanedJob(job)) == Sift(job.slugsSeen, Staged(job)).kept
  {
    AllIsAccounted(job);
    CleanupAccounts(job.entries, job.progress.work.run, job.slugsSeen);
    KeptAscend(job.slugsSeen, Staged(job));
  }

  lemma MergeStaysAccounted(job: Job, ok: bool)
    requires Accounted(job) && ReadyToMerge(job)
    ensures Accounted(Ended(job, ok))
  {
    if ok {
      if job.phase.Filling? {
        AllIsAccounted(job);
      }
      var s, e := job.progress.work.run, Ended(job, ok).progress.work.run;
      assert Accounts(job.entries, Work(s, []), Dropped(job.phase)) by {
        assert job.progress.work == Work(s, []);
      }
      forall n: nat ensures PlacedAt(job.entries, Work(e.(staged := s.staged), []), n) {
        assert PlacedAt(job.entries, Work(s, []), n);
      }
    }
  }

  /** Whatever the other jobs do in between, a step of a job leaves its records accounted for. */
  lemma StepStaysAccounted(t: Tables, job: Job, a: Action)
    requires UniqueEmails(t.users) && UniqueSlugs(t.articles) && WellFed(job) && Accounted(job) && Enabled(job, a)
    ensures Accounted(JobAfter(t, job, a)) && WellFed(JobAfter(t, job, a))
  {
    match a
    case Restart => UnreadOnTrack(job.entries);
    case ReadRecord => ReadOnTrack(job.admit, job.entity, job.entries, job.progress);
    case FlushBatch => FlushOnTrack(job.admit, job.entries, job.progress, job.view);
    case DropConflicts => DropStaysAccounted(job);
    case MergeStaged(now) => MergeStaysAccounted(job, MergeStatement(t, Staged(job), now).Some?);
    case _ =>
  }

  lemma StepKeepsInv(w: World, m: Move)
    requires Inv(w)
    ensures Inv(Step(w, m)) && Grows(w.tables, Step(w, m).tables)
  {
    if m.job in w.jobs && Enabled(w.jobs[m.job], m.action) {
      ActorStaysOk(w.tables, w.jobs[m.job], m.action);
      StepStaysAccounted(w.tables, w.jobs[m.job], m.action);
      var after := Step(w, m);
      forall j | j in after.jobs ensures JobInv(after.tables, after.jobs[j]) {
        if j != m.job {
          OkStaysOk(w.tables, after.tables, w.jobs[j]);
        }
      }
    }
  }

  // ---- Runs ----

  ghost function Run(w: World, moves: seq<Move>): (end: World)
    requires Inv(w)
    ensures Inv(end)
  {
    if moves == [] then w
    else
      var before := Run(w, moves[..|moves| - 1]);
      StepKeepsInv(before, moves[|moves| - 1]);
      Step(before, moves[|moves| - 1])
  }

  // Jobs that have read nothing yet, over tables that satisfy the schema.
  ghost predicate Init(w: World) {
    && Constrained(w.tables)
    && forall j :: j in w.jobs ==>
         && w.jobs[j].view == Lookups({}, {}, map[], map[]) && w.jobs[j].phase.Filling?
         && w.jobs[j].progress == UNREAD && WellFed(w.jobs[j])
  }

  lemma InitIsInv(w: World)
    requires Init(w)
    ensures Inv(w)
  {
    forall j | j in w.jobs ensures JobInv(w.tables, w.jobs[j]) {
      UnreadOnTrack(w.jobs[j].entries);
    }
  }

  lemma {:induction false} IdsOnlyGrow(w: World, moves: seq<Move>)
    requires Inv(w)
    ensures Grows(w.tables, Run(w, moves).tables)
  {
    if moves != [] {
      IdsOnlyGrow(w, moves[..|moves| - 1]);
      StepKeepsInv(Run(w, moves[..|moves| - 1]), moves[|moves| - 1]);
    }
  }

  /** In every interleaving of every number of jobs, no external id disappears, keys stay unique
      and every article author, comment article and comment user exists at every moment; so the
      existence checks of a flush still hold whenever its job merges. */
  lemma {:induction false} ForeignKeysAlwaysHold(w: World, moves: seq<Move>, n: nat)
    requires Init(w) && n <= |moves|
    ensures Inv(w)
    ensures var end := Run(w, moves[..n]);
            && Constrained(end.tables) && Grows(w.tables, end.tables)
            && forall j :: j in end.jobs ==> ReferencesHold(end.tables, Staged(end.jobs[j]))
  {
    InitIsInv(w);
    IdsOnlyGrow(w, moves[..n]);
  }

  // ---- Nothing is lost among other jobs ----

  ghost predicate SameInput(a: Job, b: Job) {
    a.entries == b.entries && a.admit == b.admit && a.entity == b.entity
  }

  lemma JobKeepsInput(t: Tables, job: Job, a: Action)
    requires UniqueEmails(t.users) && UniqueSlugs(t.articles)
    ensures SameInput(job, JobAfter(t, job, a))
  {
  }

  // No step gives a job another input, and none adds or removes a job.
  lemma {:induction false} InputsStay(w: World, moves: seq<Move>, j: JobId)
    requires Inv(w) && j in w.jobs
    ensures j in Run(w, moves).jobs && SameInput(w.jobs[j], Run(w, moves).jobs[j])
  {
    if moves != [] {
      var before, m := Run(w, moves[..|moves| - 1]), moves[|moves| - 1];
      InputsStay(w, moves[..|moves| - 1], j);
      JobKeepsInput(before.tables, before.jobs[j], m.action);
    }
  }

  // The rows a job stands for: those it has merged, or else those it has staged.
  function RowsOfJob(job: Job): seq<StagedRow> {
    if job.phase.Merged? then job.phase.rows else Staged(job)
  }

  // The counters of a job balance, and line n, if it has been read, is in exactly one staged or
  // merged row, one buffered record or one error row.
  ghost predicate ReadSettled(job: Job, n: nat) {
    var rows, buffer, s, read := RowsOfJob(job), job.progress.work.buffer, job.progress.work.run, job.progress.read;
    && s.totals.read == read <= |job.entries| && Balanced(s.(staged := rows), buffer, Dropped(job.phase))
    && RowsAt(rows, n) + ItemsAt(buffer, n) + ErrorsAt(s.errors, n) ==
       if exists i :: 0 <= i < read && job.entries[i].line == n then 1 else 0
  }

  lemma {:induction false} LineRead(entries: seq<Entry>, read: nat, n: nat)
    requires LinesAscend(entries) && read <= |entries|
    ensures EntriesAt(entries[..read], n) == if exists i :: 0 <= i < read && entries[i].line == n then 1 else 0
  {
    var prefix := entries[..read];
    LineReadOnce(prefix, n);
    assert forall i :: 0 <= i < read ==> prefix[i] == entries[i];
  }

  lemma {:induction false} AccountedIsSettled(job: Job, n: nat)
    requires WellFed(job) && Accounted(job) && !job.phase.Refused?
    ensures ReadSettled(job, n)
  {
    var w, read := job.progress.work, job.progress.read;
    var held := Work(w.run.(staged := RowsOfJob(job)), w.buffer);
    assert job.entries[..|job.entries|] == job.entries;
    assert !job.phase.Merged? ==> held == w;
    assert PlacedAt(job.entries[..read], held, n);
    LineRead(job.entries, read, n);
  }

  /** At every moment of every interleaving, whatever the lookups of a job answered, its counters
      balance, and each line of its input that it has read is in exactly one staged or merged row,
      one buffered record or one error row. */
  lemma {:induction false} ReadIsAccountedFor(w: World, moves: seq<Move>, j: JobId, n: nat)
    requires Init(w) && j in w.jobs
    ensures Inv(w) && j in Run(w, moves).jobs && SameInput(w.jobs[j], Run(w, moves).jobs[j])
    ensures !Run(w, moves).jobs[j].phase.Refused? ==> ReadSettled(Run(w, moves).jobs[j], n)
  {
    InitIsInv(w);
    InputsStay(w, moves, j);
    var end := Run(w, moves);
    assert JobInv(end.tables, end.jobs[j]);
    if !end.jobs[j].phase.Refused? {
      AccountedIsSettled(end.jobs[j], n);
    }
  }

  // What a merge does to a job that accounts for its input, and to tables t.
  ghost predicate MergeOutcome(t: Tables, job: Job, after: Tables, end: Job, now: Time) {
    var rows, s := Staged(job), end.progress.work.run;
    && AllOf(job.entity, rows)
    && match end.phase
       case Refused => after == t
       case Merged(dropped, merged) =>
         && merged == rows && after == Overlay(job.entity, t, rows, now)
         && s.totals.read == |job.entries| == s.totals.written + s.totals.failed
         && s.totals.written == |rows| && s.totals.failed == |s.errors| && s.totals.valid == |rows| + |dropped|
         && forall n: nat :: LineSettled(job.entries, rows, s.errors, n)
       case _ => false
  }

  // Line n of the input is in exactly one row or exactly one error row; no other line is in either.
  ghost predicate LineSettled(entries: seq<Entry>, rows: seq<StagedRow>, errors: seq<JobError>, n: nat) {
    RowsAt(rows, n) + ErrorsAt(errors, n) == if exists i :: 0 <= i < |entries| && entries[i].line == n then 1 else 0
  }

  lemma PlacedIsSettled(entries: seq<Entry>, s: RunState)
    requires LinesAscend(entries) && forall n: nat :: PlacedAt(entries, Work(s, []), n)
    ensures forall n: nat :: LineSettled(entries, s.staged, s.errors, n)
  {
    forall n: nat ensures LineSettled(entries, s.staged, s.errors, n) {
      assert PlacedAt(entries, Work(s, []), n);
      LineReadOnce(entries, n);
    }
  }

  lemma {:induction false} MergeSettles(t: Tables, job: Job, now: Time)
    requires Constrained(t) && JobInv(t, job) && ReadyToMerge(job)
    ensures MergeOutcome(t, job, TablesAfter(t, job, MergeStaged(now)), JobAfter(t, job, MergeStaged(now)), now)
  {
    var end := JobAfter(t, job, MergeStaged(now));
    KeysAreDistinct(t, job);
    if MergeStatement(t, Staged(job), now).Some? {
      OnlyUpsertsFail(t, job, now);
      MergedIsOverlay(job.entity, t, Staged(job), now);
      MergeStaysAccounted(job, true);
      PlacedIsSettled(job.entries, end.progress.work.run.(staged := Staged(job)));
    }
  }

  /** A merge among other jobs is refused and changes no table, or it writes the staged rows into
      the tables as they are then; the job has then read its whole input, each record of which was
      written or failed, every line being in exactly one merged row or exactly one error row. */
  lemma {:induction false} MergeAccountsForInput(w: World, moves: seq<Move>, j: JobId, now: Time)
    requires Init(w) && j in w.jobs
    ensures Inv(w) && j in Run(w, moves).jobs
    ensures var before := Run(w, moves);
            ReadyToMerge(before.jobs[j]) ==>
              var after := Step(before, Move(j, MergeStaged(now)));
              && SameInput(w.jobs[j], before.jobs[j]) && j in after.jobs
              && MergeOutcome(before.tables, before.jobs[j], after.tables, after.jobs[j], now)
  {
    InitIsInv(w);
    InputsStay(w, moves, j);
    var before := Run(w, moves);
    if ReadyToMerge(before.jobs[j]) {
      assert JobInv(before.tables, before.jobs[j]);
      MergeSettles(before.tables, before.jobs[j], now);
    }
  }

  // ---- When a merge can be refused ----

  lemma KeysAreDistinct(t: Tables, job: Job)
    requires JobOk(t, job) && ReadyToMerge(job)
    ensures AllOf(job.entity, Staged(job)) && DistinctNaturalKeys(Staged(job))
  {
    if job.entity.Users? {
      EmailsAreNaturalKeys(Staged(job));
    }
  }

  // Existing references never fail a merge: only the upserts can.
  lemma {:induction false} OnlyUpsertsFail(t: Tables, job: Job, now: Time)
    requires JobOk(t, job)
    ensures MergeStatement(t, Staged(job), now) == MergeRows(t, Staged(job), now)
  {
    if MergeRows(t, Staged(job), now).Some? {
      ReferencesSurvive(t, Staged(job), now);
    }
  }

  /** At any reachable moment a merge is refused exactly if a production row of another id holds
      a staged email or slug and no earlier row of the job rewrites that row. A missing reference
      or a row touched twice is never the reason, and a comments merge is never refused. */
  lemma {:induction false} MergeRefusedExactly(w: World, moves: seq<Move>, j: JobId, now: Time)
    requires Inv(w) && j in Run(w, moves).jobs && ReadyToMerge(Run(w, moves).jobs[j])
    ensures var end := Run(w, moves); var job := end.jobs[j];
            && (MergeStatement(end.tables, Staged(job), now).None? <==>
                  exists i :: 0 <= i < |Staged(job)| && Blocked(end.tables, Staged(job), i))
            && (job.entity.Comments? ==> MergeStatement(end.tables, Staged(job), now).Some?)
  {
    var end := Run(w, moves);
    var job := end.jobs[j];
    KeysAreDistinct(end.tables, job);
    OnlyUpsertsFail(end.tables, job, now);
    MergesExactly(job.entity, end.tables, Staged(job), now);
    assert forall i :: 0 <= i < |Staged(job)| ==> OfEntity(job.entity, Staged(job)[i].payload);
  }

  // The cleanup let the row pass because the holder of its slug has the empty id.
  ghost predicate HeldByEmptyId(t: Tables, rows: seq<StagedRow>, i: nat)
    requires i < |rows|
  {
    Holds(t, "", rows[i]) && "" !in Ids(rows[..i])
  }

  lemma OnlyEmptyIdHolds(t: Tables, slugsSeen: map<string, Id>, row: StagedRow, x: Id)
    requires UniqueSlugs(t.articles) && slugsSeen == IdBySlug(t.articles) && !Taken(slugsSeen, row)
    requires Acceptable(Articles, row.payload) && Holds(t, x, row)
    ensures x == ""
  {
    IdBySlugFinds(t.articles, x);
  }

  /** An articles job whose cleanup saw the slugs that are still there is merged, whatever other
      jobs did during its flushes, exactly if no staged slug is held by an article with an empty
      external id, which the cleanup overlooks. */
  lemma {:induction false} CleanedMergesExactly(w: World, moves: seq<Move>, j: JobId, now: Time)
    requires Inv(w) && j in Run(w, moves).jobs && Run(w, moves).jobs[j].phase.Cleaned?
    requires Run(w, moves).jobs[j].slugsSeen == IdBySlug(Run(w, moves).tables.articles)
    ensures var t, rows := Run(w, moves).tables, Staged(Run(w, moves).jobs[j]);
            MergeStatement(t, rows, now).Some? <==> forall i :: 0 <= i < |rows| ==> !HeldByEmptyId(t, rows, i)
  {
    var t, job := Run(w, moves).tables, Run(w, moves).jobs[j];
    MergeRefusedExactly(w, moves, j, now);
    assert JobOk(t, job);
    forall i | 0 <= i < |Staged(job)| ensures Blocked(t, Staged(job), i) <==> HeldByEmptyId(t, Staged(job), i) {
      forall x | Holds(t, x, Staged(job)[i]) ensures x == "" {
        OnlyEmptyIdHolds(t, job.slugsSeen, Staged(job)[i], x);
      }
    }
  }

  // ---- Two jobs ----

  // Row i of the first job and row j of the second claim one key for two ids, and the second job
  // has not rewritten the first one's row by then.
  ghost predicate Rivals(a: seq<StagedRow>, b: seq<StagedRow>, i: int, j: int) {
    0 <= i < |a| && 0 <= j < |b| && SameNaturalKey(a[i].payload, b[j].payload) &&
    a[i].externalId != b[j].externalId && a[i].externalId !in Ids(b[..j])
  }

  // After rows a were merged, row j is held up exactly by a rival among them or by an untouched holder.
  lemma {:induction false} HolderAfterMerge(entity: Entity, t: Tables, a: seq<StagedRow>, row: StagedRow, x: Id,
                                            now: Time)
    requires AllOf(entity, a) && DistinctIds(a)
    ensures x in Ids(a) ==> exists i :: 0 <= i < |a| && a[i].externalId == x && RowFor(a, x) == Some(a[i])
    ensures var m := Overlay(entity, t, a, now);
            Holds(m, x, row) <==>
            if x in Ids(a) && OfEntity(entity, row.payload)
            then x != row.externalId && SameNaturalKey(RowFor(a, x).value.payload, row.payload)
            else Holds(t, x, row)
    ensures forall i :: 0 <= i < |a| ==> a[i].externalId in Ids(a) && RowFor(a, a[i].externalId) == Some(a[i])
  {
    RowForMember(a, x);
    forall i | 0 <= i < |a| ensures RowFor(a, a[i].externalId) == Some(a[i]) && a[i].externalId in Ids(a) {
      OneRowPerId(a, i);
    }
  }

  /** Two jobs whose rows both fit the table: the first to merge succeeds, and the second is then
      refused exactly if the jobs staged one email, or one slug, for two ids and the second has no
      earlier row that rewrites the first one's row. */
  lemma SecondMergeExactly(t: Tables, a: Job, b: Job, now: Time, later: Time)
    requires JobOk(t, a) && ReadyToMerge(a) && Fits(t, Staged(a))
    requires JobOk(t, b) && ReadyToMerge(b) && Fits(t, Staged(b))
    ensures MergeStatement(t, Staged(a), now).Some?
    ensures MergeStatement(MergeStatement(t, Staged(a), now).value, Staged(b), later).None? <==>
            exists i, j :: Rivals(Staged(a), Staged(b), i, j)
  {
    KeysAreDistinct(t, a);
    MergeSucceeds(a.entity, t, Staged(a), now);
    OnlyUpsertsFail(t, a, now);
    var m := Overlay(a.entity, t, Staged(a), now);
    MergeRowsOnlyAddsIds(t, Staged(a), now);
    OkStaysOk(t, m, b);
    KeysAreDistinct(m, b);
    OnlyUpsertsFail(m, b, later);
    MergesExactly(b.entity, m, Staged(b), later);
    forall j | 0 <= j < |Staged(b)|
      ensures Blocked(m, Staged(b), j) <==> exists i :: Rivals(Staged(a), Staged(b), i, j)
    {
      BlockedByRival(t, a, b, j, now);
    }
    if i, j :| Rivals(Staged(a), Staged(b), i, j) {
      assert Blocked(m, Staged(b), j);
    }
  }

  lemma BlockedByRival(t: Tables, a: Job, b: Job, j: nat, now: Time)
    requires JobOk(t, a) && AllOf(a.entity, Staged(a)) && AllOf(b.entity, Staged(b)) && Fits(t, Staged(b))
    requires j < |Staged(b)|
    ensures Blocked(Overlay(a.entity, t, Staged(a), now), Staged(b), j) <==>
            exists i :: Rivals(Staged(a), Staged(b), i, j)
  {
    var m, row := Overlay(a.entity, t, Staged(a), now), Staged(b)[j];
    assert !Clash(t, row);
    assert forall x :: !Holds(t, x, row);
    if Blocked(m, Staged(b), j) {
      var x :| Holds(m, x, row) && x !in Ids(Staged(b)[..j]);
      HolderAfterMerge(a.entity, t, Staged(a), row, x, now);
      var i :| 0 <= i < |Staged(a)| && Staged(a)[i].externalId == x && RowFor(Staged(a), x) == Some(Staged(a)[i]);
      assert Rivals(Staged(a), Staged(b), i, j);
    }
    if i :| Rivals(Staged(a), Staged(b), i, j) {
      HolderAfterMerge(a.entity, t, Staged(a), row, Staged(a)[i].externalId, now);
      assert OfEntity(a.entity, Staged(a)[i].payload) && OfEntity(b.entity, row.payload);
      assert Holds(m, Staged(a)[i].externalId, row);
    }
  }

  // ---- Both outcomes occur ----

  function NewUser(line: nat, id: Id, email: string): StagedRow {
    StagedRow(line, id, UserRecord(Some(id), email, "n", "user", true, None, None))
  }

  function UsersJob(rows: seq<StagedRow>): Job {
    var admit := (e: Entry) => Turned(JobError(e.line, None, ParseError, []));
    Job(Users, admit, [], Lookups({}, {}, map[], map[]), map[], Filling, Progress(0, Work(START.(staged := rows), [])))
  }

  const NO_ROWS := Tables(map[], map[], map[])

  /** Over an empty table, job A stages one email for id p. A job that stages it for id q is
      refused after A ... */
  lemma SecondClaimRefused(p: Id, q: Id, email: string, now: Time, later: Time)
    requires p != q && email != ""
    ensures var m := MergeStatement(NO_ROWS, [NewUser(1, p, email)], now);
            m.Some? && MergeStatement(m.value, [NewUser(1, q, email)], later).None?
  {
    var a, b := UsersJob([NewUser(1, p, email)]), UsersJob([NewUser(1, q, email)]);
    SecondMergeExactly(NO_ROWS, a, b, now, later);
    assert Rivals(Staged(a), Staged(b), 0, 0);
  }

  lemma RenamedFirst(row: StagedRow, p: Id, q: Id, email: string, other: string)
    requires row == NewUser(1, p, email) && email != other
    ensures var more := [NewUser(1, p, other), NewUser(2, q, email)];
            !exists i, j :: Rivals([row], more, i, j)
  {
    var more := [NewUser(1, p, other), NewUser(2, q, email)];
    assert more[..1][0].externalId == p;
    forall i, j ensures !Rivals([row], more, i, j) {
      assert j == 1 ==> more[..j][0].externalId == p;
    }
  }

  /** ... but not a job that first moves p to another email. */
  lemma RenameLetsSecondMerge(p: Id, q: Id, email: string, other: string, now: Time, later: Time)
    requires p != q && email != "" && other != "" && email != other
    ensures var m := MergeStatement(NO_ROWS, [NewUser(1, p, email)], now);
            m.Some? && MergeStatement(m.value, [NewUser(1, p, other), NewUser(2, q, email)], later).Some?
  {
    var rows, more := [NewUser(1, p, email)], [NewUser(1, p, other), NewUser(2, q, email)];
    SecondMergeExactly(NO_ROWS, UsersJob(rows), UsersJob(more), now, later);
    RenamedFirst(rows[0], p, q, email, other);
  }
}
