/** A job that the others leave alone: by its own steps, in any schedule of reads and flushes, it
    comes to the end and leaves what the record-by-record reference says. */
module JobAlone {
  import opened Model
  import opened Staging
  import opened Merge
  import opened SlugConflicts
  import opened ImportSpec
  import opened Batches
  import opened MergeSafety
  import opened Concurrency

  // The lookups of a flush, one query after the other.
  function Looking(j: JobId): seq<Move> {
    [Move(j, SeeUserIds), Move(j, SeeArticleIds), Move(j, SeeEmails), Move(j, SeeSlugs)]
  }

  // Reads and flushes, in the order given: a true is a read.
  function Working(j: JobId, plan: seq<bool>): seq<Move> {
    if plan == [] then []
    else Working(j, plan[..|plan| - 1]) + [Move(j, if plan[|plan| - 1] then ReadRecord else FlushBatch)]
  }

  function TurnsOf(k: Lookups, plan: seq<bool>): seq<Turn> {
    if plan == [] then []
    else TurnsOf(k, plan[..|plan| - 1]) + [if plan[|plan| - 1] then Read else Flush(k)]
  }

  // The cleanup of an articles job.
  function Cleaning(j: JobId, entity: Entity): seq<Move> {
    if entity.Articles? then [Move(j, SeeCleanupSlugs), Move(j, DropConflicts)] else []
  }

  lemma {:induction false} RunSnoc(w: World, moves: seq<Move>, m: Move)
    requires Inv(w)
    ensures Run(w, moves + [m]) == Step(Run(w, moves), m)
  {
    assert (moves + [m])[..|moves|] == moves;
  }

  // After these moves the tables are as before, and job j is as given.
  ghost predicate Stands(w: World, moves: seq<Move>, j: JobId, job: Job)
    requires Inv(w)
  {
    Run(w, moves).tables == w.tables && j in Run(w, moves).jobs && Run(w, moves).jobs[j] == job
  }

  // One enabled step of job j that is not its merge.
  lemma OwnStep(w: World, j: JobId, a: Action)
    requires Inv(w) && j in w.jobs && Enabled(w.jobs[j], a) && !a.MergeStaged?
    ensures Step(w, Move(j, a)).tables == w.tables && j in Step(w, Move(j, a)).jobs
    ensures Step(w, Move(j, a)).jobs[j] == JobAfter(w.tables, w.jobs[j], a)
  {
  }

  // Action a, which is no merge, makes of the job what is given.
  ghost predicate Leads(t: Tables, job: Job, a: Action, next: Job) {
    && UniqueEmails(t.users) && UniqueSlugs(t.articles)
    && Enabled(job, a) && !a.MergeStaged? && next == JobAfter(t, job, a)
  }

  lemma {:induction false} MoreMoves(w: World, moves: seq<Move>, j: JobId, a: Action, job: Job, next: Job,
                                     more: seq<Move>)
    requires Inv(w) && Stands(w, moves, j, job) && Leads(w.tables, job, a, next) && more == moves + [Move(j, a)]
    ensures Stands(w, more, j, next)
  {
    RunSnoc(w, moves, Move(j, a));
    OwnStep(Run(w, moves), j, a);
  }

  // What the job has seen after two, three and all of its lookups.
  lemma LooksLead(t: Tables, job: Job)
    requires UniqueEmails(t.users) && UniqueSlugs(t.articles)
    ensures var v, k := job.view, WholeTable(t);
            && Leads(t, job, SeeUserIds, job.(view := v.(userIds := k.userIds)))
            && Leads(t, job.(view := v.(userIds := k.userIds)), SeeArticleIds,
                     job.(view := k.(idByEmail := v.idByEmail, idBySlug := v.idBySlug)))
            && Leads(t, job.(view := k.(idByEmail := v.idByEmail, idBySlug := v.idBySlug)), SeeEmails,
                     job.(view := k.(idBySlug := v.idBySlug)))
            && Leads(t, job.(view := k.(idBySlug := v.idBySlug)), SeeSlugs, job.(view := k))
  {
  }

  lemma {:induction false} TwoMoves(w: World, moves: seq<Move>, j: JobId, a: Action, b: Action, job: Job, mid: Job,
                                    next: Job, more: seq<Move>)
    requires Inv(w) && Stands(w, moves, j, job) && more == moves + [Move(j, a), Move(j, b)]
    requires Leads(w.tables, job, a, mid) && Leads(w.tables, mid, b, next)
    ensures Stands(w, more, j, next)
  {
    var one := moves + [Move(j, a)];
    MoreMoves(w, moves, j, a, job, mid, one);
    assert more == one + [Move(j, b)];
    MoreMoves(w, one, j, b, mid, next, more);
  }

  lemma {:induction false} AfterLooking(w: World, j: JobId)
    requires Inv(w) && j in w.jobs
    ensures Stands(w, Looking(j), j, w.jobs[j].(view := WholeTable(w.tables)))
  {
    var job, v, k := w.jobs[j], w.jobs[j].view, WholeTable(w.tables);
    var job2 := job.(view := k.(idByEmail := v.idByEmail, idBySlug := v.idBySlug));
    var half := [Move(j, SeeUserIds), Move(j, SeeArticleIds)];
    assert Stands(w, [], j, job);
    assert half == [] + half;
    LooksLead(w.tables, job);
    TwoMoves(w, [], j, SeeUserIds, SeeArticleIds, job, job.(view := v.(userIds := k.userIds)), job2, half);
    assert Looking(j) == half + [Move(j, SeeEmails), Move(j, SeeSlugs)];
    TwoMoves(w, half, j, SeeEmails, SeeSlugs, job2, job.(view := k.(idBySlug := v.idBySlug)), job.(view := k),
             Looking(j));
  }

  // The job after it has seen all lookups and then read and flushed as planned.
  function AtWork(t: Tables, job: Job, plan: seq<bool>): Job
    requires UniqueEmails(t.users) && UniqueSlugs(t.articles)
  {
    job.(view := WholeTable(t), progress := Follow(job.admit, job.entries, TurnsOf(WholeTable(t), plan)))
  }

  // A read past the end of the input is no step.
  predicate WithinInput(entries: seq<Entry>, plan: seq<bool>) {
    ReadsOf(plan) <= |entries|
  }

  function ReadsOf(plan: seq<bool>): nat {
    if plan == [] then 0 else ReadsOf(plan[..|plan| - 1]) + if plan[|plan| - 1] then 1 else 0
  }

  lemma {:induction false} FollowReads(admit: Admitter, entries: seq<Entry>, k: Lookups, plan: seq<bool>)
    requires WithinInput(entries, plan)
    ensures Follow(admit, entries, TurnsOf(k, plan)).read == ReadsOf(plan)
  {
    if plan != [] {
      var n := |plan| - 1;
      FollowReads(admit, entries, k, plan[..n]);
      FollowSnoc(admit, entries, TurnsOf(k, plan[..n]), if plan[n] then Read else Flush(k));
    }
  }

  lemma {:induction false} FollowSnoc(admit: Admitter, entries: seq<Entry>, turns: seq<Turn>, turn: Turn)
    ensures Follow(admit, entries, turns + [turn]) == After(admit, entries, Follow(admit, entries, turns), turn)
  {
    assert (turns + [turn])[..|turns|] == turns;
  }

  function ActionOf(read: bool): Action {
    if read then ReadRecord else FlushBatch
  }

  lemma {:induction false} PlanStep(t: Tables, job: Job, plan: seq<bool>)
    requires UniqueEmails(t.users) && UniqueSlugs(t.articles) && job.phase.Filling? && plan != []
    requires WithinInput(job.entries, plan)
    ensures var init, a := plan[..|plan| - 1], ActionOf(plan[|plan| - 1]);
            && Enabled(AtWork(t, job, init), a)
            && JobAfter(t, AtWork(t, job, init), a) == AtWork(t, job, plan)
  {
    var n, k := |plan| - 1, WholeTable(t);
    FollowReads(job.admit, job.entries, k, plan[..n]);
    FollowSnoc(job.admit, job.entries, TurnsOf(k, plan[..n]), if plan[n] then Read else Flush(k));
  }

  lemma {:induction false} PlanMoves(j: JobId, plan: seq<bool>)
    requires plan != []
    ensures Looking(j) + Working(j, plan) ==
            Looking(j) + Working(j, plan[..|plan| - 1]) + [Move(j, ActionOf(plan[|plan| - 1]))]
  {
  }

  lemma {:induction false} AfterWorking(w: World, j: JobId, job: Job, plan: seq<bool>)
    requires Inv(w) && j in w.jobs && job == w.jobs[j] && job.phase.Filling? && job.progress == UNREAD
    requires WithinInput(job.entries, plan)
    ensures Stands(w, Looking(j) + Working(j, plan), j, AtWork(w.tables, job, plan))
  {
    if plan == [] {
      AfterLooking(w, j);
      assert Looking(j) + Working(j, plan) == Looking(j);
    } else {
      var n := |plan| - 1;
      AfterWorking(w, j, job, plan[..n]);
      PlanStep(w.tables, job, plan);
      PlanMoves(j, plan);
      MoreMoves(w, Looking(j) + Working(j, plan[..n]), j, ActionOf(plan[n]), AtWork(w.tables, job, plan[..n]),
                AtWork(w.tables, job, plan), Looking(j) + Working(j, plan));
    }
  }

  lemma {:induction false} TurnsAgree(k: Lookups, plan: seq<bool>)
    ensures forall i :: 0 <= i < |TurnsOf(k, plan)| ==> TurnsOf(k, plan)[i] == Read || TurnsOf(k, plan)[i] == Flush(k)
  {
    if plan != [] {
      TurnsAgree(k, plan[..|plan| - 1]);
    }
  }

  // Read to the end and flushed: what is staged is what the reference stages.
  lemma {:induction false} WorkedIsReference(admit: Admitter, entries: seq<Entry>, k: Lookups, plan: seq<bool>)
    requires ReadsOf(plan) == |entries| && plan != [] && !plan[|plan| - 1]
    ensures var p, r := Follow(admit, entries, TurnsOf(k, plan)), OneByOne(admit, k, entries);
            && p.read == |entries| && p.work.buffer == []
            && p.work.run.staged == r.staged && p.work.run.totals == r.totals
            && multiset(p.work.run.errors) == multiset(r.errors)
  {
    var n := |plan| - 1;
    FollowReads(admit, entries, k, plan);
    FollowSnoc(admit, entries, TurnsOf(k, plan[..n]), Flush(k));
    TurnsAgree(k, plan);
    FollowStandsFor(admit, k, entries, TurnsOf(k, plan));
    assert entries[..|entries|] == entries;
    var p := Follow(admit, entries, TurnsOf(k, plan));
    assert p.work == Work(p.work.run, []);
    NothingPending(k, p.work.run, OneByOne(admit, k, entries));
  }

  // What the job holds when it is ready to merge.
  ghost predicate Finishing(t: Tables, before: Job, job: Job)
    requires Constrained(t)
  {
    var f, s := Finished(before.admit, before.entity, t, before.entries), job.progress.work.run;
    && ReadyToMerge(job) && job.entity == before.entity && s.staged == f.staged
    && s.totals.(written := |s.staged|) == f.totals && multiset(s.errors) == multiset(f.errors)
  }

  ghost predicate StagedAsReference(t: Tables, before: Job, s: RunState)
    requires Constrained(t)
  {
    var r := OneByOne(before.admit, WholeTable(t), before.entries);
    s.staged == r.staged && s.totals == r.totals && multiset(s.errors) == multiset(r.errors)
  }

  lemma {:induction false} UncleanedIsFinishing(t: Tables, before: Job, job: Job)
    requires Constrained(t) && job.entity == before.entity && AllStaged(job) && !job.entity.Articles?
    requires StagedAsReference(t, before, job.progress.work.run)
    ensures Finishing(t, before, job)
  {
    var r := OneByOne(before.admit, WholeTable(t), before.entries);
    assert SlugErrors([]) == [] && r.errors + [] == r.errors;
  }

  lemma {:induction false} ReferenceAscends(admit: Admitter, entity: Entity, k: Lookups, entries: seq<Entry>)
    requires SoundAdmitter(entity, admit) && LinesAscend(entries)
    ensures Ascending(OneByOne(admit, k, entries).staged)
  {
    StagedIsWellStaged(admit, entity, k, entries, if entries == [] then 0 else entries[|entries| - 1].line + 1);
  }

  lemma {:induction false} CleanedIsFinishing(t: Tables, before: Job, job: Job)
    requires Constrained(t) && WellFed(before) && job.entity == before.entity && job.entity.Articles?
    requires job.slugsSeen == IdBySlug(t.articles) && StagedAsReference(t, before, job.progress.work.run)
    ensures Finishing(t, before, CleanedJob(job))
  {
    ReferenceAscends(before.admit, before.entity, WholeTable(t), before.entries);
    DeletingByLineKeepsTheRest(IdBySlug(t.articles), Staged(job));
  }

  // The job once its cleanup, if it is one of articles, is done.
  function Cleansed(t: Tables, job: Job): Job
    requires UniqueEmails(t.users) && UniqueSlugs(t.articles)
  {
    if job.entity.Articles? then CleanedJob(job.(slugsSeen := IdBySlug(t.articles))) else job
  }

  lemma CleansLead(t: Tables, job: Job, seen: Job)
    requires UniqueEmails(t.users) && UniqueSlugs(t.articles) && AllStaged(job) && job.entity.Articles?
    requires seen == job.(slugsSeen := IdBySlug(t.articles))
    ensures Leads(t, job, SeeCleanupSlugs, seen) && Leads(t, seen, DropConflicts, CleanedJob(seen))
  {
  }

  lemma {:induction false} AfterCleaning(w: World, j: JobId, moves: seq<Move>, job: Job)
    requires Inv(w) && Stands(w, moves, j, job) && AllStaged(job)
    ensures Stands(w, moves + Cleaning(j, job.entity), j, Cleansed(w.tables, job))
  {
    var all := moves + Cleaning(j, job.entity);
    if job.entity.Articles? {
      var seen := job.(slugsSeen := IdBySlug(w.tables.articles));
      CleansLead(w.tables, job, seen);
      TwoMoves(w, moves, j, SeeCleanupSlugs, DropConflicts, job, seen, CleanedJob(seen), all);
    } else {
      assert all == moves;
    }
  }

  lemma {:induction false} CleansedIsFinishing(t: Tables, before: Job, job: Job)
    requires Constrained(t) && WellFed(before) && job.entity == before.entity && AllStaged(job)
    requires StagedAsReference(t, before, job.progress.work.run)
    ensures Finishing(t, before, Cleansed(t, job))
  {
    if job.entity.Articles? {
      CleanedIsFinishing(t, before, job.(slugsSeen := IdBySlug(t.articles)));
    } else {
      UncleanedIsFinishing(t, before, job);
    }
  }

  // What the reference says of the end of the job.
  ghost predicate EndsAsReference(t: Tables, before: Job, after: Tables, end: Job, now: Time)
    requires Constrained(t)
  {
    var f := Finished(before.admit, before.entity, t, before.entries);
    && AllOf(before.entity, f.staged) && after == Overlay(before.entity, t, f.staged, now)
    && end.phase.Merged? && end.phase.rows == f.staged
    && end.progress.work.run.totals == f.totals && multiset(end.progress.work.run.errors) == multiset(f.errors)
  }

  lemma {:induction false} MergedAsReference(t: Tables, before: Job, job: Job, now: Time)
    requires Constrained(t) && WellFed(before) && Finishing(t, before, job)
    ensures EndsAsReference(t, before, TablesAfter(t, job, MergeStaged(now)), JobAfter(t, job, MergeStaged(now)), now)
  {
    FinishedMerges(before.admit, before.entity, t, before.entries, now);
  }

  lemma {:induction false} AfterMerging(w: World, j: JobId, moves: seq<Move>, job: Job, now: Time)
    requires Inv(w) && Stands(w, moves, j, job) && ReadyToMerge(job)
    ensures var end := Run(w, moves + [Move(j, MergeStaged(now))]);
            && end.tables == TablesAfter(w.tables, job, MergeStaged(now))
            && j in end.jobs && end.jobs[j] == JobAfter(w.tables, job, MergeStaged(now))
  {
    RunSnoc(w, moves, Move(j, MergeStaged(now)));
  }

  // The moves of a whole job.
  function WholeJob(j: JobId, entity: Entity, plan: seq<bool>, now: Time): seq<Move> {
    Looking(j) + Working(j, plan) + Cleaning(j, entity) + [Move(j, MergeStaged(now))]
  }

  /** A job that starts afresh and is left alone, in any order of reads and flushes that reads the
      whole input and ends with a flush, is merged: with the rows, the counters and the errors of the
      reference, and the tables it leaves are those of the reference. */
  lemma {:induction false} LeftAloneIsReference(w: World, j: JobId, plan: seq<bool>, now: Time)
    requires Inv(w) && j in w.jobs && w.jobs[j].phase.Filling? && w.jobs[j].progress == UNREAD
    requires ReadsOf(plan) == |w.jobs[j].entries| && plan != [] && !plan[|plan| - 1]
    ensures var end := Run(w, WholeJob(j, w.jobs[j].entity, plan, now));
            j in end.jobs && EndsAsReference(w.tables, w.jobs[j], end.tables, end.jobs[j], now)
  {
    var t, job := w.tables, w.jobs[j];
    assert JobInv(t, job);
    var worked := AtWork(t, job, plan);
    var moves := Looking(j) + Working(j, plan);
    AfterWorking(w, j, job, plan);
    WorkedIsReference(job.admit, job.entries, WholeTable(t), plan);
    AfterCleaning(w, j, moves, worked);
    CleansedIsFinishing(t, job, worked);
    AfterMerging(w, j, moves + Cleaning(j, job.entity), Cleansed(t, worked), now);
    MergedAsReference(t, job, Cleansed(t, worked), now);
  }
}
