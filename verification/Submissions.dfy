/** What becomes of a submitted request: when it creates a job, when it is answered with one, when it
    fails, and that it finishes. Stated over every schedule of any number of requests. */
module Submissions {
  import opened Model
  import opened Idempotency

  // Every external call of client c succeeds.
  ghost predicate CallsSucceed(schedule: seq<Event>, c: ClientId) {
    forall i :: 0 <= i < |schedule| && schedule[i].Act? && schedule[i].client == c ==> schedule[i].ok
  }

  // The state before event i of the schedule.
  function Before(s: State, schedule: seq<Event>, i: nat): State
    requires i <= |schedule|
  {
    Run(s, schedule[..i])
  }

  predicate ActsAt(schedule: seq<Event>, c: ClientId, i: nat) {
    i < |schedule| && schedule[i].Act? && schedule[i].client == c
  }

  lemma BeforeInit(s: State, schedule: seq<Event>, i: nat)
    requires i < |schedule|
    ensures Before(s, schedule[..|schedule| - 1], i) == Before(s, schedule, i)
  {
    assert schedule[..|schedule| - 1][..i] == schedule[..i];
  }

  // Only its own acts change a client.
  lemma OthersLeaveAlone(t: State, e: Event, c: ClientId)
    requires c in t.clients && !(e.Act? && e.client == c)
    ensures c in Step(t, e).clients && Step(t, e).clients[c] == t.clients[c]
  {
  }

  // A request whose job exists has finished.
  lemma UnfinishedHasNoJob(t: State, c: ClientId)
    requires Inv(t) && c in t.clients && !t.clients[c].pc.Done?
    ensures t.clients[c].request.candidate !in t.jobs
  {
    assert Submitted(t, t.clients[c].request.candidate);
    assert forall d :: !CreatedBy(t, t.clients[c].request.candidate, d);
  }

  // ---- A request that gets its key creates its job ----

  // The reservation under the key of the request, if it has one that is not empty.
  function Found(t: State, r: Request): Option<Reservation> {
    if r.key.Some? && r.key.value != "" then Get(t.reservations, KeyUser(r.key.value, r.user)) else None
  }

  // The key is absent, empty, or free whenever c makes its first insert.
  ghost predicate KeyFree(s: State, schedule: seq<Event>, c: ClientId)
    requires c in s.clients
  {
    forall i: nat :: ActsAt(schedule, c, i) && PcOf(Before(s, schedule, i), c) == Inserting(1) ==>
      Found(Before(s, schedule, i), s.clients[c].request).None?
  }

  // Where a request is that never lost its key and never failed.
  predicate OnItsWay(cl: Client) {
    match cl.pc
    case Arriving => true
    case Inserting(n) => n == 1 && Keyed(cl.request)
    case Fetching => cl.request.source.Url?
    case Creating => true
    case Done(outcome) => outcome == Returned(cl.request.candidate, false)
    case _ => false
  }

  lemma OwnStep(t: State, c: ClientId)
    requires Inv(t) && c in t.clients && OnItsWay(t.clients[c])
    requires t.clients[c].pc.Inserting? ==> Found(t, t.clients[c].request).None?
    ensures c in Step(t, Act(c, true)).clients && OnItsWay(Step(t, Act(c, true)).clients[c])
  {
    if !t.clients[c].pc.Done? {
      UnfinishedHasNoJob(t, c);
    }
  }

  lemma {:induction false} StaysOnItsWay(s: State, schedule: seq<Event>, c: ClientId)
    requires Init(s) && c in s.clients && CallsSucceed(schedule, c) && KeyFree(s, schedule, c)
    ensures c in Run(s, schedule).clients && OnItsWay(Run(s, schedule).clients[c])
  {
    if schedule != [] {
      var n := |schedule| - 1;
      var init, e := schedule[..n], schedule[n];
      assert KeyFree(s, init, c) by {
        forall i: nat | ActsAt(init, c, i)
          ensures ActsAt(schedule, c, i) && Before(s, init, i) == Before(s, schedule, i)
        {
          BeforeInit(s, schedule, i);
        }
      }
      StaysOnItsWay(s, init, c);
      RunKeepsInv(s, init);
      var t := Run(s, init);
      if e.Act? && e.client == c {
        assert ActsAt(schedule, c, n) && Before(s, schedule, n) == t;
        OwnStep(t, c);
      } else {
        OthersLeaveAlone(t, e, c);
      }
    }
  }

  /** If every call of a request succeeds and its key is absent or free at its first insert, the
      finished request has created its job: under its own id, for its entity, format and content, on
      its stored file. */
  lemma {:induction false} FreeKeyCreatesJob(s: State, schedule: seq<Event>, c: ClientId)
    requires Init(s) && c in s.clients && CallsSucceed(schedule, c) && KeyFree(s, schedule, c)
    requires PcOf(Run(s, schedule), c).Done?
    ensures var t, r := Run(s, schedule), s.clients[c].request;
            && PcOf(t, c) == Done(Returned(r.candidate, false))
            && r.candidate in t.jobs
            && t.jobs[r.candidate].request == r
            && t.jobs[r.candidate].inputPath == Path(r.candidate, r.fingerprint.entity, r.fingerprint.format)
            && t.jobs[r.candidate].inputPath in t.files
  {
    var t, r := Run(s, schedule), s.clients[c].request;
    StaysOnItsWay(s, schedule, c);
    RunKeepsInv(s, schedule);
    assert Submitted(s, r.candidate) && Submitted(t, r.candidate);
    var d :| CreatedBy(t, r.candidate, d);
    JobFilesStay(s, schedule, r.candidate);
  }

  // ---- A request whose key names a job is answered with it ----

  // The key of the request is reserved, for the same entity, format and content, by an existing job.
  ghost predicate Answered(t: State, r: Request, j: JobId) {
    && j in t.jobs && r.fingerprint.requestHash != ""
    && Found(t, r) == Some(Reservation(j, Some(r.fingerprint.entity), Some(r.fingerprint.format),
                                       Some(r.fingerprint.requestHash)))
  }

  // Nobody releases the reservation of a job that exists.
  lemma AnsweredStays(t: State, e: Event, r: Request, j: JobId)
    requires Inv(t) && Answered(t, r, j)
    ensures Answered(Step(t, e), r, j)
  {
    if e.Act? && e.client in t.clients {
      var c := e.client;
      MoveKeepsInv(t, c, e.ok);
      if !t.clients[c].pc.Done? {
        UnfinishedHasNoJob(t, c);
      }
    }
  }

  // Where a request is that finds its key reserved for job j.
  predicate OnToJob(pc: Pc, j: JobId) {
    match pc
    case Arriving => true
    case Inserting(_) => true
    case Reading(_) => true
    case Looking(_, i) => i == j
    case Removing(outcome) => outcome == Returned(j, true)
    case Done(outcome) => outcome == Returned(j, true)
    case _ => false
  }

  lemma AnswerStep(t: State, c: ClientId, j: JobId)
    requires Inv(t) && c in t.clients && Answered(t, t.clients[c].request, j) && OnToJob(t.clients[c].pc, j)
    ensures OnToJob(PcOf(Step(t, Act(c, true)), c), j)
  {
    var r := t.clients[c].request;
    MatchesExactly(t.reservations[SlotOf(r)], r.fingerprint);
  }

  // Client c, with request r, is on its way to job j.
  ghost predicate Awaits(t: State, c: ClientId, r: Request, j: JobId) {
    c in t.clients && t.clients[c].request == r && Answered(t, r, j) && OnToJob(t.clients[c].pc, j)
  }

  lemma AwaitsStep(t: State, e: Event, c: ClientId, r: Request, j: JobId)
    requires Inv(t) && Awaits(t, c, r, j) && (e.Act? && e.client == c ==> e.ok)
    ensures Awaits(Step(t, e), c, r, j)
  {
    AnsweredStays(t, e, r, j);
    if e.Act? && e.client == c {
      AnswerStep(t, c, j);
    }
  }

  lemma {:induction false} RunOneMore(s: State, first: seq<Event>, later: seq<Event>)
    requires later != []
    ensures Run(s, first + later) == Step(Run(s, first + later[..|later| - 1]), later[|later| - 1])
  {
    var all := first + later;
    assert all[..|all| - 1] == first + later[..|later| - 1];
  }

  lemma {:induction false} KeepsRequest(s: State, schedule: seq<Event>, c: ClientId)
    requires c in s.clients
    ensures c in Run(s, schedule).clients && Run(s, schedule).clients[c].request == s.clients[c].request
  {
    if schedule != [] {
      KeepsRequest(s, schedule[..|schedule| - 1], c);
      StepKeepsRequests(Run(s, schedule[..|schedule| - 1]), schedule[|schedule| - 1]);
    }
  }

  lemma {:induction false} StaysOnToJob(s: State, first: seq<Event>, later: seq<Event>, c: ClientId, r: Request,
                                        j: JobId)
    requires Init(s) && CallsSucceed(later, c) && Awaits(Run(s, first), c, r, j)
    ensures Awaits(Run(s, first + later), c, r, j)
    decreases |later|
  {
    if later == [] {
      assert first + later == first;
    } else {
      var n := |later| - 1;
      StaysOnToJob(s, first, later[..n], c, r, j);
      RunKeepsInv(s, first + later[..n]);
      RunOneMore(s, first, later);
      AwaitsStep(Run(s, first + later[..n]), later[n], c, r, j);
    }
  }

  /** If at some moment before a request has read its reservation its key is reserved for the same
      entity, format and content by an existing job, and its calls succeed from then on, the finished
      request returns that job and says it is not new. */
  lemma {:induction false} ReservedKeyReturnsJob(s: State, first: seq<Event>, later: seq<Event>, c: ClientId, j: JobId)
    requires Init(s) && c in s.clients && CallsSucceed(later, c)
    requires Answered(Run(s, first), s.clients[c].request, j)
    requires var pc := PcOf(Run(s, first), c); pc.Arriving? || pc.Inserting? || pc.Reading?
    requires PcOf(Run(s, first + later), c).Done?
    ensures PcOf(Run(s, first + later), c) == Done(Returned(j, true))
  {
    KeepsRequest(s, first, c);
    StaysOnToJob(s, first, later, c, s.clients[c].request, j);
  }

  // ---- A request that fails has a reason ----

  // Why a step of the client may end in failure.
  ghost predicate Reason(t: State, cl: Client, ok: bool) {
    var r := cl.request;
    || !ok
    || (cl.pc.Reading? && Found(t, r).Some? && !Recorded(Found(t, r).value, r.fingerprint))
    || (cl.pc.Reading? && Found(t, r).None?)
    || (cl.pc.Checking? && t.now >= cl.deadline)
  }

  predicate Failing(pc: Pc) {
    pc.Releasing? || pc == Removing(Threw) || pc == Done(Threw)
  }

  lemma FailingStep(t: State, c: ClientId, ok: bool)
    requires Inv(t) && c in t.clients && !Failing(t.clients[c].pc) && Failing(PcOf(Step(t, Act(c, ok)), c))
    ensures Reason(t, t.clients[c], ok)
  {
    var cl := t.clients[c];
    var r := cl.request;
    if cl.pc.Creating? {
      UnfinishedHasNoJob(t, c);
    }
    if cl.pc.Reading? && Keyed(r) && SlotOf(r) in t.reservations {
      MatchesExactly(t.reservations[SlotOf(r)], r.fingerprint);
    }
  }

  // Client c acted at event i, and had a reason to fail.
  ghost predicate FailsAt(s: State, schedule: seq<Event>, c: ClientId, i: nat) {
    && ActsAt(schedule, c, i) && c in Before(s, schedule, i).clients
    && Reason(Before(s, schedule, i), Before(s, schedule, i).clients[c], schedule[i].ok)
  }

  // A step at which c starts to fail is its own.
  lemma FailingBefore(t: State, e: Event, c: ClientId)
    requires Inv(t) && c in t.clients && Failing(PcOf(Step(t, e), c)) && !Failing(t.clients[c].pc)
    ensures e.Act? && e.client == c && Reason(t, t.clients[c], e.ok)
  {
    if e.Act? && e.client == c {
      FailingStep(t, c, e.ok);
    } else {
      OthersLeaveAlone(t, e, c);
    }
  }

  lemma {:induction false} FailedEarlier(s: State, schedule: seq<Event>, c: ClientId, i: nat)
    requires schedule != [] && FailsAt(s, schedule[..|schedule| - 1], c, i)
    ensures FailsAt(s, schedule, c, i)
  {
    assert ActsAt(schedule[..|schedule| - 1], c, i);
    BeforeInit(s, schedule, i);
  }

  lemma FailsLast(s: State, schedule: seq<Event>, c: ClientId)
    requires schedule != [] && ActsAt(schedule, c, |schedule| - 1)
    requires var t, e := Run(s, schedule[..|schedule| - 1]), schedule[|schedule| - 1];
             c in t.clients && Reason(t, t.clients[c], e.ok)
    ensures FailsAt(s, schedule, c, |schedule| - 1)
  {
  }

  lemma {:induction false} FailingHasReason(s: State, schedule: seq<Event>, c: ClientId)
    requires Init(s) && c in s.clients && Failing(PcOf(Run(s, schedule), c))
    ensures exists i: nat :: FailsAt(s, schedule, c, i)
  {
    if schedule != [] {
      var n := |schedule| - 1;
      var init := schedule[..n];
      RunKeepsInv(s, init);
      if Failing(PcOf(Run(s, init), c)) {
        FailingHasReason(s, init, c);
        var i: nat :| FailsAt(s, init, c, i);
        FailedEarlier(s, schedule, c, i);
      } else {
        FailingBefore(Run(s, init), schedule[n], c);
        FailsLast(s, schedule, c);
      }
    }
  }

  /** A request that failed had one of these reasons at a step of its own: a call failed; the
      reservation it read was made for another entity, format or content, or without a hash; the
      reservation was released between its insert and its read; or its deadline had passed when it
      found no job yet. */
  lemma {:induction false} ThrewHasReason(s: State, schedule: seq<Event>, c: ClientId)
    requires Init(s) && c in s.clients && PcOf(Run(s, schedule), c) == Done(Threw)
    ensures exists i: nat :: FailsAt(s, schedule, c, i)
  {
    FailingHasReason(s, schedule, c);
  }

  // ---- Deadlines ----

  // Client c arrived at event i, five seconds before the deadline.
  ghost predicate ArrivesAt(s: State, schedule: seq<Event>, c: ClientId, i: nat, deadline: int) {
    && ActsAt(schedule, c, i) && PcOf(Before(s, schedule, i), c) == Arriving
    && Before(s, schedule, i).now + 5000 == deadline
  }

  lemma DeadlineStep(t: State, c: ClientId, ok: bool)
    requires c in t.clients && t.clients[c].pc != Arriving
    ensures c in Step(t, Act(c, ok)).clients && PcOf(Step(t, Act(c, ok)), c) != Arriving
    ensures Step(t, Act(c, ok)).clients[c].deadline == t.clients[c].deadline
  {
  }

  lemma ArrivalStep(t: State, c: ClientId, ok: bool)
    requires c in t.clients && t.clients[c].pc == Arriving && Waiting(PcOf(Step(t, Act(c, ok)), c))
    ensures Step(t, Act(c, ok)).clients[c].deadline == t.now + 5000
  {
  }

  // A client that only ever waits again had been waiting or arriving before.
  lemma WaitedBefore(t: State, c: ClientId, ok: bool)
    requires c in t.clients && Waiting(PcOf(Step(t, Act(c, ok)), c))
    ensures Waiting(t.clients[c].pc) || t.clients[c].pc == Arriving
  {
  }

  // A client that waits after a step waited before it, with the same deadline, or has just arrived.
  lemma WaitingBefore(t: State, e: Event, c: ClientId)
    requires c in t.clients && c in Step(t, e).clients && Waiting(Step(t, e).clients[c].pc)
    ensures (Waiting(t.clients[c].pc) && Step(t, e).clients[c].deadline == t.clients[c].deadline) ||
            (e.Act? && e.client == c && t.clients[c].pc == Arriving &&
             Step(t, e).clients[c].deadline == t.now + 5000)
  {
    if e.Act? && e.client == c {
      if t.clients[c].pc == Arriving {
        ArrivalStep(t, c, e.ok);
      } else {
        WaitedBefore(t, c, e.ok);
        DeadlineStep(t, c, e.ok);
      }
    } else {
      OthersLeaveAlone(t, e, c);
    }
  }

  lemma {:induction false} ArrivedEarlier(s: State, schedule: seq<Event>, c: ClientId, i: nat, deadline: int)
    requires schedule != [] && ArrivesAt(s, schedule[..|schedule| - 1], c, i, deadline)
    ensures ArrivesAt(s, schedule, c, i, deadline)
  {
    assert ActsAt(schedule[..|schedule| - 1], c, i);
    BeforeInit(s, schedule, i);
  }

  lemma ArrivesLast(s: State, schedule: seq<Event>, c: ClientId)
    requires schedule != [] && ActsAt(schedule, c, |schedule| - 1)
    requires PcOf(Run(s, schedule[..|schedule| - 1]), c) == Arriving
    ensures ArrivesAt(s, schedule, c, |schedule| - 1, Run(s, schedule[..|schedule| - 1]).now + 5000)
  {
  }

  lemma {:induction false} ArrivalOf(s: State, schedule: seq<Event>, c: ClientId) returns (i: nat, deadline: int)
    requires c in s.clients && s.clients[c].pc == Arriving && Waiting(PcOf(Run(s, schedule), c))
    ensures c in Run(s, schedule).clients && deadline == Run(s, schedule).clients[c].deadline
    ensures ArrivesAt(s, schedule, c, i, deadline)
  {
    KeepsRequest(s, schedule, c);
    if schedule != [] {
      var init := schedule[..|schedule| - 1];
      KeepsRequest(s, init, c);
      WaitingBefore(Run(s, init), schedule[|schedule| - 1], c);
      if Waiting(PcOf(Run(s, init), c)) {
        i, deadline := ArrivalOf(s, init, c);
        ArrivedEarlier(s, schedule, c, i, deadline);
      } else {
        i, deadline := |schedule| - 1, Run(s, init).now + 5000;
        ArrivesLast(s, schedule, c);
      }
    }
  }

  /** A waiting request gives up no sooner than five seconds after it arrived: its deadline is the
      time of its arrival and 5000 milliseconds. */
  lemma {:induction false} DeadlineIsFiveSeconds(s: State, schedule: seq<Event>, c: ClientId)
    requires Init(s) && c in s.clients && Waiting(PcOf(Run(s, schedule), c))
    ensures c in Run(s, schedule).clients
    ensures exists i: nat :: ArrivesAt(s, schedule, c, i, Run(s, schedule).clients[c].deadline)
  {
    var i, deadline := ArrivalOf(s, schedule, c);
  }

  // ---- Every request finishes ----

  // The client sleeps, and its time has not come.
  predicate Asleep(t: State, c: ClientId) {
    var pc := PcOf(t, c);
    pc.Sleeping? && t.now < pc.until
  }

  // How often c was given a turn and not asleep.
  function Turns(s: State, schedule: seq<Event>, c: ClientId): nat {
    if schedule == [] then 0
    else
      var init, e := schedule[..|schedule| - 1], schedule[|schedule| - 1];
      Turns(s, init, c) + if TakesTurn(Run(s, init), e, c) then 1 else 0
  }

  lemma MovesOn(t: State, cl: Client, ok: bool)
    requires !cl.pc.Done? && !(cl.pc.Sleeping? && t.now < cl.pc.until)
    ensures NextMove(t, cl, ok).pc != cl.pc
  {
  }

  lemma TurnProgresses(t: State, c: ClientId, ok: bool)
    requires Inv(t) && c in t.clients && !Asleep(t, c) && !t.clients[c].pc.Done?
    ensures Remaining(PcOf(Step(t, Act(c, ok)), c)) < Remaining(t.clients[c].pc)
  {
    assert OnTime(t.clients[c], t.now);
    MovesOn(t, t.clients[c], ok);
    MoveProgresses(t, t.clients[c], ok);
  }

  predicate TakesTurn(t: State, e: Event, c: ClientId) {
    e.Act? && e.client == c && !Asleep(t, c)
  }

  // Every turn brings the client nearer to its end, and nothing takes it back.
  lemma TurnStep(t: State, e: Event, c: ClientId)
    requires Inv(t) && c in t.clients
    ensures var after := PcOf(Step(t, e), c);
            after.Done? || Remaining(after) + (if TakesTurn(t, e, c) then 1 else 0) <= Remaining(t.clients[c].pc)
  {
    if TakesTurn(t, e, c) && !t.clients[c].pc.Done? {
      TurnProgresses(t, c, e.ok);
    } else {
      StepProgresses(t, e, c);
    }
  }

  lemma DoneStays(t: State, e: Event, c: ClientId)
    requires c in t.clients && t.clients[c].pc.Done?
    ensures PcOf(Step(t, e), c).Done?
  {
  }

  lemma {:induction false} TurnsAndRemaining(s: State, schedule: seq<Event>, c: ClientId)
    requires Init(s) && c in s.clients
    ensures PcOf(Run(s, schedule), c).Done? ||
            Turns(s, schedule, c) + Remaining(PcOf(Run(s, schedule), c)) <= Remaining(Arriving)
  {
    if schedule != [] {
      var init, e := schedule[..|schedule| - 1], schedule[|schedule| - 1];
      TurnsAndRemaining(s, init, c);
      RunKeepsInv(s, init);
      TurnStep(Run(s, init), e, c);
      if PcOf(Run(s, init), c).Done? {
        DoneStays(Run(s, init), e, c);
      }
    }
  }

  lemma RemainingTurns(t: State, c: ClientId)
    requires Inv(t) && c in t.clients && !t.clients[c].pc.Done?
    ensures Remaining(t.clients[c].pc) > 0
  {
    assert OnTime(t.clients[c], t.now);
  }

  /** Every request finishes: after 261 turns at which it is not asleep it has returned or thrown. */
  lemma {:induction false} RequestFinishes(s: State, schedule: seq<Event>, c: ClientId)
    requires Init(s) && c in s.clients && Turns(s, schedule, c) >= 261
    ensures PcOf(Run(s, schedule), c).Done?
  {
    TurnsAndRemaining(s, schedule, c);
    RunKeepsInv(s, schedule);
    if !PcOf(Run(s, schedule), c).Done? {
      RemainingTurns(Run(s, schedule), c);
    }
  }

  // ---- Requests without a key ----

  /** A request without a key, or with an empty one, never reserves, releases or waits for one. */
  lemma KeylessStep(t: State, c: ClientId, ok: bool)
    requires WaitersKeyed(t) && c in t.clients
    requires t.clients[c].request.key == None || t.clients[c].request.key == Some("")
    ensures Step(t, Act(c, ok)).reservations == t.reservations && Step(t, Act(c, ok)).stuck == t.stuck
    ensures !Waiting(PcOf(Step(t, Act(c, ok)), c))
  {
  }

  // ---- What failed clean-ups leave ----

  // Client c failed to release its key at event i.
  ghost predicate ReleaseFailedAt(s: State, schedule: seq<Event>, c: ClientId, i: nat) {
    ActsAt(schedule, c, i) && !schedule[i].ok && PcOf(Before(s, schedule, i), c).Releasing?
  }

  // Client c failed to remove its file at event i.
  ghost predicate RemovalFailedAt(s: State, schedule: seq<Event>, c: ClientId, i: nat) {
    ActsAt(schedule, c, i) && !schedule[i].ok && PcOf(Before(s, schedule, i), c).Removing?
  }

  lemma LeftoverStep(t: State, e: Event)
    requires WaitersKeyed(t)
    ensures Step(t, e).stuck == t.stuck || (e.Act? && !e.ok && PcOf(t, e.client).Releasing?)
    ensures Step(t, e).leaked == t.leaked || (e.Act? && !e.ok && PcOf(t, e.client).Removing?)
  {
  }

  lemma {:induction false} FailureEarlier(s: State, schedule: seq<Event>, init: seq<Event>)
    requires schedule != [] && init == schedule[..|schedule| - 1]
    ensures (exists c, i: nat :: ReleaseFailedAt(s, init, c, i)) ==>
            exists c, i: nat :: ReleaseFailedAt(s, schedule, c, i)
    ensures (exists c, i: nat :: RemovalFailedAt(s, init, c, i)) ==>
            exists c, i: nat :: RemovalFailedAt(s, schedule, c, i)
  {
    if c, i: nat :| ReleaseFailedAt(s, init, c, i) {
      BeforeInit(s, schedule, i);
      assert ReleaseFailedAt(s, schedule, c, i);
    }
    if c, i: nat :| RemovalFailedAt(s, init, c, i) {
      BeforeInit(s, schedule, i);
      assert RemovalFailedAt(s, schedule, c, i);
    }
  }

  lemma {:induction false} StuckNeedsFailure(s: State, schedule: seq<Event>)
    requires Init(s) && Run(s, schedule).stuck != {}
    ensures exists c, i: nat :: ReleaseFailedAt(s, schedule, c, i)
  {
    if schedule != [] {
      var n := |schedule| - 1;
      var t, e := Run(s, schedule[..n]), schedule[n];
      RunKeepsInv(s, schedule[..n]);
      LeftoverStep(t, e);
      if t.stuck != {} {
        StuckNeedsFailure(s, schedule[..n]);
        FailureEarlier(s, schedule, schedule[..n]);
      } else {
        assert ReleaseFailedAt(s, schedule, e.client, n);
      }
    }
  }

  lemma {:induction false} LeakNeedsFailure(s: State, schedule: seq<Event>)
    requires Init(s) && Run(s, schedule).leaked != {}
    ensures exists c, i: nat :: RemovalFailedAt(s, schedule, c, i)
  {
    if schedule != [] {
      var n := |schedule| - 1;
      var t, e := Run(s, schedule[..n]), schedule[n];
      RunKeepsInv(s, schedule[..n]);
      LeftoverStep(t, e);
      if t.leaked != {} {
        LeakNeedsFailure(s, schedule[..n]);
        FailureEarlier(s, schedule, schedule[..n]);
      } else {
        assert RemovalFailedAt(s, schedule, e.client, n);
      }
    }
  }

  /** A reservation is left standing only if some release failed, and a file only if some removal did. */
  lemma {:induction false} LeftoversNeedFailure(s: State, schedule: seq<Event>)
    requires Init(s)
    ensures Run(s, schedule).stuck != {} ==> exists c, i: nat :: ReleaseFailedAt(s, schedule, c, i)
    ensures Run(s, schedule).leaked != {} ==> exists c, i: nat :: RemovalFailedAt(s, schedule, c, i)
  {
    if Run(s, schedule).stuck != {} {
      StuckNeedsFailure(s, schedule);
    }
    if Run(s, schedule).leaked != {} {
      LeakNeedsFailure(s, schedule);
    }
  }
}
