/** Idempotent submission: clients share the job table, the reservation table, the stored files
    and the clock, and interleave freely. A client that stops anywhere is one that is never
    scheduled again. Each transition is one database call, one file operation or one clock read. */
module Idempotency {
  import opened Model

  type JobId = string
  type ClientId = nat

  const WAIT_TIMEOUT_MS := 5000
  const WAIT_POLL_MS := 100
  const MAX_ATTEMPTS := 51

  datatype Format = Ndjson | JsonArray | Csv

  datatype Fingerprint = Fingerprint(entity: Entity, format: Format, requestHash: string)

  datatype Source = Upload | Url

  // One HTTP request; its candidate job id is a fresh UUID.
  datatype Request = Request(source: Source, user: string, key: Option<string>, fingerprint: Fingerprint,
                             candidate: JobId)

  // Absent and empty keys both mean "no idempotency".
  predicate Keyed(r: Request) {
    r.key.Some? && r.key.value != ""
  }

  datatype KeyUser = KeyUser(key: string, user: string)

  function SlotOf(r: Request): KeyUser
    requires Keyed(r)
  {
    KeyUser(r.key.value, r.user)
  }

  // Rows written before fingerprints existed may lack them.
  datatype Reservation = Reservation(jobId: JobId, entity: Option<Entity>, format: Option<Format>,
                                     requestHash: Option<string>)

  datatype Conflict = OtherResource | OtherFormat | NoFingerprint | OtherPayload

  function CheckMatch(reserved: Reservation, expected: Fingerprint): Option<Conflict> {
    if reserved.entity.Some? && reserved.entity.value != expected.entity then Some(OtherResource)
    else if reserved.format.Some? && reserved.format.value != expected.format then Some(OtherFormat)
    else if reserved.requestHash.None? || reserved.requestHash.value == "" then Some(NoFingerprint)
    else if reserved.requestHash.value != expected.requestHash then Some(OtherPayload)
    else None
  }

  // The reservation carries the hash of the request, and no other entity or format.
  predicate Recorded(reserved: Reservation, f: Fingerprint) {
    && (reserved.entity.Some? ==> reserved.entity.value == f.entity)
    && (reserved.format.Some? ==> reserved.format.value == f.format)
    && f.requestHash != "" && reserved.requestHash == Some(f.requestHash)
  }

  /** A reservation is accepted exactly if it is recorded for the same request. Otherwise the conflict
      names the first recorded thing that differs. */
  lemma MatchesExactly(reserved: Reservation, f: Fingerprint)
    ensures CheckMatch(reserved, f).None? <==> Recorded(reserved, f)
    ensures var other := reserved.entity.Some? && reserved.entity.value != f.entity;
            var reformatted := reserved.format.Some? && reserved.format.value != f.format;
            var unhashed := reserved.requestHash.None? || reserved.requestHash.value == "";
            && (CheckMatch(reserved, f) == Some(OtherResource) <==> other)
            && (CheckMatch(reserved, f) == Some(OtherFormat) <==> !other && reformatted)
            && (CheckMatch(reserved, f) == Some(NoFingerprint) <==> !other && !reformatted && unhashed)
            && (CheckMatch(reserved, f) == Some(OtherPayload) <==>
                  !other && !reformatted && !unhashed && !Recorded(reserved, f))
  {
  }

  datatype Path = Path(jobId: JobId, entity: Entity, format: Format)

  function PathOf(r: Request): Path {
    Path(r.candidate, r.fingerprint.entity, r.fingerprint.format)
  }

  datatype Job = Job(request: Request, inputPath: Path)

  datatype Outcome = Returned(jobId: JobId, idempotent: bool) | Threw

  datatype Pc =
    | Arriving                        // nothing done yet
    | Inserting(attempt: nat)         // about to insert the reservation
    | Reading(attempt: nat)           // lost the insert; about to read the reservation
    | Looking(attempt: nat, jobId: JobId)  // about to look the reserved job up
    | Checking(attempt: nat)          // job not there yet; about to compare the clock with the deadline
    | Sleeping(attempt: nat, until: int)
    | Fetching                        // downloads the URL
    | Creating                        // about to insert the job
    | Releasing(stored: bool)         // about to delete the reservation; has a stored file or not
    | Removing(outcome: Outcome)      // about to remove the stored file
    | Done(outcome: Outcome)

  datatype Client = Client(request: Request, pc: Pc, deadline: int)

  datatype State = State(reservations: map<KeyUser, Reservation>, jobs: map<JobId, Job>, files: set<Path>,
                         leaked: set<Path>, stuck: set<KeyUser>, now: int, clients: map<ClientId, Client>)

  // The environment's choice at a step: does the external call succeed.
  datatype Event = Tick(ms: nat) | Act(client: ClientId, ok: bool)

  // The reservation a request writes.
  function ReservationOf(r: Request): Reservation {
    Reservation(r.candidate, Some(r.fingerprint.entity), Some(r.fingerprint.format), Some(r.fingerprint.requestHash))
  }

  // The one shared thing a step may change besides its own client.
  datatype Write = Nothing | Reserve | Release | AbandonKey | CreateJob | StoreFile | RemoveFile | LeakFile

  datatype Move = Move(pc: Pc, deadline: int, write: Write)

  // An upload has stored its file before it reserves, so it has a file to remove; a URL import has none yet.
  function Quit(r: Request, outcome: Outcome): Pc {
    if r.source.Upload? then Removing(outcome) else Done(outcome)
  }

  // What the owner of a submission does next: an upload is stored already, a URL is downloaded.
  function Proceed(r: Request): Pc {
    if r.source.Upload? then Creating else Fetching
  }

  function NextMove(s: State, cl: Client, ok: bool): Move {
    var r := cl.request;
    match cl.pc
    case Arriving =>
      if r.source.Upload? && !ok then Move(Done(Threw), cl.deadline, Nothing)
      else
        Move(if Keyed(r) then Inserting(1) else Proceed(r), s.now + WAIT_TIMEOUT_MS,
             if r.source.Upload? then StoreFile else Nothing)
    case Inserting(n) =>
      if !ok || !Keyed(r) then Move(Quit(r, Threw), cl.deadline, Nothing)
      else if SlotOf(r) in s.reservations then Move(Reading(n), cl.deadline, Nothing)
      else Move(Proceed(r), cl.deadline, Reserve)
    case Reading(n) =>
      if !ok || !Keyed(r) || SlotOf(r) !in s.reservations then Move(Quit(r, Threw), cl.deadline, Nothing)
      else if CheckMatch(s.reservations[SlotOf(r)], r.fingerprint).Some? then Move(Quit(r, Threw), cl.deadline, Nothing)
      else Move(Looking(n, s.reservations[SlotOf(r)].jobId), cl.deadline, Nothing)
    case Looking(n, jobId) =>
      if !ok then Move(Quit(r, Threw), cl.deadline, Nothing)
      else if jobId in s.jobs then Move(Quit(r, Returned(jobId, true)), cl.deadline, Nothing)
      else Move(Checking(n), cl.deadline, Nothing)
    case Checking(n) =>
      if s.now >= cl.deadline then Move(Quit(r, Threw), cl.deadline, Nothing)
      else Move(Sleeping(n, s.now + WAIT_POLL_MS), cl.deadline, Nothing)
    case Sleeping(n, until) =>
      if s.now < until then Move(cl.pc, cl.deadline, Nothing) else Move(Inserting(n + 1), cl.deadline, Nothing)
    case Fetching =>
      if ok then Move(Creating, cl.deadline, StoreFile) else Move(Releasing(false), cl.deadline, Nothing)
    case Creating =>
      if ok && r.candidate !in s.jobs then Move(Done(Returned(r.candidate, false)), cl.deadline, CreateJob)
      else Move(Releasing(true), cl.deadline, Nothing)
    case Releasing(stored) =>
      Move(if stored then Removing(Threw) else Done(Threw), cl.deadline,
           if !Keyed(r) then Nothing else if ok then Release else AbandonKey)
    case Removing(outcome) =>
      Move(Done(outcome), cl.deadline, if ok then RemoveFile else LeakFile)
    case Done(_) => Move(cl.pc, cl.deadline, Nothing)
  }

  predicate OnKey(w: Write) {
    w.Reserve? || w.Release? || w.AbandonKey?
  }

  function Apply(s: State, c: ClientId, m: Move): State
    requires c in s.clients && (OnKey(m.write) ==> Keyed(s.clients[c].request))
  {
    var r := s.clients[c].request;
    State(if m.write.Reserve? then s.reservations[SlotOf(r) := ReservationOf(r)]
          else if m.write.Release? then s.reservations - {SlotOf(r)} else s.reservations,
          if m.write.CreateJob? then s.jobs[r.candidate := Job(r, PathOf(r))] else s.jobs,
          if m.write.StoreFile? then s.files + {PathOf(r)}
          else if m.write.RemoveFile? then s.files - {PathOf(r)} else s.files,
          if m.write.LeakFile? then s.leaked + {PathOf(r)} else s.leaked,
          if m.write.AbandonKey? then s.stuck + {SlotOf(r)} else s.stuck,
          s.now,
          s.clients[c := Client(r, m.pc, m.deadline)])
  }

  function Step(s: State, e: Event): State {
    match e
    case Tick(ms) => s.(now := s.now + ms)
    case Act(c, ok) => if c in s.clients then Apply(s, c, NextMove(s, s.clients[c], ok)) else s
  }

  function Run(s: State, schedule: seq<Event>): State {
    if schedule == [] then s else Step(Run(s, schedule[..|schedule| - 1]), schedule[|schedule| - 1])
  }

  // One of the requests has this candidate id. All other rows and files are older than the requests.
  ghost predicate Submitted(s: State, j: JobId) {
    exists c :: c in s.clients && s.clients[c].request.candidate == j
  }

  // Before the first request: candidate ids that are all different, and none of them in use. The
  // tables may hold older reservations, with or without a fingerprint, and older jobs.
  ghost predicate Init(s: State) {
    && (forall slot :: slot in s.reservations ==> !Submitted(s, s.reservations[slot].jobId))
    && (forall j :: j in s.jobs ==> !Submitted(s, j))
    && (forall p :: p in s.files ==> !Submitted(s, p.jobId))
    && s.leaked == {} && s.stuck == {}
    && (forall c :: c in s.clients ==> s.clients[c].pc == Arriving)
    && DistinctCandidates(s)
  }

  // ---- The invariant ----

  // Between inserting its reservation and releasing it, a client owns it.
  predicate Owns(cl: Client) {
    Keyed(cl.request) && (cl.pc.Fetching? || cl.pc.Creating? || cl.pc.Releasing?)
  }

  predicate HoldsFile(cl: Client) {
    match cl.pc
    case Arriving => false
    case Fetching => false
    case Releasing(stored) => stored
    case Creating => true
    case Removing(_) => true
    case Done(_) => false
    case _ => cl.request.source.Upload?
  }

  predicate SameSlot(a: Request, b: Request) {
    a.key == b.key && a.user == b.user && a.key != None && a.key != Some("")
  }

  ghost predicate DistinctCandidates(s: State) {
    forall c, d :: (c in s.clients && d in s.clients &&
                    s.clients[c].request.candidate == s.clients[d].request.candidate) ==> c == d
  }

  // Every reservation is older, or was written by some request with that key, user and fingerprint.
  ghost predicate WrittenBy(s: State, slot: KeyUser, c: ClientId) {
    c in s.clients && Keyed(s.clients[c].request) && SlotOf(s.clients[c].request) == slot &&
    slot in s.reservations && s.reservations[slot] == ReservationOf(s.clients[c].request)
  }
  ghost predicate ReservationsGenuine(s: State) {
    forall slot :: slot in s.reservations && Submitted(s, s.reservations[slot].jobId) ==>
      exists c :: WrittenBy(s, slot, c)
  }

  ghost predicate OwnersHold(s: State) {
    forall c :: c in s.clients && Owns(s.clients[c]) ==>
      var r := s.clients[c].request;
      SlotOf(r) in s.reservations && s.reservations[SlotOf(r)].jobId == r.candidate
  }

  // A job that is not older was created by the one client whose candidate id it has, which then finished; its
  // reservation, if it has a key, is still in place.
  ghost predicate CreatedBy(s: State, j: JobId, c: ClientId) {
    c in s.clients && s.clients[c].request.candidate == j && s.clients[c].pc == Done(Returned(j, false)) &&
    j in s.jobs && s.jobs[j] == Job(s.clients[c].request, PathOf(s.clients[c].request))
  }
  ghost predicate JobsGenuine(s: State) {
    forall j :: j in s.jobs && Submitted(s, j) ==>
      && (exists c :: CreatedBy(s, j, c))
      && (Keyed(s.jobs[j].request) ==>
           SlotOf(s.jobs[j].request) in s.reservations && s.reservations[SlotOf(s.jobs[j].request)].jobId == j)
  }

  // The job a waiting client looks for, or has found, belongs to a matching request, or to an older
  // reservation that matches as far as its fingerprint goes.
  ghost predicate Matching(s: State, r: Request, j: JobId, d: ClientId) {
    && d in s.clients && s.clients[d].request.candidate == j
    && SameSlot(r, s.clients[d].request) && s.clients[d].request.fingerprint == r.fingerprint
  }

  ghost predicate MatchingOlder(s: State, r: Request, j: JobId) {
    && !Submitted(s, j) && Keyed(r) && SlotOf(r) in s.reservations
    && s.reservations[SlotOf(r)].jobId == j && Recorded(s.reservations[SlotOf(r)], r.fingerprint)
  }

  ghost predicate ClaimRight(s: State, r: Request, j: JobId) {
    MatchingOlder(s, r, j) || exists d :: Matching(s, r, j, d)
  }

  function Claimed(pc: Pc): Option<JobId> {
    match pc
    case Looking(_, j) => Some(j)
    case Removing(Returned(j, idempotent)) => if idempotent then Some(j) else None
    case Done(Returned(j, idempotent)) => if idempotent then Some(j) else None
    case _ => None
  }

  ghost predicate ClaimsGenuine(s: State) {
    forall c :: c in s.clients && Claimed(s.clients[c].pc).Some? ==>
      ClaimRight(s, s.clients[c].request, Claimed(s.clients[c].pc).value)
  }

  predicate ReturnedOutcome(pc: Pc): (found: bool) {
    (pc.Done? && pc.outcome.Returned?) || (pc.Removing? && pc.outcome.Returned?)
  }

  ghost predicate ResultsGenuine(s: State) {
    forall c :: c in s.clients && ReturnedOutcome(s.clients[c].pc) ==>
      var o := s.clients[c].pc.outcome;
      o.jobId in s.jobs && (!o.idempotent ==> o.jobId == s.clients[c].request.candidate)
  }

  ghost predicate FileOf(s: State, p: Path, c: ClientId) {
    c in s.clients && PathOf(s.clients[c].request) == p
  }

  // A request's file is stored exactly while the request holds it, once its job exists, or when
  // its removal failed.
  ghost predicate FileRight(s: State, c: ClientId)
    requires c in s.clients
  {
    var p := PathOf(s.clients[c].request);
    p in s.files <==> HoldsFile(s.clients[c]) || s.clients[c].request.candidate in s.jobs || p in s.leaked
  }

  ghost predicate FilesAccounted(s: State) {
    && (forall c :: c in s.clients ==> FileRight(s, c))
    && (forall p :: p in s.files && Submitted(s, p.jobId) ==> exists c :: FileOf(s, p, c))
    && (forall p :: p in s.leaked ==> exists c :: FileOf(s, p, c) && s.clients[c].pc.Done?)
  }

  // A reservation stands only while its writer is at work, once its job exists, or when its
  // release failed.
  ghost predicate ReservationRight(s: State, c: ClientId)
    requires c in s.clients
  {
    var r := s.clients[c].request;
    Keyed(r) && SlotOf(r) in s.reservations && s.reservations[SlotOf(r)].jobId == r.candidate ==>
      Owns(s.clients[c]) || r.candidate in s.jobs || SlotOf(r) in s.stuck
  }

  ghost predicate ReservationsAccounted(s: State) {
    forall c :: c in s.clients ==> ReservationRight(s, c)
  }

  // The clock: attempt n cannot start before 100 (n - 1) ms have passed since the first.
  predicate OnTime(cl: Client, now: int) {
    var start := cl.deadline - WAIT_TIMEOUT_MS;
    match cl.pc
    case Inserting(n) => 1 <= n <= MAX_ATTEMPTS && now >= start + WAIT_POLL_MS * (n - 1)
    case Reading(n) => 1 <= n <= MAX_ATTEMPTS && now >= start + WAIT_POLL_MS * (n - 1)
    case Looking(n, _) => 1 <= n <= MAX_ATTEMPTS && now >= start + WAIT_POLL_MS * (n - 1)
    case Checking(n) => 1 <= n <= MAX_ATTEMPTS && now >= start + WAIT_POLL_MS * (n - 1)
    case Sleeping(n, until) => 1 <= n < MAX_ATTEMPTS && until >= start + WAIT_POLL_MS * n
    case _ => true
  }

  ghost predicate AllOnTime(s: State) {
    forall c :: c in s.clients ==> OnTime(s.clients[c], s.now)
  }

  predicate Waiting(pc: Pc) {
    pc.Inserting? || pc.Reading? || pc.Looking? || pc.Checking? || pc.Sleeping?
  }

  // Only a client with a key ever waits for a reservation.
  ghost predicate WaitersKeyed(s: State) {
    forall c :: c in s.clients && Waiting(s.clients[c].pc) ==> Keyed(s.clients[c].request)
  }

  ghost predicate Inv(s: State) {
    && DistinctCandidates(s) && ReservationsGenuine(s) && OwnersHold(s) && JobsGenuine(s)
    && ClaimsGenuine(s) && ResultsGenuine(s) && FilesAccounted(s) && ReservationsAccounted(s)
    && AllOnTime(s) && WaitersKeyed(s)
  }

  lemma InitInv(s: State)
    requires Init(s)
    ensures Inv(s)
  {
  }

  // What the proofs below need to know of a move.
  ghost predicate Writes(s: State, cl: Client, m: Move) {
    var r := cl.request;
    match m.write
    case Reserve => cl.pc.Inserting? && Keyed(r) && SlotOf(r) !in s.reservations && m.pc == Proceed(r)
    case Release =>
      && cl.pc.Releasing? && Keyed(r) && (m.pc.Removing? || m.pc.Done?)
      && HoldsFile(Client(r, m.pc, m.deadline)) == HoldsFile(cl)
    case AbandonKey =>
      && cl.pc.Releasing? && Keyed(r) && (m.pc.Removing? || m.pc.Done?)
      && HoldsFile(Client(r, m.pc, m.deadline)) == HoldsFile(cl)
    case CreateJob => cl.pc.Creating? && r.candidate !in s.jobs && m.pc == Done(Returned(r.candidate, false))
    case StoreFile => HoldsFile(Client(r, m.pc, m.deadline)) && !HoldsFile(cl) && (cl.pc.Arriving? || cl.pc.Fetching?)
    case RemoveFile => cl.pc.Removing? && m.pc.Done?
    case LeakFile => cl.pc.Removing? && m.pc.Done?
    case Nothing => HoldsFile(Client(r, m.pc, m.deadline)) == HoldsFile(cl)
  }

  ghost predicate Follows(s: State, cl: Client, m: Move) {
    var r := cl.request;
    && Writes(s, cl, m)
    && (cl.pc.Done? ==> m.pc == cl.pc && m.write.Nothing?)
    && (Keyed(r) && (m.pc.Fetching? || m.pc.Creating? || m.pc.Releasing?) ==>
         m.write.Reserve? || (Owns(cl) && !m.write.Release?))
    && (Owns(cl) && !Owns(Client(r, m.pc, m.deadline)) ==>
          m.write.Release? || m.write.AbandonKey? || m.write.CreateJob?)
    && (Claimed(m.pc).Some? ==>
         Claimed(m.pc) == Claimed(cl.pc) ||
         (Keyed(r) && SlotOf(r) in s.reservations && CheckMatch(s.reservations[SlotOf(r)], r.fingerprint).None? &&
          Claimed(m.pc).value == s.reservations[SlotOf(r)].jobId))
    && (ReturnedOutcome(m.pc) ==>
         (ReturnedOutcome(cl.pc) && cl.pc.outcome == m.pc.outcome) ||
         (m.pc.outcome.idempotent && m.pc.outcome.jobId in s.jobs) ||
         (m.write.CreateJob? && m.pc.outcome == Returned(r.candidate, false)))
  }

  lemma MoveFollows(s: State, cl: Client, ok: bool)
    requires Waiting(cl.pc) ==> Keyed(cl.request)
    ensures Follows(s, cl, NextMove(s, cl, ok))
  {
  }

  lemma MoveOnTime(s: State, cl: Client, ok: bool)
    requires OnTime(cl, s.now) && (Waiting(cl.pc) ==> Keyed(cl.request))
    ensures var m := NextMove(s, cl, ok); OnTime(Client(cl.request, m.pc, m.deadline), s.now)
    ensures Waiting(NextMove(s, cl, ok).pc) ==> Keyed(cl.request)
  {
  }

  lemma SubmittedStays(s: State, c: ClientId, m: Move)
    requires c in s.clients && Follows(s, s.clients[c], m)
    ensures forall j :: Submitted(Apply(s, c, m), j) <==> Submitted(s, j)
  {
    var s' := Apply(s, c, m);
    forall j ensures Submitted(s', j) <==> Submitted(s, j) {
      if d :| d in s.clients && s.clients[d].request.candidate == j {
        assert s'.clients[d].request.candidate == j;
      }
      if d :| d in s'.clients && s'.clients[d].request.candidate == j {
        assert s.clients[d].request.candidate == j;
      }
    }
  }

  // Nobody removes an older reservation.
  lemma OlderReservationStays(s: State, c: ClientId, m: Move, slot: KeyUser)
    requires OwnersHold(s) && c in s.clients && Follows(s, s.clients[c], m)
    requires slot in s.reservations && !Submitted(s, s.reservations[slot].jobId)
    ensures slot in Apply(s, c, m).reservations && Apply(s, c, m).reservations[slot] == s.reservations[slot]
  {
  }

  lemma StepKeepsOwners(s: State, c: ClientId, m: Move)
    requires DistinctCandidates(s) && OwnersHold(s) && c in s.clients && Follows(s, s.clients[c], m)
    ensures OwnersHold(Apply(s, c, m))
  {
  }

  lemma StepKeepsReservations(s: State, c: ClientId, m: Move)
    requires ReservationsGenuine(s) && c in s.clients && Follows(s, s.clients[c], m)
    ensures ReservationsGenuine(Apply(s, c, m))
  {
    var s' := Apply(s, c, m);
    SubmittedStays(s, c, m);
    forall slot | slot in s'.reservations && Submitted(s', s'.reservations[slot].jobId)
      ensures exists d :: WrittenBy(s', slot, d)
    {
      if slot in s.reservations {
        var d :| WrittenBy(s, slot, d);
        assert WrittenBy(s', slot, d);
      } else {
        assert WrittenBy(s', slot, c);
      }
    }
  }

  lemma StepKeepsJobs(s: State, c: ClientId, m: Move)
    requires DistinctCandidates(s) && OwnersHold(s) && JobsGenuine(s) && c in s.clients && Follows(s, s.clients[c], m)
    ensures JobsGenuine(Apply(s, c, m))
  {
    var s' := Apply(s, c, m);
    SubmittedStays(s, c, m);
    forall j | j in s'.jobs && Submitted(s', j)
      ensures exists d :: CreatedBy(s', j, d)
      ensures Keyed(s'.jobs[j].request) ==>
        (SlotOf(s'.jobs[j].request) in s'.reservations && s'.reservations[SlotOf(s'.jobs[j].request)].jobId == j)
    {
      if j in s.jobs {
        var d :| CreatedBy(s, j, d);
        assert CreatedBy(s', j, d);
      } else {
        assert CreatedBy(s', j, c);
      }
    }
  }

  lemma ClaimStays(s: State, c: ClientId, m: Move, r: Request, j: JobId)
    requires OwnersHold(s) && c in s.clients && Follows(s, s.clients[c], m) && ClaimRight(s, r, j)
    ensures ClaimRight(Apply(s, c, m), r, j)
  {
    if MatchingOlder(s, r, j) {
      SubmittedStays(s, c, m);
      OlderReservationStays(s, c, m, SlotOf(r));
    } else {
      var d :| Matching(s, r, j, d);
      assert Matching(Apply(s, c, m), r, j, d);
    }
  }

  // What a request finds reserved under its key and accepts is right to claim.
  lemma ReservedIsRight(s: State, r: Request)
    requires ReservationsGenuine(s) && Keyed(r) && SlotOf(r) in s.reservations
    requires CheckMatch(s.reservations[SlotOf(r)], r.fingerprint).None?
    ensures ClaimRight(s, r, s.reservations[SlotOf(r)].jobId)
  {
    if Submitted(s, s.reservations[SlotOf(r)].jobId) {
      var e :| WrittenBy(s, SlotOf(r), e);
      assert Matching(s, r, s.reservations[SlotOf(r)].jobId, e);
    }
  }

  lemma StepKeepsClaims(s: State, c: ClientId, m: Move)
    requires ReservationsGenuine(s) && OwnersHold(s) && ClaimsGenuine(s) && c in s.clients
    requires Follows(s, s.clients[c], m)
    ensures ClaimsGenuine(Apply(s, c, m))
  {
    var s' := Apply(s, c, m);
    forall d | d in s'.clients && Claimed(s'.clients[d].pc).Some?
      ensures ClaimRight(s', s'.clients[d].request, Claimed(s'.clients[d].pc).value)
    {
      var r, j := s.clients[d].request, Claimed(s'.clients[d].pc).value;
      if Claimed(s'.clients[d].pc) != Claimed(s.clients[d].pc) {
        ReservedIsRight(s, r);
      }
      ClaimStays(s, c, m, r, j);
    }
  }

  lemma StepKeepsResults(s: State, c: ClientId, m: Move)
    requires ResultsGenuine(s) && c in s.clients && Follows(s, s.clients[c], m)
    ensures ResultsGenuine(Apply(s, c, m))
  {
  }

  // Another request's file: its path and its candidate id differ from the actor's.
  lemma StepKeepsOtherFile(s: State, c: ClientId, m: Move, d: ClientId)
    requires DistinctCandidates(s) && c in s.clients && d in s.clients && d != c
    requires Follows(s, s.clients[c], m) && FileRight(s, d)
    ensures FileRight(Apply(s, c, m), d)
  {
    assert PathOf(s.clients[c].request) != PathOf(s.clients[d].request);
  }

  // A request that still has a file to remove has no job, and its file was not left behind before.
  lemma RemoverHasNoJob(s: State, c: ClientId)
    requires DistinctCandidates(s) && JobsGenuine(s) && FilesAccounted(s) && c in s.clients && s.clients[c].pc.Removing?
    ensures s.clients[c].request.candidate !in s.jobs && PathOf(s.clients[c].request) !in s.leaked
  {
  }

  lemma StepKeepsOwnFile(s: State, c: ClientId, m: Move)
    requires DistinctCandidates(s) && JobsGenuine(s) && FilesAccounted(s) && c in s.clients
    requires Follows(s, s.clients[c], m)
    ensures FileRight(Apply(s, c, m), c)
  {
    assert FileRight(s, c);
    if m.write.RemoveFile? || m.write.LeakFile? {
      RemoverHasNoJob(s, c);
    }
  }

  lemma FilesKeepOwners(s: State, c: ClientId, m: Move)
    requires FilesAccounted(s) && c in s.clients && Follows(s, s.clients[c], m)
    ensures var s' := Apply(s, c, m);
            && (forall p :: p in s'.files && Submitted(s', p.jobId) ==> exists d :: FileOf(s', p, d))
            && (forall p :: p in s'.leaked ==> exists d :: FileOf(s', p, d) && s'.clients[d].pc.Done?)
  {
    var s' := Apply(s, c, m);
    SubmittedStays(s, c, m);
    assert FileOf(s', PathOf(s.clients[c].request), c);
    forall p | p in s'.files && Submitted(s', p.jobId) ensures exists d :: FileOf(s', p, d) {
      if p in s.files {
        var d :| FileOf(s, p, d);
        assert FileOf(s', p, d);
      }
    }
    forall p | p in s'.leaked ensures exists d :: FileOf(s', p, d) && s'.clients[d].pc.Done? {
      if p in s.leaked {
        var d :| FileOf(s, p, d) && s.clients[d].pc.Done?;
        assert FileOf(s', p, d);
      }
    }
  }

  lemma StepKeepsFiles(s: State, c: ClientId, m: Move)
    requires DistinctCandidates(s) && JobsGenuine(s) && FilesAccounted(s) && c in s.clients
    requires Follows(s, s.clients[c], m)
    ensures FilesAccounted(Apply(s, c, m))
  {
    FilesKeepOwners(s, c, m);
    forall d | d in s.clients ensures FileRight(Apply(s, c, m), d) {
      if d == c {
        StepKeepsOwnFile(s, c, m);
      } else {
        StepKeepsOtherFile(s, c, m, d);
      }
    }
  }

  lemma StepKeepsReservation(s: State, c: ClientId, m: Move, d: ClientId)
    requires DistinctCandidates(s) && ReservationsAccounted(s) && c in s.clients && Follows(s, s.clients[c], m)
    requires d in s.clients
    ensures ReservationRight(Apply(s, c, m), d)
  {
    assert ReservationRight(s, d);
  }

  lemma StepKeepsTime(s: State, c: ClientId, ok: bool)
    requires AllOnTime(s) && WaitersKeyed(s) && c in s.clients
    requires var m := NextMove(s, s.clients[c], ok); OnKey(m.write) ==> Keyed(s.clients[c].request)
    ensures AllOnTime(Apply(s, c, NextMove(s, s.clients[c], ok)))
    ensures WaitersKeyed(Apply(s, c, NextMove(s, s.clients[c], ok)))
  {
    MoveOnTime(s, s.clients[c], ok);
  }

  // ---- The passing of time, conjunct by conjunct ----

  lemma TickKeepsSubmitted(s: State, ms: nat)
    ensures forall j :: Submitted(Step(s, Tick(ms)), j) <==> Submitted(s, j)
  {
    forall j ensures Submitted(Step(s, Tick(ms)), j) <==> Submitted(s, j) {
      assert Step(s, Tick(ms)).clients == s.clients;
    }
  }

  lemma TickKeepsReservations(s: State, ms: nat)
    requires DistinctCandidates(s) && ReservationsGenuine(s) && OwnersHold(s)
    ensures var s' := Step(s, Tick(ms)); DistinctCandidates(s') && ReservationsGenuine(s') && OwnersHold(s')
  {
    var s' := Step(s, Tick(ms));
    TickKeepsSubmitted(s, ms);
    forall slot | slot in s'.reservations && Submitted(s', s'.reservations[slot].jobId)
      ensures exists d :: WrittenBy(s', slot, d)
    {
      var d :| WrittenBy(s, slot, d);
      assert WrittenBy(s', slot, d);
    }
  }

  lemma TickKeepsJobs(s: State, ms: nat)
    requires JobsGenuine(s) && ResultsGenuine(s)
    ensures JobsGenuine(Step(s, Tick(ms))) && ResultsGenuine(Step(s, Tick(ms)))
  {
    var s' := Step(s, Tick(ms));
    TickKeepsSubmitted(s, ms);
    forall j | j in s'.jobs && Submitted(s', j) ensures exists d :: CreatedBy(s', j, d) {
      var d :| CreatedBy(s, j, d);
      assert CreatedBy(s', j, d);
    }
  }

  lemma TickKeepsClaims(s: State, ms: nat)
    requires ClaimsGenuine(s)
    ensures ClaimsGenuine(Step(s, Tick(ms)))
  {
    var s' := Step(s, Tick(ms));
    TickKeepsSubmitted(s, ms);
    forall c | c in s'.clients && Claimed(s'.clients[c].pc).Some?
      ensures ClaimRight(s', s'.clients[c].request, Claimed(s'.clients[c].pc).value)
    {
      var r, j := s.clients[c].request, Claimed(s.clients[c].pc).value;
      if !MatchingOlder(s, r, j) {
        var d :| Matching(s, r, j, d);
        assert Matching(s', r, j, d);
      }
    }
  }

  lemma TickKeepsFiles(s: State, ms: nat)
    requires FilesAccounted(s)
    ensures FilesAccounted(Step(s, Tick(ms)))
  {
    var s' := Step(s, Tick(ms));
    forall c | c in s'.clients ensures FileRight(s', c) {
      assert FileRight(s, c);
    }
    TickKeepsSubmitted(s, ms);
    forall p | p in s'.files && Submitted(s', p.jobId) ensures exists c :: FileOf(s', p, c) {
      var c :| FileOf(s, p, c);
      assert FileOf(s', p, c);
    }
    forall p | p in s'.leaked ensures exists c :: FileOf(s', p, c) && s'.clients[c].pc.Done? {
      var c :| FileOf(s, p, c) && s.clients[c].pc.Done?;
      assert FileOf(s', p, c);
    }
  }

  lemma TickKeepsAccounts(s: State, ms: nat)
    requires ReservationsAccounted(s) && AllOnTime(s) && WaitersKeyed(s)
    ensures var s' := Step(s, Tick(ms)); ReservationsAccounted(s') && AllOnTime(s') && WaitersKeyed(s')
  {
    forall c | c in s.clients ensures ReservationRight(Step(s, Tick(ms)), c) {
      assert ReservationRight(s, c);
    }
  }

  lemma TimePasses(s: State, ms: nat)
    requires Inv(s)
    ensures Inv(Step(s, Tick(ms)))
  {
    TickKeepsReservations(s, ms);
    TickKeepsJobs(s, ms);
    TickKeepsClaims(s, ms);
    TickKeepsFiles(s, ms);
    TickKeepsAccounts(s, ms);
  }

  lemma StepKeepsAccounts(s: State, c: ClientId, m: Move)
    requires DistinctCandidates(s) && ReservationsAccounted(s) && c in s.clients && Follows(s, s.clients[c], m)
    ensures ReservationsAccounted(Apply(s, c, m)) && DistinctCandidates(Apply(s, c, m))
  {
    forall d | d in s.clients ensures ReservationRight(Apply(s, c, m), d) {
      StepKeepsReservation(s, c, m, d);
    }
  }

  lemma MoveKeepsInv(s: State, c: ClientId, ok: bool)
    requires Inv(s) && c in s.clients
    ensures var m := NextMove(s, s.clients[c], ok); Follows(s, s.clients[c], m) && Inv(Apply(s, c, m))
  {
    var m := NextMove(s, s.clients[c], ok);
    MoveFollows(s, s.clients[c], ok);
    StepKeepsOwners(s, c, m);
    StepKeepsReservations(s, c, m);
    StepKeepsJobs(s, c, m);
    StepKeepsClaims(s, c, m);
    StepKeepsResults(s, c, m);
    StepKeepsFiles(s, c, m);
    StepKeepsAccounts(s, c, m);
    StepKeepsTime(s, c, ok);
  }

  lemma StepKeepsInv(s: State, e: Event)
    requires Inv(s)
    ensures Inv(Step(s, e))
  {
    match e
    case Tick(ms) => TimePasses(s, ms);
    case Act(c, ok) =>
      if c in s.clients {
        MoveKeepsInv(s, c, ok);
      }
  }

  lemma StepKeepsRequests(s: State, e: Event)
    ensures Step(s, e).clients.Keys == s.clients.Keys
    ensures forall c :: c in s.clients ==> Step(s, e).clients[c].request == s.clients[c].request
  {
  }

  lemma {:induction false} RunKeepsInv(s: State, schedule: seq<Event>)
    requires Init(s)
    ensures Inv(Run(s, schedule))
    ensures Run(s, schedule).clients.Keys == s.clients.Keys
    ensures forall c :: c in s.clients ==> Run(s, schedule).clients[c].request == s.clients[c].request
  {
    if schedule == [] {
      InitInv(s);
    } else {
      RunKeepsInv(s, schedule[..|schedule| - 1]);
      StepKeepsRequests(Run(s, schedule[..|schedule| - 1]), schedule[|schedule| - 1]);
      StepKeepsInv(Run(s, schedule[..|schedule| - 1]), schedule[|schedule| - 1]);
    }
  }

  // ---- What is older than the requests ----

  // Older reservations of s are still as they were, and all others are new.
  ghost predicate OlderReservationsKept(s: State, t: State) {
    && (forall slot :: slot in s.reservations ==>
          slot in t.reservations && t.reservations[slot] == s.reservations[slot])
    && (forall slot :: slot in t.reservations && !Submitted(s, t.reservations[slot].jobId) ==> slot in s.reservations)
  }

  // The same for jobs and files.
  ghost predicate OlderJobsKept(s: State, t: State) {
    && (forall j :: j in s.jobs ==> j in t.jobs && t.jobs[j] == s.jobs[j])
    && (forall j :: j in t.jobs && !Submitted(s, j) ==> j in s.jobs)
    && (forall p: Path :: !Submitted(s, p.jobId) ==> (p in t.files <==> p in s.files))
  }

  ghost predicate SameRequests(s: State, t: State) {
    t.clients.Keys == s.clients.Keys && forall d :: d in s.clients ==> t.clients[d].request == s.clients[d].request
  }

  lemma SameSubmitted(s: State, t: State)
    requires SameRequests(s, t)
    ensures forall j :: Submitted(t, j) <==> Submitted(s, j)
  {
    forall j ensures Submitted(t, j) <==> Submitted(s, j) {
      if c :| c in s.clients && s.clients[c].request.candidate == j {
        assert t.clients[c].request.candidate == j;
      }
    }
  }

  lemma MoveKeepsOlderReservations(s: State, t: State, c: ClientId, m: Move)
    requires Init(s) && OlderReservationsKept(s, t) && OwnersHold(t) && c in t.clients && Follows(t, t.clients[c], m)
    requires SameRequests(s, t)
    ensures OlderReservationsKept(s, Apply(t, c, m))
  {
    var after := Apply(t, c, m);
    SameSubmitted(s, t);
    assert Submitted(s, t.clients[c].request.candidate);
    forall slot | slot in s.reservations
      ensures slot in after.reservations && after.reservations[slot] == s.reservations[slot]
    {
      OlderReservationStays(t, c, m, slot);
    }
  }

  lemma MoveKeepsOlderJobs(s: State, t: State, c: ClientId, m: Move)
    requires OlderJobsKept(s, t) && c in t.clients && Follows(t, t.clients[c], m) && SameRequests(s, t)
    ensures OlderJobsKept(s, Apply(t, c, m))
  {
    assert Submitted(s, t.clients[c].request.candidate);
  }

  /** Whatever the requests do, older reservations, jobs and files stay as they are. */
  lemma {:induction false} OlderRowsStay(s: State, schedule: seq<Event>)
    requires Init(s)
    ensures OlderReservationsKept(s, Run(s, schedule)) && OlderJobsKept(s, Run(s, schedule))
  {
    if schedule != [] {
      var init, e := schedule[..|schedule| - 1], schedule[|schedule| - 1];
      var t := Run(s, init);
      OlderRowsStay(s, init);
      RunKeepsInv(s, init);
      if e.Act? && e.client in t.clients {
        MoveKeepsInv(t, e.client, e.ok);
        MoveKeepsOlderReservations(s, t, e.client, NextMove(t, t.clients[e.client], e.ok));
        MoveKeepsOlderJobs(s, t, e.client, NextMove(t, t.clients[e.client], e.ok));
      }
    }
  }

  lemma {:induction false} SubmittedInRun(s: State, schedule: seq<Event>, j: JobId)
    requires Init(s)
    ensures Submitted(Run(s, schedule), j) <==> Submitted(s, j)
  {
    RunKeepsInv(s, schedule);
    SameSubmitted(s, Run(s, schedule));
  }

  // ---- What every schedule guarantees ----

  /** One key of one user never gets two jobs, and none if it was reserved before. */
  lemma {:induction false} AtMostOneJobPerKey(s: State, schedule: seq<Event>, j1: JobId, j2: JobId)
    requires Init(s) && Submitted(s, j1) && Submitted(s, j2)
    requires j1 in Run(s, schedule).jobs && j2 in Run(s, schedule).jobs
    requires SameSlot(Run(s, schedule).jobs[j1].request, Run(s, schedule).jobs[j2].request)
    ensures var r := Run(s, schedule).jobs[j1].request;
            j1 == j2 && KeyUser(r.key.value, r.user) !in s.reservations
  {
    RunKeepsInv(s, schedule);
    OlderRowsStay(s, schedule);
    SubmittedInRun(s, schedule, j1);
    SubmittedInRun(s, schedule, j2);
  }

  // The returned job was created for a request with the same key, user and fingerprint, or it is an
  // older one whose reservation the request matches.
  ghost predicate RightJob(s: State, r: Request, j: JobId) {
    j in s.jobs &&
    if Submitted(s, j) then SameSlot(s.jobs[j].request, r) && s.jobs[j].request.fingerprint == r.fingerprint
    else MatchingOlder(s, r, j)
  }

  lemma NewJobIsRight(s: State, c: ClientId, j: JobId)
    requires JobsGenuine(s) && DistinctCandidates(s) && c in s.clients && Keyed(s.clients[c].request)
    requires j in s.jobs && Submitted(s, j)
    requires s.clients[c].request.candidate == j || exists e :: Matching(s, s.clients[c].request, j, e)
    ensures RightJob(s, s.clients[c].request, j)
  {
    var d :| CreatedBy(s, j, d);
    if s.clients[c].request.candidate != j {
      var e :| Matching(s, s.clients[c].request, j, e);
      assert e == d;
    }
  }

  lemma ResultNamesJob(s: State, c: ClientId)
    requires Inv(s) && c in s.clients && s.clients[c].pc.Done? && s.clients[c].pc.outcome.Returned?
    requires Keyed(s.clients[c].request)
    ensures RightJob(s, s.clients[c].request, s.clients[c].pc.outcome.jobId)
  {
    var r, o := s.clients[c].request, s.clients[c].pc.outcome;
    assert r.candidate == o.jobId ==> Submitted(s, o.jobId);
    if o.idempotent {
      assert Claimed(s.clients[c].pc) == Some(o.jobId);
      assert ClaimRight(s, r, o.jobId);
    }
    if !MatchingOlder(s, r, o.jobId) {
      if e :| Matching(s, r, o.jobId, e) {
        assert Submitted(s, o.jobId);
      }
      NewJobIsRight(s, c, o.jobId);
    }
  }

  lemma OneRightJob(s: State, r: Request, q: Request, j: JobId, i: JobId)
    requires JobsGenuine(s) && SameSlot(r, q) && RightJob(s, r, j) && RightJob(s, q, i)
    ensures i == j
  {
  }

  /** All requests with one key that succeed return one job, and at most one of them says it created
      it. The job was created for the same entity, format and content as theirs; one that is older
      than the requests has a reservation with the same content and no other entity or format. */
  lemma {:induction false} SuccessesAgree(s: State, schedule: seq<Event>, c: ClientId, d: ClientId)
    requires Init(s) && c in s.clients && d in s.clients
    requires SameSlot(s.clients[c].request, s.clients[d].request)
    requires var t := Run(s, schedule);
             && c in t.clients && t.clients[c].pc.Done? && t.clients[c].pc.outcome.Returned?
             && d in t.clients && t.clients[d].pc.Done? && t.clients[d].pc.outcome.Returned?
    ensures var t := Run(s, schedule);
            var o, p := t.clients[c].pc.outcome, t.clients[d].pc.outcome;
            && o.jobId == p.jobId
            && RightJob(t, s.clients[c].request, o.jobId) && RightJob(t, s.clients[d].request, o.jobId)
            && (!o.idempotent && !p.idempotent ==> c == d)
  {
    var t := Run(s, schedule);
    RunKeepsInv(s, schedule);
    ResultNamesJob(t, c);
    ResultNamesJob(t, d);
    OneRightJob(t, s.clients[c].request, s.clients[d].request, t.clients[c].pc.outcome.jobId,
                t.clients[d].pc.outcome.jobId);
  }

  /** No step of any request removes the input file of a job. */
  lemma {:induction false} JobFilesStay(s: State, schedule: seq<Event>, j: JobId)
    requires Init(s) && j in Run(s, schedule).jobs
    ensures Submitted(s, j) ==> Run(s, schedule).jobs[j].inputPath in Run(s, schedule).files
    ensures j in s.jobs && s.jobs[j].inputPath in s.files ==>
              Run(s, schedule).jobs[j].inputPath in Run(s, schedule).files
  {
    var t := Run(s, schedule);
    RunKeepsInv(s, schedule);
    OlderRowsStay(s, schedule);
    SubmittedInRun(s, schedule, j);
    if Submitted(s, j) {
      var c :| CreatedBy(t, j, c);
      assert FileRight(t, c);
    }
  }

  // A file that is left over when nobody is at work belongs to the job its owner created.
  lemma FileHasJob(t: State, p: Path)
    requires Inv(t) && t.leaked == {} && (forall c :: c in t.clients ==> t.clients[c].pc.Done?) && p in t.files
    requires Submitted(t, p.jobId)
    ensures exists j :: j in t.jobs && Submitted(t, j) && t.jobs[j].inputPath == p
  {
    var c :| FileOf(t, p, c);
    assert FileRight(t, c);
    assert Submitted(t, t.clients[c].request.candidate);
    var d :| CreatedBy(t, t.clients[c].request.candidate, d);
  }

  /** When every request has finished and every removal succeeded, the stored files are, beside the
      older ones, exactly the input files of the created jobs: replays, conflicts and failures leave
      none behind. */
  lemma {:induction false} NoFileLeftBehind(s: State, schedule: seq<Event>, p: Path)
    requires Init(s)
    requires var t := Run(s, schedule); t.leaked == {} && forall c :: c in t.clients ==> t.clients[c].pc.Done?
    ensures var t := Run(s, schedule);
            p in t.files <==> p in s.files || exists j :: j in t.jobs && Submitted(s, j) && t.jobs[j].inputPath == p
  {
    RunKeepsInv(s, schedule);
    OlderRowsStay(s, schedule);
    var t := Run(s, schedule);
    SubmittedInRun(s, schedule, p.jobId);
    if p in t.files && Submitted(s, p.jobId) {
      FileHasJob(t, p);
      var j :| j in t.jobs && Submitted(t, j) && t.jobs[j].inputPath == p;
      SubmittedInRun(s, schedule, j);
    }
    if j :| j in t.jobs && Submitted(s, j) && t.jobs[j].inputPath == p {
      JobFilesStay(s, schedule, j);
    }
  }

  predicate JobOfSlot(t: State, slot: KeyUser, j: JobId) {
    && j in t.jobs && t.jobs[j].request.key == Some(slot.key) && t.jobs[j].request.user == slot.user
    && slot.key != ""
  }

  lemma ReservationHasJob(t: State, slot: KeyUser)
    requires Inv(t) && t.stuck == {} && (forall c :: c in t.clients ==> t.clients[c].pc.Done?) && slot in t.reservations
    requires Submitted(t, t.reservations[slot].jobId)
    ensures JobOfSlot(t, slot, t.reservations[slot].jobId)
  {
    var c :| WrittenBy(t, slot, c);
    assert ReservationRight(t, c);
    var d :| CreatedBy(t, t.clients[c].request.candidate, d);
  }

  lemma JobHasReservation(t: State, slot: KeyUser, j: JobId)
    requires JobsGenuine(t) && Submitted(t, j) && JobOfSlot(t, slot, j)
    ensures slot in t.reservations
  {
  }

  lemma {:induction false} OlderOrOfJob(s: State, schedule: seq<Event>, slot: KeyUser)
    requires Init(s) && slot in Run(s, schedule).reservations
    requires var t := Run(s, schedule); t.stuck == {} && forall c :: c in t.clients ==> t.clients[c].pc.Done?
    ensures var t := Run(s, schedule);
            slot in s.reservations ||
            (Submitted(s, t.reservations[slot].jobId) && JobOfSlot(t, slot, t.reservations[slot].jobId))
  {
    var t := Run(s, schedule);
    RunKeepsInv(s, schedule);
    OlderRowsStay(s, schedule);
    SubmittedInRun(s, schedule, t.reservations[slot].jobId);
    if Submitted(t, t.reservations[slot].jobId) {
      ReservationHasJob(t, slot);
    }
  }

  /** When every request has finished and every release succeeded, the reservations are, beside the
      older ones, exactly those of the created jobs: a failed submission never blocks its key. */
  lemma {:induction false} NoReservationLeftBehind(s: State, schedule: seq<Event>, slot: KeyUser)
    requires Init(s)
    requires var t := Run(s, schedule); t.stuck == {} && forall c :: c in t.clients ==> t.clients[c].pc.Done?
    ensures var t := Run(s, schedule);
            slot in t.reservations <==> slot in s.reservations || exists j :: Submitted(s, j) && JobOfSlot(t, slot, j)
  {
    var t := Run(s, schedule);
    if slot in t.reservations {
      OlderOrOfJob(s, schedule, slot);
    } else {
      RunKeepsInv(s, schedule);
      OlderRowsStay(s, schedule);
      forall j | Submitted(s, j) ensures !JobOfSlot(t, slot, j) {
        SubmittedInRun(s, schedule, j);
        if JobOfSlot(t, slot, j) {
          JobHasReservation(t, slot, j);
        }
      }
    }
  }

  function AttemptOf(pc: Pc): nat {
    match pc
    case Inserting(n) => n
    case Reading(n) => n
    case Looking(n, _) => n
    case Checking(n) => n
    case Sleeping(n, _) => n
    case _ => 0
  }

  /** No request inserts more than 51 times, however the clock and the other clients behave. */
  lemma {:induction false} AttemptsBounded(s: State, schedule: seq<Event>, c: ClientId)
    requires Init(s) && c in s.clients
    ensures c in Run(s, schedule).clients && AttemptOf(Run(s, schedule).clients[c].pc) <= MAX_ATTEMPTS
  {
    RunKeepsInv(s, schedule);
    assert OnTime(Run(s, schedule).clients[c], Run(s, schedule).now);
  }

  // An upper bound on the steps a request still takes, not counting steps that only wait.
  function Remaining(pc: Pc): int {
    match pc
    case Arriving => 5 * MAX_ATTEMPTS + 6
    case Inserting(n) => 5 * (MAX_ATTEMPTS - n) + 10
    case Reading(n) => 5 * (MAX_ATTEMPTS - n) + 9
    case Looking(n, _) => 5 * (MAX_ATTEMPTS - n) + 8
    case Checking(n) => 5 * (MAX_ATTEMPTS - n) + 7
    case Sleeping(n, _) => 5 * (MAX_ATTEMPTS - n) + 6
    case Fetching => 4
    case Creating => 3
    case Releasing(_) => 2
    case Removing(_) => 1
    case Done(_) => 0
  }

  function PcOf(s: State, c: ClientId): Pc {
    if c in s.clients then s.clients[c].pc else Done(Threw)
  }

  // How often client c's program counter changed during the schedule.
  function Taken(s: State, schedule: seq<Event>, c: ClientId): nat {
    if schedule == [] then 0
    else
      var init := schedule[..|schedule| - 1];
      Taken(s, init, c) + if PcOf(Run(s, init), c) == PcOf(Run(s, schedule), c) then 0 else 1
  }

  lemma MoveProgresses(s: State, cl: Client, ok: bool)
    requires OnTime(cl, s.now)
    ensures var m := NextMove(s, cl, ok); m.pc == cl.pc || Remaining(m.pc) < Remaining(cl.pc)
    ensures Remaining(cl.pc) >= 0
  {
  }

  lemma StepProgresses(t: State, e: Event, c: ClientId)
    requires Inv(t) && c in t.clients
    ensures PcOf(Step(t, e), c) == PcOf(t, c) || Remaining(PcOf(Step(t, e), c)) < Remaining(PcOf(t, c))
    ensures Remaining(PcOf(t, c)) >= 0
  {
    assert OnTime(t.clients[c], t.now);
    MoveProgresses(t, t.clients[c], e.Act? && e.ok);
  }

  lemma {:induction false} TakenAndRemaining(s: State, schedule: seq<Event>, c: ClientId)
    requires Init(s) && c in s.clients
    ensures Taken(s, schedule, c) + Remaining(PcOf(Run(s, schedule), c)) <= Remaining(Arriving)
  {
    if schedule != [] {
      var init, e := schedule[..|schedule| - 1], schedule[|schedule| - 1];
      TakenAndRemaining(s, init, c);
      RunKeepsInv(s, init);
      StepProgresses(Run(s, init), e, c);
    }
  }

  /** On every schedule each request is finished after at most 261 steps of its own that do not
      merely wait: it cannot poll for ever. */
  lemma {:induction false} WaitingIsBounded(s: State, schedule: seq<Event>, c: ClientId)
    requires Init(s) && c in s.clients
    ensures Taken(s, schedule, c) + Remaining(PcOf(Run(s, schedule), c)) <= 5 * MAX_ATTEMPTS + 6
    ensures Remaining(PcOf(Run(s, schedule), c)) >= 0
  {
    TakenAndRemaining(s, schedule, c);
    RunKeepsInv(s, schedule);
    StepProgresses(Run(s, schedule), Tick(0), c);
  }
}
