/** Reading and flushing as steps on values. Records are buffered, and every flush of a job, as well
    as its slug cleanup, has lookups of its own: other jobs may change the tables in between. What a
    job has read is never lost, whatever its lookups answer and whenever it flushes. */
module Batches {
  import opened Model
  import opened Staging
  import opened SlugConflicts
  import opened ImportSpec

  // A record first counted valid and then rejected by a flush moves to the failures.
  function Moved(t: Totals, n: int): Totals {
    t.(valid := t.valid - n, failed := t.failed + n)
  }

  // The job's state after a batch has been classified record by record.
  function Flushed(k: Lookups, s: RunState, batch: seq<Item>): RunState {
    var e := Classify(k, s.staged, batch);
    RunState(Moved(s.totals, |e.rejects|), s.staged + e.rows, s.errors + e.rejects)
  }

  ghost predicate AcceptableItems(entity: Entity, items: seq<Item>) {
    forall i :: 0 <= i < |items| ==> Acceptable(entity, items[i].data)
  }

  // What a job has written, and the records it has read but not flushed yet.
  datatype Work = Work(run: RunState, buffer: seq<Item>)

  // One admission is counted; an admitted record waits in the buffer.
  function Counted(w: Work, a: Admission): Work {
    match a
    case Turned(error) => Work(Failing(w.run, error), w.buffer)
    case Admitted(item) =>
      Work(w.run.(totals := w.run.totals.(read := w.run.totals.read + 1, valid := w.run.totals.valid + 1)),
           w.buffer + [item])
  }

  function Written(k: Lookups, w: Work): Work {
    Work(Flushed(k, w.run, w.buffer), [])
  }

  // The cleanup deletes the conflicting rows by line and reports them one by one.
  function WithoutConflicts(idBySlug: map<string, Id>, s: RunState): RunState {
    var conflicts := Sift(idBySlug, s.staged).conflicts;
    RunState(s.totals.(failed := s.totals.failed + |conflicts|), DeleteLines(s.staged, LinesOf(conflicts)),
             s.errors + SlugErrors(conflicts))
  }

  // ---- Any schedule of reads and flushes ----

  datatype Turn = Read | Flush(k: Lookups)

  // How many entries of the input have been read, and what became of them.
  datatype Progress = Progress(read: nat, work: Work)

  const UNREAD := Progress(0, Work(START, []))

  function After(admit: Admitter, entries: seq<Entry>, p: Progress, turn: Turn): Progress {
    match turn
    case Read =>
      if p.read < |entries| then Progress(p.read + 1, Counted(p.work, admit(entries[p.read]))) else p
    case Flush(k) => Progress(p.read, Written(k, p.work))
  }

  function Follow(admit: Admitter, entries: seq<Entry>, turns: seq<Turn>): Progress {
    if turns == [] then UNREAD
    else After(admit, entries, Follow(admit, entries, turns[..|turns| - 1]), turns[|turns| - 1])
  }

  // ---- Counts ----

  // Between two steps nothing read is lost: every valid record is staged, buffered or, after the
  // cleanup, dropped, and every failed one has an error row.
  predicate Balanced(s: RunState, buffer: seq<Item>, dropped: seq<StagedRow>) {
    && s.totals.read == |s.staged| + |buffer| + s.totals.failed
    && s.totals.valid == |s.staged| + |buffer| + |dropped|
    && s.totals.failed == |s.errors|
  }

  lemma {:induction false} ClassifyCounts(k: Lookups, staged: seq<StagedRow>, items: seq<Item>)
    ensures var e := Classify(k, staged, items); |e.rows| + |e.rejects| == |items|
  {
    if items != [] {
      ClassifyCounts(k, staged, items[..|items| - 1]);
    }
  }

  lemma FlushBalances(k: Lookups, w: Work)
    requires Balanced(w.run, w.buffer, [])
    ensures Balanced(Written(k, w).run, [], [])
  {
    ClassifyCounts(k, w.run.staged, w.buffer);
  }

  // ---- Lines ----

  function ItemsAt(items: seq<Item>, n: nat): nat {
    if items == [] then 0 else ItemsAt(items[..|items| - 1], n) + if items[|items| - 1].line == n then 1 else 0
  }

  // Of the records read on line n, each is staged, buffered or reported, and only one of these.
  ghost predicate PlacedAt(read: seq<Entry>, w: Work, n: nat) {
    RowsAt(w.run.staged, n) + ItemsAt(w.buffer, n) + ErrorsAt(w.run.errors, n) == EntriesAt(read, n)
  }

  // Staged rows stand on ascending lines, buffered records on later ones, all of them before `next`.
  ghost predicate InOrder(staged: seq<StagedRow>, buffer: seq<Item>, next: nat) {
    && Ascending(staged) && Below(staged, next)
    && (forall i, j :: 0 <= i < j < |buffer| ==> buffer[i].line < buffer[j].line)
    && (forall i :: 0 <= i < |buffer| ==> buffer[i].line < next && Below(staged, buffer[i].line))
  }

  lemma CountedInOrder(w: Work, a: Admission, next: nat)
    requires InOrder(w.run.staged, w.buffer, AdmissionLine(a)) && AdmissionLine(a) < next
    ensures InOrder(Counted(w, a).run.staged, Counted(w, a).buffer, next)
  {
  }

  lemma AppendedInOrder(rows: seq<StagedRow>, row: StagedRow, next: nat)
    requires Ascending(rows) && Below(rows, row.line) && row.line < next
    ensures Ascending(rows + [row]) && Below(rows + [row], next)
  {
  }

  /** Whatever a flush looks up, the rows it stages keep the order of their lines. */
  lemma {:induction false} ClassifyInOrder(k: Lookups, staged: seq<StagedRow>, items: seq<Item>, next: nat)
    requires InOrder(staged, items, next)
    ensures InOrder(staged + Classify(k, staged, items).rows, [], next)
  {
    if items == [] {
      assert staged + [] == staged;
    } else {
      var init, item := items[..|items| - 1], items[|items| - 1];
      ClassifyInOrder(k, staged, init, item.line);
      var before := staged + Classify(k, staged, init).rows;
      DecideKeepsLine(k, before, item);
      if Decide(k, before, item).Accept? {
        var row := Decide(k, before, item).row;
        AppendedInOrder(before, row, next);
        assert staged + Classify(k, staged, items).rows == before + [row];
      }
    }
  }

  predicate OnLine(v: Verdict, line: nat) {
    match v
    case Accept(row) => row.line == line
    case Reject(error) => error.line == line
  }

  lemma {:induction false} AbsorbPlaces(staged: seq<StagedRow>, errors: seq<JobError>, e: Effect, v: Verdict,
                                        line: nat, n: nat)
    requires OnLine(v, line)
    ensures RowsAt(staged + Absorb(e, v).rows, n) + ErrorsAt(errors + Absorb(e, v).rejects, n) ==
            RowsAt(staged + e.rows, n) + ErrorsAt(errors + e.rejects, n) + if line == n then 1 else 0
  {
    match v
    case Accept(row) =>
      assert staged + (e.rows + [row]) == staged + e.rows + [row];
      RowsAtSnoc(staged + e.rows, row, n);
    case Reject(error) =>
      assert errors + (e.rejects + [error]) == errors + e.rejects + [error];
      ErrorsAtSnoc(errors + e.rejects, error, n);
  }

  /** A flush places each record of its batch: in one staged row or in one error row. */
  lemma {:induction false} ClassifyPlaces(k: Lookups, staged: seq<StagedRow>, errors: seq<JobError>, items: seq<Item>,
                                          n: nat)
    ensures var e := Classify(k, staged, items);
            RowsAt(staged + e.rows, n) + ErrorsAt(errors + e.rejects, n) ==
            RowsAt(staged, n) + ErrorsAt(errors, n) + ItemsAt(items, n)
  {
    if items == [] {
      assert staged + [] == staged && errors + [] == errors;
    } else {
      var init, item := items[..|items| - 1], items[|items| - 1];
      ClassifyPlaces(k, staged, errors, init, n);
      var e := Classify(k, staged, init);
      var v := Decide(k, staged + e.rows, item);
      assert OnLine(v, item.line) by { DecideKeepsLine(k, staged + e.rows, item); }
      AbsorbPlaces(staged, errors, e, v, item.line, n);
    }
  }

  lemma {:induction false} CountedPlaces(read: seq<Entry>, e: Entry, w: Work, a: Admission, n: nat)
    requires PlacedAt(read, w, n) && AdmissionLine(a) == e.line
    ensures PlacedAt(read + [e], Counted(w, a), n)
  {
    match a
    case Turned(error) => ErrorsAtSnoc(w.run.errors, error, n);
    case Admitted(item) => assert (w.buffer + [item])[..|w.buffer|] == w.buffer;
  }

  // ---- Nothing is lost, for any lookups ----

  // The job accounts for each of the entries it has read.
  ghost predicate Accounts(read: seq<Entry>, w: Work, dropped: seq<StagedRow>) {
    && Balanced(w.run, w.buffer, dropped) && w.run.totals.read == |read|
    && forall n: nat :: PlacedAt(read, w, n)
  }

  // The line at which reading goes on, or one past the last.
  function NextLine(entries: seq<Entry>, read: nat): nat {
    if read < |entries| then entries[read].line else if entries == [] then 0 else entries[|entries| - 1].line + 1
  }

  ghost predicate OnTrack(entries: seq<Entry>, p: Progress) {
    && p.read <= |entries| && Accounts(entries[..p.read], p.work, [])
    && InOrder(p.work.run.staged, p.work.buffer, NextLine(entries, p.read))
  }

  lemma UnreadOnTrack(entries: seq<Entry>)
    ensures OnTrack(entries, UNREAD)
  {
    assert forall n: nat :: PlacedAt([], UNREAD.work, n);
  }

  lemma ReadOnTrack(admit: Admitter, entity: Entity, entries: seq<Entry>, p: Progress)
    requires SoundAdmitter(entity, admit) && LinesAscend(entries) && OnTrack(entries, p) && p.read < |entries|
    ensures OnTrack(entries, After(admit, entries, p, Read))
  {
    var e := entries[p.read];
    assert SoundAt(entity, admit, e);
    CountedInOrder(p.work, admit(e), NextLine(entries, p.read + 1));
    var read, after := entries[..p.read + 1], Counted(p.work, admit(e));
    assert read == entries[..p.read] + [e];
    forall n: nat ensures PlacedAt(read, after, n) {
      CountedPlaces(entries[..p.read], e, p.work, admit(e), n);
    }
  }

  lemma FlushOnTrack(admit: Admitter, entries: seq<Entry>, p: Progress, k: Lookups)
    requires OnTrack(entries, p)
    ensures OnTrack(entries, After(admit, entries, p, Flush(k)))
  {
    FlushBalances(k, p.work);
    ClassifyInOrder(k, p.work.run.staged, p.work.buffer, NextLine(entries, p.read));
    var read, after := entries[..p.read], Written(k, p.work);
    forall n: nat ensures PlacedAt(read, after, n) {
      assert PlacedAt(read, p.work, n);
      ClassifyPlaces(k, p.work.run.staged, p.work.run.errors, p.work.buffer, n);
    }
  }

  /** At every moment, however reads and flushes alternate and whatever each flush looks up, the
      counters balance, and of the records read on any line each one is staged, buffered or reported. */
  lemma {:induction false} FollowOnTrack(admit: Admitter, entity: Entity, entries: seq<Entry>, turns: seq<Turn>)
    requires SoundAdmitter(entity, admit) && LinesAscend(entries)
    ensures OnTrack(entries, Follow(admit, entries, turns))
  {
    if turns == [] {
      UnreadOnTrack(entries);
    } else {
      var p, turn := Follow(admit, entries, turns[..|turns| - 1]), turns[|turns| - 1];
      FollowOnTrack(admit, entity, entries, turns[..|turns| - 1]);
      match turn
      case Read =>
        if p.read < |entries| {
          ReadOnTrack(admit, entity, entries, p);
        }
      case Flush(k) => FlushOnTrack(admit, entries, p, k);
    }
  }

  /** A slug cleanup, whatever it looked up, keeps the rows the specification keeps, and moves each
      other staged row to the error log: every record read is then kept or has failed. */
  lemma {:induction false} CleanupAccounts(read: seq<Entry>, s: RunState, idBySlug: map<string, Id>)
    requires Accounts(read, Work(s, []), []) && Ascending(s.staged)
    ensures WithoutConflicts(idBySlug, s).staged == Sift(idBySlug, s.staged).kept
    ensures Accounts(read, Work(WithoutConflicts(idBySlug, s), []), Sift(idBySlug, s.staged).conflicts)
  {
    var c, after := Sift(idBySlug, s.staged), WithoutConflicts(idBySlug, s);
    DeletingByLineKeepsTheRest(idBySlug, s.staged);
    SiftCounts(idBySlug, s.staged);
    SlugErrorsLength(c.conflicts);
    forall n: nat ensures PlacedAt(read, Work(after, []), n) {
      assert PlacedAt(read, Work(s, []), n);
      SiftKeepsLines(idBySlug, s.staged, n);
      SlugErrorsLines(s.errors, c.conflicts, n);
    }
  }

  /** So a job that has read its whole input, flushed the last batch and, for articles, cleaned its
      staging rows ends with every record merged or failed, and every line of the input in exactly
      one row to merge or exactly one error row. */
  lemma {:induction false} NothingIsLost(admit: Admitter, entity: Entity, entries: seq<Entry>, turns: seq<Turn>,
                                         idBySlug: map<string, Id>, n: nat)
    requires SoundAdmitter(entity, admit) && LinesAscend(entries)
    requires Follow(admit, entries, turns).read == |entries| && Follow(admit, entries, turns).work.buffer == []
    ensures var s := Follow(admit, entries, turns).work.run;
            var end := if entity.Articles? then WithoutConflicts(idBySlug, s) else s;
            && end.totals.read == |entries| == |end.staged| + end.totals.failed && end.totals.failed == |end.errors|
            && end.totals.valid == |s.staged| && Ascending(end.staged)
            && RowsAt(end.staged, n) + ErrorsAt(end.errors, n) ==
               if exists i :: 0 <= i < |entries| && entries[i].line == n then 1 else 0
  {
    var p := Follow(admit, entries, turns);
    FollowOnTrack(admit, entity, entries, turns);
    assert entries[..|entries|] == entries && p.work == Work(p.work.run, []);
    LineReadOnce(entries, n);
    assert PlacedAt(entries, p.work, n);
    if entity.Articles? {
      CleanupAccounts(entries, p.work.run, idBySlug);
      KeptAscend(idBySlug, p.work.run.staged);
      assert PlacedAt(entries, Work(WithoutConflicts(idBySlug, p.work.run), []), n);
    }
  }

  lemma {:induction false} KeptAscend(idBySlug: map<string, Id>, rows: seq<StagedRow>)
    requires Ascending(rows)
    ensures Ascending(Sift(idBySlug, rows).kept)
  {
    if rows != [] {
      var init, row := rows[..|rows| - 1], rows[|rows| - 1];
      KeptAscend(idBySlug, init);
      SiftPartitions(idBySlug, init);
      var before := Sift(idBySlug, init).kept;
      forall i | 0 <= i < |before| ensures before[i].line < row.line {
        assert before[i] in init;
      }
    }
  }

  // ---- On tables that do not change a schedule makes no difference ----

  // The batched state s with its unflushed buffer stands for the record-by-record state r; only
  // the order of the error log may differ.
  ghost predicate StandsFor(k: Lookups, w: Work, r: RunState) {
    var e := Classify(k, w.run.staged, w.buffer);
    && r.staged == w.run.staged + e.rows
    && r.totals == Moved(w.run.totals, |e.rejects|)
    && multiset(r.errors) == multiset(w.run.errors) + multiset(e.rejects)
  }

  lemma FlushedNothing(k: Lookups, s: RunState)
    ensures Flushed(k, s, []) == s
  {
  }

  lemma FlushedStandsFor(k: Lookups, w: Work, r: RunState)
    requires StandsFor(k, w, r)
    ensures StandsFor(k, Written(k, w), r)
  {
    var f := Flushed(k, w.run, w.buffer);
    assert f.staged + [] == f.staged;
  }

  lemma CountedStandsFor(k: Lookups, w: Work, r: RunState, a: Admission)
    requires StandsFor(k, w, r)
    ensures StandsFor(k, Counted(w, a), Handle(k, r, a))
  {
    match a
    case Turned(error) =>
    case Admitted(item) => BufferedStandsFor(k, w, r, item);
  }

  lemma BufferedStandsFor(k: Lookups, w: Work, r: RunState, item: Item)
    requires StandsFor(k, w, r)
    ensures StandsFor(k, Counted(w, Admitted(item)), Handle(k, r, Admitted(item)))
  {
    assert (w.buffer + [item])[..|w.buffer|] == w.buffer;
  }

  lemma StandsForItself(k: Lookups, s: RunState)
    ensures StandsFor(k, Work(s, []), s)
  {
  }

  lemma NothingPending(k: Lookups, s: RunState, r: RunState)
    requires StandsFor(k, Work(s, []), r)
    ensures s.staged == r.staged && s.totals == r.totals && multiset(s.errors) == multiset(r.errors)
  {
  }

  /** If every flush sees the same tables, any schedule leaves what handling the records one at a
      time leaves, up to the records still buffered and the order of the error log. */
  lemma {:induction false} FollowStandsFor(admit: Admitter, k: Lookups, entries: seq<Entry>, turns: seq<Turn>)
    requires forall i :: 0 <= i < |turns| ==> turns[i] == Read || turns[i] == Flush(k)
    ensures var p := Follow(admit, entries, turns);
            p.read <= |entries| && StandsFor(k, p.work, OneByOne(admit, k, entries[..p.read]))
  {
    if turns == [] {
      StandsForItself(k, START);
    } else {
      var init, turn := turns[..|turns| - 1], turns[|turns| - 1];
      FollowStandsFor(admit, k, entries, init);
      var p := Follow(admit, entries, init);
      var r := OneByOne(admit, k, entries[..p.read]);
      match turn
      case Read =>
        if p.read < |entries| {
          RunFromStep(admit, k, START, entries, p.read, r);
          CountedStandsFor(k, p.work, r, admit(entries[p.read]));
        }
      case Flush(_) => FlushedStandsFor(k, p.work, r);
    }
  }
}
