/** The error listing of a job: keyset pages over the compound key (createdAt, id). */
module ErrorListing {
  import opened Model
  import opened Keyset

  const ERROR_PAGE_SIZE: nat := 2000

  datatype ErrorKey = ErrorKey(createdAt: Time, id: string)

  function Before(idLt: (string, string) -> bool): (ErrorKey, ErrorKey) -> bool {
    (a: ErrorKey, b: ErrorKey) => a.createdAt < b.createdAt || (a.createdAt == b.createdAt && idLt(a.id, b.id))
  }

  lemma BeforeIsStrictTotal(idLt: (string, string) -> bool)
    requires StrictTotal(idLt)
    ensures StrictTotal(Before(idLt))
  {
    var lt := Before(idLt);
    forall a, b, c ensures OrderLaws(lt, a, b, c) {
      assert OrderLaws(idLt, a.id, b.id, c.id);
    }
  }

  // The where-clause: no condition until both halves of the cursor are set.
  predicate Selected(idLt: (string, string) -> bool, afterCreatedAt: Option<Time>, afterId: Option<string>,
                     k: ErrorKey)
  {
    if afterCreatedAt.Some? && afterId.Some? && afterId.value != ""
    then k.createdAt > afterCreatedAt.value || (k.createdAt == afterCreatedAt.value && idLt(afterId.value, k.id))
    else true
  }

  function CursorKey(afterCreatedAt: Option<Time>, afterId: Option<string>): Option<ErrorKey> {
    if afterCreatedAt.Some? && afterId.Some? && afterId.value != ""
    then Some(ErrorKey(afterCreatedAt.value, afterId.value)) else None
  }

  function FetchErrors(idLt: (string, string) -> bool, log: set<ErrorKey>, afterCreatedAt: Option<Time>,
                       afterId: Option<string>): seq<ErrorKey>
    requires StrictTotal(idLt)
  {
    BeforeIsStrictTotal(idLt);
    var all := Sorted(Before(idLt), set k | k in log && Selected(idLt, afterCreatedAt, afterId, k));
    if |all| <= ERROR_PAGE_SIZE then all else all[..ERROR_PAGE_SIZE]
  }

  // The query is a keyset page under the compound order.
  lemma FetchIsPage(idLt: (string, string) -> bool, log: set<ErrorKey>, afterCreatedAt: Option<Time>,
                    afterId: Option<string>)
    requires StrictTotal(idLt)
    ensures StrictTotal(Before(idLt))
    ensures IsPage(Before(idLt), log, CursorKey(afterCreatedAt, afterId), ERROR_PAGE_SIZE,
                   FetchErrors(idLt, log, afterCreatedAt, afterId))
  {
    BeforeIsStrictTotal(idLt);
    assert (set k | k in log && Selected(idLt, afterCreatedAt, afterId, k)) ==
           Beyond(Before(idLt), log, CursorKey(afterCreatedAt, afterId));
    PageFacts(Before(idLt), log, CursorKey(afterCreatedAt, afterId), ERROR_PAGE_SIZE);
  }

  method QueryErrors(idLt: (string, string) -> bool, log: set<ErrorKey>, afterCreatedAt: Option<Time>,
                     afterId: Option<string>)
    returns (rows: seq<ErrorKey>)
    requires StrictTotal(idLt)
    ensures rows == FetchErrors(idLt, log, afterCreatedAt, afterId)
    ensures IsPage(Before(idLt), log, CursorKey(afterCreatedAt, afterId), ERROR_PAGE_SIZE, rows)
  {
    FetchIsPage(idLt, log, afterCreatedAt, afterId);
    rows := FetchErrors(idLt, log, afterCreatedAt, afterId);
  }

  // ---- The loop, fetch by fetch ----

  datatype Listing = Listing(listed: seq<ErrorKey>, afterCreatedAt: Option<Time>, afterId: Option<string>, ended: bool)

  // The listing once it has fetched the given rows. `readBack` is a timestamp as the client sees it.
  function Extended(l: Listing, rows: seq<ErrorKey>, readBack: Time -> Time): Listing {
    if rows == [] then l.(ended := true)
    else
      var last := rows[|rows| - 1];
      Listing(l.listed + rows, Some(readBack(last.createdAt)), Some(last.id), false)
  }

  // Where the listing stands after n fetches.
  function Fetched(idLt: (string, string) -> bool, log: set<ErrorKey>, readBack: Time -> Time, n: nat): Listing
    requires StrictTotal(idLt)
  {
    if n == 0 then Listing([], None, None, false)
    else
      var before := Fetched(idLt, log, readBack, n - 1);
      if before.ended then before
      else Extended(before, FetchErrors(idLt, log, before.afterCreatedAt, before.afterId), readBack)
  }

  /** The listing, followed for at most `maxFetches` fetches. */
  method IterateImportJobErrors(idLt: (string, string) -> bool, log: set<ErrorKey>, readBack: Time -> Time,
                                maxFetches: nat)
    returns (listed: seq<ErrorKey>, ended: bool)
    requires StrictTotal(idLt)
    ensures listed == Fetched(idLt, log, readBack, maxFetches).listed
    ensures ended == Fetched(idLt, log, readBack, maxFetches).ended
  {
    var afterCreatedAt: Option<Time> := None;
    var afterId: Option<string> := None;
    listed, ended := [], false;
    var fetches := 0;
    while fetches < maxFetches
      invariant fetches <= maxFetches && !ended
      invariant Fetched(idLt, log, readBack, fetches) == Listing(listed, afterCreatedAt, afterId, ended)
    {
      var rows := QueryErrors(idLt, log, afterCreatedAt, afterId);
      fetches := fetches + 1;
      if |rows| == 0 {
        ended := true;
        EndedStays(idLt, log, readBack, fetches, maxFetches);
        break;
      }
      listed := listed + rows;
      var last := rows[|rows| - 1];
      afterCreatedAt, afterId := Some(readBack(last.createdAt)), Some(last.id);
    }
  }

  lemma {:induction false} EndedStays(idLt: (string, string) -> bool, log: set<ErrorKey>, readBack: Time -> Time,
                                      m: nat, n: nat)
    requires StrictTotal(idLt) && m <= n && Fetched(idLt, log, readBack, m).ended
    ensures Fetched(idLt, log, readBack, n) == Fetched(idLt, log, readBack, m)
  {
    if m < n {
      EndedStays(idLt, log, readBack, m, n - 1);
    }
  }

  lemma {:induction false} ListedGrows(idLt: (string, string) -> bool, log: set<ErrorKey>, readBack: Time -> Time,
                                       m: nat, n: nat)
    requires StrictTotal(idLt) && m <= n
    ensures Fetched(idLt, log, readBack, m).listed <= Fetched(idLt, log, readBack, n).listed
  {
    if m < n {
      ListedGrows(idLt, log, readBack, m, n - 1);
    }
  }

  // ---- Which timestamps matter ----

  function Whole(idLt: (string, string) -> bool, log: set<ErrorKey>): seq<ErrorKey>
    requires StrictTotal(idLt)
  {
    BeforeIsStrictTotal(idLt);
    Sorted(Before(idLt), log)
  }

  // Row i of the whole log is the last of its page.
  predicate EndsPage(size: nat, i: nat) {
    i + 1 == size || (i + 1) % ERROR_PAGE_SIZE == 0
  }

  predicate Exact(readBack: Time -> Time, k: ErrorKey) {
    readBack(k.createdAt) == k.createdAt
  }

  // The first n rows that end a page read back as stored.
  predicate ExactBelow(idLt: (string, string) -> bool, log: set<ErrorKey>, readBack: Time -> Time, n: nat)
    requires StrictTotal(idLt)
  {
    var s := Whole(idLt, log);
    forall i: nat :: i < n && i < |s| && EndsPage(|s|, i) ==> Exact(readBack, s[i])
  }

  predicate ExactPageEnds(idLt: (string, string) -> bool, log: set<ErrorKey>, readBack: Time -> Time)
    requires StrictTotal(idLt)
  {
    ExactBelow(idLt, log, readBack, |Whole(idLt, log)|)
  }

  ghost predicate NonEmptyIds(log: set<ErrorKey>) {
    forall k :: k in log ==> k.id != ""
  }

  function Upto(size: nat, n: nat): nat {
    if ERROR_PAGE_SIZE * n <= size then ERROR_PAGE_SIZE * n else size
  }

  lemma WholeListsLog(idLt: (string, string) -> bool, log: set<ErrorKey>)
    requires StrictTotal(idLt)
    ensures StrictTotal(Before(idLt)) && Lists(Before(idLt), log, Whole(idLt, log))
    ensures |Whole(idLt, log)| == |log| && forall i :: 0 <= i < |log| ==> Whole(idLt, log)[i] in log
  {
    BeforeIsStrictTotal(idLt);
    SortedIsListing(Before(idLt), log);
    assert forall i :: 0 <= i < |log| ==> Whole(idLt, log)[i] in Whole(idLt, log);
  }

  // The fetch after the first m rows, with the cursor of row m - 1, is the next slice of the log.
  lemma NextSlice(idLt: (string, string) -> bool, log: set<ErrorKey>, m: nat, afterCreatedAt: Option<Time>,
                  afterId: Option<string>)
    requires StrictTotal(idLt) && m <= |Whole(idLt, log)|
    requires CursorKey(afterCreatedAt, afterId) == KeyBefore(Whole(idLt, log), m)
    ensures var s := Whole(idLt, log);
            FetchErrors(idLt, log, afterCreatedAt, afterId) == s[m..SliceEnd(|s|, m, ERROR_PAGE_SIZE)]
  {
    FetchIsPage(idLt, log, afterCreatedAt, afterId);
    WholeListsLog(idLt, log);
    SliceIsPage(Before(idLt), log, Whole(idLt, log), m, ERROR_PAGE_SIZE);
    PageIsUnique(Before(idLt), log, CursorKey(afterCreatedAt, afterId), ERROR_PAGE_SIZE,
                 FetchErrors(idLt, log, afterCreatedAt, afterId));
  }

  function ListedUpto(s: seq<ErrorKey>, readBack: Time -> Time, m: nat): Listing
    requires m <= |s|
  {
    if m == 0 then Listing([], None, None, false)
    else Listing(s[..m], Some(readBack(s[m - 1].createdAt)), Some(s[m - 1].id), false)
  }

  lemma CursorOfListed(s: seq<ErrorKey>, readBack: Time -> Time, m: nat)
    requires m <= |s| && (m > 0 ==> Exact(readBack, s[m - 1]) && s[m - 1].id != "")
    ensures var l := ListedUpto(s, readBack, m); CursorKey(l.afterCreatedAt, l.afterId) == KeyBefore(s, m)
  {
  }

  lemma ListedExtends(s: seq<ErrorKey>, readBack: Time -> Time, m: nat, to: nat)
    requires m <= to <= |s|
    ensures Extended(ListedUpto(s, readBack, m), s[m..to], readBack) ==
            if m == to then ListedUpto(s, readBack, m).(ended := true) else ListedUpto(s, readBack, to)
  {
    if m < to {
      assert s[m..to][|s[m..to]| - 1] == s[to - 1] && s[..m] + s[m..to] == s[..to];
    }
  }

  // One more fetch, from a cursor that is still exact.
  lemma {:induction false} FetchOneMore(idLt: (string, string) -> bool, log: set<ErrorKey>, readBack: Time -> Time,
                                        n: nat, m: nat)
    requires StrictTotal(idLt) && NonEmptyIds(log) && m <= |Whole(idLt, log)|
    requires Fetched(idLt, log, readBack, n) == ListedUpto(Whole(idLt, log), readBack, m)
    requires m > 0 ==> Exact(readBack, Whole(idLt, log)[m - 1])
    ensures var s := Whole(idLt, log);
            Fetched(idLt, log, readBack, n + 1) ==
            if m == |s| then ListedUpto(s, readBack, m).(ended := true)
            else ListedUpto(s, readBack, SliceEnd(|s|, m, ERROR_PAGE_SIZE))
  {
    var s, l := Whole(idLt, log), Fetched(idLt, log, readBack, n);
    assert m > 0 ==> s[m - 1].id != "" by { WholeListsLog(idLt, log); }
    CursorOfListed(s, readBack, m);
    NextSlice(idLt, log, m, l.afterCreatedAt, l.afterId);
    ListedExtends(s, readBack, m, SliceEnd(|s|, m, ERROR_PAGE_SIZE));
  }

  // Page n, if full, ends with row 1000 n - 1, and that row reads back exactly.
  lemma {:induction false} FullPageEnd(idLt: (string, string) -> bool, log: set<ErrorKey>, readBack: Time -> Time,
                                       n: nat)
    requires StrictTotal(idLt) && n > 0 && ERROR_PAGE_SIZE * n <= |Whole(idLt, log)|
    requires ExactBelow(idLt, log, readBack, ERROR_PAGE_SIZE * n)
    ensures Exact(readBack, Whole(idLt, log)[ERROR_PAGE_SIZE * n - 1])
  {
    assert EndsPage(|Whole(idLt, log)|, ERROR_PAGE_SIZE * n - 1);
  }

  // While the rows that end a page read back exactly, n fetches list the first n pages.
  lemma {:induction false} PagesInTurn(idLt: (string, string) -> bool, log: set<ErrorKey>, readBack: Time -> Time,
                                       n: nat)
    requires StrictTotal(idLt) && NonEmptyIds(log)
    requires n == 0 || ERROR_PAGE_SIZE * (n - 1) < |Whole(idLt, log)|
    requires n > 1 ==> ExactBelow(idLt, log, readBack, ERROR_PAGE_SIZE * (n - 1))
    ensures var s := Whole(idLt, log); Fetched(idLt, log, readBack, n) == ListedUpto(s, readBack, Upto(|s|, n))
  {
    if n > 0 {
      var s, m := Whole(idLt, log), ERROR_PAGE_SIZE * (n - 1);
      PagesInTurn(idLt, log, readBack, n - 1);
      if n > 1 {
        FullPageEnd(idLt, log, readBack, n - 1);
      }
      FetchOneMore(idLt, log, readBack, n - 1, m);
    }
  }

  // ---- Exactly when the listing is right ----

  ghost predicate EachOnce(log: set<ErrorKey>, listed: seq<ErrorKey>) {
    && (forall k :: k in listed <==> k in log)
    && (forall i, j :: 0 <= i < j < |listed| ==> listed[i] != listed[j])
  }

  /** If every row that ends a page reads back exactly, the listing ends after one fetch more than
      there are pages, with the whole log in order. */
  lemma {:induction false} ExactPageEndsList(idLt: (string, string) -> bool, log: set<ErrorKey>, readBack: Time -> Time)
    requires StrictTotal(idLt) && NonEmptyIds(log) && ExactPageEnds(idLt, log, readBack)
    ensures var n := (|log| + ERROR_PAGE_SIZE - 1) / ERROR_PAGE_SIZE + 1;
            Fetched(idLt, log, readBack, n).ended && Fetched(idLt, log, readBack, n).listed == Whole(idLt, log)
    ensures EachOnce(log, Whole(idLt, log))
  {
    var s, n := Whole(idLt, log), (|log| + ERROR_PAGE_SIZE - 1) / ERROR_PAGE_SIZE;
    WholeListsLog(idLt, log);
    PagesInTurn(idLt, log, readBack, n);
    assert Upto(|s|, n) == |s|;
    assert |s| > 0 ==> EndsPage(|s|, |s| - 1) && Exact(readBack, s[|s| - 1]);
    FetchOneMore(idLt, log, readBack, n, |s|);
    assert s[..|s|] == s;
    forall i, j | 0 <= i < j < |s| ensures s[i] != s[j] {
      assert InOrderAt(Before(idLt), s, i, j) && OrderLaws(Before(idLt), s[i], s[i], s[i]);
    }
  }

  /** A cursor read back below its row selects that row again: the next page is not empty, and its
      first row was already listed. */
  lemma InexactCursorRepeats(idLt: (string, string) -> bool, log: set<ErrorKey>, readBack: Time -> Time, i: nat)
    requires StrictTotal(idLt) && i < |Whole(idLt, log)|
    requires readBack(Whole(idLt, log)[i].createdAt) < Whole(idLt, log)[i].createdAt
    ensures var s := Whole(idLt, log);
            var p := FetchErrors(idLt, log, Some(readBack(s[i].createdAt)), Some(s[i].id));
            p != [] && p[0] in s[..i + 1]
  {
    var s, lt := Whole(idLt, log), Before(idLt);
    var cursor := CursorKey(Some(readBack(s[i].createdAt)), Some(s[i].id));
    var p := FetchErrors(idLt, log, Some(readBack(s[i].createdAt)), Some(s[i].id));
    WholeListsLog(idLt, log);
    FetchIsPage(idLt, log, Some(readBack(s[i].createdAt)), Some(s[i].id));
    assert s[i] in log && After(lt, cursor, s[i]);
    FirstOfPage(lt, log, cursor, ERROR_PAGE_SIZE, p, s[i]);
    assert p[0] in p;
    var j := MemberAt(s, p[0]);
    assert InOrderAt(lt, s, i, j) && OrderLaws(lt, s[i], p[0], s[i]);
    assert s[..i + 1][j] == p[0];
  }

  lemma FirstInexact(idLt: (string, string) -> bool, log: set<ErrorKey>, readBack: Time -> Time) returns (i: nat)
    requires StrictTotal(idLt) && !ExactPageEnds(idLt, log, readBack)
    ensures i < |Whole(idLt, log)| && EndsPage(|Whole(idLt, log)|, i) && !Exact(readBack, Whole(idLt, log)[i])
    ensures ExactBelow(idLt, log, readBack, i)
  {
    var s := Whole(idLt, log);
    i := 0;
    while i < |s| && (EndsPage(|s|, i) ==> Exact(readBack, s[i]))
      invariant i <= |s| && ExactBelow(idLt, log, readBack, i)
    {
      i := i + 1;
    }
  }

  ghost predicate Repeats(listed: seq<ErrorKey>) {
    exists i, j :: 0 <= i < j < |listed| && listed[i] == listed[j]
  }

  lemma RepeatsStay(listed: seq<ErrorKey>, longer: seq<ErrorKey>)
    requires Repeats(listed) && listed <= longer
    ensures Repeats(longer)
  {
    var i, j :| 0 <= i < j < |listed| && listed[i] == listed[j];
    assert longer[i] == longer[j];
  }

  lemma RepeatedFirst(listed: seq<ErrorKey>, p: seq<ErrorKey>)
    requires p != [] && p[0] in listed
    ensures Repeats(listed + p)
  {
    var j := MemberAt(listed, p[0]);
    assert (listed + p)[j] == (listed + p)[|listed|];
  }

  lemma UptoPageEnd(size: nat, i: nat)
    requires i < size && EndsPage(size, i)
    ensures Upto(size, i / ERROR_PAGE_SIZE + 1) == i + 1 && ERROR_PAGE_SIZE * (i / ERROR_PAGE_SIZE) <= i
  {
  }

  // The fetch whose cursor is row i read back too early lists a row again.
  lemma FetchRepeats(idLt: (string, string) -> bool, log: set<ErrorKey>, readBack: Time -> Time, m: nat, i: nat)
    requires StrictTotal(idLt) && i < |Whole(idLt, log)|
    requires readBack(Whole(idLt, log)[i].createdAt) < Whole(idLt, log)[i].createdAt
    requires Fetched(idLt, log, readBack, m) == ListedUpto(Whole(idLt, log), readBack, i + 1)
    ensures !Fetched(idLt, log, readBack, m).ended && Repeats(Fetched(idLt, log, readBack, m + 1).listed)
  {
    var s := Whole(idLt, log);
    InexactCursorRepeats(idLt, log, readBack, i);
    RepeatedFirst(s[..i + 1], FetchErrors(idLt, log, Some(readBack(s[i].createdAt)), Some(s[i].id)));
  }

  lemma RepeatsAfterInexact(idLt: (string, string) -> bool, log: set<ErrorKey>, readBack: Time -> Time) returns (m: nat)
    requires StrictTotal(idLt) && NonEmptyIds(log) && !ExactPageEnds(idLt, log, readBack)
    requires forall t :: readBack(t) <= t
    ensures !Fetched(idLt, log, readBack, m).ended && Repeats(Fetched(idLt, log, readBack, m + 1).listed)
  {
    var i := FirstInexact(idLt, log, readBack);
    m := i / ERROR_PAGE_SIZE + 1;
    UptoPageEnd(|Whole(idLt, log)|, i);
    assert readBack(Whole(idLt, log)[i].createdAt) <= Whole(idLt, log)[i].createdAt;
    PagesInTurn(idLt, log, readBack, m);
    FetchRepeats(idLt, log, readBack, m, i);
  }

  lemma {:induction false} StillRepeats(idLt: (string, string) -> bool, log: set<ErrorKey>, readBack: Time -> Time,
                                        m: nat, n: nat)
    requires StrictTotal(idLt) && m <= n && Repeats(Fetched(idLt, log, readBack, m).listed)
    ensures Repeats(Fetched(idLt, log, readBack, n).listed)
  {
    ListedGrows(idLt, log, readBack, m, n);
    RepeatsStay(Fetched(idLt, log, readBack, m).listed, Fetched(idLt, log, readBack, n).listed);
  }

  // After an inexact page end some row is listed twice, whatever is fetched later.
  lemma {:induction false} InexactPageEndRepeats(idLt: (string, string) -> bool, log: set<ErrorKey>,
                                                 readBack: Time -> Time, n: nat)
    requires StrictTotal(idLt) && NonEmptyIds(log) && !ExactPageEnds(idLt, log, readBack)
    requires forall t :: readBack(t) <= t
    ensures var l := Fetched(idLt, log, readBack, n); l.ended ==> !EachOnce(log, l.listed)
  {
    var m := RepeatsAfterInexact(idLt, log, readBack);
    NotWellOnceRepeated(idLt, log, readBack, m, n);
  }

  lemma {:induction false} NotWellOnceRepeated(idLt: (string, string) -> bool, log: set<ErrorKey>,
                                               readBack: Time -> Time, m: nat, n: nat)
    requires StrictTotal(idLt)
    requires !Fetched(idLt, log, readBack, m).ended && Repeats(Fetched(idLt, log, readBack, m + 1).listed)
    ensures var l := Fetched(idLt, log, readBack, n); l.ended ==> !EachOnce(log, l.listed)
  {
    if n <= m {
      if Fetched(idLt, log, readBack, n).ended {
        EndedStays(idLt, log, readBack, n, m);
      }
    } else {
      StillRepeats(idLt, log, readBack, m + 1, n);
    }
  }

  // The listing has ended after n fetches and has yielded each error once.
  ghost predicate ListedWell(idLt: (string, string) -> bool, log: set<ErrorKey>, readBack: Time -> Time, n: nat)
    requires StrictTotal(idLt)
  {
    Fetched(idLt, log, readBack, n).ended && EachOnce(log, Fetched(idLt, log, readBack, n).listed)
  }

  /** With timestamps that are read back rounded down, if at all: the listing ends and yields each
      error once exactly if the last row of every page reads back as stored. What the rows inside
      a page lose does not matter, and neither does how many rows share a timestamp. */
  lemma ListsEachOnceExactly(idLt: (string, string) -> bool, log: set<ErrorKey>, readBack: Time -> Time)
    requires StrictTotal(idLt) && NonEmptyIds(log) && forall t :: readBack(t) <= t
    ensures (exists n: nat :: ListedWell(idLt, log, readBack, n)) <==> ExactPageEnds(idLt, log, readBack)
  {
    if ExactPageEnds(idLt, log, readBack) {
      ExactPageEndsList(idLt, log, readBack);
      assert ListedWell(idLt, log, readBack, (|log| + ERROR_PAGE_SIZE - 1) / ERROR_PAGE_SIZE + 1);
    } else {
      forall n: nat ensures !ListedWell(idLt, log, readBack, n) {
        InexactPageEndRepeats(idLt, log, readBack, n);
      }
    }
  }

  // The cursor was taken from a row of the log.
  ghost predicate CursorFrom(log: set<ErrorKey>, readBack: Time -> Time,
                             afterCreatedAt: Option<Time>, afterId: Option<string>)
  {
    exists k :: k in log && afterId == Some(k.id) && afterCreatedAt == Some(readBack(k.createdAt))
  }

  /** If it is the newest row that loses something, no page is ever empty: the listing never ends. */
  lemma {:induction false} NewestInexactNeverEnds(idLt: (string, string) -> bool, log: set<ErrorKey>,
                                                  readBack: Time -> Time, n: nat)
    requires StrictTotal(idLt) && (forall t :: readBack(t) <= t)
    requires |Whole(idLt, log)| > 0 && !Exact(readBack, Whole(idLt, log)[|Whole(idLt, log)| - 1])
    ensures var l := Fetched(idLt, log, readBack, n);
            !l.ended && (l.afterCreatedAt.Some? ==> CursorFrom(log, readBack, l.afterCreatedAt, l.afterId))
  {
    if n > 0 {
      NewestInexactNeverEnds(idLt, log, readBack, n - 1);
      var before := Fetched(idLt, log, readBack, n - 1);
      var rows := FetchErrors(idLt, log, before.afterCreatedAt, before.afterId);
      NewestIsSelected(idLt, log, readBack, before.afterCreatedAt, before.afterId);
      assert rows[|rows| - 1] in log by {
        FetchIsPage(idLt, log, before.afterCreatedAt, before.afterId);
        assert rows[|rows| - 1] in rows;
      }
    }
  }

  lemma NewestIsSelected(idLt: (string, string) -> bool, log: set<ErrorKey>, readBack: Time -> Time,
                         afterCreatedAt: Option<Time>, afterId: Option<string>)
    requires StrictTotal(idLt) && (forall t :: readBack(t) <= t)
    requires |Whole(idLt, log)| > 0 && !Exact(readBack, Whole(idLt, log)[|Whole(idLt, log)| - 1])
    requires afterCreatedAt.Some? ==> CursorFrom(log, readBack, afterCreatedAt, afterId)
    ensures FetchErrors(idLt, log, afterCreatedAt, afterId) != []
  {
    var s, lt := Whole(idLt, log), Before(idLt);
    var newest := s[|s| - 1];
    WholeListsLog(idLt, log);
    FetchIsPage(idLt, log, afterCreatedAt, afterId);
    assert newest in log;
    if afterCreatedAt.Some? {
      var k :| k in log && afterId == Some(k.id) && afterCreatedAt == Some(readBack(k.createdAt));
      var j := MemberAt(s, k);
      assert InOrderAt(lt, s, j, |s| - 1);
      assert readBack(k.createdAt) <= k.createdAt;
    }
    assert Selected(idLt, afterCreatedAt, afterId, newest);
    FirstOfPage(lt, log, CursorKey(afterCreatedAt, afterId), ERROR_PAGE_SIZE,
                FetchErrors(idLt, log, afterCreatedAt, afterId), newest);
  }

  // ---- Concrete logs: a column of microseconds read as milliseconds ----

  function ToMilliseconds(t: Time): Time {
    t - t % 1000
  }

  /** One error at microsecond 1 is never listed to an end; followed by one on a whole millisecond
      it is, although its own timestamp is read back wrong. */
  lemma MicrosecondsMatterAtPageEnds(idLt: (string, string) -> bool)
    requires StrictTotal(idLt)
    ensures var early, late := ErrorKey(1, "a"), ErrorKey(1000, "b");
            && !(exists n: nat :: ListedWell(idLt, {early}, ToMilliseconds, n))
            && !Exact(ToMilliseconds, early)
            && exists n: nat :: ListedWell(idLt, {early, late}, ToMilliseconds, n)
  {
    var early, late := ErrorKey(1, "a"), ErrorKey(1000, "b");
    BeforeIsStrictTotal(idLt);
    ListsIsSorted(Before(idLt), {early}, [early]);
    assert Whole(idLt, {early}) == [early];
    assert EndsPage(1, 0) && !Exact(ToMilliseconds, early);
    ListsEachOnceExactly(idLt, {early}, ToMilliseconds);
    ListsIsSorted(Before(idLt), {early, late}, [early, late]);
    assert Whole(idLt, {early, late}) == [early, late];
    assert !EndsPage(2, 0) && Exact(ToMilliseconds, late);
    ListsEachOnceExactly(idLt, {early, late}, ToMilliseconds);
  }
}
