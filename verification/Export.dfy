/** Paged exports of one production table under an abstract collation of external ids. The table
    may change between two fetches: fetch number i sees `tables(i)`. */
module Export {
  import opened Model
  import opened Keyset

  datatype Filters = Filters(active: Option<bool>, role: Option<string>, status: Option<string>,
                             authorId: Option<Id>, articleId: Option<Id>, userId: Option<Id>,
                             publishedAfter: Option<Time>, publishedBefore: Option<Time>)

  // An empty string switches a filter off, as an absent one does.
  predicate TextFilter(f: Option<string>, value: string) {
    f.Some? && f.value != "" ==> f.value == value
  }

  predicate UserMatches(f: Filters, row: UserRow) {
    (f.active.Some? ==> row.active == f.active.value) && TextFilter(f.role, row.role)
  }

  predicate ArticleMatches(f: Filters, row: ArticleRow) {
    && TextFilter(f.status, row.status) && TextFilter(f.authorId, row.authorId)
    && (f.publishedAfter.Some? ==> row.publishedAt.Some? && row.publishedAt.value > f.publishedAfter.value)
    && (f.publishedBefore.Some? ==> row.publishedAt.Some? && row.publishedAt.value < f.publishedBefore.value)
  }

  predicate CommentMatches(f: Filters, row: CommentRow) {
    TextFilter(f.articleId, row.articleId) && TextFilter(f.userId, row.userId)
  }

  const NO_FILTERS := Filters(None, None, None, None, None, None, None, None)

  // The ids an export of one entity selects.
  function EligibleIds(entity: Entity, f: Filters, t: Tables): set<Id> {
    match entity
    case Users => set x | x in t.users && UserMatches(f, t.users[x])
    case Articles => set x | x in t.articles && ArticleMatches(f, t.articles[x])
    case Comments => set x | x in t.comments && CommentMatches(f, t.comments[x])
  }

  type Collation = (Id, Id) -> bool

  // The ids a query may return, for one state of the table.
  function Eligible<V>(table: map<Id, V>, keep: V -> bool): set<Id> {
    set x | x in table && keep(table[x])
  }

  // The where-clause drops the cursor condition when the cursor is null or empty.
  function CursorOf(afterId: Option<Id>): Option<Id> {
    if afterId.Some? && afterId.value != "" then afterId else None
  }

  // One fetch: filtered, after the cursor, in collation order, at most `limit` rows.
  method FetchExportRows<V>(lt: Collation, table: map<Id, V>, keep: V -> bool, afterId: Option<Id>, limit: nat)
    returns (ids: seq<Id>, rows: seq<V>)
    requires StrictTotal(lt)
    ensures IsPage(lt, Eligible(table, keep), CursorOf(afterId), limit, ids)
    ensures |rows| == |ids|
    ensures forall i :: 0 <= i < |ids| ==> ids[i] in table && rows[i] == table[ids[i]] && keep(rows[i])
  {
    ids := Page(lt, Eligible(table, keep), CursorOf(afterId), limit);
    PageFacts(lt, Eligible(table, keep), CursorOf(afterId), limit);
    forall i | 0 <= i < |ids| ensures ids[i] in table && keep(table[ids[i]]) {
      assert ids[i] in ids;
    }
    rows := seq(|ids|, i requires 0 <= i < |ids| => table[ids[i]]);
  }

  // The eligible ids seen by each fetch.
  function Seen<V>(tables: nat -> map<Id, V>, keep: V -> bool): nat -> set<Id> {
    (i: nat) => Eligible(tables(i), keep)
  }

  // The collation puts the empty id before every other one.
  ghost predicate EmptyIdFirst(lt: Collation) {
    forall id :: id != "" ==> lt("", id)
  }

  // A page that starts here does not end with the empty id, which the where-clause would take for
  // "no cursor": either it cannot hold that id, or it holds another one after it.
  ghost predicate EmptyIdPassed(lt: Collation, ids: set<Id>, cursor: Option<Id>, limit: nat) {
    "" in ids ==> EmptyIdFirst(lt) && (cursor.Some? || (limit >= 2 && ids != {""}))
  }

  ghost predicate CursorsKept<V>(lt: Collation, tables: nat -> map<Id, V>, keep: V -> bool, cursor: Option<Id>,
                                 limit: nat)
  {
    forall i: nat :: EmptyIdPassed(lt, Eligible(tables(i), keep), cursor, limit)
  }

  lemma PageEndsNonEmpty(lt: Collation, ids: set<Id>, cursor: Option<Id>, limit: nat, p: seq<Id>)
    requires StrictTotal(lt) && EmptyIdPassed(lt, ids, cursor, limit) && IsPage(lt, ids, cursor, limit, p) && p != []
    requires cursor.Some? ==> cursor.value != ""
    ensures p[|p| - 1] != ""
  {
    var last := p[|p| - 1];
    assert last in p;
    assert InOrderAt(lt, p, 0, |p| - 1) && OrderLaws(lt, p[0], "", p[0]);
    if cursor.Some? {
      assert OrderLaws(lt, cursor.value, "", cursor.value);
    }
    assert ids <= {""} || exists other :: other in ids && other != "";
  }

  // A single call stops at a short page, so it fetches again only after a full one that leaves
  // something to write; it must not end with the empty id.
  ghost predicate CallKept<V>(lt: Collation, tables: nat -> map<Id, V>, keep: V -> bool, cursor: Option<Id>,
                              batch: nat, limit: nat)
  {
    forall i: nat :: "" in Eligible(tables(i), keep) ==> EmptyIdFirst(lt) && (cursor.Some? || batch >= 2 || limit <= 1)
  }

  lemma FullPageEndsNonEmpty(lt: Collation, ids: set<Id>, cursor: Option<Id>, limit: nat, p: seq<Id>)
    requires StrictTotal(lt) && IsPage(lt, ids, cursor, limit, p) && |p| == limit >= 1
    requires "" in ids ==> EmptyIdFirst(lt) && (cursor.Some? || limit >= 2)
    requires cursor.Some? ==> cursor.value != ""
    ensures p[|p| - 1] != ""
  {
    assert p[0] in p && p[|p| - 1] in p;
    if cursor.None? && "" in ids {
      assert p[1] in p && InOrderAt(lt, p, 0, |p| - 1) && OrderLaws(lt, p[0], "", p[0]);
    }
    PageEndsNonEmpty(lt, ids, cursor, limit, p);
  }

  /** The condition on the empty id is exact: the first page ends with it, and the next fetch
      starts over, exactly if it is listed alone. */
  lemma EmptyIdPassedExactly(lt: Collation, ids: set<Id>, limit: nat)
    requires StrictTotal(lt) && EmptyIdFirst(lt) && limit >= 1
    ensures EmptyIdPassed(lt, ids, None, limit) <==> LastOr(Page(lt, ids, None, limit), None) != Some("")
    ensures !EmptyIdPassed(lt, ids, None, limit) ==> Page(lt, ids, CursorOf(Some("")), limit) == [""]
  {
    var p := Page(lt, ids, None, limit);
    PageFacts(lt, ids, None, limit);
    if EmptyIdPassed(lt, ids, None, limit) {
      if p != [] {
        PageEndsNonEmpty(lt, ids, None, limit, p);
      }
    } else {
      assert Ordered(lt, [""]);
      PageIsUnique(lt, ids, None, limit, [""]);
    }
  }

  ghost predicate Unchanging<V>(tables: nat -> map<Id, V>) {
    forall i: nat :: tables(i) == tables(0)
  }

  // The emitted row was the table's row for the emitted id at one of the first n fetches.
  ghost predicate FetchedFrom<V>(tables: nat -> map<Id, V>, keep: V -> bool, n: nat, id: Id, row: V) {
    exists i: nat :: i < n && id in tables(i) && tables(i)[id] == row && keep(row)
  }

  ghost predicate RowsGenuine<V>(tables: nat -> map<Id, V>, keep: V -> bool, n: nat, ids: seq<Id>, rows: seq<V>) {
    |ids| == |rows| && forall i :: 0 <= i < |ids| ==> FetchedFrom(tables, keep, n, ids[i], rows[i])
  }

  // What holds between two fetches of a listing that started after `start`.
  ghost predicate Under<V>(lt: Collation, tables: nat -> map<Id, V>, keep: V -> bool, start: Option<Id>, n: nat,
                           emitted: seq<Id>, rows: seq<V>, afterId: Option<Id>)
  {
    && InOrder(lt, emitted, start, afterId) && AllAfter(lt, start, emitted)
    && NoneSkipped(lt, Seen(tables, keep), n, start, emitted, afterId)
    && RowsGenuine(tables, keep, n, emitted, rows)
  }

  // Every id that was eligible at each fetch, and lies after the start, has been emitted.
  ghost predicate Complete<V>(lt: Collation, tables: nat -> map<Id, V>, keep: V -> bool, start: Option<Id>, n: nat,
                              emitted: seq<Id>)
  {
    forall id :: Persistent(Seen(tables, keep), n, id) && After(lt, start, id) ==> id in emitted
  }

  lemma RowsStayGenuine<V>(tables: nat -> map<Id, V>, keep: V -> bool, n: nat, ids: seq<Id>, rows: seq<V>, p: seq<Id>,
                           page: seq<V>)
    requires RowsGenuine(tables, keep, n, ids, rows) && |p| == |page|
    requires forall i :: 0 <= i < |p| ==> p[i] in tables(n) && page[i] == tables(n)[p[i]] && keep(page[i])
    ensures RowsGenuine(tables, keep, n + 1, ids + p, rows + page)
  {
  }

  // One more fetch.
  lemma UnderExtends<V>(lt: Collation, tables: nat -> map<Id, V>, keep: V -> bool, start: Option<Id>, n: nat,
                        emitted: seq<Id>, rows: seq<V>, afterId: Option<Id>, limit: nat, p: seq<Id>, page: seq<V>)
    requires StrictTotal(lt) && Under(lt, tables, keep, start, n, emitted, rows, afterId)
    requires afterId.Some? ==> afterId.value != ""
    requires IsPage(lt, Eligible(tables(n), keep), CursorOf(afterId), limit, p) && |p| == |page|
    requires forall i :: 0 <= i < |p| ==> p[i] in tables(n) && page[i] == tables(n)[p[i]] && keep(page[i])
    ensures Under(lt, tables, keep, start, n + 1, emitted + p, rows + page, LastOr(p, afterId))
    ensures |p| < limit ==> Complete(lt, tables, keep, start, n + 1, emitted + p)
  {
    var seen := Seen(tables, keep);
    assert CursorOf(afterId) == afterId && seen(n) == Eligible(tables(n), keep);
    PageExtends(lt, seen, n, start, emitted, afterId, limit, p);
    RowsStayGenuine(tables, keep, n, emitted, rows, p, page);
  }

  // On an unchanging table everything emitted is eligible in it.
  lemma EmittedEligible<V>(lt: Collation, tables: nat -> map<Id, V>, keep: V -> bool, start: Option<Id>, n: nat,
                           emitted: seq<Id>, rows: seq<V>, afterId: Option<Id>)
    requires Under(lt, tables, keep, start, n, emitted, rows, afterId) && Unchanging(tables)
    ensures forall id :: id in emitted ==> id in Eligible(tables(0), keep)
  {
  }

  lemma EligiblePersists<V>(tables: nat -> map<Id, V>, keep: V -> bool, n: nat, id: Id)
    requires Unchanging(tables) && id in Eligible(tables(0), keep)
    ensures Persistent(Seen(tables, keep), n, id)
  {
  }

  /** On an unchanging table, what has been listed so far is a page from the start. */
  lemma ListedIsPage<V>(lt: Collation, tables: nat -> map<Id, V>, keep: V -> bool, start: Option<Id>, n: nat,
                        emitted: seq<Id>, rows: seq<V>, afterId: Option<Id>, limit: nat)
    requires Under(lt, tables, keep, start, n, emitted, rows, afterId) && |emitted| <= limit
    requires |emitted| < limit ==> Complete(lt, tables, keep, start, n, emitted)
    ensures Unchanging(tables) ==> IsPage(lt, Eligible(tables(0), keep), start, limit, emitted)
  {
  }

  // n full pages.
  function Quota(batch: nat, n: nat): nat {
    if n == 0 then 0 else Quota(batch, n - 1) + batch
  }

  lemma {:induction false} QuotaIsProduct(batch: nat, n: nat)
    ensures Quota(batch, n) == batch * n
  {
    if n > 0 {
      QuotaIsProduct(batch, n - 1);
      assert batch * n == batch * (n - 1) + batch;
    }
  }

  // On an unchanging table every page but the last is full: after n non-empty pages either
  // everything has been listed or n * batch ids have.
  ghost predicate Counted<V>(tables: nat -> map<Id, V>, keep: V -> bool, batch: nat, n: nat, emitted: seq<Id>) {
    && (n > 0 ==> Quota(batch, n - 1) < |emitted|)
    && (|emitted| == Quota(batch, n) || forall id :: id in Eligible(tables(0), keep) ==> id in emitted)
  }

  lemma CountedExtends<V>(lt: Collation, tables: nat -> map<Id, V>, keep: V -> bool, batch: nat, n: nat,
                          emitted: seq<Id>, rows: seq<V>, afterId: Option<Id>, p: seq<Id>)
    requires StrictTotal(lt) && Under(lt, tables, keep, None, n, emitted, rows, afterId)
    requires Unchanging(tables) ==> Counted(tables, keep, batch, n, emitted)
    requires afterId.Some? ==> afterId.value != ""
    requires IsPage(lt, Eligible(tables(n), keep), CursorOf(afterId), batch, p)
    requires |p| < batch ==> Complete(lt, tables, keep, None, n + 1, emitted + p)
    ensures Unchanging(tables) && p != [] ==> Counted(tables, keep, batch, n + 1, emitted + p)
  {
    if Unchanging(tables) && p != [] {
      var all := Eligible(tables(0), keep);
      assert tables(n) == tables(0);
      if forall id :: id in all ==> id in emitted {
        NothingMore(lt, all, emitted, afterId, batch, p);
      }
      if |p| < batch {
        forall id | id in all ensures id in emitted + p {
          EligiblePersists(tables, keep, n + 1, id);
        }
      }
    }
  }

  lemma {:induction false} CountedBound<V>(lt: Collation, tables: nat -> map<Id, V>, keep: V -> bool, batch: nat,
                                           n: nat, emitted: seq<Id>, rows: seq<V>, afterId: Option<Id>)
    requires StrictTotal(lt) && Under(lt, tables, keep, None, n, emitted, rows, afterId)
    requires Unchanging(tables) ==> Counted(tables, keep, batch, n, emitted)
    ensures Unchanging(tables) && n > 0 ==> Quota(batch, n - 1) < |Eligible(tables(0), keep)|
  {
    if Unchanging(tables) {
      EmittedEligible(lt, tables, keep, None, n, emitted, rows, afterId);
      OrderedFits(lt, Eligible(tables(0), keep), emitted);
    }
  }

  lemma CompleteIsListing<V>(lt: Collation, tables: nat -> map<Id, V>, keep: V -> bool, n: nat,
                             emitted: seq<Id>, rows: seq<V>, afterId: Option<Id>)
    requires Under(lt, tables, keep, None, n, emitted, rows, afterId) && Complete(lt, tables, keep, None, n, emitted)
    ensures Unchanging(tables) ==> Lists(lt, Eligible(tables(0), keep), emitted)
  {
  }

  /** The row generator of an asynchronous export, followed for at most `maxFetches` fetches. It
      emits ids in strictly increasing order, so none twice, whatever happens to the table; if it
      ends, every id that was there and eligible all the time has been emitted. On an unchanging
      table of n rows it ends within ceil(n / batch) + 1 fetches and the result is the whole table. */
  method CreateRowGenerator<V>(lt: Collation, tables: nat -> map<Id, V>, keep: V -> bool, batch: nat, maxFetches: nat)
    returns (emitted: seq<Id>, rows: seq<V>, fetches: nat, ended: bool)
    requires StrictTotal(lt) && CursorsKept(lt, tables, keep, None, batch) && batch >= 1
    ensures fetches <= maxFetches && (!ended ==> fetches == maxFetches)
    ensures Ordered(lt, emitted) && RowsGenuine(tables, keep, fetches, emitted, rows)
    ensures ended ==> Complete(lt, tables, keep, None, fetches, emitted)
    ensures Unchanging(tables) && ended ==> Lists(lt, Eligible(tables(0), keep), emitted)
    ensures Unchanging(tables) && !ended ==> maxFetches == 0 || batch * (maxFetches - 1) < |Eligible(tables(0), keep)|
  {
    var afterId: Option<Id> := None;
    emitted, rows, fetches, ended := [], [], 0, false;
    while fetches < maxFetches
      invariant fetches <= maxFetches && !ended
      invariant Under(lt, tables, keep, None, fetches, emitted, rows, afterId)
      invariant afterId.Some? ==> afterId.value != ""
      invariant Unchanging(tables) ==> Counted(tables, keep, batch, fetches, emitted)
      decreases maxFetches - fetches
    {
      var ids, page := FetchExportRows(lt, tables(fetches), keep, afterId, batch);
      if ids != [] {
        PageEndsNonEmpty(lt, Eligible(tables(fetches), keep), CursorOf(afterId), batch, ids);
      }
      UnderExtends(lt, tables, keep, None, fetches, emitted, rows, afterId, batch, ids, page);
      CountedExtends(lt, tables, keep, batch, fetches, emitted, rows, afterId, ids);
      emitted, rows, fetches := emitted + ids, rows + page, fetches + 1;
      if |ids| == 0 {
        CompleteIsListing(lt, tables, keep, fetches, emitted, rows, afterId);
        ended := true;
        return;
      }
      afterId := Some(ids[|ids| - 1]);
    }
    CountedBound(lt, tables, keep, batch, fetches, emitted, rows, afterId);
    if fetches > 0 {
      QuotaIsProduct(batch, fetches - 1);
    }
  }

  // The last id written, unless it is empty.
  function CursorAfter(emitted: seq<Id>): Option<Id> {
    if emitted == [] || emitted[|emitted| - 1] == "" then None else Some(emitted[|emitted| - 1])
  }

  lemma CursorIsLast(lt: Collation, emitted: seq<Id>, start: Option<Id>, afterId: Option<Id>)
    requires InOrder(lt, emitted, start, afterId)
    ensures CursorAfter(emitted) == if afterId.Some? && afterId.value != "" && |emitted| > 0 then afterId else None
  {
  }

  /** One streaming export call. Order, no repeats and completeness as above, now also when it
      stops on a short page; on an unchanging table it writes exactly the first `limit` rows after
      the cursor, whatever the page size. The next cursor is the last id written; it is absent, as
      at the end, if that id is empty. */
  method StreamExport<V>(lt: Collation, tables: nat -> map<Id, V>, keep: V -> bool, batch: nat, limit: nat,
                         cursor: Option<Id>)
    returns (emitted: seq<Id>, rows: seq<V>, nextCursor: Option<Id>, fetches: nat)
    requires StrictTotal(lt) && batch >= 1
    requires CallKept(lt, tables, keep, CursorOf(cursor), batch, limit)
    ensures |emitted| <= limit && fetches <= limit
    ensures Ordered(lt, emitted) && AllAfter(lt, CursorOf(cursor), emitted)
    ensures RowsGenuine(tables, keep, fetches, emitted, rows)
    ensures nextCursor == CursorAfter(emitted)
    ensures |emitted| < limit ==> Complete(lt, tables, keep, CursorOf(cursor), fetches, emitted)
    ensures Unchanging(tables) ==> IsPage(lt, Eligible(tables(0), keep), CursorOf(cursor), limit, emitted)
  {
    ghost var start := CursorOf(cursor);
    var afterId := CursorOf(cursor);
    var remaining := limit;
    emitted, rows, fetches := [], [], 0;
    while remaining > 0
      invariant 0 <= remaining && remaining + |emitted| == limit && fetches <= |emitted|
      invariant Under(lt, tables, keep, start, fetches, emitted, rows, afterId)
      invariant afterId.None? ==> remaining == limit && start.None?
      invariant remaining > 0 && afterId.Some? ==> afterId.value != ""
      decreases remaining
    {
      var batchLimit := if batch < remaining then batch else remaining;
      var ids, page := FetchExportRows(lt, tables(fetches), keep, afterId, batchLimit);
      if |ids| == batchLimit < remaining {
        FullPageEndsNonEmpty(lt, Eligible(tables(fetches), keep), CursorOf(afterId), batchLimit, ids);
      }
      UnderExtends(lt, tables, keep, start, fetches, emitted, rows, afterId, batchLimit, ids, page);
      emitted, rows, fetches := emitted + ids, rows + page, fetches + 1;
      if |ids| == 0 { break; }
      afterId := Some(ids[|ids| - 1]);
      remaining := remaining - |ids|;
      if |ids| < batchLimit { break; }
    }
    ListedIsPage(lt, tables, keep, start, fetches, emitted, rows, afterId, limit);
    CursorIsLast(lt, emitted, start, afterId);
    nextCursor := if afterId.Some? && afterId.value != "" && |emitted| > 0 then afterId else None;
  }

  // A page that ends with the empty id, although it could hold more, holds everything.
  lemma EndsWithEmptyId(lt: Collation, all: set<Id>, cursor: Option<Id>, limit: nat, emitted: seq<Id>, p: seq<Id>)
    requires StrictTotal(lt) && IsPage(lt, all, cursor, limit, p) && p != [] && p[|p| - 1] == ""
    requires EmptyIdFirst(lt) && (cursor.Some? || limit >= 2) && (cursor.Some? ==> cursor.value != "")
    requires Ordered(lt, emitted + p) && forall id :: id in emitted + p ==> id in all
    requires forall id :: id in all ==> id in emitted || After(lt, cursor, id)
    ensures Lists(lt, all, emitted + p)
  {
    if |p| == limit {
      FullPageEndsNonEmpty(lt, all, cursor, limit, p);
    }
  }

  /** A client that follows `nextCursor`, call after call, with limits of its choice, reads the
      whole ordered table exactly once; n rows take at most ceil(n / smallest limit) + 1 calls. */
  method FollowCursors<V>(lt: Collation, table: map<Id, V>, keep: V -> bool, batch: nat, limits: seq<nat>,
                          smallest: nat)
    returns (emitted: seq<Id>, calls: nat, done: bool)
    requires StrictTotal(lt) && batch >= 1 && smallest >= 1
    requires "" in Eligible(table, keep) ==> EmptyIdFirst(lt) && batch >= 2 && (limits != [] ==> limits[0] >= 2)
    requires forall i :: 0 <= i < |limits| ==> limits[i] >= smallest
    ensures calls <= |limits| && (!done ==> calls == |limits|)
    ensures done ==> Lists(lt, Eligible(table, keep), emitted)
    ensures done && calls >= 2 ==> smallest * (calls - 2) < |Eligible(table, keep)|
    ensures !done && calls >= 1 ==> smallest * (calls - 1) < |Eligible(table, keep)|
  {
    ghost var all := Eligible(table, keep);
    var tables := (i: nat) => table;
    ghost var snaps := (i: nat) => all;
    assert Unchanging(tables) && tables(0) == table;
    var cursor: Option<Id> := None;
    emitted, calls, done := [], 0, false;
    while calls < |limits|
      invariant calls <= |limits| && !done && (cursor.Some? ==> cursor.value != "") && (cursor.None? ==> calls == 0)
      invariant Chained(lt, all, emitted, cursor, calls)
      invariant ChainCounted(all, smallest, emitted, calls)
      decreases |limits| - calls
    {
      assert CallKept(lt, tables, keep, cursor, batch, limits[calls]);
      var part, _, next, _ := StreamExport(lt, tables, keep, batch, limits[calls], cursor);
      ChainExtends(lt, all, smallest, emitted, cursor, calls, limits[calls], part);
      if next.None? && part != [] {
        assert part[|part| - 1] in part;
        EndsWithEmptyId(lt, all, cursor, limits[calls], emitted, part);
      }
      if calls >= 1 {
        CallsBound(all, smallest, emitted, calls);
      }
      emitted, calls := emitted + part, calls + 1;
      if next.None? {
        done := true;
        return;
      }
      assert next.value in part;
      cursor := next;
    }
    if calls >= 1 {
      CallsBound(all, smallest, emitted, calls);
    }
  }

  // The chain of calls so far on a fixed set of keys.
  ghost predicate Chained(lt: Collation, all: set<Id>, emitted: seq<Id>, cursor: Option<Id>, n: nat) {
    && InOrder(lt, emitted, None, cursor) && (forall id :: id in emitted ==> id in all)
    && (forall id :: id in all ==> id in emitted || After(lt, cursor, id))
  }

  ghost predicate ChainCounted(all: set<Id>, smallest: nat, emitted: seq<Id>, n: nat) {
    && (n > 0 ==> Quota(smallest, n - 1) < |emitted|)
    && |emitted| <= |all|
    && (Quota(smallest, n) <= |emitted| || forall id :: id in all ==> id in emitted)
  }

  lemma {:induction false} CallsBound(all: set<Id>, smallest: nat, emitted: seq<Id>, n: nat)
    requires ChainCounted(all, smallest, emitted, n) && n >= 1
    ensures smallest * (n - 1) < |all|
  {
    QuotaIsProduct(smallest, n - 1);
  }

  lemma ChainExtends(lt: Collation, all: set<Id>, smallest: nat, emitted: seq<Id>, cursor: Option<Id>, n: nat,
                     limit: nat, p: seq<Id>)
    requires StrictTotal(lt) && Chained(lt, all, emitted, cursor, n) && ChainCounted(all, smallest, emitted, n)
    requires limit >= smallest >= 1 && IsPage(lt, all, cursor, limit, p)
    ensures Chained(lt, all, emitted + p, LastOr(p, cursor), n + 1)
    ensures p != [] ==> ChainCounted(all, smallest, emitted + p, n + 1)
    ensures p == [] ==> Lists(lt, all, emitted + p)
  {
    ConcatOrdered(lt, emitted, p, None);
    forall id | id in emitted + p ensures id in all {}
    OrderedFits(lt, all, emitted + p);
    if (forall id :: id in all ==> id in emitted) {
      NothingMore(lt, all, emitted, cursor, limit, p);
    }
    assert p == [] ==> emitted + p == emitted;
  }

  // ---- Export files ----

  // An NDJSON export is one encoded record per line.
  function NdjsonText(records: seq<string>): string {
    if records == [] then "" else NdjsonText(records[..|records| - 1]) + records[|records| - 1] + "\n"
  }

  function Joined(records: seq<string>): string {
    if records == [] then ""
    else if |records| == 1 then records[0]
    else Joined(records[..|records| - 1]) + "," + records[|records| - 1]
  }

  // A JSON export is the same records as one array.
  function JsonArrayText(records: seq<string>): string {
    "[" + Joined(records) + "]\n"
  }

  // The two stateful stream stages of a JSON export: one puts the commas, the other the brackets.
  class JsonArrayStage {
    var isFirst: bool
    var started: bool
    var output: string

    constructor ()
      ensures isFirst && !started && output == ""
    {
      isFirst, started, output := true, false, "";
    }

    method Record(encoded: string)
      modifies this
      ensures !isFirst && started
      ensures output == old(output) + (if old(started) then "" else "[") + (if old(isFirst) then "" else ",") + encoded
    {
      var chunk := (if isFirst then "" else ",") + encoded;
      isFirst := false;
      if !started {
        started := true;
        output := output + "[" + chunk;
      } else {
        output := output + chunk;
      }
    }

    method Flush()
      modifies this
      ensures output == old(output) + (if old(started) then "]\n" else "[]\n")
    {
      output := output + (if started then "]\n" else "[]\n");
    }
  }

  /** Whatever records pass through, the file is one well-formed array of exactly them. */
  method WriteJsonArray(records: seq<string>) returns (text: string)
    ensures text == JsonArrayText(records)
  {
    var stage := new JsonArrayStage();
    for i := 0 to |records|
      invariant stage.started == !stage.isFirst == (i > 0)
      invariant stage.output == if i == 0 then "" else "[" + Joined(records[..i])
    {
      assert records[..i + 1][..i] == records[..i];
      stage.Record(records[i]);
    }
    assert records[..|records|] == records;
    stage.Flush();
    text := stage.output;
  }
}
