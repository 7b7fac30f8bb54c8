/** Keyset pages over a set of keys under an abstract collation: a page holds the first `limit`
    keys after the cursor, in order. */
module Keyset {
  import opened Model

  predicate OrderLaws<K(==)>(lt: (K, K) -> bool, a: K, b: K, c: K) {
    && !lt(a, a)
    && (a != b ==> lt(a, b) || lt(b, a))
    && (lt(a, b) && lt(b, c) ==> lt(a, c))
  }

  ghost predicate StrictTotal<K(!new)>(lt: (K, K) -> bool) {
    forall a, b, c :: OrderLaws(lt, a, b, c)
  }

  predicate Least<K(==)>(lt: (K, K) -> bool, keys: set<K>, k: K) {
    k in keys && forall x :: x in keys ==> x == k || lt(k, x)
  }

  lemma {:induction false} LeastExists<K(!new)>(lt: (K, K) -> bool, keys: set<K>)
    requires StrictTotal(lt) && keys != {}
    ensures exists k :: Least(lt, keys, k)
    decreases |keys|
  {
    var x :| x in keys;
    if keys == {x} {
      assert Least(lt, keys, x);
    } else {
      var rest := keys - {x};
      assert keys == rest + {x};
      LeastExists(lt, rest);
      var y :| Least(lt, rest, y);
      assert OrderLaws(lt, x, y, y);
      if lt(x, y) {
        forall z | z in keys ensures z == x || lt(x, z) {
          assert z == x || z == y || (lt(x, y) && lt(y, z));
          assert OrderLaws(lt, x, y, z);
        }
        assert Least(lt, keys, x);
      } else {
        assert forall z :: z in keys ==> z == x || z in rest;
        assert Least(lt, keys, y);
      }
    }
  }

  lemma LeastUnique<K(!new)>(lt: (K, K) -> bool, keys: set<K>)
    requires StrictTotal(lt)
    ensures forall j, k :: Least(lt, keys, j) && Least(lt, keys, k) ==> j == k
  {
    forall j, k | Least(lt, keys, j) && Least(lt, keys, k) ensures j == k {
      assert OrderLaws(lt, j, k, j);
    }
  }

  function Sorted<K(==, !new)>(lt: (K, K) -> bool, keys: set<K>): seq<K>
    requires StrictTotal(lt)
    decreases |keys|
  {
    if keys == {} then []
    else
      LeastExists(lt, keys);
      LeastUnique(lt, keys);
      var k :| Least(lt, keys, k);
      [k] + Sorted(lt, keys - {k})
  }

  predicate InOrderAt<K>(lt: (K, K) -> bool, s: seq<K>, i: int, j: int) {
    0 <= i < j < |s| ==> lt(s[i], s[j])
  }

  // Strictly increasing, hence without repeats.
  ghost predicate Ordered<K>(lt: (K, K) -> bool, s: seq<K>) {
    forall i, j :: InOrderAt(lt, s, i, j)
  }

  lemma {:induction false} SortedIsListing<K(!new)>(lt: (K, K) -> bool, keys: set<K>)
    requires StrictTotal(lt)
    ensures Ordered(lt, Sorted(lt, keys))
    ensures forall x :: x in Sorted(lt, keys) <==> x in keys
    ensures |Sorted(lt, keys)| == |keys|
    decreases |keys|
  {
    if keys != {} {
      LeastExists(lt, keys);
      var k :| Least(lt, keys, k) && Sorted(lt, keys) == [k] + Sorted(lt, keys - {k});
      SortedIsListing(lt, keys - {k});
      ConsOrdered(lt, k, Sorted(lt, keys - {k}));
    }
  }

  lemma ConsOrdered<K(!new)>(lt: (K, K) -> bool, k: K, rest: seq<K>)
    requires Ordered(lt, rest) && forall x :: x in rest ==> lt(k, x)
    ensures Ordered(lt, [k] + rest)
  {
    var s := [k] + rest;
    forall i, j | 0 <= i < j < |s| ensures InOrderAt(lt, s, i, j) {
      assert s[j] == rest[j - 1] && rest[j - 1] in rest && InOrderAt(lt, rest, i - 1, j - 1);
    }
  }

  /** An ordered listing of a set is unique. */
  lemma {:induction false} ListingUnique<K(!new)>(lt: (K, K) -> bool, a: seq<K>, b: seq<K>)
    requires StrictTotal(lt) && Ordered(lt, a) && Ordered(lt, b)
    requires forall x :: x in a <==> x in b
    ensures a == b
  {
    assert a != [] ==> a[0] in b;
    assert b != [] ==> b[0] in a;
    if a != [] {
      var i :| 0 <= i < |b| && b[i] == a[0];
      var j :| 0 <= j < |a| && a[j] == b[0];
      assert InOrderAt(lt, b, 0, i) && InOrderAt(lt, a, 0, j);
      assert OrderLaws(lt, a[0], b[0], a[0]);
      assert a[0] == b[0];
      TailMembers(lt, a);
      TailMembers(lt, b);
      ListingUnique(lt, a[1..], b[1..]);
    }
  }

  lemma TailMembers<K(!new)>(lt: (K, K) -> bool, a: seq<K>)
    requires StrictTotal(lt) && Ordered(lt, a) && a != []
    ensures Ordered(lt, a[1..])
    ensures forall x :: x in a[1..] <==> x in a && x != a[0]
  {
    assert a == [a[0]] + a[1..];
    forall x | x in a[1..] ensures x != a[0] {
      var i :| 0 <= i < |a[1..]| && a[1..][i] == x;
      assert InOrderAt(lt, a, 0, i + 1) && OrderLaws(lt, x, x, x);
    }
    forall i, j | 0 <= i < j < |a[1..]| ensures InOrderAt(lt, a[1..], i, j) {
      assert InOrderAt(lt, a, i + 1, j + 1);
    }
  }

  // Whether a key lies strictly after the cursor; without a cursor every key does.
  predicate After<K>(lt: (K, K) -> bool, cursor: Option<K>, k: K) {
    cursor.Some? ==> lt(cursor.value, k)
  }

  function Beyond<K(==)>(lt: (K, K) -> bool, keys: set<K>, cursor: Option<K>): set<K> {
    set k | k in keys && After(lt, cursor, k)
  }

  function Page<K(==, !new)>(lt: (K, K) -> bool, keys: set<K>, cursor: Option<K>, limit: nat): seq<K>
    requires StrictTotal(lt)
  {
    var all := Sorted(lt, Beyond(lt, keys, cursor));
    if |all| <= limit then all else all[..limit]
  }

  // The cursor after a page: its last key.
  function LastOr<K>(page: seq<K>, cursor: Option<K>): Option<K> {
    if page == [] then cursor else Some(page[|page| - 1])
  }

  // What makes p a page: ordered keys of the table after the cursor; a key after the cursor that
  // p leaves out comes after all of it, and then p is full.
  ghost predicate IsPage<K(!new)>(lt: (K, K) -> bool, keys: set<K>, cursor: Option<K>, limit: nat, p: seq<K>) {
    && |p| <= limit && Ordered(lt, p)
    && (forall k :: k in p ==> k in keys && After(lt, cursor, k))
    && (forall k :: k in keys && After(lt, cursor, k) && k !in p ==> |p| == limit && After(lt, LastOr(p, cursor), k))
  }

  lemma PageFacts<K(!new)>(lt: (K, K) -> bool, keys: set<K>, cursor: Option<K>, limit: nat)
    requires StrictTotal(lt)
    ensures IsPage(lt, keys, cursor, limit, Page(lt, keys, cursor, limit))
  {
    var all := Sorted(lt, Beyond(lt, keys, cursor));
    SortedIsListing(lt, Beyond(lt, keys, cursor));
    var p := Page(lt, keys, cursor, limit);
    assert p <= all;
    forall i, j | 0 <= i < j < |p| ensures InOrderAt(lt, p, i, j) {
      assert InOrderAt(lt, all, i, j);
    }
    forall k | k in p ensures k in keys && After(lt, cursor, k) {
      assert k in all;
    }
    forall k | k in keys && After(lt, cursor, k) && k !in p
      ensures |p| == limit && After(lt, LastOr(p, cursor), k)
    {
      assert k in all;
      var i :| 0 <= i < |all| && all[i] == k;
      assert i >= |p| by {
        assert forall j :: 0 <= j < |p| ==> p[j] == all[j];
      }
      if p != [] {
        assert InOrderAt(lt, all, |p| - 1, i);
      }
    }
  }

  // A page of the table's keys with no cursor that leaves nothing out is the whole listing.
  ghost predicate Lists<K(!new)>(lt: (K, K) -> bool, keys: set<K>, s: seq<K>) {
    Ordered(lt, s) && forall k :: k in s <==> k in keys
  }

  /** The whole listing is unique, so "lists" means "is the sorted table". */
  lemma {:induction false} ListsIsSorted<K(!new)>(lt: (K, K) -> bool, keys: set<K>, s: seq<K>)
    requires StrictTotal(lt)
    ensures Lists(lt, keys, s) <==> s == Sorted(lt, keys)
  {
    SortedIsListing(lt, keys);
    if Lists(lt, keys, s) {
      ListingUnique(lt, s, Sorted(lt, keys));
    }
  }

  /** A page is unique too: it is the first `limit` keys of the listing after the cursor. */
  lemma PageIsUnique<K(!new)>(lt: (K, K) -> bool, keys: set<K>, cursor: Option<K>, limit: nat, p: seq<K>)
    requires StrictTotal(lt) && IsPage(lt, keys, cursor, limit, p)
    ensures p == Page(lt, keys, cursor, limit)
  {
    var rest := set k | k in Beyond(lt, keys, cursor) && k !in p;
    var tail := Sorted(lt, rest);
    SortedIsListing(lt, rest);
    SortedIsListing(lt, Beyond(lt, keys, cursor));
    forall k | k in tail ensures After(lt, LastOr(p, cursor), k) {
      assert k in rest;
    }
    ConcatOrdered(lt, p, tail, cursor);
    forall k ensures k in p + tail <==> k in Sorted(lt, Beyond(lt, keys, cursor)) {
      assert k in p + tail <==> k in p || k in rest;
    }
    ListingUnique(lt, p + tail, Sorted(lt, Beyond(lt, keys, cursor)));
    if tail != [] {
      assert tail[0] in tail && tail[0] in rest;
    }
  }

  lemma MemberAt<K>(s: seq<K>, k: K) returns (i: nat)
    requires k in s
    ensures i < |s| && s[i] == k
  {
    i :| i < |s| && s[i] == k;
  }

  // Where the slice of at most `limit` elements that starts at `from` ends.
  function SliceEnd(size: nat, from: nat, limit: nat): nat {
    if from + limit <= size then from + limit else size
  }

  function KeyBefore<K>(s: seq<K>, from: nat): Option<K>
    requires from <= |s|
  {
    if from == 0 then None else Some(s[from - 1])
  }

  // The elements after the one before the slice are the slice and what follows it.
  lemma SliceCovers<K(!new)>(lt: (K, K) -> bool, s: seq<K>, from: nat, limit: nat, i: nat)
    requires StrictTotal(lt) && Ordered(lt, s) && from <= |s| && i < |s| && After(lt, KeyBefore(s, from), s[i])
    ensures i >= from
    ensures i < SliceEnd(|s|, from, limit) ==> s[i] in s[from..SliceEnd(|s|, from, limit)]
    ensures i >= SliceEnd(|s|, from, limit) ==>
              SliceEnd(|s|, from, limit) == from + limit &&
              After(lt, LastOr(s[from..from + limit], KeyBefore(s, from)), s[i])
  {
    var to := SliceEnd(|s|, from, limit);
    if from > 0 {
      assert OrderLaws(lt, s[from - 1], s[i], s[from - 1]) && InOrderAt(lt, s, i, from - 1);
    }
    if i < to {
      assert s[from..to][i - from] == s[i];
    } else {
      assert to > 0 ==> InOrderAt(lt, s, to - 1, i);
    }
  }

  /** A slice of the whole listing is the page after the key before it. */
  lemma SliceIsPage<K(!new)>(lt: (K, K) -> bool, keys: set<K>, s: seq<K>, from: nat, limit: nat)
    requires StrictTotal(lt) && Lists(lt, keys, s) && from <= |s|
    ensures s[from..SliceEnd(|s|, from, limit)] == Page(lt, keys, KeyBefore(s, from), limit)
  {
    var to, cursor := SliceEnd(|s|, from, limit), KeyBefore(s, from);
    var p := s[from..to];
    forall i, j | 0 <= i < j < |p| ensures InOrderAt(lt, p, i, j) {
      assert InOrderAt(lt, s, from + i, from + j);
    }
    forall k | k in p ensures k in keys && After(lt, cursor, k) {
      var i := MemberAt(p, k);
      assert s[from + i] == k && InOrderAt(lt, s, from - 1, from + i);
    }
    forall k | k in keys && After(lt, cursor, k) && k !in p ensures |p| == limit && After(lt, LastOr(p, cursor), k) {
      var i := MemberAt(s, k);
      SliceCovers(lt, s, from, limit, i);
    }
    PageIsUnique(lt, keys, cursor, limit, p);
  }

  // A key after the cursor that is in the table keeps the page from being empty, and bounds its first key.
  lemma FirstOfPage<K(!new)>(lt: (K, K) -> bool, keys: set<K>, cursor: Option<K>, limit: nat, p: seq<K>, k: K)
    requires StrictTotal(lt) && IsPage(lt, keys, cursor, limit, p) && limit > 0 && k in keys && After(lt, cursor, k)
    ensures p != [] && !lt(k, p[0])
  {
    assert OrderLaws(lt, k, k, k);
    if k in p {
      var i := MemberAt(p, k);
      assert InOrderAt(lt, p, 0, i) && OrderLaws(lt, p[0], k, p[0]);
    } else {
      assert InOrderAt(lt, p, 0, |p| - 1) && OrderLaws(lt, p[0], p[|p| - 1], k) && OrderLaws(lt, p[0], k, p[0]);
    }
  }

  lemma ConcatOrdered<K(!new)>(lt: (K, K) -> bool, a: seq<K>, b: seq<K>, start: Option<K>)
    requires StrictTotal(lt) && Ordered(lt, a) && Ordered(lt, b)
    requires forall k :: k in b ==> After(lt, LastOr(a, start), k)
    ensures Ordered(lt, a + b)
  {
    var s := a + b;
    forall i, j | 0 <= i < j < |s| ensures InOrderAt(lt, s, i, j) {
      assert InOrderAt(lt, a, i, j) && InOrderAt(lt, b, i - |a|, j - |a|);
      if i < |a| <= j {
        assert s[j] == b[j - |a|] && s[j] in b;
        assert InOrderAt(lt, a, i, |a| - 1);
        assert OrderLaws(lt, s[i], a[|a| - 1], s[j]);
      }
    }
  }

  lemma {:induction false} OrderedFits<K(!new)>(lt: (K, K) -> bool, keys: set<K>, s: seq<K>)
    requires StrictTotal(lt) && Ordered(lt, s) && forall k :: k in s ==> k in keys
    ensures |s| <= |keys|
  {
    if s != [] {
      TailMembers(lt, s);
      assert s[0] in s;
      OrderedFits(lt, keys - {s[0]}, s[1..]);
    }
  }

  // ---- A listing built from pages of a table that may change between two fetches ----

  // `emitted` came out in strictly increasing order and the cursor is its last key.
  ghost predicate InOrder<K>(lt: (K, K) -> bool, emitted: seq<K>, start: Option<K>, cursor: Option<K>) {
    Ordered(lt, emitted) && cursor == LastOr(emitted, start)
  }

  // The key was in each of the first n states of the table that were fetched from.
  ghost predicate Persistent<K>(snaps: nat -> set<K>, n: nat, k: K) {
    forall i: nat :: i < n ==> k in snaps(i)
  }

  // Every key that has been in all tables fetched from so far is emitted or still ahead.
  ghost predicate NoneSkipped<K(!new)>(lt: (K, K) -> bool, snaps: nat -> set<K>, n: nat, start: Option<K>,
                                       emitted: seq<K>, cursor: Option<K>)
  {
    forall k :: Persistent(snaps, n, k) && After(lt, start, k) ==> k in emitted || After(lt, cursor, k)
  }

  ghost predicate AllAfter<K(!new)>(lt: (K, K) -> bool, start: Option<K>, emitted: seq<K>) {
    forall k :: k in emitted ==> After(lt, start, k)
  }

  /** Appending the next page keeps the listing ordered, skips no persistent key, and finishes it
      when the page is short. */
  lemma PageExtends<K(!new)>(lt: (K, K) -> bool, snaps: nat -> set<K>, n: nat, start: Option<K>,
                             emitted: seq<K>, cursor: Option<K>, limit: nat, p: seq<K>)
    requires StrictTotal(lt) && IsPage(lt, snaps(n), cursor, limit, p)
    requires InOrder(lt, emitted, start, cursor) && NoneSkipped(lt, snaps, n, start, emitted, cursor)
    requires AllAfter(lt, start, emitted)
    ensures InOrder(lt, emitted + p, start, LastOr(p, cursor))
    ensures NoneSkipped(lt, snaps, n + 1, start, emitted + p, LastOr(p, cursor))
    ensures AllAfter(lt, start, emitted + p)
    ensures |p| < limit ==> forall k :: Persistent(snaps, n + 1, k) && After(lt, start, k) ==> k in emitted + p
  {
    ConcatOrdered(lt, emitted, p, start);
    forall k | k in p ensures After(lt, start, k) {
      if emitted != [] {
        assert emitted[|emitted| - 1] in emitted;
        AfterTransitive(lt, start, emitted[|emitted| - 1], k);
      }
    }
    forall k | Persistent(snaps, n + 1, k) && After(lt, start, k)
      ensures k in emitted + p || (|p| == limit && After(lt, LastOr(p, cursor), k))
    {
      assert k in snaps(n);
      assert Persistent(snaps, n, k);
    }
  }

  lemma AfterTransitive<K(!new)>(lt: (K, K) -> bool, cursor: Option<K>, a: K, b: K)
    requires StrictTotal(lt) && After(lt, cursor, a)
    ensures lt(a, b) ==> After(lt, cursor, b)
  {
    if cursor.Some? {
      assert OrderLaws(lt, cursor.value, a, b);
    }
  }

  lemma ListedIsPast<K(!new)>(lt: (K, K) -> bool, emitted: seq<K>, cursor: Option<K>, i: nat)
    requires StrictTotal(lt) && InOrder(lt, emitted, None, cursor) && i < |emitted|
    ensures !After(lt, cursor, emitted[i])
  {
    assert InOrderAt(lt, emitted, i, |emitted| - 1);
    assert OrderLaws(lt, emitted[i], emitted[|emitted| - 1], emitted[i]);
  }

  // Once all keys are listed the next page is empty: nothing listed lies after the cursor.
  lemma NothingMore<K(!new)>(lt: (K, K) -> bool, keys: set<K>, emitted: seq<K>, cursor: Option<K>, limit: nat,
                             p: seq<K>)
    requires StrictTotal(lt) && InOrder(lt, emitted, None, cursor) && (forall k :: k in keys ==> k in emitted)
    requires IsPage(lt, keys, cursor, limit, p)
    ensures p == []
  {
    assert |p| > 0 ==> p[0] in p;
    forall k | k in keys ensures !After(lt, cursor, k) {
      var i :| 0 <= i < |emitted| && emitted[i] == k;
      ListedIsPast(lt, emitted, cursor, i);
    }
  }
}
