/**
 Keyset paging through one conversation: a page is the first 35 rows below the cursor, newest first, and the
 cursor is the last row of a full page. Rows may be inserted while the reader walks.
 */
module MessagePaging {
  import opened Basics

  /** A message by the columns the query orders by; `id` is the primary key. */
  datatype Key = Key(createdAt: nat, id: nat)

  const THREAD_LIMIT := 35

  /** The filter `created_at.lt.X or (created_at.eq.X and id.lt.Y)`. */
  predicate Below(k: Key, cursor: Key) {
    k.createdAt < cursor.createdAt || (k.createdAt == cursor.createdAt && k.id < cursor.id)
  }

  predicate Matches(k: Key, cursor: Option<Key>) {
    cursor.Some? ==> Below(k, cursor.value)
  }

  predicate Descending(s: seq<Key>) {
    forall i, j | 0 <= i < j < |s| :: Below(s[j], s[i])
  }

  /** The newest `limit` keys of `rows`, newest first. */
  ghost predicate Newest(rows: set<Key>, limit: nat, page: seq<Key>) {
    && Descending(page) && |page| <= limit
    && (forall k | k in page :: k in rows)
    && (forall k | k in rows && k !in page :: |page| == limit && (limit > 0 ==> Below(k, page[limit - 1])))
  }

  ghost function Matching(rows: set<Key>, cursor: Option<Key>): set<Key> {
    set k | k in rows && Matches(k, cursor)
  }

  /** What one request answers on the rows of that moment. */
  ghost predicate IsPage(rows: set<Key>, cursor: Option<Key>, page: seq<Key>) {
    Newest(Matching(rows, cursor), THREAD_LIMIT, page)
  }

  function NextCursor(page: seq<Key>): Option<Key> {
    if |page| == THREAD_LIMIT then Some(page[|page| - 1]) else None
  }

  // ---------- every request has exactly one answer ----------

  lemma {:induction false} GreatestExists(rows: set<Key>) returns (k: Key)
    requires rows != {}
    ensures k in rows && forall other | other in rows && other != k :: Below(other, k)
  {
    var some :| some in rows;
    k := some;
    if rows != {some} {
      var rest := GreatestExists(rows - {some});
      k := if Below(some, rest) then rest else some;
      assert forall other | other in rows && other != some :: other in rows - {some};
    }
  }

  lemma {:induction false} NewestExists(rows: set<Key>, limit: nat) returns (page: seq<Key>)
    ensures Newest(rows, limit, page)
    decreases limit
  {
    if limit == 0 || rows == {} {
      page := [];
    } else {
      var top := GreatestExists(rows);
      var rest := NewestExists(rows - {top}, limit - 1);
      page := [top] + rest;
      assert forall j | 0 < j < |page| :: page[j] == rest[j - 1] && rest[j - 1] in rest;
      forall k | k in rows && k !in page ensures |page| == limit && Below(k, page[limit - 1]) {
        assert k in rows - {top} && k !in rest;
      }
    }
  }

  /** Each key of a page is the newest row that is not in the page before it. */
  lemma NewestOfTheRest(rows: set<Key>, limit: nat, page: seq<Key>, i: nat, k: Key)
    requires Newest(rows, limit, page) && i < limit && i <= |page| && k in rows
    requires forall j | 0 <= j < i :: page[j] != k
    ensures i < |page| && page[i] in rows && (k == page[i] || Below(k, page[i]))
  {
    if k in page {
      var j :| i <= j < |page| && page[j] == k;
    }
    assert i < |page| ==> page[i] in page;
  }

  lemma {:induction false} NewestIsUnique(rows: set<Key>, limit: nat, p: seq<Key>, q: seq<Key>, n: nat)
    requires Newest(rows, limit, p) && Newest(rows, limit, q) && n <= |p|
    ensures n <= |q| && p[..n] == q[..n]
  {
    if n > 0 {
      var i := n - 1;
      NewestIsUnique(rows, limit, p, q, i);
      assert forall j | 0 <= j < i :: p[j] == p[..i][j] == q[..i][j] == q[j];
      assert p[i] in p;
      NewestOfTheRest(rows, limit, q, i, p[i]);
      NewestOfTheRest(rows, limit, p, i, q[i]);
      assert p[..n] == p[..i] + [p[i]] && q[..n] == q[..i] + [q[i]];
    }
  }

  /** A request has an answer, and only one. */
  lemma PageIsDetermined(rows: set<Key>, cursor: Option<Key>)
    ensures exists page :: IsPage(rows, cursor, page)
    ensures forall p, q | IsPage(rows, cursor, p) && IsPage(rows, cursor, q) :: p == q
  {
    var page := NewestExists(Matching(rows, cursor), THREAD_LIMIT);
    assert IsPage(rows, cursor, page);
    forall p, q | IsPage(rows, cursor, p) && IsPage(rows, cursor, q) ensures p == q {
      NewestIsUnique(Matching(rows, cursor), THREAD_LIMIT, p, q, |p|);
      NewestIsUnique(Matching(rows, cursor), THREAD_LIMIT, q, p, |q|);
      assert p[..|p|] == p && q[..|q|] == q;
    }
  }

  // ---------- the walk ----------

  /** What the reader has after some pages, and where it goes on. */
  datatype Reader = Reader(read: seq<Key>, started: bool, next: Option<Key>)

  const START := Reader([], false, None)

  predicate AtEnd(r: Reader) {
    r.started && r.next.None?
  }

  ghost predicate Turn(rows: set<Key>, r: Reader, r': Reader) {
    && !AtEnd(r)
    && exists page :: IsPage(rows, r.next, page) && r' == Reader(r.read + page, true, NextCursor(page))
  }

  /** Rows inserted after the first page are newer than everything the first request saw. */
  ghost predicate OnlyNewer(snapshot: set<Key>, rows: set<Key>) {
    snapshot <= rows && forall k, seen | k in rows - snapshot && seen in snapshot :: Below(seen, k)
  }

  /** `readers[i + 1]` follows from `readers[i]` by a request answered from `rows[i]`. */
  ghost predicate IsWalk(rows: seq<set<Key>>, readers: seq<Reader>) {
    && |readers| == |rows| + 1 && readers[0] == START
    && (forall i | 0 <= i < |rows| :: Turn(rows[i], readers[i], readers[i + 1]))
    && (forall i | 0 <= i < |rows| :: OnlyNewer(rows[0], rows[i]))
  }

  /** What holds of a reader that started on `snapshot`, after `turns` pages. */
  ghost predicate OnCourse(snapshot: set<Key>, r: Reader, turns: nat) {
    && Descending(r.read) && (r.started <==> turns > 0)
    && (forall k | k in r.read :: k in snapshot)
    && (AtEnd(r) ==> forall k | k in snapshot :: k in r.read)
    && (!AtEnd(r) ==> |r.read| == THREAD_LIMIT * turns)
    && (r.next.Some? ==> r.read != [] && r.next.value == r.read[|r.read| - 1])
    && (r.next.Some? ==> forall k | k in snapshot && k !in r.read :: Below(k, r.next.value))
  }

  /** Below the cursor nothing has changed since the first page. */
  lemma SameBelowCursor(snapshot: set<Key>, rows: set<Key>, cursor: Key)
    requires OnlyNewer(snapshot, rows) && cursor in snapshot
    ensures Matching(rows, Some(cursor)) == Matching(snapshot, Some(cursor))
  {
    forall k | k in rows && k !in snapshot ensures !Below(k, cursor) {
      assert k in rows - snapshot && Below(cursor, k);
    }
  }

  lemma ReadingKeepsOrder(read: seq<Key>, page: seq<Key>)
    requires Descending(read) && Descending(page)
    requires read != [] ==> forall k | k in page :: Below(k, read[|read| - 1])
    ensures Descending(read + page)
  {
    forall i, j | 0 <= i < j < |read + page| ensures Below((read + page)[j], (read + page)[i]) {
      if i < |read| <= j {
        assert page[j - |read|] in page;
        assert i < |read| - 1 ==> Below(read[|read| - 1], read[i]);
      }
    }
  }

  lemma TurnStaysOnCourse(snapshot: set<Key>, rows: set<Key>, r: Reader, r': Reader, turns: nat)
    requires OnCourse(snapshot, r, turns) && Turn(rows, r, r')
    requires OnlyNewer(snapshot, rows) && (turns == 0 ==> rows == snapshot && r == START)
    ensures OnCourse(snapshot, r', turns + 1)
  {
    var page :| IsPage(rows, r.next, page) && r' == Reader(r.read + page, true, NextCursor(page));
    if turns > 0 {
      assert r.next.value in r.read;
      SameBelowCursor(snapshot, rows, r.next.value);
    }
    var open := Matching(snapshot, r.next);
    assert Newest(open, THREAD_LIMIT, page);
    ReadingKeepsOrder(r.read, page);
    forall k | k in snapshot && k !in r'.read ensures |page| == THREAD_LIMIT && Below(k, page[THREAD_LIMIT - 1]) {
      assert k in open && k !in page;
    }
  }

  lemma {:induction false} WalkStaysOnCourse(rows: seq<set<Key>>, readers: seq<Reader>, n: nat)
    requires IsWalk(rows, readers) && n <= |rows| && rows != []
    ensures OnCourse(rows[0], readers[n], n)
  {
    if n > 0 {
      WalkStaysOnCourse(rows, readers, n - 1);
      assert Turn(rows[n - 1], readers[n - 1], readers[n]);
      TurnStaysOnCourse(rows[0], rows[n - 1], readers[n - 1], readers[n], n - 1);
    }
  }

  lemma {:induction false} DescendingFits(s: seq<Key>, rows: set<Key>)
    requires Descending(s) && forall k | k in s :: k in rows
    ensures |s| <= |rows|
  {
    if s != [] {
      var last := s[|s| - 1];
      forall k | k in s[..|s| - 1] ensures k in rows - {last} {
        var i :| 0 <= i < |s| - 1 && s[i] == k;
        assert Below(last, s[i]);
      }
      DescendingFits(s[..|s| - 1], rows - {last});
    }
  }

  lemma {:induction false} DescendingCounts(s: seq<Key>, rows: set<Key>)
    requires Descending(s) && (forall k | k in s :: k in rows) && (forall k | k in rows :: k in s)
    ensures |s| == |rows|
  {
    if s == [] {
      assert rows == {};
    } else {
      var n := |s| - 1;
      forall k | k in s[..n] ensures k in rows - {s[n]} {
        var i :| 0 <= i < n && s[i] == k;
        assert Below(s[n], s[i]);
      }
      forall k | k in rows - {s[n]} ensures k in s[..n] {
        var i :| 0 <= i < |s| && s[i] == k;
        assert s[..n][i] == k;
      }
      DescendingCounts(s[..n], rows - {s[n]});
    }
  }

  /**
   Whatever is inserted above the first page meanwhile, a walk reads strictly downwards and nothing but messages
   of the first moment; it is at its end exactly after |snapshot| div 35 + 1 pages, and then it has read each
   message of the first moment once.
   */
  lemma WalkReadsEachMessageOnce(rows: seq<set<Key>>, readers: seq<Reader>)
    requires IsWalk(rows, readers) && rows != []
    ensures
      var snapshot, r := rows[0], readers[|rows|];
      && Descending(r.read) && (forall k | k in r.read :: k in snapshot)
      && (forall i, j | 0 <= i < j < |r.read| ::
            r.read[i].createdAt > r.read[j].createdAt
            || (r.read[i].createdAt == r.read[j].createdAt && r.read[i].id > r.read[j].id))
      && |rows| <= |snapshot| / 35 + 1
      && (AtEnd(r) <==> |rows| == |snapshot| / 35 + 1)
      && (AtEnd(r) ==> |r.read| == |snapshot| && forall k | k in snapshot :: k in r.read)
  {
    var snapshot, n := rows[0], |rows|;
    WalkStaysOnCourse(rows, readers, n);
    WalkStaysOnCourse(rows, readers, n - 1);
    assert Turn(rows[n - 1], readers[n - 1], readers[n]);
    var page :| IsPage(rows[n - 1], readers[n - 1].next, page)
                && readers[n] == Reader(readers[n - 1].read + page, true, NextCursor(page));
    DescendingFits(readers[n].read, snapshot);
    if AtEnd(readers[n]) { DescendingCounts(readers[n].read, snapshot); }
  }

  /** A walk that is not at its end can always go on, so every conversation is read to its end. */
  lemma WalkGoesOn(rows: set<Key>, r: Reader)
    ensures !AtEnd(r) <==> exists r' :: Turn(rows, r, r')
  {
    if !AtEnd(r) {
      PageIsDetermined(rows, r.next);
      var page :| IsPage(rows, r.next, page);
      assert Turn(rows, r, Reader(r.read + page, true, NextCursor(page)));
    }
  }

  /** One page on, a row that is not below the cursor is still unread and still not below the cursor. */
  lemma LateRowIsMissedByAPage(rows: set<Key>, r: Reader, r': Reader, late: Key)
    requires Turn(rows, r, r') && r.next.Some? && late !in r.read && !Below(late, r.next.value)
    ensures late !in r'.read && (r'.next.Some? ==> !Below(late, r'.next.value))
  {
    var page :| IsPage(rows, r.next, page) && r' == Reader(r.read + page, true, NextCursor(page));
    if r'.next.Some? {
      assert r'.next.value in page;
      assert Below(r'.next.value, r.next.value);
    }
  }

  /**
   The condition on late rows matters. However the rows change, a row that was not read when the reader's cursor
   had reached or passed its key is read by none of the pages that follow.
   */
  lemma {:induction false} LateRowIsMissed(rows: seq<set<Key>>, readers: seq<Reader>, late: Key)
    requires |readers| == |rows| + 1 && forall i | 0 <= i < |rows| :: Turn(rows[i], readers[i], readers[i + 1])
    requires readers[0].next.Some? && late !in readers[0].read && !Below(late, readers[0].next.value)
    ensures forall i | 0 <= i < |readers| :: late !in readers[i].read
  {
    if rows != [] {
      assert Turn(rows[0], readers[0], readers[1]);
      LateRowIsMissedByAPage(rows[0], readers[0], readers[1], late);
      if |rows| > 1 {
        assert Turn(rows[1], readers[1], readers[2]);
        LateRowIsMissed(rows[1..], readers[1..], late);
        assert forall i | 0 < i < |readers| :: readers[i] == readers[1..][i - 1];
      }
    }
  }
}
