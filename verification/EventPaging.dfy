/**
 Offset paging of the `list` action over a fixed upstream list: each page asks for `take` items from `skip`,
 drops the ones it cannot map, and offers a next offset. `skip` and `take` are clamped on every request.
 */
module EventPaging {
  import opened Basics

  type EventId = nat

  const MAX_SKIP := 1_000_000
  const MAX_TAKE := 50

  /** The upstream list; `None` is an item that `mapEvent` refuses. */
  type Upstream = seq<Option<EventId>>

  function Events(items: Upstream): seq<EventId> {
    if items == [] then []
    else Events(items[..|items| - 1]) + if items[|items| - 1].Some? then [items[|items| - 1].value] else []
  }

  /** Every item from `from` up to `to` maps. */
  predicate Maps(items: Upstream, from: nat, to: nat) {
    forall i | from <= i < to && i < |items| :: items[i].Some?
  }

  function ClampSkip(skip: int): nat { Min(MAX_SKIP, Max(0, skip)) }

  function ClampTake(take: int): nat { Min(MAX_TAKE, Max(1, take)) }

  /** What the upstream answers: at most `take` items from `skip`. */
  function Items(upstream: Upstream, skip: nat, take: nat): Upstream {
    var from := Min(skip, |upstream|);
    upstream[from..Min(from + take, |upstream|)]
  }

  datatype Page = Page(events: seq<EventId>, total: nat, nextSkip: Option<nat>)

  function List(upstream: Upstream, skip: int, take: int): Page {
    var s, t := ClampSkip(skip), ClampTake(take);
    var events := Events(Items(upstream, s, t));
    var consumed := s + |events|;
    Page(events, |upstream|, if |events| == t && consumed < |upstream| then Some(consumed) else None)
  }

  /** A reader that follows `nextSkip`; `None` when it is at the end. */
  datatype Reader = Reader(read: seq<EventId>, next: Option<nat>)

  function After(upstream: Upstream, take: int, requests: nat): Reader {
    if requests == 0 then Reader([], Some(0))
    else
      var r := After(upstream, take, requests - 1);
      if r.next.None? then r
      else
        var page := List(upstream, r.next.value, take);
        Reader(r.read + page.events, page.nextSkip)
  }

  // ---------- mapping ----------

  lemma {:induction false} EventsConcat(a: Upstream, b: Upstream)
    ensures Events(a + b) == Events(a) + Events(b)
  {
    if b == [] {
      assert a + b == a;
    } else {
      assert (a + b)[..|a + b| - 1] == a + b[..|b| - 1];
      EventsConcat(a, b[..|b| - 1]);
    }
  }

  lemma EventOfOne(item: Option<EventId>)
    ensures Events([item]) == if item.Some? then [item.value] else []
  {
    assert [item][..0] == [];
  }

  lemma EventsUpTo(items: Upstream, s: nat, end: nat)
    requires s <= end <= |items|
    ensures Events(items[..end]) == Events(items[..s]) + Events(items[s..end])
  {
    EventsConcat(items[..s], items[s..end]);
    assert items[..s] + items[s..end] == items[..end];
  }

  lemma {:induction false} EventsLength(items: Upstream)
    ensures |Events(items)| <= |items|
    ensures |Events(items)| == |items| <==> Maps(items, 0, |items|)
  {
    if items != [] {
      var n := |items| - 1;
      EventsLength(items[..n]);
      assert Maps(items[..n], 0, n) <==> Maps(items, 0, n);
      assert Maps(items, 0, n + 1) <==> Maps(items, 0, n) && items[n].Some?;
    }
  }

  lemma MapsOfSlice(items: Upstream, from: nat, to: nat)
    requires from <= to <= |items|
    ensures Maps(items[from..to], 0, to - from) <==> Maps(items, from, to)
  {
    if Maps(items[from..to], 0, to - from) {
      forall i | from <= i < to ensures items[i].Some? {
        assert items[from..to][i - from].Some?;
      }
    }
  }

  /** Offsets are asked for up to a million, and from one item to fifty. */
  lemma ClampMeaning(skip: int, take: int)
    ensures ClampSkip(skip) == if skip < 0 then 0 else if skip > 1_000_000 then 1_000_000 else skip
    ensures ClampTake(take) == if take < 1 then 1 else if take > 50 then 50 else take
  {
  }

  /** The next offset is offered exactly when the page is full, every item of it maps and more is left. */
  lemma PageMeaning(upstream: Upstream, skip: int, take: int)
    ensures
      var s, t, page := ClampSkip(skip), ClampTake(take), List(upstream, skip, take);
      && s == (if skip < 0 then 0 else if skip > 1_000_000 then 1_000_000 else skip)
      && t == (if take < 1 then 1 else if take > 50 then 50 else take) && page.total == |upstream|
      && (page.nextSkip.Some? <==> s + t < |upstream| && Maps(upstream, s, s + t))
      && (page.nextSkip.Some? ==> page.nextSkip.value == s + t && |page.events| == t)
      && (s < |upstream| ==> page.events == Events(upstream[s..Min(s + t, |upstream|)]))
      && (s >= |upstream| ==> page.events == [])
  {
    var s, t := ClampSkip(skip), ClampTake(take);
    EventsLength(Items(upstream, s, t));
    if s + t <= |upstream| { MapsOfSlice(upstream, s, s + t); }
  }

  // ---------- walks ----------

  /** Where page number `pages` starts. */
  function Offset(pages: nat, t: nat): nat {
    if pages == 0 then 0 else Offset(pages - 1, t) + t
  }

  /** The offset of the last page. */
  function LastSkip(upstream: Upstream, take: int): nat {
    if upstream == [] then 0 else Offset((|upstream| - 1) / ClampTake(take), ClampTake(take))
  }

  lemma {:induction false} OffsetIsMultiple(pages: nat, t: nat)
    ensures Offset(pages, t) == pages * t
  {
    if pages > 0 {
      OffsetIsMultiple(pages - 1, t);
      assert (pages - 1) * t + t == pages * t;
    }
  }

  lemma {:induction false} OffsetsAreOrdered(a: nat, b: nat, t: nat)
    requires a <= b
    ensures Offset(a, t) <= Offset(b, t)
    decreases b - a
  {
    if a < b { OffsetsAreOrdered(a, b - 1, t); }
  }

  /** The last page of a list of `n` starts before its end and no page follows it. */
  lemma LastOffset(n: nat, t: nat, k: nat)
    requires n > 0 && t > 0
    ensures
      var last := Offset((n - 1) / t, t);
      last < n <= last + t && (Offset(k, t) < n <==> Offset(k, t) <= last)
  {
    var q := (n - 1) / t;
    OffsetIsMultiple(q, t);
    assert n - 1 == q * t + (n - 1) % t;
    if k <= q {
      OffsetsAreOrdered(k, q, t);
    } else {
      OffsetsAreOrdered(q + 1, k, t);
    }
  }

  lemma OffsetBelow(max: nat, t: nat)
    requires t > 0
    ensures Offset(max / t, t) <= max < Offset(max / t + 1, t)
  {
    OffsetIsMultiple(max / t, t);
    assert max == max / t * t + max % t;
  }

  lemma OneRequest(upstream: Upstream, take: int, n: nat, r: Reader)
    requires After(upstream, take, n) == r && r.next.Some?
    ensures
      var page := List(upstream, r.next.value, take);
      After(upstream, take, n + 1) == Reader(r.read + page.events, page.nextSkip)
  {
  }

  /** A request from `s` that leaves nothing unread before it extends what was read up to the end of its page. */
  lemma ReadOn(upstream: Upstream, take: int, t: nat, n: nat, s: nat)
    requires t == ClampTake(take) && s <= MAX_SKIP && (s < |upstream| || s == 0)
    requires After(upstream, take, n) == Reader(Events(upstream[..Min(s, |upstream|)]), Some(s))
    ensures
      After(upstream, take, n + 1)
      == Reader(Events(upstream[..Min(s + t, |upstream|)]),
                if s + t < |upstream| && Maps(upstream, s, s + t) then Some(s + t) else None)
  {
    OneRequest(upstream, take, n, Reader(Events(upstream[..Min(s, |upstream|)]), Some(s)));
    PageMeaning(upstream, s, take);
    if s < |upstream| { EventsUpTo(upstream, s, Min(s + t, |upstream|)); }
  }

  /** As long as pages are full, map completely and start within MAX_SKIP, the walk reads the list in order. */
  lemma {:induction false} FullPages(upstream: Upstream, take: int, t: nat, pages: nat)
    requires t == ClampTake(take) && (Offset(pages, t) < |upstream| || pages == 0)
    requires Maps(upstream, 0, Offset(pages, t)) && (pages > 0 ==> Offset(pages - 1, t) <= MAX_SKIP)
    ensures After(upstream, take, pages) == Reader(Events(upstream[..Offset(pages, t)]), Some(Offset(pages, t)))
  {
    if pages > 0 {
      if pages > 1 { OffsetsAreOrdered(pages - 2, pages - 1, t); }
      FullPages(upstream, take, t, pages - 1);
      ReadOn(upstream, take, t, pages - 1, Offset(pages - 1, t));
    }
  }

  lemma {:induction false} EndStays(upstream: Upstream, take: int, n: nat, m: nat)
    requires n <= m && After(upstream, take, n).next.None?
    ensures After(upstream, take, m) == After(upstream, take, n)
  {
    if n < m { EndStays(upstream, take, n, m - 1); }
  }

  /** A walk ends with the page that is last, or that holds an item that does not map. */
  lemma LastPage(upstream: Upstream, take: int, t: nat, pages: nat, s: nat)
    requires t == ClampTake(take) && s == Offset(pages, t) && (s < |upstream| || pages == 0)
    requires Maps(upstream, 0, s) && s <= MAX_SKIP
    requires s + t >= |upstream| || !Maps(upstream, s, s + t)
    ensures After(upstream, take, pages + 1) == Reader(Events(upstream[..Min(s + t, |upstream|)]), None)
  {
    if pages > 0 { OffsetsAreOrdered(pages - 1, pages, t); }
    FullPages(upstream, take, t, pages);
    ReadOn(upstream, take, t, pages, s);
  }

  /** Every page of such a list is full and offers the next one. */
  lemma LongListGoesOn(upstream: Upstream, take: int, t: nat, skip: nat)
    requires t == ClampTake(take) && Maps(upstream, 0, |upstream|) && |upstream| > MAX_SKIP + t
    ensures
      var page := List(upstream, skip, take);
      page.nextSkip == Some(Min(MAX_SKIP, skip) + t) && |page.events| == t
  {
    PageMeaning(upstream, skip, take);
  }

  /** Where a reader of such a list is after some requests: never at the end. */
  predicate GoesOn(r: Reader, requests: nat, t: nat) {
    && r.next.Some? && |r.read| == Offset(requests, t)
    && r.next.value <= MAX_SKIP + t && (r.next.value < MAX_SKIP ==> r.next.value == Offset(requests, t))
  }

  lemma StillGoesOn(r: Reader, page: Page, requests: nat, t: nat)
    requires GoesOn(r, requests, t) && page.nextSkip == Some(Min(MAX_SKIP, r.next.value) + t) && |page.events| == t
    ensures GoesOn(Reader(r.read + page.events, page.nextSkip), requests + 1, t)
  {
    assert Offset(requests + 1, t) == Offset(requests, t) + t;
  }

  lemma OneRequestGoesOn(upstream: Upstream, take: int, t: nat, n: nat, r: Reader)
    requires t == ClampTake(take) && Maps(upstream, 0, |upstream|) && |upstream| > MAX_SKIP + t
    requires After(upstream, take, n) == r && GoesOn(r, n, t)
    ensures GoesOn(After(upstream, take, n + 1), n + 1, t)
  {
    OneRequest(upstream, take, n, r);
    LongListGoesOn(upstream, take, t, r.next.value);
    StillGoesOn(r, List(upstream, r.next.value, take), n, t);
  }

  lemma StartGoesOn(upstream: Upstream, take: int, t: nat)
    ensures GoesOn(After(upstream, take, 0), 0, t)
  {
  }

  /** The walk on a list longer than MAX_SKIP + take: the last window is asked for again and again. */
  lemma {:induction false} WalkNeverEnds(upstream: Upstream, take: int, t: nat, requests: nat)
    requires t == ClampTake(take) && Maps(upstream, 0, |upstream|) && |upstream| > MAX_SKIP + t
    ensures GoesOn(After(upstream, take, requests), requests, t)
  {
    hide GoesOn, Maps, After, ClampTake;
    if requests == 0 {
      StartGoesOn(upstream, take, t);
    } else {
      WalkNeverEnds(upstream, take, t, requests - 1);
      OneRequestGoesOn(upstream, take, t, requests - 1, After(upstream, take, requests - 1));
    }
  }

  /** Clamped to MAX_SKIP short of the end, the walk ends but has read some items twice. */
  lemma WalkReadsTwice(upstream: Upstream, take: int, t: nat, pages: nat, s: nat)
    requires t == ClampTake(take) && s == Offset(pages, t)
    requires Maps(upstream, 0, |upstream|) && |upstream| <= MAX_SKIP + t
    requires pages > 0 && Offset(pages - 1, t) <= MAX_SKIP < s < |upstream|
    ensures After(upstream, take, pages).next.Some?
    ensures
      var r := After(upstream, take, pages + 1);
      r.next.None? && r.read == Events(upstream[..s]) + Events(upstream[MAX_SKIP..]) && |r.read| > |upstream|
  {
    FullPages(upstream, take, t, pages);
    OneRequest(upstream, take, pages, Reader(Events(upstream[..s]), Some(s)));
    PageMeaning(upstream, s, take);
    MapsOfSlice(upstream, 0, s);
    MapsOfSlice(upstream, MAX_SKIP, |upstream|);
    EventsLength(upstream[..s]);
    EventsLength(upstream[MAX_SKIP..]);
    assert upstream[0..s] == upstream[..s] && upstream[MAX_SKIP..|upstream|] == upstream[MAX_SKIP..];
  }

  ghost predicate ReadsOnceAndEnds(upstream: Upstream, take: int, requests: nat) {
    After(upstream, take, requests) == Reader(Events(upstream), None)
  }

  /**
   When every item maps, following `nextSkip` from 0 reads the whole list in order, each item once, and ends,
   if and only if the last page starts within MAX_SKIP; a list of at most 1,000,001 items always does.
   */
  lemma WalkReadsTheListOnce(upstream: Upstream, take: int)
    requires Maps(upstream, 0, |upstream|)
    ensures (exists n :: ReadsOnceAndEnds(upstream, take, n)) <==> LastSkip(upstream, take) <= MAX_SKIP
    ensures LastSkip(upstream, take) == if upstream == [] then 0 else (|upstream| - 1) / ClampTake(take) * ClampTake(take)
    ensures |upstream| <= MAX_SKIP + 1 ==> LastSkip(upstream, take) <= MAX_SKIP
  {
    if LastSkip(upstream, take) <= MAX_SKIP {
      WalkEndsAtLastSkip(upstream, take, ClampTake(take));
    } else {
      forall m ensures !ReadsOnceAndEnds(upstream, take, m) {
        ClampedWalkIsWrong(upstream, take, ClampTake(take), m);
      }
    }
    if upstream != [] {
      LastOffset(|upstream|, ClampTake(take), 0);
      OffsetIsMultiple((|upstream| - 1) / ClampTake(take), ClampTake(take));
    }
  }

  lemma LastPageStart(upstream: Upstream, take: int, t: nat) returns (pages: nat)
    requires t == ClampTake(take)
    ensures LastSkip(upstream, take) == Offset(pages, t) && LastSkip(upstream, take) + t >= |upstream|
    ensures LastSkip(upstream, take) < |upstream| || pages == 0
  {
    pages := if upstream == [] then 0 else (|upstream| - 1) / t;
    if upstream != [] { LastOffset(|upstream|, t, pages); }
  }

  lemma WalkEndsAtLastSkip(upstream: Upstream, take: int, t: nat)
    requires t == ClampTake(take) && Maps(upstream, 0, |upstream|) && LastSkip(upstream, take) <= MAX_SKIP
    ensures exists n :: ReadsOnceAndEnds(upstream, take, n)
  {
    hide LastSkip;
    var pages := LastPageStart(upstream, take, t);
    LastPage(upstream, take, t, pages, LastSkip(upstream, take));
    assert upstream[..|upstream|] == upstream;
    assert ReadsOnceAndEnds(upstream, take, pages + 1);
  }

  /** The first page past MAX_SKIP is not past the last page. */
  lemma OffsetsInTurn(n: nat, t: nat, pages: nat)
    requires n > 0 && t > 0 && pages > 0 && Offset(pages - 1, t) < Offset((n - 1) / t, t)
    ensures Offset(pages, t) <= Offset((n - 1) / t, t)
  {
    var q := (n - 1) / t;
    if pages <= q {
      OffsetsAreOrdered(pages, q, t);
    } else {
      OffsetsAreOrdered(q, pages - 1, t);
    }
  }

  lemma ClampedWalkIsWrong(upstream: Upstream, take: int, t: nat, m: nat)
    requires t == ClampTake(take) && Maps(upstream, 0, |upstream|) && LastSkip(upstream, take) > MAX_SKIP
    ensures !ReadsOnceAndEnds(upstream, take, m)
  {
    var n := |upstream|;
    EventsLength(upstream);
    if n > MAX_SKIP + t {
      WalkNeverEnds(upstream, take, t, m);
    } else {
      var pages := MAX_SKIP / t + 1;
      OffsetBelow(MAX_SKIP, t);
      LastOffset(n, t, pages);
      OffsetsInTurn(n, t, pages);
      WalkReadsTwice(upstream, take, t, pages, Offset(pages, t));
      if After(upstream, take, m).next.None? {
        if m <= pages {
          EndStays(upstream, take, m, pages);
        } else {
          EndStays(upstream, take, pages + 1, m);
        }
      }
    }
  }

  /**
   An item that does not map ends the walk with its page, and the pages after it are never read: what is read
   is complete if and only if nothing after that page maps.
   */
  lemma UnmappedItemEndsTheWalk(upstream: Upstream, take: int, t: nat, pages: nat, s: nat, bad: nat)
    requires t == ClampTake(take) && s == Offset(pages, t) <= bad < s + t && s <= MAX_SKIP
    requires bad < |upstream| && upstream[bad].None? && Maps(upstream, 0, s)
    ensures
      var end, r := Min(s + t, |upstream|), After(upstream, take, pages + 1);
      && r == Reader(Events(upstream[..end]), None)
      && (r.read == Events(upstream) <==> forall i | end <= i < |upstream| :: upstream[i].None?)
  {
    var end := Min(s + t, |upstream|);
    LastPage(upstream, take, t, pages, s);
    EventsUpTo(upstream, end, |upstream|);
    assert upstream[..|upstream|] == upstream && upstream[end..|upstream|] == upstream[end..];
    NoEvents(upstream, end);
  }

  lemma {:induction false} NoEvents(items: Upstream, from: nat)
    requires from <= |items|
    ensures Events(items[from..]) == [] <==> forall i | from <= i < |items| :: items[i].None?
  {
    if from < |items| {
      var n := |items| - 1;
      NoEvents(items[..n], from);
      assert items[from..][..n - from] == items[..n][from..];
      assert forall i | from <= i < n :: items[..n][i] == items[i];
    }
  }
}
