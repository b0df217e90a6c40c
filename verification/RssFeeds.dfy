/** Fetching the feeds of one search: in chunks of four, full feeds split once, and everything merged by event id. */
module RssFeeds {
  import opened Basics
  import opened RssQueries

  const FEED_LIMIT := 50
  const CONCURRENCY := 4

  type EventId = nat

  datatype Event = Event(id: EventId, city: string, details: nat)

  datatype FetchError = Aborted | RequestFailed | CatalogFailed | BadFilter(error: QueryError) | NothingFound

  datatype Reply = Feed(events: seq<Event>) | Failed

  /** The entries of a `Map` in insertion order, for keys inserted once. */
  datatype Entry = Entry(query: Query, events: seq<Event>)

  /** The network, with what it was asked and what it answered. */
  class Network {
    ghost var asked: seq<Query>
    ghost var replies: seq<Reply>
    ghost var catalogs: seq<Option<Catalog>>   // the catalogue page, each time it was asked for
    ghost var aborts: nat                      // how often the abort signal was found set
    ghost var looks: seq<nat>                  // the number of requests made at each look at the signal

    constructor ()
      ensures asked == [] && replies == [] && catalogs == [] && aborts == 0 && looks == []
    {
      asked, replies, catalogs, aborts, looks := [], [], [], 0, [];
    }

    /** `signal?.aborted` */
    method SeesAbort() returns (aborted: bool)
      modifies this`aborts, this`looks
      ensures aborts == old(aborts) + (if aborted then 1 else 0) && looks == old(looks) + [|asked|]
    {
      aborted, looks := *, looks + [|asked|];
      if aborted { aborts := aborts + 1; }
    }

    /** The catalogue page, fetched and parsed; every request may answer something else or fail. */
    method GetCatalog() returns (r: Option<Catalog>)
      modifies this`catalogs
      ensures catalogs == old(catalogs) + [r] && (r.Some? ==> IsNumeric(r.value))
    {
      r := *;
      if r.Some? && !IsNumeric(r.value) { r := None; }
      catalogs := catalogs + [r];
    }

    /** One feed; the parser refuses feeds of more than FEED_LIMIT items. */
    method Fetch(q: Query) returns (r: Reply)
      modifies this`asked, this`replies
      ensures asked == old(asked) + [q] && replies == old(replies) + [r]
      ensures r.Feed? ==> |r.events| <= FEED_LIMIT
    {
      r := *;
      if r.Feed? && |r.events| > FEED_LIMIT { r := Failed; }
      asked, replies := asked + [q], replies + [r];
    }
  }

  /** The feeds that came, in the order they were asked for. */
  function Feeds(asked: seq<Query>, replies: seq<Reply>): seq<Entry>
    requires |asked| == |replies|
  {
    if asked == [] then []
    else
      var n := |asked| - 1;
      Feeds(asked[..n], replies[..n]) + if replies[n].Feed? then [Entry(asked[n], replies[n].events)] else []
  }

  lemma {:induction false} FeedsConcat(a: seq<Query>, ra: seq<Reply>, b: seq<Query>, rb: seq<Reply>)
    requires |a| == |ra| && |b| == |rb|
    ensures Feeds(a + b, ra + rb) == Feeds(a, ra) + Feeds(b, rb)
  {
    if b == [] {
      assert a + b == a && ra + rb == ra;
    } else {
      var n := |b| - 1;
      assert (a + b)[..|a + b| - 1] == a + b[..n] && (ra + rb)[..|ra + rb| - 1] == ra + rb[..n];
      FeedsConcat(a, ra, b[..n], rb[..n]);
    }
  }

  lemma {:induction false} FeedsAreReplies(asked: seq<Query>, replies: seq<Reply>)
    requires |asked| == |replies|
    ensures forall e :: e in Feeds(asked, replies) <==>
      exists i :: 0 <= i < |asked| && replies[i] == Feed(e.events) && asked[i] == e.query
  {
    if asked != [] {
      var n := |asked| - 1;
      FeedsAreReplies(asked[..n], replies[..n]);
      forall e ensures e in Feeds(asked, replies) <==>
        exists i :: 0 <= i < |asked| && replies[i] == Feed(e.events) && asked[i] == e.query
      {
        if e in Feeds(asked[..n], replies[..n]) {
          var i :| 0 <= i < n && replies[..n][i] == Feed(e.events) && asked[..n][i] == e.query;
          assert replies[i] == Feed(e.events) && asked[i] == e.query;
        }
        if i :| 0 <= i < |asked| && replies[i] == Feed(e.events) && asked[i] == e.query {
          if i < n { assert replies[..n][i] == Feed(e.events) && asked[..n][i] == e.query; }
        }
      }
    }
  }

  /** What `fetchRssUrlSet` gives: the feeds, and whether some request failed; or the abort error. */
  datatype FetchResult = Fetched(feeds: seq<Entry>, failed: bool) | AbortedSet

  /** The requests of one chunk. */
  method FetchChunk(net: Network, chunk: seq<Query>) returns (feeds: seq<Entry>, failed: bool, ghost news: seq<Reply>)
    modifies net`asked, net`replies
    ensures |news| == |chunk| && net.asked == old(net.asked) + chunk && net.replies == old(net.replies) + news
    ensures feeds == Feeds(chunk, news) && (failed <==> Failed in news)
  {
    feeds, failed, news := [], false, [];
    for i := 0 to |chunk|
      invariant |news| == i && net.asked == old(net.asked) + chunk[..i] && net.replies == old(net.replies) + news
      invariant feeds == Feeds(chunk[..i], news) && (failed <==> Failed in news)
    {
      var reply := net.Fetch(chunk[i]);
      ghost var before := news;
      news := news + [reply];
      assert chunk[..i + 1][..i] == chunk[..i] && news[..i] == before;
      if reply.Feed? {
        feeds := feeds + [Entry(chunk[i], reply.events)];
      } else {
        failed := true;
      }
    }
    assert chunk[..|chunk|] == chunk;
  }

  /** How many requests of a set are made at each look at the signal: before and after every four. */
  function LookAt(start: nat, n: nat, i: nat): nat { start + Min((i + 1) / 2 * 4, n) }

  /** `fetchRssUrlSet`: chunk after chunk, every URL once, an abort seen only between chunks. */
  method FetchSet(net: Network, urls: seq<Query>) returns (r: FetchResult, ghost news: seq<Reply>)
    modifies net`asked, net`replies, net`aborts, net`looks
    ensures old(net.looks) <= net.looks
    ensures forall i | |old(net.looks)| <= i < |net.looks| ::
      net.looks[i] == LookAt(|old(net.asked)|, |urls|, i - |old(net.looks)|)
    ensures r.Fetched? ==> |net.looks| == |old(net.looks)| + (|urls| + 3) / 4 * 2
    ensures net.aborts == old(net.aborts) + if r.AbortedSet? then 1 else 0
    ensures |news| <= |urls| && net.asked == old(net.asked) + urls[..|news|] && net.replies == old(net.replies) + news
    ensures r.Fetched? ==> |news| == |urls| && r.feeds == Feeds(urls, news) && (r.failed <==> Failed in news)
  {
    hide Feeds, LookAt;
    var feeds, failed := [], false;
    news := [];
    NoRequests();
    var index := 0;
    ghost var chunks := 0;
    while index < |urls|
      invariant index == |news| <= |urls|
      invariant net.asked == old(net.asked) + urls[..index] && net.replies == old(net.replies) + news
      invariant feeds == Feeds(urls[..index], news) && (failed <==> Failed in news)
      invariant net.aborts == old(net.aborts) && old(net.looks) <= net.looks
      invariant index == Min(chunks * 4, |urls|) && |net.looks| == |old(net.looks)| + chunks * 2
      invariant chunks > 0 ==> (chunks - 1) * 4 < |urls|
      invariant forall i | |old(net.looks)| <= i < |net.looks| ::
        net.looks[i] == LookAt(|old(net.asked)|, |urls|, i - |old(net.looks)|)
    {
      LooksAround(|old(net.asked)|, |urls|, chunks);
      var aborted := net.SeesAbort();
      if aborted { return AbortedSet, news; }
      var end := Min(index + CONCURRENCY, |urls|);
      var more, anyFailed;
      ghost var replies;
      more, anyFailed, replies := FetchChunk(net, urls[index..end]);
      FeedsConcat(urls[..index], news, urls[index..end], replies);
      assert urls[..index] + urls[index..end] == urls[..end];
      feeds, failed, news := feeds + more, failed || anyFailed, news + replies;
      index, chunks := end, chunks + 1;
      aborted := net.SeesAbort();
      if aborted { return AbortedSet, news; }
    }
    assert urls[..|urls|] == urls;
    r := Fetched(feeds, failed);
  }

  lemma LooksAround(start: nat, n: nat, chunks: nat)
    ensures LookAt(start, n, chunks * 2) == start + Min(chunks * 4, n)
    ensures LookAt(start, n, chunks * 2 + 1) == start + Min(chunks * 4 + 4, n)
  {
    assert (chunks * 2 + 1) / 2 == chunks && (chunks * 2 + 2) / 2 == chunks + 1;
  }

  lemma NoRequests()
    ensures Feeds([], []) == []
  {
  }

  // ---------- full feeds ----------

  function Get(feeds: seq<Entry>, q: Query): Option<seq<Event>> {
    if feeds == [] then None
    else if feeds[|feeds| - 1].query == q then Some(feeds[|feeds| - 1].events)
    else Get(feeds[..|feeds| - 1], q)
  }

  predicate IsFull(feeds: seq<Entry>, q: Query) {
    Get(feeds, q).Some? && |Get(feeds, q).value| == FEED_LIMIT
  }

  lemma {:induction false} GetIsTheReply(asked: seq<Query>, replies: seq<Reply>, i: nat)
    requires |asked| == |replies| && Distinct(asked) && i < |asked|
    ensures Get(Feeds(asked, replies), asked[i]) == if replies[i].Feed? then Some(replies[i].events) else None
  {
    var n := |asked| - 1;
    var rest := Feeds(asked[..n], replies[..n]);
    if i < n {
      assert asked[..n][i] == asked[i];
      GetIsTheReply(asked[..n], replies[..n], i);
      if replies[n].Feed? {
        assert Feeds(asked, replies)[..|rest|] == rest;
      } else {
        assert Feeds(asked, replies) == rest;
      }
    } else {
      NoReplyNoEntry(asked[..n], replies[..n], asked[n]);
      if replies[n].Feed? {
        assert Feeds(asked, replies) == rest + [Entry(asked[n], replies[n].events)];
      } else {
        assert Feeds(asked, replies) == rest;
      }
    }
  }

  lemma {:induction false} NoReplyNoEntry(asked: seq<Query>, replies: seq<Reply>, q: Query)
    requires |asked| == |replies| && q !in asked
    ensures Get(Feeds(asked, replies), q) == None
  {
    if asked != [] {
      var n := |asked| - 1;
      var rest := Feeds(asked[..n], replies[..n]);
      NoReplyNoEntry(asked[..n], replies[..n], q);
      if replies[n].Feed? {
        assert Feeds(asked, replies)[..|rest|] == rest;
      } else {
        assert Feeds(asked, replies) == rest;
      }
    }
  }

  /** The partitions of every full feed. */
  ghost function SplitAll(urls: seq<Query>, feeds: seq<Entry>, catalog: Catalog): set<Query> {
    set q, part | q in urls && IsFull(feeds, q) && part in Partitions(q, catalog) :: part
  }

  // ---------- merging ----------

  function AllEvents(feeds: seq<Entry>): seq<Event> {
    if feeds == [] then [] else AllEvents(feeds[..|feeds| - 1]) + feeds[|feeds| - 1].events
  }

  function LastWithId(all: seq<Event>, id: EventId): Option<Event> {
    if all == [] then None
    else if all[|all| - 1].id == id then Some(all[|all| - 1])
    else LastWithId(all[..|all| - 1], id)
  }

  lemma {:induction false} LastWithIdIsLast(all: seq<Event>, id: EventId)
    ensures LastWithId(all, id).None? <==> forall e | e in all :: e.id != id
    ensures LastWithId(all, id).Some? ==>
      exists i :: 0 <= i < |all| && all[i] == LastWithId(all, id).value && all[i].id == id
                  && forall j | i < j < |all| :: all[j].id != id
  {
    if all != [] {
      var n := |all| - 1;
      LastWithIdIsLast(all[..n], id);
      assert all == all[..n] + [all[n]];
      if all[n].id == id {
        assert all[n] == LastWithId(all, id).value;
      } else if LastWithId(all, id).Some? {
        var i :| 0 <= i < n && all[..n][i] == LastWithId(all, id).value && all[..n][i].id == id
                 && forall j | i < j < n :: all[..n][j].id != id;
        assert forall j | i < j < |all| :: all[j].id != id by {
          assert forall j | i < j < n :: all[j] == all[..n][j];
        }
        assert all[i] == LastWithId(all, id).value;
      }
    }
  }

  /** Where an id first occurs, or the number of events if it never does. */
  function FirstAt(all: seq<Event>, id: EventId): (n: nat)
    ensures n <= |all| && (n < |all| ==> all[n].id == id) && forall i | 0 <= i < n :: all[i].id != id
  {
    if all == [] then 0
    else
      var n := FirstAt(all[..|all| - 1], id);
      if n < |all| - 1 || all[|all| - 1].id == id then n else |all|
  }

  /** Ids stand in the order of their first events. */
  ghost predicate InsertionOrder(ids: seq<EventId>, all: seq<Event>) {
    forall i, j | 0 <= i < j < |ids| :: FirstAt(all, ids[i]) < FirstAt(all, ids[j])
  }

  lemma FirstAtStays(all: seq<Event>, event: Event, id: EventId)
    ensures FirstAt(all, id) < |all| ==> FirstAt(all + [event], id) == FirstAt(all, id)
    ensures FirstAt(all, id) == |all| && event.id == id ==> FirstAt(all + [event], id) == |all|
    ensures FirstAt(all, id) < |all| <==> LastWithId(all, id).Some?
  {
    assert (all + [event])[..|all|] == all;
    LastWithIdIsLast(all, id);
    if FirstAt(all, id) < |all| { assert all[FirstAt(all, id)] in all; }
  }

  lemma OrderGoesOn(ids: seq<EventId>, all: seq<Event>, event: Event)
    requires InsertionOrder(ids, all) && forall id :: id in ids <==> LastWithId(all, id).Some?
    ensures InsertionOrder(if event.id in ids then ids else ids + [event.id], all + [event])
  {
    forall id ensures id in ids ==> FirstAt(all + [event], id) == FirstAt(all, id) < |all| { FirstAtStays(all, event, id); }
    FirstAtStays(all, event, event.id);
    var ids' := if event.id in ids then ids else ids + [event.id];
    forall i, j | 0 <= i < j < |ids'| ensures FirstAt(all + [event], ids'[i]) < FirstAt(all + [event], ids'[j]) {
      assert ids'[i] == ids[i] && ids[i] in ids;
      if j < |ids| { assert ids[j] in ids; }
    }
  }

  /** An insertion-ordered map that holds, for every id seen, the last event with it. */
  ghost predicate IsMerge(ids: seq<EventId>, byId: map<EventId, Event>, all: seq<Event>) {
    HoldsLast(ids, byId, all) && InsertionOrder(ids, all)
  }

  ghost predicate HoldsLast(ids: seq<EventId>, byId: map<EventId, Event>, all: seq<Event>) {
    && Distinct(ids)
    && (forall id :: id in ids <==> id in byId)
    && (forall id :: id in ids <==> LastWithId(all, id).Some?)
    && (forall id | id in byId :: byId[id] == LastWithId(all, id).value)
  }

  lemma LastOfOneMore(ids: seq<EventId>, byId: map<EventId, Event>, all: seq<Event>, event: Event)
    requires HoldsLast(ids, byId, all)
    ensures HoldsLast(if event.id in byId then ids else ids + [event.id], byId[event.id := event], all + [event])
  {
    assert (all + [event])[..|all|] == all;
    assert (ids + [event.id])[..|ids|] == ids;
  }

  lemma MergeOne(ids: seq<EventId>, byId: map<EventId, Event>, all: seq<Event>, event: Event)
    requires IsMerge(ids, byId, all)
    ensures IsMerge(if event.id in byId then ids else ids + [event.id], byId[event.id := event], all + [event])
  {
    LastOfOneMore(ids, byId, all, event);
    OrderGoesOn(ids, all, event);
    hide InsertionOrder, Distinct, LastWithId;
  }

  method MergeFeed(ids: seq<EventId>, byId: map<EventId, Event>, ghost all: seq<Event>, feed: seq<Event>)
    returns (ids': seq<EventId>, byId': map<EventId, Event>)
    requires IsMerge(ids, byId, all)
    ensures IsMerge(ids', byId', all + feed)
  {
    hide IsMerge;
    ids', byId' := ids, byId;
    ghost var seen := all;
    for e := 0 to |feed|
      invariant seen == all + feed[..e] && IsMerge(ids', byId', seen)
    {
      var event := feed[e];
      MergeOne(ids', byId', seen, event);
      ids' := if event.id in byId' then ids' else ids' + [event.id];
      byId' := byId'[event.id := event];
      assert feed[..e + 1] == feed[..e] + [event];
      seen := seen + [event];
    }
    assert feed[..|feed|] == feed;
  }

  method Merge(feeds: seq<Entry>) returns (ids: seq<EventId>, byId: map<EventId, Event>)
    ensures IsMerge(ids, byId, AllEvents(feeds))
  {
    ids, byId := [], map[];
    for f := 0 to |feeds|
      invariant IsMerge(ids, byId, AllEvents(feeds[..f]))
    {
      ids, byId := MergeFeed(ids, byId, AllEvents(feeds[..f]), feeds[f].events);
      assert feeds[..f + 1][..f] == feeds[..f];
    }
    assert feeds[..|feeds|] == feeds;
  }

  // ---------- one search ----------

  datatype Outcome = Found(events: seq<Event>) | Thrown(error: FetchError)

  function WithCity(e: Event, city: string): Event {
    if city == "" then e else e.(city := city)
  }

  /** The full feeds of the first round, split. */
  method Split(urls: seq<Query>, feeds: seq<Entry>, catalog: Catalog) returns (parts: seq<Query>)
    ensures Distinct(parts) && forall q :: q in parts <==> q in SplitAll(urls, feeds, catalog) && q !in urls
  {
    var all: set<Query> := {};
    for i := 0 to |urls|
      invariant forall q :: q in all <==> q in SplitAll(urls[..i], feeds, catalog)
    {
      if IsFull(feeds, urls[i]) { all := all + Partitions(urls[i], catalog); }
      assert urls[..i + 1] == urls[..i] + [urls[i]];
    }
    assert urls[..|urls|] == urls;
    parts := Listed(set q | q in all && q !in urls);
  }

  /** What one search asked for: the base queries, then the partitions of the full feeds. */
  datatype Search = Search(base: seq<Query>, catalog: Catalog, parts: seq<Query>, splitBy: Catalog)

  const NOTHING := Search([], Catalog(map[], map[], map[]), [], Catalog(map[], map[], map[]))

  ghost predicate IsBase(base: seq<Query>, filters: Option<Filters>, catalog: Catalog) {
    && Distinct(base)
    && if filters.None? then base == [Query(None, None, None)]
       else forall q :: q in base <==> AsksFor(filters.value, catalog, q)
  }

  /** The partitions asked for are those of the base feeds that came back full. */
  ghost predicate SplitsFullFeeds(search: Search, replies: seq<Reply>) {
    && |search.base| <= |replies|
    && forall q :: q in search.parts <==>
         && q !in search.base
         && exists i :: 0 <= i < |search.base| && CameFull(replies[i]) && IsPart(search.base[i], search.splitBy, q)
  }

  /** The feed came with as many events as a feed can hold. */
  predicate CameFull(reply: Reply) { reply.Feed? && |reply.events| == 50 }

  lemma FullFeedsCameFull(base: seq<Query>, replies: seq<Reply>, i: nat)
    requires |base| == |replies| && Distinct(base) && i < |base|
    ensures IsFull(Feeds(base, replies), base[i]) <==> CameFull(replies[i])
  {
    GetIsTheReply(base, replies, i);
  }

  lemma SplitAllIsParts(base: seq<Query>, replies: seq<Reply>, catalog: Catalog, q: Query)
    requires |base| == |replies| && Distinct(base)
    ensures q in SplitAll(base, Feeds(base, replies), catalog) <==>
      exists i :: 0 <= i < |base| && CameFull(replies[i]) && IsPart(base[i], catalog, q)
  {
    var feeds := Feeds(base, replies);
    hide IsFull, CameFull, Partitions, IsPart, Distinct;
    forall i | 0 <= i < |base|
      ensures IsFull(feeds, base[i]) <==> CameFull(replies[i])
      ensures q in Partitions(base[i], catalog) <==> IsPart(base[i], catalog, q)
    {
      FullFeedsCameFull(base, replies, i);
      PartitionsAreParts(base[i], catalog, q);
    }
    if q in SplitAll(base, feeds, catalog) {
      var from :| from in base && IsFull(feeds, from) && q in Partitions(from, catalog);
      var i :| 0 <= i < |base| && base[i] == from;
      assert CameFull(replies[i]) && IsPart(base[i], catalog, q);
    }
    if i :| 0 <= i < |base| && CameFull(replies[i]) && IsPart(base[i], catalog, q) {
      assert base[i] in base && IsFull(feeds, base[i]) && q in Partitions(base[i], catalog);
    }
  }

  /** Some base feed came full. */
  ghost predicate AnyCameFull(search: Search, replies: seq<Reply>) {
    exists i :: 0 <= i < |search.base| && i < |replies| && CameFull(replies[i])
  }

  /** A search splits by the catalogue page it asked for after the base feeds, which it did only if one came full. */
  ghost predicate IsSplitBy(search: Search, replies: seq<Reply>, pages: seq<Option<Catalog>>) {
    && |pages| <= 1 && (pages != [] ==> AnyCameFull(search, replies) && (pages[0].Some? ==> pages[0].value == search.splitBy))
    && (search.parts != [] ==> pages != [] && pages[0].Some?)
  }

  ghost predicate ArePartitions(parts: seq<Query>, base: seq<Query>, feeds: seq<Entry>, splitBy: Catalog) {
    && Distinct(base + parts)
    && forall q :: q in parts <==> q in SplitAll(base, feeds, splitBy) && q !in base
  }

  /** `replies` answer the base queries first and then the partitions, as far as the search came. */
  ghost predicate IsSearch(search: Search, filters: Option<Filters>, replies: seq<Reply>) {
    && |replies| <= |search.base + search.parts| && Distinct(search.base + search.parts)
    && IsNumeric(search.catalog) && IsNumeric(search.splitBy)
    && (search.base == [] ==> search.parts == [])
    && (search.base != [] ==> IsBase(search.base, filters, search.catalog))
    && (search.parts != [] ==> SplitsFullFeeds(search, replies))
  }

  predicate LacksCity(filters: Filters, catalog: Catalog) {
    filters.city != "" && filters.city !in catalog.cities
  }

  /** A filter that the catalogue cannot answer, and the error it gets: the city first, then the first category. */
  ghost predicate IsBadFilter(filters: Filters, catalog: Catalog, error: QueryError) {
    match error
    case CityNotFound => LacksCity(filters, catalog)
    case EmptyCatalog =>
      !LacksCity(filters, catalog) && filters.categories == [] && catalog.formats == map[] && catalog.categories == map[]
    case CategoryNotFound(choice) =>
      && !LacksCity(filters, catalog)
      && exists i :: 0 <= i < |filters.categories| && filters.categories[i] == choice && IsUnknown(choice, catalog)
                     && forall j | 0 <= j < i :: !IsUnknown(filters.categories[j], catalog)
  }

  /** `filteredRssUrls`. */
  method FilteredQueries(net: Network, filters: Option<Filters>)
    returns (r: Option<seq<Query>>, error: FetchError, catalog: Catalog)
    modifies net`catalogs
    ensures IsNumeric(catalog) && (r.Some? ==> r.value != [] && IsBase(r.value, filters, catalog))
    ensures r.None? ==> filters.Some?
    ensures r.Some? && filters.Some? ==> forall e :: !IsBadFilter(filters.value, catalog, e)
    ensures r.None? ==> error == CatalogFailed || (error.BadFilter? && IsBadFilter(filters.value, catalog, error.error))
    ensures
      if filters.None? then net.catalogs == old(net.catalogs)
      else net.catalogs == old(net.catalogs) + [if r.None? && error == CatalogFailed then None else Some(catalog)]
  {
    error, catalog := CatalogFailed, NOTHING.catalog;
    if filters.None? {
      assert [Query(None, None, None)][..0] == [];
      return Some([Query(None, None, None)]), error, catalog;
    }
    var found := net.GetCatalog();
    if found.None? { return None, error, catalog; }
    catalog := found.value;
    var base := BaseQueries(filters.value, catalog);
    if base.Err? { return None, BadFilter(base.error), catalog; }
    r := Some(base.value);
    error := NothingFound;
  }

  ghost predicate HasFull(urls: seq<Query>, feeds: seq<Entry>) {
    exists q :: q in urls && IsFull(feeds, q)
  }

  method AnyFull(urls: seq<Query>, feeds: seq<Entry>) returns (r: bool)
    ensures r <==> HasFull(urls, feeds)
  {
    r := false;
    for i := 0 to |urls|
      invariant r <==> exists j :: 0 <= j < i && IsFull(feeds, urls[j])
    {
      if IsFull(feeds, urls[i]) { r := true; }
    }
  }

  /** The second round; without a full feed there is none. */
  method FetchPartitions(net: Network, base: seq<Query>, feeds: seq<Entry>)
    returns (r: FetchResult, catalogFailed: bool,
             ghost parts: seq<Query>, ghost splitBy: Catalog, ghost more: seq<Reply>, ghost pages: seq<Option<Catalog>>)
    requires Distinct(base)
    modifies net
    ensures |more| <= |parts| && net.asked == old(net.asked) + parts[..|more|] && net.replies == old(net.replies) + more
    ensures IsNumeric(splitBy) && (ArePartitions(parts, base, feeds, splitBy) || (parts == [] && catalogFailed))
    ensures net.aborts == old(net.aborts) + (if r.AbortedSet? then 1 else 0) && (catalogFailed ==> r.Fetched?)
    ensures net.catalogs == old(net.catalogs) + pages
    ensures pages == if !HasFull(base, feeds) then [] else if catalogFailed then [None] else [Some(splitBy)]
    ensures catalogFailed || parts != [] ==> HasFull(base, feeds)
    ensures catalogFailed ==> parts == []
    ensures r.Fetched? && !catalogFailed ==> |more| == |parts| && r.feeds == Feeds(parts, more) && (r.failed <==> Failed in more)
  {
    r, catalogFailed, parts, splitBy, more, pages := Fetched([], false), false, [], NOTHING.catalog, [], [];
    assert base + [] == base;
    var full := AnyFull(base, feeds);
    if !full { return; }
    var again := net.GetCatalog();
    pages := [again];
    if again.None? {
      catalogFailed := true;
      return;
    }
    splitBy := again.value;
    var partitionUrls := Split(base, feeds, again.value);
    DistinctConcat(base, partitionUrls);
    parts := partitionUrls;
    r, more := FetchSet(net, partitionUrls);
  }

  lemma TwoRounds(base: seq<Query>, catalog: Catalog, filters: Option<Filters>, news: seq<Reply>,
                  parts: seq<Query>, splitBy: Catalog, more: seq<Reply>)
    requires base != [] && IsBase(base, filters, catalog) && |news| == |base| && |more| <= |parts|
    requires IsNumeric(catalog) && IsNumeric(splitBy)
    requires ArePartitions(parts, base, Feeds(base, news), splitBy) || parts == []
    ensures
      var search := Search(base, catalog, parts, splitBy);
      && IsSearch(search, filters, news + more)
      && base + parts[..|more|] == (base + parts)[..|news + more|]
      && (ArePartitions(parts, base, Feeds(base, news), splitBy) ==> SplitsFullFeeds(search, news + more))
      && (|more| == |parts| ==> Feeds(base + parts, news + more) == Feeds(base, news) + Feeds(parts, more))
      && (AnyCameFull(search, news + more) <==> HasFull(base, Feeds(base, news)))
  {
    assert (news + more)[..|base|] == news;
    assert base + [] == base;
    if |more| == |parts| { FeedsConcat(base, news, parts, more); }
    if ArePartitions(parts, base, Feeds(base, news), splitBy) { PartitionsSplitFullFeeds(base, catalog, news, parts, splitBy, more); }
    FullMeansCameFull(base, catalog, news, parts, splitBy, more);
    hide Feeds, IsFull, CameFull, SplitsFullFeeds, AnyCameFull, SplitAll, Distinct, IsBase;
  }

  lemma FullMeansCameFull(base: seq<Query>, catalog: Catalog, news: seq<Reply>, parts: seq<Query>, splitBy: Catalog, more: seq<Reply>)
    requires |news| == |base| && Distinct(base)
    ensures AnyCameFull(Search(base, catalog, parts, splitBy), news + more) <==> HasFull(base, Feeds(base, news))
  {
    hide IsFull, CameFull, Feeds, Distinct;
    forall i | 0 <= i < |base| ensures IsFull(Feeds(base, news), base[i]) <==> CameFull((news + more)[i]) {
      FullFeedsCameFull(base, news, i);
    }
    if i :| 0 <= i < |base| && CameFull((news + more)[i]) { assert base[i] in base && IsFull(Feeds(base, news), base[i]); }
    if q :| q in base && IsFull(Feeds(base, news), q) {
      var i :| 0 <= i < |base| && base[i] == q;
      assert CameFull((news + more)[i]);
    }
  }

  lemma PartitionsSplitFullFeeds(base: seq<Query>, catalog: Catalog, news: seq<Reply>,
                                 parts: seq<Query>, splitBy: Catalog, more: seq<Reply>)
    requires |news| == |base| && Distinct(base) && ArePartitions(parts, base, Feeds(base, news), splitBy)
    ensures SplitsFullFeeds(Search(base, catalog, parts, splitBy), news + more)
  {
    hide IsPart, CameFull, Feeds, Distinct, SplitAll;
    forall q ensures q in parts <==>
      q !in base && exists i :: 0 <= i < |base| && CameFull((news + more)[i]) && IsPart(base[i], splitBy, q)
    {
      SplitAllIsParts(base, news, splitBy, q);
      assert forall i | 0 <= i < |base| :: (news + more)[i] == news[i];
    }
  }

  lemma FirstRoundOnly(base: seq<Query>, catalog: Catalog, filters: Option<Filters>, news: seq<Reply>)
    requires base != [] && IsBase(base, filters, catalog) && IsNumeric(catalog) && |news| <= |base|
    ensures
      var search := Search(base, catalog, [], catalog);
      IsSearch(search, filters, news) && IsSplitBy(search, news, []) && (base + [])[..|news|] == base[..|news|]
  {
    assert base + [] == base;
  }

  lemma SplitByItsPage(search: Search, replies: seq<Reply>, pages: seq<Option<Catalog>>)
    requires if !AnyCameFull(search, replies) then pages == [] else pages == [None] || pages == [Some(search.splitBy)]
    requires search.parts != [] ==> pages == [Some(search.splitBy)]
    ensures IsSplitBy(search, replies, pages)
  {
    hide AnyCameFull;
  }

  /** Both rounds of requests. */
  method FetchRounds(net: Network, base: seq<Query>, ghost filters: Option<Filters>, ghost catalog: Catalog)
    returns (r: FetchResult, catalogFailed: bool, ghost search: Search, ghost news: seq<Reply>, ghost pages: seq<Option<Catalog>>)
    requires base != [] && IsBase(base, filters, catalog) && IsNumeric(catalog)
    modifies net
    ensures IsSearch(search, filters, news) && search.base == base && search.catalog == catalog
    ensures net.asked == old(net.asked) + (base + search.parts)[..|news|] && net.replies == old(net.replies) + news
    ensures net.aborts == old(net.aborts) + (if r.AbortedSet? then 1 else 0) && (catalogFailed ==> r.Fetched?)
    ensures net.catalogs == old(net.catalogs) + pages && IsSplitBy(search, news, pages)
    ensures catalogFailed <==> pages == [None]
    ensures r.Fetched? ==> (pages != [] <==> AnyCameFull(search, news))
    ensures r.Fetched? && !catalogFailed ==>
      && |news| == |base + search.parts| && SplitsFullFeeds(search, news)
      && r.feeds == Feeds(base + search.parts, news) && (r.failed <==> Failed in news)
  {
    catalogFailed, search, pages := false, Search(base, catalog, [], catalog), [];
    var first, second;
    hide Feeds, HasFull, SplitsFullFeeds, ArePartitions, Distinct, AnyCameFull, IsSearch, IsSplitBy;
    first, news := FetchSet(net, base);
    if first.AbortedSet? {
      FirstRoundOnly(base, catalog, filters, news);
      return first, false, search, news, pages;
    }
    assert base[..|news|] == base;
    ghost var parts, splitBy, more;
    second, catalogFailed, parts, splitBy, more, pages := FetchPartitions(net, base, first.feeds);
    TwoRounds(base, catalog, filters, news, parts, splitBy, more);
    search := Search(base, catalog, parts, splitBy);
    news := news + more;
    SplitByItsPage(search, news, pages);
    hide IsBase;
    r := if second.AbortedSet? then AbortedSet else Fetched(first.feeds + second.feeds, first.failed || second.failed);
  }

  /** The result: every id of a successful feed exactly once, as its last event, under the chosen city. */
  ghost predicate IsResult(events: seq<Event>, feeds: seq<Entry>, city: string) {
    var all := AllEvents(feeds);
    IdsDiffer(events) && CoverAll(events, all) && AreLast(events, all, city) && KeepOrder(events, all)
  }

  predicate IdsDiffer(events: seq<Event>) {
    forall i, j | 0 <= i < j < |events| :: events[i].id != events[j].id
  }

  predicate CoverAll(events: seq<Event>, all: seq<Event>) {
    forall e | e in all :: exists i :: 0 <= i < |events| && events[i].id == e.id
  }

  predicate AreLast(events: seq<Event>, all: seq<Event>, city: string) {
    forall i | 0 <= i < |events| :: exists k :: 0 <= k < |all| && IsLastAt(all, k) && IsShownAs(all[k], city, events[i])
  }

  predicate IsLastAt(all: seq<Event>, k: nat)
    requires k < |all|
  {
    forall j | k < j < |all| :: all[j].id != all[k].id
  }

  /** The same event, with the chosen city if there is one. */
  predicate IsShownAs(e: Event, city: string, shown: Event) {
    shown.id == e.id && shown.details == e.details && shown.city == if city == "" then e.city else city
  }

  /** Events stand in the order in which their ids first arrived. */
  predicate KeepOrder(events: seq<Event>, all: seq<Event>) {
    forall i, j | 0 <= i < j < |events| :: ArrivesBefore(all, events[i].id, events[j].id)
  }

  predicate ArrivesBefore(all: seq<Event>, id: EventId, other: EventId) {
    exists k :: 0 <= k < |all| && all[k].id == id && forall l | 0 <= l <= k :: all[l].id != other
  }

  function Shown(ids: seq<EventId>, byId: map<EventId, Event>, city: string): (r: seq<Event>)
    requires forall id | id in ids :: id in byId
    ensures |r| == |ids| && forall i | 0 <= i < |ids| :: r[i] == WithCity(byId[ids[i]], city)
  {
    if ids == [] then []
    else Shown(ids[..|ids| - 1], byId, city) + [WithCity(byId[ids[|ids| - 1]], city)]
  }

  /** The ids of a merge are those of the events, and each stands for the last event with it. */
  lemma MergedIdsAreSeen(ids: seq<EventId>, byId: map<EventId, Event>, all: seq<Event>)
    requires IsMerge(ids, byId, all)
    ensures forall e | e in all :: e.id in ids
    ensures forall id | id in ids :: id in byId && byId[id].id == id && LastWithId(all, id) == Some(byId[id])
    ensures ids == [] <==> all == []
  {
    forall e | e in all ensures e.id in ids { LastWithIdIsLast(all, e.id); }
    forall id | id in ids ensures byId[id].id == id && exists e :: e in all { LastWithIdIsLast(all, id); }
    if ids != [] { assert ids[0] in ids; }
    if all != [] { assert all[0] in all; }
  }

  lemma ShownKeepsIds(ids: seq<EventId>, byId: map<EventId, Event>, city: string)
    requires forall id | id in ids :: id in byId && byId[id].id == id
    ensures forall i | 0 <= i < |ids| :: Shown(ids, byId, city)[i].id == ids[i]
  {
    hide Shown;
    forall i | 0 <= i < |ids| ensures Shown(ids, byId, city)[i].id == ids[i] { assert ids[i] in ids; }
  }

  lemma ShownIdsDiffer(ids: seq<EventId>, events: seq<Event>)
    requires Distinct(ids) && |events| == |ids| && forall i | 0 <= i < |ids| :: events[i].id == ids[i]
    ensures IdsDiffer(events)
  {
    DistinctElementsDiffer(ids);
  }

  lemma ShownCoverAll(ids: seq<EventId>, events: seq<Event>, all: seq<Event>)
    requires |events| == |ids| && forall i | 0 <= i < |ids| :: events[i].id == ids[i]
    requires forall e | e in all :: e.id in ids
    ensures CoverAll(events, all)
  {
    forall e | e in all ensures exists i :: 0 <= i < |events| && events[i].id == e.id {
      var i :| 0 <= i < |ids| && ids[i] == e.id;
      assert events[i].id == e.id;
    }
  }

  lemma ShownAreLast(ids: seq<EventId>, byId: map<EventId, Event>, all: seq<Event>, city: string)
    requires forall id | id in ids :: id in byId && byId[id].id == id && LastWithId(all, id) == Some(byId[id])
    ensures AreLast(Shown(ids, byId, city), all, city)
  {
    var events := Shown(ids, byId, city);
    hide Shown, LastWithId;
    forall i | 0 <= i < |ids|
      ensures exists k :: 0 <= k < |all| && IsLastAt(all, k) && IsShownAs(all[k], city, events[i])
    {
      assert ids[i] in ids;
      LastWithIdIsLast(all, ids[i]);
      var k :| 0 <= k < |all| && all[k] == byId[ids[i]] && all[k].id == ids[i] && forall j | k < j < |all| :: all[j].id != ids[i];
      assert IsLastAt(all, k) && IsShownAs(all[k], city, events[i]);
    }
  }

  lemma ShownKeepOrder(ids: seq<EventId>, events: seq<Event>, all: seq<Event>)
    requires |events| == |ids| && forall i | 0 <= i < |ids| :: events[i].id == ids[i]
    requires InsertionOrder(ids, all)
    ensures KeepOrder(events, all)
  {
    hide FirstAt;
    forall i, j | 0 <= i < j < |events| ensures ArrivesBefore(all, events[i].id, events[j].id) {
      var k := FirstAt(all, ids[i]);
      assert k < FirstAt(all, ids[j]);
      assert all[k].id == ids[i] && forall l | 0 <= l <= k :: all[l].id != ids[j];
    }
  }

  lemma ShownIsResult(ids: seq<EventId>, byId: map<EventId, Event>, feeds: seq<Entry>, city: string)
    requires IsMerge(ids, byId, AllEvents(feeds))
    ensures IsResult(Shown(ids, byId, city), feeds, city)
    ensures ids == [] <==> AllEvents(feeds) == []
  {
    var all := AllEvents(feeds);
    MergedIdsAreSeen(ids, byId, all);
    ShownKeepsIds(ids, byId, city);
    ShownIdsDiffer(ids, Shown(ids, byId, city));
    ShownCoverAll(ids, Shown(ids, byId, city), all);
    ShownAreLast(ids, byId, all, city);
    ShownKeepOrder(ids, Shown(ids, byId, city), all);
    hide IdsDiffer, CoverAll, AreLast, KeepOrder, Shown, AllEvents, IsMerge, Distinct, LastWithId;
  }

  lemma {:induction false} AllEventsConcat(a: seq<Entry>, b: seq<Entry>)
    ensures AllEvents(a + b) == AllEvents(a) + AllEvents(b)
  {
    if b == [] {
      assert a + b == a;
    } else {
      assert (a + b)[..|a + b| - 1] == a + b[..|b| - 1];
      AllEventsConcat(a, b[..|b| - 1]);
    }
  }

  /** The events of any requests are those of the feeds that came, one feed after another. */
  lemma EventsArriveInOrder(a: seq<Query>, ra: seq<Reply>, b: seq<Query>, rb: seq<Reply>, q: Query, r: Reply)
    requires |a| == |ra| && |b| == |rb|
    ensures AllEvents(Feeds(a + b, ra + rb)) == AllEvents(Feeds(a, ra)) + AllEvents(Feeds(b, rb))
    ensures AllEvents(Feeds([q], [r])) == if r.Feed? then r.events else []
  {
    FeedsConcat(a, ra, b, rb);
    AllEventsConcat(Feeds(a, ra), Feeds(b, rb));
    assert [q][..0] == [] && [r][..0] == [];
    if r.Feed? { assert Feeds([q], [r]) == [Entry(q, r.events)]; }
  }

  /**
   `fetchRssEvents`. No URL is asked for twice, whatever fails; the base queries are those of the catalogue page it
   asked for; the second round is exactly the partitions of the full feeds, by a page asked for then. It gives up
   only if a page did not come or did not know the filter, or if the signal was found set; otherwise the result holds
   each event of a successful feed once, and there is none only if no feed that came had an event.
   */
  method FetchEvents(net: Network, filters: Option<Filters>)
    returns (r: Outcome, ghost search: Search, ghost news: seq<Reply>, ghost page: Option<Catalog>, ghost pages: seq<Option<Catalog>>)
    modifies net
    ensures IsSearch(search, filters, news) && IsSplitBy(search, news, pages)
    ensures net.asked == old(net.asked) + (search.base + search.parts)[..|news|] && net.replies == old(net.replies) + news
    ensures net.catalogs == old(net.catalogs) + (if filters.Some? then [page] else []) + pages
    ensures r == Thrown(Aborted) <==> net.aborts > old(net.aborts)
    ensures r == Thrown(CatalogFailed) <==> (filters.Some? && page == None) || pages == [None]
    ensures r.Thrown? && r.error.BadFilter? ==> filters.Some? && page.Some? && IsBadFilter(filters.value, page.value, r.error.error)
    ensures if search.base == [] then r == Thrown(CatalogFailed) || (r.Thrown? && r.error.BadFilter?)
            else filters.Some? ==>
              page == Some(search.catalog) && forall e :: !IsBadFilter(filters.value, search.catalog, e)
    ensures search.base != [] && (r.Found? || r.error == NothingFound || r.error == RequestFailed) ==>
      && |news| == |search.base + search.parts| && SplitsFullFeeds(search, news)
      && (pages != [] <==> AnyCameFull(search, news))
    ensures r.Found? ==>
      && r.events != [] && search.base != []
      && IsResult(r.events, Feeds(search.base + search.parts, news), if filters.Some? then filters.value.city else "")
    ensures r == Thrown(NothingFound) || r == Thrown(RequestFailed) ==>
      && search.base != [] && AllEvents(Feeds(search.base + search.parts, news)) == []
      && (r == Thrown(RequestFailed) <==> Failed in news)
  {
    search, news, page, pages := NOTHING, [], None, [];
    NothingSearched(filters);
    hide SplitsFullFeeds, IsBase, Feeds, AllEvents, IsResult, IsMerge, IsBadFilter, AnyCameFull, Distinct, IsSearch, IsSplitBy;
    var urls, error, catalog := FilteredQueries(net, filters);
    page := if urls.None? && error == CatalogFailed then None else Some(catalog);
    if urls.None? { return Thrown(error), search, news, page, pages; }
    var rounds, catalogFailed;
    rounds, catalogFailed, search, news, pages := FetchRounds(net, urls.value, filters, catalog);
    if rounds.AbortedSet? { return Thrown(Aborted), search, news, page, pages; }
    if catalogFailed { return Thrown(CatalogFailed), search, news, page, pages; }
    r := Merged(rounds.feeds, rounds.failed, if filters.Some? then filters.value.city else "");
  }

  lemma NothingSearched(filters: Option<Filters>)
    ensures IsSearch(NOTHING, filters, []) && IsSplitBy(NOTHING, [], []) && (NOTHING.base + NOTHING.parts)[..0] == []
  {
  }

  /** What the feeds that came are worth. */
  method Merged(feeds: seq<Entry>, failed: bool, city: string) returns (r: Outcome)
    ensures if AllEvents(feeds) == [] then r == Thrown(if failed then RequestFailed else NothingFound)
            else r.Found? && r.events != [] && IsResult(r.events, feeds, city)
  {
    var ids, byId := Merge(feeds);
    ShownIsResult(ids, byId, feeds, city);
    hide IsResult, IsMerge, AllEvents;
    if |ids| == 0 { return Thrown(if failed then RequestFailed else NothingFound); }
    r := Found(Shown(ids, byId, city));
  }

  lemma RequestsAreNumeric(search: Search, filters: Option<Filters>, replies: seq<Reply>, q: Query)
    requires IsSearch(search, filters, replies) && q in search.base + search.parts
    ensures HasNumericIds(q)
  {
    forall from | from in search.base ensures HasNumericIds(from) {
      if filters.Some? { BaseQueriesAreNumeric(filters.value, search.catalog, from); }
    }
    if q in search.parts {
      var i :| 0 <= i < |search.base| && IsPart(search.base[i], search.splitBy, q);
      PartsAreNumeric(search.base[i], search.splitBy, q);
    }
  }

  /** The URLs of one search are all different, and keep the chosen city. */
  lemma RequestsAreDistinct(search: Search, filters: Option<Filters>, replies: seq<Reply>)
    requires IsSearch(search, filters, replies)
    ensures
      var requests := search.base + search.parts;
      && (forall i, j | 0 <= i < j < |requests| :: Render(requests[i]) != Render(requests[j]))
      && forall q | q in requests ::
           q.sehir == if filters.None? || filters.value.city == "" then None
                      else if filters.value.city in search.catalog.cities then Some(search.catalog.cities[filters.value.city])
                      else None
  {
    var requests := search.base + search.parts;
    DistinctElementsDiffer(requests);
    forall i, j | 0 <= i < j < |requests| ensures Render(requests[i]) != Render(requests[j]) {
      RequestsAreNumeric(search, filters, replies, requests[i]);
      RequestsAreNumeric(search, filters, replies, requests[j]);
      RenderIsInjective(requests[i], requests[j]);
    }
    forall q | q in search.parts ensures exists from :: from in search.base && from.sehir == q.sehir {
      var i :| 0 <= i < |search.base| && IsPart(search.base[i], search.splitBy, q);
      assert search.base[i] in search.base;
    }
  }
}
