/**
 Delivering one claimed notification to its tokens, in batches, with every POST to Expo and every call to the
 database free to fail, before or after it took effect.
 */
module PushDelivery {
  import opened Basics
  import opened PushTickets
  import ExpoFetch
  import HttpAttempts

  type TokenId = nat

  const MAX_MESSAGES_PER_REQUEST := 100

  const MAX_EXPO_RESPONSE_BYTES := 512 * 1024

  /** How the bytes of an answer become JSON, and what its `data` is. */
  datatype Format = Format(codec: HttpAttempts.Codec, data: HttpAttempts.Json -> RawData)

  datatype DeliveryStatus = Sent | Failed

  /** The delivery rows of one event, by token. */
  type Rows = map<TokenId, DeliveryStatus>

  datatype EventStatus = Processing | EventSent | EventFailed | EventCancelled

  /** What one claim resolves to, the error it rethrows, or a run that stopped half-way. */
  datatype Result = Delivered(delivered: nat, failed: nat, skipped: bool) | Thrown | Stopped

  /** The answer to one batch: tickets, an error that is worth retrying or not, or the run stopped waiting. */
  datatype BatchReply = Tickets(tickets: seq<Ticket>) | ProviderError(retryable: bool) | NoReply

  /** The answer of the database; `Lost` when the run stopped waiting. */
  datatype Answer = Done | Refused | Lost

  /** A slice of distinct tokens is distinct and shares none with what comes before it. */
  lemma {:induction false} SlicesAreDisjoint(tokens: seq<TokenId>, n: nat, m: nat)
    requires n <= m <= |tokens| && Distinct(tokens)
    ensures Distinct(tokens[n..m])
    ensures forall t | t in tokens[n..m] :: t in tokens && t !in tokens[..n]
    decreases |tokens|
  {
    if n == m {
    } else if m < |tokens| {
      var rest := tokens[..|tokens| - 1];
      SlicesAreDisjoint(rest, n, m);
      assert rest[n..m] == tokens[n..m] && rest[..n] == tokens[..n];
    } else {
      var rest := tokens[..m - 1];
      SlicesAreDisjoint(rest, n, m - 1);
      assert rest[n..m - 1] == tokens[n..m - 1] && rest[..n] == tokens[..n];
      assert tokens[n..m][..m - n - 1] == tokens[n..m - 1];
      assert forall t | t in tokens[n..m - 1] || t in tokens[..n] :: t in rest;
    }
  }

  // ---------- chunks ----------

  function Flatten(parts: seq<seq<TokenId>>): seq<TokenId> {
    if parts == [] then [] else Flatten(parts[..|parts| - 1]) + parts[|parts| - 1]
  }

  /** `chunks`: the items in order, in pieces of `size` with only the last one shorter. */
  method Chunks(items: seq<TokenId>, size: nat) returns (result: seq<seq<TokenId>>)
    requires size > 0
    ensures Flatten(result) == items
    ensures forall i | 0 <= i < |result| :: 0 < |result[i]| <= size
    ensures forall i | 0 <= i < |result| - 1 :: |result[i]| == size
  {
    result := [];
    var index := 0;
    while index < |items|
      invariant 0 <= index && Flatten(result) == items[..if index < |items| then index else |items|]
      invariant forall i | 0 <= i < |result| :: 0 < |result[i]| <= size
      invariant if index < |items| then forall i | 0 <= i < |result| :: |result[i]| == size
                else forall i | 0 <= i < |result| - 1 :: |result[i]| == size
      decreases |items| - index
    {
      var end := if index + size <= |items| then index + size else |items|;
      ghost var before := result;
      result := result + [items[index..end]];
      assert result[..|result| - 1] == before;
      assert items[..index] + items[index..end] == items[..end];
      index := index + size;
    }
    assert items[..|items|] == items;
  }

  // ---------- the final status ----------

  /** The status arms, from the four counters and the number of pending tokens. */
  function NextStatus(success: nat, invalid: nat, retryable: nat, permanent: nat, pending: nat): EventStatus {
    if retryable > 0 then EventFailed
    else if success > 0 then EventSent
    else if success == 0 && invalid + permanent == pending then EventCancelled
    else EventFailed
  }

  /**
   When every batch was answered: failed exactly when some ticket reports a passing error, cancelled exactly when none
   succeeded and none reports one, sent otherwise; the last arm is never taken.
   */
  lemma StatusIsDecidedByTickets(tickets: seq<Ticket>)
    requires tickets != []
    ensures IsDue(StatusOfTickets(tickets), tickets)
    ensures
      var verdicts := VerdictsOf(tickets);
      Count(verdicts, Retryable) == 0 && Count(verdicts, Success) == 0 ==>
        Count(verdicts, InvalidToken) + Count(verdicts, Permanent) == |tickets|
  {
    var verdicts := VerdictsOf(tickets);
    VerdictsAddUp(verdicts);
    CountedMeansPresent(verdicts, Success);
    CountedMeansPresent(verdicts, Retryable);
    TicketsHaveVerdicts(tickets);
    forall t | t in tickets ensures (Judge(t) == Success <==> t.ok) && (Judge(t) == Retryable <==> IsPassing(t)) {
      VerdictsFollowErrors(t);
    }
    assert tickets[0] in tickets;
    hide Judge, IsPassing, Count, VerdictsOf;
  }

  lemma TicketsHaveVerdicts(tickets: seq<Ticket>)
    ensures forall v :: v in VerdictsOf(tickets) <==> exists t :: t in tickets && Judge(t) == v
  {
    var verdicts := VerdictsOf(tickets);
    forall v ensures v in verdicts <==> exists t :: t in tickets && Judge(t) == v {
      if v in verdicts {
        var i :| 0 <= i < |verdicts| && verdicts[i] == v;
        assert tickets[i] in tickets;
      }
      if t :| t in tickets && Judge(t) == v {
        var i :| 0 <= i < |tickets| && tickets[i] == t;
        assert verdicts[i] == v;
      }
    }
  }

  // ---------- the rows of one event ----------

  function Upserted(rows: Rows, batch: seq<TokenId>, statuses: seq<DeliveryStatus>): Rows
    requires |batch| == |statuses|
  {
    if batch == [] then rows
    else Upserted(rows, batch[..|batch| - 1], statuses[..|batch| - 1])[batch[|batch| - 1] := statuses[|batch| - 1]]
  }

  /** The upsert writes each row its own status and touches no other row. */
  lemma {:induction false} UpsertWritesItsRows(rows: Rows, batch: seq<TokenId>, statuses: seq<DeliveryStatus>)
    requires |batch| == |statuses| && Distinct(batch)
    ensures
      var r := Upserted(rows, batch, statuses);
      && (forall i | 0 <= i < |batch| :: batch[i] in r && r[batch[i]] == statuses[i])
      && (forall t | t !in batch :: (t in r <==> t in rows) && (t in rows ==> r[t] == rows[t]))
  {
    if batch != [] {
      var n := |batch| - 1;
      UpsertWritesItsRows(rows, batch[..n], statuses[..n]);
      assert batch == batch[..n] + [batch[n]];
      assert forall i | 0 <= i < n :: batch[i] == batch[..n][i] && batch[i] in batch[..n];
    }
  }

  function StatusOf(v: Verdict): DeliveryStatus {
    if v == Success then Sent else Failed
  }

  function StatusesOf(verdicts: seq<Verdict>): (r: seq<DeliveryStatus>)
    ensures |r| == |verdicts|
  {
    seq(|verdicts|, i requires 0 <= i < |verdicts| => StatusOf(verdicts[i]))
  }

  predicate SentIn(rows: Rows, t: TokenId) {
    t in rows && rows[t] == Sent
  }

  /** The tokens of a claim that have no sent row yet, in claim order. */
  function Unsent(tokens: seq<TokenId>, rows: Rows): seq<TokenId> {
    if tokens == [] then []
    else
      var rest, last := Unsent(tokens[..|tokens| - 1], rows), tokens[|tokens| - 1];
      if SentIn(rows, last) then rest else rest + [last]
  }

  lemma {:induction false} UnsentIsAFilter(tokens: seq<TokenId>, rows: Rows)
    ensures forall t :: t in Unsent(tokens, rows) <==> t in tokens && !SentIn(rows, t)
    ensures Distinct(tokens) ==> Distinct(Unsent(tokens, rows))
  {
    if tokens != [] {
      var n := |tokens| - 1;
      UnsentIsAFilter(tokens[..n], rows);
      assert forall t :: t in tokens <==> t in tokens[..n] || t == tokens[n];
      var rest := Unsent(tokens[..n], rows);
      assert (rest + [tokens[n]])[..|rest|] == rest;
    }
  }

  // ---------- counting one batch ----------

  function InvalidIds(batch: seq<TokenId>, verdicts: seq<Verdict>): (r: seq<TokenId>)
    requires |batch| == |verdicts|
    ensures |r| == Count(verdicts, InvalidToken)
  {
    if batch == [] then []
    else
      var n := |batch| - 1;
      InvalidIds(batch[..n], verdicts[..n]) + if verdicts[n] == InvalidToken then [batch[n]] else []
  }

  lemma {:induction false} CountConcat(a: seq<Verdict>, b: seq<Verdict>, v: Verdict)
    ensures Count(a + b, v) == Count(a, v) + Count(b, v)
  {
    if b == [] {
      assert a + b == a;
    } else {
      var n := |b| - 1;
      assert (a + b)[..|a + b| - 1] == a + b[..n];
      CountConcat(a, b[..n], v);
    }
  }

  lemma OneMoreId(batch: seq<TokenId>, verdicts: seq<Verdict>, t: TokenId, v: Verdict)
    requires |batch| == |verdicts|
    ensures InvalidIds(batch + [t], verdicts + [v]) == InvalidIds(batch, verdicts) + if v == InvalidToken then [t] else []
  {
    assert (batch + [t])[..|batch|] == batch && (verdicts + [v])[..|batch|] == verdicts;
  }

  lemma {:induction false} InvalidIdsConcat(a: seq<TokenId>, b: seq<TokenId>, ta: seq<Verdict>, tb: seq<Verdict>)
    requires |a| == |ta| && |b| == |tb|
    ensures InvalidIds(a + b, ta + tb) == InvalidIds(a, ta) + InvalidIds(b, tb)
  {
    hide InvalidIds, Count;
    if b == [] {
      assert a + b == a && ta + tb == ta;
      NoIds();
    } else {
      var n := |b| - 1;
      InvalidIdsConcat(a, b[..n], ta, tb[..n]);
      OneMoreId(b[..n], tb[..n], b[n], tb[n]);
      OneMoreId(a + b[..n], ta + tb[..n], b[n], tb[n]);
      assert b[..n] + [b[n]] == b && tb[..n] + [tb[n]] == tb;
      assert a + b[..n] + [b[n]] == a + b && ta + tb[..n] + [tb[n]] == ta + tb;
    }
  }

  lemma NoIds()
    ensures InvalidIds([], []) == []
  {
  }

  /** One verdict more. */
  lemma OneMoreVerdict(batch: seq<TokenId>, verdicts: seq<Verdict>, n: nat)
    requires n < |verdicts| == |batch|
    ensures Count(verdicts[..n + 1], Success) == Count(verdicts[..n], Success) + if verdicts[n] == Success then 1 else 0
    ensures Count(verdicts[..n + 1], Retryable) == Count(verdicts[..n], Retryable) + if verdicts[n] == Retryable then 1 else 0
    ensures Count(verdicts[..n + 1], Permanent) == Count(verdicts[..n], Permanent) + if verdicts[n] == Permanent then 1 else 0
    ensures InvalidIds(batch[..n + 1], verdicts[..n + 1])
            == InvalidIds(batch[..n], verdicts[..n]) + if verdicts[n] == InvalidToken then [batch[n]] else []
    ensures StatusesOf(verdicts[..n + 1]) == StatusesOf(verdicts[..n]) + [StatusOf(verdicts[n])]
  {
    assert verdicts[..n + 1][..n] == verdicts[..n] && batch[..n + 1][..n] == batch[..n];
  }

  /** The counters and the rows of one batch, token by token. */
  method CountBatch(batch: seq<TokenId>, verdicts: seq<Verdict>)
    returns (success: nat, retryable: nat, permanent: nat, invalidIds: seq<TokenId>, statuses: seq<DeliveryStatus>)
    requires |batch| == |verdicts|
    ensures success == Count(verdicts, Success)
    ensures retryable == Count(verdicts, Retryable)
    ensures permanent == Count(verdicts, Permanent)
    ensures invalidIds == InvalidIds(batch, verdicts)
    ensures statuses == StatusesOf(verdicts)
  {
    success, retryable, permanent, invalidIds, statuses := 0, 0, 0, [], [];
    for index := 0 to |batch|
      invariant success == Count(verdicts[..index], Success)
      invariant retryable == Count(verdicts[..index], Retryable)
      invariant permanent == Count(verdicts[..index], Permanent)
      invariant invalidIds == InvalidIds(batch[..index], verdicts[..index])
      invariant statuses == StatusesOf(verdicts[..index])
    {
      OneMoreVerdict(batch, verdicts, index);
      match verdicts[index] {
        case Success => success := success + 1;
        case InvalidToken => invalidIds := invalidIds + [batch[index]];
        case Retryable => retryable := retryable + 1;
        case Permanent => permanent := permanent + 1;
      }
      statuses := statuses + [StatusOf(verdicts[index])];
    }
    assert verdicts[..|batch|] == verdicts && batch[..|batch|] == batch;
  }

  // ---------- what happens to an event, in order ----------

  datatype Entry = Handed(token: TokenId) | Recorded(token: TokenId, status: DeliveryStatus)

  function HandedAll(batch: seq<TokenId>): seq<Entry> {
    seq(|batch|, i requires 0 <= i < |batch| => Handed(batch[i]))
  }

  /** A batch POSTed `n` times. */
  function HandedTimes(batch: seq<TokenId>, n: nat): seq<Entry> {
    if n == 0 then [] else HandedTimes(batch, n - 1) + HandedAll(batch)
  }

  function RecordedAll(batch: seq<TokenId>, statuses: seq<DeliveryStatus>): seq<Entry>
    requires |batch| == |statuses|
  {
    seq(|batch|, i requires 0 <= i < |batch| => Recorded(batch[i], statuses[i]))
  }

  /** How many POSTs had a message for this token. */
  function Posts(log: seq<Entry>, t: TokenId): nat {
    if log == [] then 0 else Posts(log[..|log| - 1], t) + if log[|log| - 1] == Handed(t) then 1 else 0
  }

  /** Each token of `batch` was in `n` more POSTs, and no other token in any. */
  ghost predicate PostedTimes(before: seq<Entry>, after: seq<Entry>, batch: seq<TokenId>, n: nat) {
    forall t :: Posts(after, t) == Posts(before, t) + if t in batch then n else 0
  }

  /** Each token of `handed` was in one to three more POSTs, and no other token in any. */
  ghost predicate PostsGrow(before: seq<Entry>, after: seq<Entry>, handed: seq<TokenId>) {
    forall t ::
      if t in handed then Posts(before, t) + 1 <= Posts(after, t) <= Posts(before, t) + ExpoFetch.DEFAULT_ATTEMPTS
      else Posts(after, t) == Posts(before, t)
  }

  lemma NoMorePosts(log: seq<Entry>)
    ensures PostedTimes(log, log, [], 0) && PostsGrow(log, log, [])
  {
  }

  lemma OneCallGrows(a: seq<Entry>, b: seq<Entry>, c: seq<Entry>, batch: seq<TokenId>, n: nat)
    requires PostedTimes(a, b, batch, n) && PostedTimes(b, c, [], 0) && 1 <= n <= ExpoFetch.DEFAULT_ATTEMPTS
    ensures PostedTimes(a, c, batch, n) && PostsGrow(a, c, batch)
  {
  }

  lemma {:induction false} PostsConcat(a: seq<Entry>, b: seq<Entry>, t: TokenId)
    ensures Posts(a + b, t) == Posts(a, t) + Posts(b, t)
  {
    if b == [] {
      assert a + b == a;
    } else {
      assert (a + b)[..|a + b| - 1] == a + b[..|b| - 1];
      PostsConcat(a, b[..|b| - 1], t);
    }
  }

  lemma {:induction false} PostsOfOneRequest(batch: seq<TokenId>, t: TokenId)
    requires Distinct(batch)
    ensures Posts(HandedAll(batch), t) == if t in batch then 1 else 0
  {
    if batch != [] {
      var n := |batch| - 1;
      PostsOfOneRequest(batch[..n], t);
      assert HandedAll(batch)[..n] == HandedAll(batch[..n]);
      assert t in batch <==> t in batch[..n] || t == batch[n];
    }
  }

  lemma {:induction false} PostsOfRequests(batch: seq<TokenId>, n: nat, t: TokenId)
    requires Distinct(batch)
    ensures Posts(HandedTimes(batch, n), t) == if t in batch then n else 0
    ensures forall e | e in HandedTimes(batch, n) :: e.Handed? && e.token in batch
  {
    if n > 0 {
      PostsOfRequests(batch, n - 1, t);
      PostsOfOneRequest(batch, t);
      PostsConcat(HandedTimes(batch, n - 1), HandedAll(batch), t);
    }
  }

  lemma {:induction false} PostsOfRows(batch: seq<TokenId>, statuses: seq<DeliveryStatus>, t: TokenId)
    requires |batch| == |statuses|
    ensures Posts(RecordedAll(batch, statuses), t) == 0
  {
    if batch != [] {
      var n := |batch| - 1;
      PostsOfRows(batch[..n], statuses[..n], t);
      assert RecordedAll(batch, statuses)[..n] == RecordedAll(batch[..n], statuses[..n]);
    }
  }

  lemma RowsAreNoPosts(log: seq<Entry>, batch: seq<TokenId>, statuses: seq<DeliveryStatus>)
    requires |batch| == |statuses|
    ensures PostedTimes(log, log + RecordedAll(batch, statuses), [], 0)
  {
    forall t ensures Posts(log + RecordedAll(batch, statuses), t) == Posts(log, t) {
      PostsOfRows(batch, statuses, t);
      PostsConcat(log, RecordedAll(batch, statuses), t);
    }
  }

  /** What a batch adds to the log of the batches before it, none of which shares a token with it. */
  lemma PostsAddUp(a: seq<Entry>, b: seq<Entry>, c: seq<Entry>, handed: seq<TokenId>, batch: seq<TokenId>)
    requires PostsGrow(a, b, handed) && PostsGrow(b, c, batch)
    requires forall t | t in batch :: t !in handed
    ensures PostsGrow(a, c, handed + batch)
  {
    forall t ensures t in handed + batch <==> t in handed || t in batch {}
  }

  /** Once a token's sent row is written, the log never mentions that token again. */
  predicate SentIsFinal(log: seq<Entry>) {
    log != [] ==>
      && SentIsFinal(log[..|log| - 1])
      && Recorded(log[|log| - 1].token, Sent) !in log[..|log| - 1]
  }

  /** The same, entry by entry. */
  lemma {:induction false} NothingFollowsSent(log: seq<Entry>)
    ensures SentIsFinal(log) <==>
      forall i, j | 0 <= i < j < |log| :: log[i] != Recorded(log[j].token, Sent)
  {
    if log != [] {
      var n := |log| - 1;
      NothingFollowsSent(log[..n]);
      assert forall i | 0 <= i < n :: log[..n][i] == log[i];
    }
  }

  lemma {:induction false} UnsentTokensMayFollow(log: seq<Entry>, more: seq<Entry>)
    requires SentIsFinal(log) && SentIsFinal(more)
    requires forall e | e in more :: Recorded(e.token, Sent) !in log
    ensures SentIsFinal(log + more)
  {
    if more == [] {
      assert log + more == log;
    } else {
      var n := |more| - 1;
      assert (log + more)[..|log + more| - 1] == log + more[..n];
      UnsentTokensMayFollow(log, more[..n]);
      assert more[n] in more;
    }
  }

  lemma {:induction false} HandingIsFinal(log: seq<Entry>)
    requires forall e | e in log :: e.Handed?
    ensures SentIsFinal(log)
  {
    if log != [] { HandingIsFinal(log[..|log| - 1]); }
  }

  lemma {:induction false} RecordingIsFinal(batch: seq<TokenId>, statuses: seq<DeliveryStatus>)
    requires |batch| == |statuses| && Distinct(batch)
    ensures SentIsFinal(RecordedAll(batch, statuses))
  {
    if batch != [] {
      var n := |batch| - 1;
      RecordingIsFinal(batch[..n], statuses[..n]);
      assert RecordedAll(batch, statuses)[..n] == RecordedAll(batch[..n], statuses[..n]);
    }
  }

  lemma LogOfRequests(log: seq<Entry>, batch: seq<TokenId>, n: nat)
    requires SentIsFinal(log) && Distinct(batch) && forall t | t in batch :: Recorded(t, Sent) !in log
    ensures
      var log' := log + HandedTimes(batch, n);
      && SentIsFinal(log') && (forall t, status :: Recorded(t, status) in log' <==> Recorded(t, status) in log)
      && PostedTimes(log, log', batch, n)
  {
    var more := HandedTimes(batch, n);
    forall t ensures Posts(log + more, t) == Posts(log, t) + if t in batch then n else 0 {
      PostsOfRequests(batch, n, t);
      PostsConcat(log, more, t);
    }
    PostsOfRequests(batch, n, 0);
    HandingIsFinal(more);
    UnsentTokensMayFollow(log, more);
  }

  /** How the attempts of one delivery call decide what the call gives back, unless the run stops first. */
  ghost predicate IsDelivery(format: Format, attempts: seq<HttpAttempts.Attempt>, size: nat, reply: BatchReply) {
    && 1 <= |attempts| <= ExpoFetch.DEFAULT_ATTEMPTS
    && (forall i | 0 <= i < |attempts| - 1 :: ExpoFetch.Judge(attempts[i], 524_288, format.codec).Again?)
    && var last := ExpoFetch.Judge(attempts[|attempts| - 1], 524_288, format.codec);
       var tickets := if last.Final? && last.result.Payload? then NormalizeExpoTickets(format.data(last.result.json), size)
                      else None;
       match reply
       case NoReply => true
       case Tickets(t) => tickets == Some(t)
       case ProviderError(retryable) =>
         tickets.None? && (retryable <==> last.Again?) && (retryable ==> |attempts| == ExpoFetch.DEFAULT_ATTEMPTS)
  }

  lemma DeliveryIsJudged(format: Format, attempts: seq<HttpAttempts.Attempt>, pauses: seq<HttpAttempts.Pause>,
                         fetched: ExpoFetch.Result, size: nat, reply: BatchReply)
    requires ExpoFetch.IsCall(attempts, pauses, None, MAX_EXPO_RESPONSE_BYTES, format.codec, fetched)
    requires
      var tickets := if fetched.Payload? then NormalizeExpoTickets(format.data(fetched.json), size) else None;
      reply == NoReply
      || reply == if tickets.Some? then Tickets(tickets.value) else ProviderError(ExpoFetch.WorthRetrying(fetched))
    ensures IsDelivery(format, attempts, size, reply)
  {
    ExpoFetch.RetryableMeansExhausted(attempts, pauses, None, MAX_EXPO_RESPONSE_BYTES, format.codec, fetched);
  }

  lemma RetryableWasRepeated(format: Format, attempts: seq<HttpAttempts.Attempt>, size: nat, reply: BatchReply)
    requires IsDelivery(format, attempts, size, reply)
    ensures reply == ProviderError(true) ==> |attempts| == ExpoFetch.DEFAULT_ATTEMPTS
  {
  }

  /** The request of `sendExpoBatch` with its retries, and the check of the payload. */
  method PostBatch(format: Format, size: nat)
    returns (reply: BatchReply, ghost attempts: seq<HttpAttempts.Attempt>, ghost posted: nat)
    ensures IsDelivery(format, attempts, size, reply)
    ensures 1 <= posted <= |attempts| <= ExpoFetch.DEFAULT_ATTEMPTS && (reply.NoReply? || posted == |attempts|)
    ensures reply.Tickets? ==> |reply.tickets| == size && forall t | t in reply.tickets :: WellFormed(t)
  {
    var net := new HttpAttempts.Net();
    var fetched;
    ghost var pauses;
    fetched, attempts, pauses := ExpoFetch.FetchExpoJson(net, None, MAX_EXPO_RESPONSE_BYTES, format.codec);
    var tickets := None;
    if fetched.Payload? {
      tickets := NormalizeExpoTickets(format.data(fetched.json), size);
      NormalizedTicketsMatchMessages(format.data(fetched.json), size);
    }
    var stopped := *;
    reply :=
      if stopped then NoReply
      else if tickets.Some? then Tickets(tickets.value)
      else ProviderError(ExpoFetch.WorthRetrying(fetched));
    DeliveryIsJudged(format, attempts, pauses, fetched, size, reply);
    posted := *;
    posted := if stopped then Max(1, Min(posted, |attempts|)) else |attempts|;
  }

  /** One event with what the claim under way has done so far. */
  datatype View = View(
    rows: Rows,
    disabled: set<TokenId>,
    status: EventStatus,
    log: seq<Entry>,            // POSTs to Expo and rows written, in order
    handed: seq<TokenId>,       // tokens given to a delivery call
    answers: seq<Ticket>,       // the tickets they got
    refusal: Option<bool>,      // the provider's error that ended it, worth retrying or not
    lost: bool,                 // one of its calls was not answered any more
    refused: nat)               // how many of its calls to the database were refused

  /** A call to the database is answered. */
  ghost predicate Noted(v: View, v': View, answer: Answer) {
    v'.lost == (v.lost || answer == Lost) && v'.refused == v.refused + if answer == Refused then 1 else 0
  }

  class Notification {
    const format: Format
    var rows: Rows                           // notification_deliveries of this event
    var disabled: set<TokenId>               // push_tokens.disabled_at is set
    var status: EventStatus
    ghost var log: seq<Entry>
    ghost var handed: seq<TokenId>
    ghost var answers: seq<Ticket>
    ghost var refusal: Option<bool>
    ghost var lost: bool
    ghost var refused: nat

    ghost function Now(): View
      reads this
    {
      View(rows, disabled, status, log, handed, answers, refusal, lost, refused)
    }

    constructor (format: Format)
      ensures Valid() && rows == map[] && disabled == {} && status == Processing && log == []
    {
      this.format := format;
      rows, disabled, status, log := map[], {}, Processing, [];
      handed, answers, refusal, lost, refused := [], [], None, false, 0;
    }

    ghost predicate Valid()
      reads this
    {
      && SentIsFinal(log)
      && forall t :: SentIn(rows, t) <==> Recorded(t, Sent) in log
    }

    /**
     `sendExpoBatch`: the one delivery call of a batch, which POSTs it once per attempt; a run that stops may have
     made only some of the attempts. Tickets come back normalized, one per message; an error is worth retrying
     exactly when three POSTs were made and the last one failed for the moment only.
     */
    method SendBatch(batch: seq<TokenId>)
      returns (reply: BatchReply, ghost attempts: seq<HttpAttempts.Attempt>, ghost posted: nat)
      requires Valid() && Distinct(batch) && forall t | t in batch :: !SentIn(rows, t)
      modifies this`log, this`handed, this`answers, this`refusal, this`lost
      ensures lost == (old(lost) || reply.NoReply?)
      ensures Valid() && handed == old(handed) + batch
      ensures IsDelivery(format, attempts, |batch|, reply)
      ensures 1 <= posted <= |attempts| <= ExpoFetch.DEFAULT_ATTEMPTS && (reply.NoReply? || posted == |attempts|)
      ensures PostedTimes(old(log), log, batch, posted)
      ensures answers == old(answers) + (if reply.Tickets? then reply.tickets else [])
      ensures refusal == if reply.ProviderError? then Some(reply.retryable) else old(refusal)
      ensures reply.Tickets? ==> |reply.tickets| == |batch| && forall t | t in reply.tickets :: WellFormed(t)
    {
      reply, attempts, posted := PostBatch(format, |batch|);
      LogOfRequests(log, batch, posted);
      hide IsDelivery, PostedTimes, SentIsFinal, HandedTimes, Distinct, Count, WellFormed, SentIn;
      log, handed := log + HandedTimes(batch, posted), handed + batch;
      lost := lost || reply.NoReply?;
      answers := answers + if reply.Tickets? then reply.tickets else [];
      refusal := if reply.ProviderError? then Some(reply.retryable) else refusal;
    }

    /** The upsert of a batch's rows; an error may come with or without its effect. */
    method SaveBatch(batch: seq<TokenId>, statuses: seq<DeliveryStatus>) returns (answer: Answer, ghost effect: bool)
      requires Valid() && |batch| == |statuses| && Distinct(batch)
      requires forall t | t in batch :: !SentIn(rows, t)
      modifies this`rows, this`log, this`lost, this`refused
      ensures Valid() && Noted(old(Now()), Now(), answer)
      ensures log == if effect then old(log) + RecordedAll(batch, statuses) else old(log)
      ensures PostedTimes(old(log), log, [], 0)
      ensures rows == if effect then Upserted(old(rows), batch, statuses) else old(rows)
      ensures answer == Done ==> effect
    {
      var committed := *;
      answer := *;
      effect := answer == Done || committed;
      lost, refused := lost || answer == Lost, refused + if answer == Refused then 1 else 0;
      if answer == Done || committed {
        BatchFits(rows, log, batch, statuses);
        hide Upserted, SentIn, SentIsFinal, PostedTimes, Distinct;
        log := log + RecordedAll(batch, statuses);
        rows := Upserted(rows, batch, statuses);
      }
    }

    method DisableTokens(ids: seq<TokenId>) returns (answer: Answer)
      modifies this`disabled, this`lost, this`refused
      ensures Noted(old(Now()), Now(), answer)
      ensures disabled == old(disabled) || disabled == old(disabled) + (set t | t in ids)
      ensures answer == Done ==> disabled == old(disabled) + (set t | t in ids)
    {
      var effect := *;
      answer := *;
      lost, refused := lost || answer == Lost, refused + if answer == Refused then 1 else 0;
      if answer == Done || effect { disabled := disabled + set t | t in ids; }
    }

    method SetStatus(next: EventStatus) returns (answer: Answer)
      modifies this`status, this`lost, this`refused
      ensures Noted(old(Now()), Now(), answer)
      ensures status == old(status) || status == next
      ensures answer == Done ==> status == next
    {
      var effect := *;
      answer := *;
      lost, refused := lost || answer == Lost, refused + if answer == Refused then 1 else 0;
      if answer == Done || effect { status := next; }
    }

    /** The ids of this claim that already have a sent row. */
    method ReadCompleted(tokens: seq<TokenId>) returns (answer: Answer, completed: set<TokenId>)
      modifies this`lost, this`refused
      ensures Noted(old(Now()), Now(), answer)
      ensures answer == Done ==> completed == set t | t in tokens && SentIn(rows, t)
    {
      answer := *;
      lost, refused := lost || answer == Lost, refused + if answer == Refused then 1 else 0;
      completed := set t | t in tokens && SentIn(rows, t);
    }
  }

  /** Saving a batch of unsent tokens keeps rows and log in step. */
  lemma BatchFits(rows: Rows, log: seq<Entry>, batch: seq<TokenId>, statuses: seq<DeliveryStatus>)
    requires |batch| == |statuses| && Distinct(batch) && SentIsFinal(log)
    requires forall t :: SentIn(rows, t) <==> Recorded(t, Sent) in log
    requires forall t | t in batch :: !SentIn(rows, t)
    ensures
      var more := log + RecordedAll(batch, statuses);
      && SentIsFinal(more) && PostedTimes(log, more, [], 0)
      && forall t :: SentIn(Upserted(rows, batch, statuses), t) <==> Recorded(t, Sent) in more
  {
    hide SentIn, SentIsFinal, PostedTimes, Upserted, Distinct;
    RecordingIsFinal(batch, statuses);
    UnsentTokensMayFollow(log, RecordedAll(batch, statuses));
    UpsertMatchesLog(rows, batch, statuses);
    RowsAreNoPosts(log, batch, statuses);
  }

  lemma UpsertMatchesLog(rows: Rows, batch: seq<TokenId>, statuses: seq<DeliveryStatus>)
    requires |batch| == |statuses| && Distinct(batch)
    requires forall t | t in batch :: !SentIn(rows, t)
    ensures forall t ::
      SentIn(Upserted(rows, batch, statuses), t) <==> SentIn(rows, t) || Recorded(t, Sent) in RecordedAll(batch, statuses)
  {
    UpsertWritesItsRows(rows, batch, statuses);
    var more := RecordedAll(batch, statuses);
    forall t ensures SentIn(Upserted(rows, batch, statuses), t) <==> SentIn(rows, t) || Recorded(t, Sent) in more {
      if t in batch {
        var i :| 0 <= i < |batch| && batch[i] == t;
        assert more[i] == Recorded(t, statuses[i]);
      } else {
        assert forall i | 0 <= i < |batch| :: more[i].token == batch[i];
      }
    }
  }

  // ---------- one claim ----------

  lemma {:induction false} FlattenPrefix(parts: seq<seq<TokenId>>, b: nat)
    requires b < |parts|
    ensures Flatten(parts[..b + 1]) == Flatten(parts[..b]) + parts[b]
    ensures Flatten(parts[..b + 1]) <= Flatten(parts)
    decreases |parts|
  {
    assert parts[..b + 1][..b] == parts[..b];
    if b + 1 == |parts| {
      assert parts[..b + 1] == parts;
    } else {
      var n := |parts| - 1;
      FlattenPrefix(parts[..n], b);
      assert parts[..n][..b + 1] == parts[..b + 1] && parts[..n][..b] == parts[..b];
    }
  }

  /** The rows once `tickets` are saved for the first pending tokens. */
  ghost predicate RowsMatch(before: Rows, after: Rows, pending: seq<TokenId>, tickets: seq<Ticket>) {
    |tickets| <= |pending| && after == Upserted(before, pending[..|tickets|], StatusesOf(VerdictsOf(tickets)))
  }

  function InvalidSet(pending: seq<TokenId>, tickets: seq<Ticket>): set<TokenId>
    requires |tickets| <= |pending|
  {
    set t | t in InvalidIds(pending[..|tickets|], VerdictsOf(tickets))
  }

  /** The status the counters of all batches come to. */
  function StatusOfTickets(tickets: seq<Ticket>): EventStatus {
    var verdicts := VerdictsOf(tickets);
    NextStatus(Count(verdicts, Success), Count(verdicts, InvalidToken), Count(verdicts, Retryable),
               Count(verdicts, Permanent), |tickets|)
  }

  // ---------- a claim in the terms of its tickets ----------

  /** Each saved ticket's row says whether it was ok, and no other row is touched. */
  ghost predicate RowsFollowTickets(before: Rows, after: Rows, pending: seq<TokenId>, tickets: seq<Ticket>) {
    && |tickets| <= |pending|
    && (forall i | 0 <= i < |tickets| :: pending[i] in after && after[pending[i]] == if tickets[i].ok then Sent else Failed)
    && (forall t | t !in pending[..|tickets|] :: (t in after <==> t in before) && (t in after ==> after[t] == before[t]))
  }

  /** Disabled are exactly the tokens whose saved ticket says they are not registered, besides those that were. */
  ghost predicate DisabledByTickets(before: set<TokenId>, after: set<TokenId>, pending: seq<TokenId>, tickets: seq<Ticket>) {
    && |tickets| <= |pending|
    && forall t :: t in after <==>
         t in before || exists i :: 0 <= i < |tickets| && pending[i] == t && Carries(tickets[i], "DeviceNotRegistered")
  }

  /** Some of those tokens, where the claim broke off. */
  ghost predicate DisabledAtMost(before: set<TokenId>, after: set<TokenId>, pending: seq<TokenId>, tickets: seq<Ticket>) {
    && |tickets| <= |pending| && before <= after
    && forall t | t in after ::
         t in before || exists i :: 0 <= i < |tickets| && pending[i] == t && Carries(tickets[i], "DeviceNotRegistered")
  }

  /**
   Once every pending token has a ticket: the event is to be tried again exactly if some ticket reports a passing
   error, cancelled exactly if no ticket is ok and none reports one, and sent otherwise.
   */
  ghost predicate IsDue(status: EventStatus, tickets: seq<Ticket>) {
    && (status == EventFailed <==> exists t :: t in tickets && IsPassing(t))
    && (status == EventCancelled <==> forall t | t in tickets :: !t.ok && !IsPassing(t))
    && (status == EventSent <==> (exists t :: t in tickets && t.ok) && forall t | t in tickets :: !IsPassing(t))
  }

  function OkTickets(tickets: seq<Ticket>): set<nat> {
    set i: nat | i < |tickets| && tickets[i].ok
  }

  lemma {:induction false} SuccessesAreOkTickets(tickets: seq<Ticket>)
    ensures Count(VerdictsOf(tickets), Success) == |OkTickets(tickets)|
  {
    if tickets == [] {
      assert OkTickets(tickets) == {};
    } else {
      var n := |tickets| - 1;
      SuccessesAreOkTickets(tickets[..n]);
      assert VerdictsOf(tickets)[..n] == VerdictsOf(tickets[..n]);
      assert OkTickets(tickets) == OkTickets(tickets[..n]) + if tickets[n].ok then {n} else {};
    }
  }

  lemma {:induction false} InvalidIdsCarryTheError(batch: seq<TokenId>, tickets: seq<Ticket>)
    requires |batch| == |tickets|
    ensures forall t :: t in InvalidIds(batch, VerdictsOf(tickets)) <==>
      exists i :: 0 <= i < |batch| && batch[i] == t && Carries(tickets[i], "DeviceNotRegistered")
  {
    var ids := InvalidIds(batch, VerdictsOf(tickets));
    if batch == [] {
    } else {
      var n := |batch| - 1;
      var rest := InvalidIds(batch[..n], VerdictsOf(tickets[..n]));
      InvalidIdsCarryTheError(batch[..n], tickets[..n]);
      VerdictsFollowErrors(tickets[n]);
      assert VerdictsOf(tickets)[..n] == VerdictsOf(tickets[..n]);
      assert ids == rest + if Carries(tickets[n], "DeviceNotRegistered") then [batch[n]] else [];
      hide InvalidIds, VerdictsOf, Count, Carries, Judge;
      forall t ensures t in ids <==> exists i :: 0 <= i < |batch| && batch[i] == t && Carries(tickets[i], "DeviceNotRegistered") {
        if t in rest {
          var i :| 0 <= i < n && batch[..n][i] == t && Carries(tickets[..n][i], "DeviceNotRegistered");
          assert batch[i] == t && Carries(tickets[i], "DeviceNotRegistered");
        }
        if i :| 0 <= i < n && batch[i] == t && Carries(tickets[i], "DeviceNotRegistered") {
          assert batch[..n][i] == t && Carries(tickets[..n][i], "DeviceNotRegistered");
        }
      }
    }
  }

  lemma InvalidSetCarriesTheError(before: set<TokenId>, after: set<TokenId>, pending: seq<TokenId>, tickets: seq<Ticket>)
    requires |tickets| <= |pending|
    ensures after == before + InvalidSet(pending, tickets) ==> DisabledByTickets(before, after, pending, tickets)
    ensures before <= after <= before + InvalidSet(pending, tickets) ==> DisabledAtMost(before, after, pending, tickets)
  {
    InvalidIdsCarryTheError(pending[..|tickets|], tickets);
    hide InvalidIds, Count, Carries, VerdictsOf;
  }

  lemma StatusesFollowTickets(tickets: seq<Ticket>)
    ensures forall i | 0 <= i < |tickets| ::
      StatusesOf(VerdictsOf(tickets))[i] == if tickets[i].ok then Sent else Failed
  {
  }

  lemma RowsMatchTickets(before: Rows, after: Rows, pending: seq<TokenId>, tickets: seq<Ticket>)
    requires Distinct(pending) && RowsMatch(before, after, pending, tickets)
    ensures RowsFollowTickets(before, after, pending, tickets)
  {
    var first, statuses := pending[..|tickets|], StatusesOf(VerdictsOf(tickets));
    DistinctPrefix(pending, |tickets|);
    StatusesFollowTickets(tickets);
    hide Upserted, Distinct, StatusesOf, VerdictsOf;
    UpsertWritesItsRows(before, first, statuses);
    forall i | 0 <= i < |tickets| ensures pending[i] in after && after[pending[i]] == if tickets[i].ok then Sent else Failed {
      assert first[i] == pending[i];
    }
  }

  /** How the `try` block ends: the value it returns, or what it throws. */
  datatype Ending = Returned(result: Result) | ProviderFailed(retryable: bool, pending: nat) | PersistenceFailed | Halted

  lemma {:induction false} UpsertConcat(rows: Rows, a: seq<TokenId>, b: seq<TokenId>,
                                        sa: seq<DeliveryStatus>, sb: seq<DeliveryStatus>)
    requires |a| == |sa| && |b| == |sb|
    ensures Upserted(Upserted(rows, a, sa), b, sb) == Upserted(rows, a + b, sa + sb)
  {
    if b == [] {
      assert a + b == a && sa + sb == sa;
    } else {
      var n := |b| - 1;
      assert (a + b)[..|a + b| - 1] == a + b[..n] && (sa + sb)[..|sa + sb| - 1] == sa + sb[..n];
      UpsertConcat(rows, a, b[..n], sa, sb[..n]);
    }
  }

  /** How a batch ends: answered and saved, with its counters, or thrown. */
  datatype BatchEnding = Saved(tally: Tally) | Unanswered(again: bool) | Unsaved | Cut

  datatype Tally = Tally(invalidIds: seq<TokenId>, success: nat, retryable: nat, permanent: nat)

  function Plus(a: Tally, b: Tally): Tally {
    Tally(a.invalidIds + b.invalidIds, a.success + b.success, a.retryable + b.retryable, a.permanent + b.permanent)
  }

  ghost predicate Tallies(r: Tally, tokens: seq<TokenId>, tickets: seq<Ticket>) {
    var verdicts := VerdictsOf(tickets);
    && |tickets| == |tokens|
    && r.success == Count(verdicts, Success) && r.retryable == Count(verdicts, Retryable)
    && r.permanent == Count(verdicts, Permanent) && r.invalidIds == InvalidIds(tokens, verdicts)
  }

  /** One more batch saved: its rows follow the rows of the earlier batches. */
  lemma RowsAddUp(before: Rows, rows: Rows,
                  pending: seq<TokenId>, saved: seq<Ticket>, batch: seq<TokenId>, more: seq<Ticket>)
    requires RowsMatch(before, rows, pending, saved) && Follows(pending, |saved|, batch) && |more| <= |batch|
    ensures RowsMatch(before, Upserted(rows, batch[..|more|], StatusesOf(VerdictsOf(more))), pending, saved + more)
  {
    var n, m := |saved|, |saved + more|;
    assert pending[n..n + |batch|][..|more|] == pending[n..m] && pending[..n] + pending[n..m] == pending[..m];
    var earlier, later := StatusesOf(VerdictsOf(saved)), StatusesOf(VerdictsOf(more));
    assert earlier + later == StatusesOf(VerdictsOf(saved + more));
    UpsertConcat(before, pending[..n], pending[n..m], earlier, later);
  }

  lemma TalliesAddUp(a: Tally, b: Tally, pending: seq<TokenId>, saved: seq<Ticket>, batch: seq<TokenId>, more: seq<Ticket>)
    requires Follows(pending, |saved|, batch)
    requires Tallies(a, pending[..|saved|], saved) && Tallies(b, batch, more)
    ensures Tallies(Plus(a, b), pending[..|saved + more|], saved + more)
  {
    var n, m := |saved|, |saved + more|;
    assert pending[..n] + pending[n..m] == pending[..m];
    var earlier, later := VerdictsOf(saved), VerdictsOf(more);
    assert earlier + later == VerdictsOf(saved + more);
    CountConcat(earlier, later, Success);
    CountConcat(earlier, later, Retryable);
    CountConcat(earlier, later, Permanent);
    InvalidIdsConcat(pending[..n], pending[n..m], earlier, later);
  }

  /** `batch` is what follows the first `n` pending tokens. */
  ghost predicate Follows(pending: seq<TokenId>, n: nat, batch: seq<TokenId>) {
    && n + |batch| <= |pending|
    && batch == pending[n..n + |batch|]
    && pending[..n] + batch == pending[..n + |batch|]
  }

  lemma NextBatch(batches: seq<seq<TokenId>>, pending: seq<TokenId>, b: nat, n: nat)
    requires b < |batches| && Flatten(batches) == pending && n <= |pending| && Flatten(batches[..b]) == pending[..n]
    ensures Follows(pending, n, batches[b]) && Flatten(batches[..b + 1]) == pending[..n + |batches[b]|]
  {
    FlattenPrefix(batches, b);
    assert Flatten(batches[..b + 1]) == pending[..n + |batches[b]|];
    assert batches[b] == (pending[..n] + batches[b])[n..];
  }

  function Without(tokens: seq<TokenId>, completed: set<TokenId>): seq<TokenId> {
    if tokens == [] then []
    else
      var rest, last := Without(tokens[..|tokens| - 1], completed), tokens[|tokens| - 1];
      if last in completed then rest else rest + [last]
  }

  lemma {:induction false} WithoutIsUnsent(tokens: seq<TokenId>, rows: Rows, completed: set<TokenId>)
    requires forall t | t in tokens :: t in completed <==> SentIn(rows, t)
    ensures Without(tokens, completed) == Unsent(tokens, rows)
  {
    if tokens != [] {
      assert tokens[|tokens| - 1] in tokens;
      WithoutIsUnsent(tokens[..|tokens| - 1], rows, completed);
    }
  }

  /** Saving earlier batches leaves a later batch unsent. */
  lemma StillUnsent(before: Rows, rows: Rows, pending: seq<TokenId>,
                    saved: seq<Ticket>, batch: seq<TokenId>)
    requires Distinct(pending) && RowsMatch(before, rows, pending, saved) && Follows(pending, |saved|, batch)
    requires forall t | t in pending :: !SentIn(before, t)
    ensures Distinct(batch) && forall t | t in batch :: !SentIn(rows, t) && t !in pending[..|saved|]
  {
    var n, m := |saved|, |saved| + |batch|;
    SlicesAreDisjoint(pending, n, m);
    SlicesAreDisjoint(pending, 0, n);
    assert pending[0..n] == pending[..n];
    UpsertWritesItsRows(before, pending[..n], StatusesOf(VerdictsOf(saved)));
    hide Upserted, Distinct, StatusesOf, VerdictsOf;
  }

  /** A call that was lost, or refused, ends what it is part of. */
  ghost predicate WentWrong(v: View, v': View, lost: bool, refused: bool) {
    v'.lost == (v.lost || lost) && v'.refused == v.refused + if refused then 1 else 0
  }

  /** What the rest of a turn does once a batch is answered. */
  ghost predicate TicketsSaved(v: View, v': View, batch: seq<TokenId>, tickets: seq<Ticket>, r: BatchEnding, saved: seq<Ticket>) {
    && |saved| <= |batch| && !r.Unanswered? && (saved == [] || saved == tickets)
    && PostedTimes(v.log, v'.log, [], 0) && v'.rows == Upserted(v.rows, batch[..|saved|], StatusesOf(VerdictsOf(saved)))
    && v.disabled <= v'.disabled <= v.disabled + InvalidSet(batch, saved)
    && v'.handed == v.handed && v'.answers == v.answers && v'.refusal == v.refusal && v'.status == v.status
    && WentWrong(v, v', r.Cut?, r.Unsaved?)
    && (r.Saved? ==>
          && saved == tickets && Tallies(r.tally, batch, saved)
          && v'.disabled == v.disabled + InvalidSet(batch, saved))
  }

  /** The rest of a turn: count, save, disable. */
  method SaveTickets(event: Notification, batch: seq<TokenId>, tickets: seq<Ticket>)
    returns (r: BatchEnding, ghost saved: seq<Ticket>)
    requires event.Valid() && Distinct(batch) && |tickets| == |batch| && forall t | t in batch :: !SentIn(event.rows, t)
    modifies event`rows, event`log, event`disabled, event`lost, event`refused
    ensures event.Valid() && TicketsSaved(old(event.Now()), event.Now(), batch, tickets, r, saved)
  {
    hide PostedTimes, InvalidIds, Upserted, Count, Distinct, InvalidSet, StatusesOf, SentIn, SentIsFinal, Judge;
    saved := [];
    var success, retryable, permanent, invalidIds, statuses := CountBatch(batch, VerdictsOf(tickets));
    var answer;
    ghost var effect;
    answer, effect := event.SaveBatch(batch, statuses);
    NothingUpserted(old(event.rows), batch);
    AllInvalid(batch, tickets);
    if effect { saved := tickets; }
    if answer == Lost { return Cut, saved; }
    if answer == Refused { return Unsaved, saved; }
    answer := DisableInvalid(event, invalidIds);
    if answer == Lost { return Cut, saved; }
    if answer == Refused { return Unsaved, saved; }
    r := Saved(Tally(invalidIds, success, retryable, permanent));
  }

  /** Tokens are disabled in one call, which is left out when there are none. */
  method DisableInvalid(event: Notification, invalidIds: seq<TokenId>) returns (answer: Answer)
    modifies event`disabled, event`lost, event`refused
    ensures Noted(old(event.Now()), event.Now(), answer)
    ensures event.disabled == old(event.disabled) || event.disabled == old(event.disabled) + (set t | t in invalidIds)
    ensures answer == Done ==> event.disabled == old(event.disabled) + (set t | t in invalidIds)
    ensures invalidIds == [] ==> answer == Done
  {
    answer := Done;
    if |invalidIds| > 0 { answer := event.DisableTokens(invalidIds); }
  }

  lemma NothingUpserted(rows: Rows, batch: seq<TokenId>)
    ensures Upserted(rows, batch[..0], StatusesOf(VerdictsOf([]))) == rows && batch[..|batch|] == batch
  {
  }

  lemma AllInvalid(batch: seq<TokenId>, tickets: seq<Ticket>)
    requires |tickets| == |batch|
    ensures InvalidSet(batch, tickets) == set t | t in InvalidIds(batch, VerdictsOf(tickets))
  {
    assert batch[..|tickets|] == batch;
  }

  /** What one turn of the batch loop does. */
  ghost predicate TurnDone(v: View, v': View, batch: seq<TokenId>, r: BatchEnding, saved: seq<Ticket>) {
    && (saved == [] || |saved| == |batch|)
    && v'.handed == v.handed + batch && PostsGrow(v.log, v'.log, batch)
    && (r == Unanswered(true) ==> PostedTimes(v.log, v'.log, batch, ExpoFetch.DEFAULT_ATTEMPTS))
    && v'.rows == Upserted(v.rows, batch[..|saved|], StatusesOf(VerdictsOf(saved))) && v'.status == v.status
    && v.answers + saved <= v'.answers && |v'.answers| <= |v.answers| + |batch|
    && v.disabled <= v'.disabled <= v.disabled + InvalidSet(batch, saved)
    && v'.refusal == (if r.Unanswered? then Some(r.again) else v.refusal)
    && WentWrong(v, v', r.Cut?, r.Unsaved?)
    && (r.Unanswered? ==> saved == [] && v'.answers == v.answers && v'.disabled == v.disabled)
    && (r.Saved? ==>
          && |saved| == |batch| && v'.answers == v.answers + saved && Tallies(r.tally, batch, saved)
          && v'.disabled == v.disabled + InvalidSet(batch, saved))
  }

  /** What the delivery call of a batch does. */
  ghost predicate BatchSent(v: View, v': View, batch: seq<TokenId>, reply: BatchReply) {
    && v' == v.(log := v'.log, handed := v.handed + batch, lost := v.lost || reply.NoReply?,
                answers := v.answers + (if reply.Tickets? then reply.tickets else []),
                refusal := if reply.ProviderError? then Some(reply.retryable) else v.refusal)
    && PostsGrow(v.log, v'.log, batch)
    && (reply == ProviderError(true) ==> PostedTimes(v.log, v'.log, batch, ExpoFetch.DEFAULT_ATTEMPTS))
    && (reply.Tickets? ==> |reply.tickets| == |batch|)
  }

  lemma SentAndUnanswered(v: View, v': View, batch: seq<TokenId>, reply: BatchReply)
    requires BatchSent(v, v', batch, reply) && !reply.Tickets?
    ensures TurnDone(v, v', batch, if reply.NoReply? then Cut else Unanswered(reply.retryable), [])
  {
    hide PostsGrow, PostedTimes;
    assert v.answers + [] == v.answers;
  }

  lemma SentAndSaved(v: View, v': View, v'': View, batch: seq<TokenId>, reply: BatchReply, r: BatchEnding, saved: seq<Ticket>)
    requires BatchSent(v, v', batch, reply) && reply.Tickets? && TicketsSaved(v', v'', batch, reply.tickets, r, saved)
    ensures TurnDone(v, v'', batch, r, saved)
  {
    PostsAddUp(v.log, v'.log, v''.log, batch, []);
    assert batch + [] == batch && v.answers + [] == v.answers;
    hide PostsGrow, PostedTimes, Upserted, Tallies, InvalidSet;
  }

  /** One turn of the batch loop. */
  method DeliverBatch(event: Notification, batch: seq<TokenId>) returns (r: BatchEnding, ghost saved: seq<Ticket>)
    requires event.Valid() && Distinct(batch) && forall t | t in batch :: !SentIn(event.rows, t)
    modifies event`rows, event`log, event`handed, event`answers, event`refusal, event`disabled, event`lost, event`refused
    ensures event.Valid() && TurnDone(old(event.Now()), event.Now(), batch, r, saved)
  {
    hide TurnDone, BatchSent, TicketsSaved, Distinct, PostsGrow, PostedTimes;
    saved := [];
    var reply := SendOnce(event, batch);
    ghost var sent := event.Now();
    if reply.Tickets? {
      r, saved := SaveTickets(event, batch, reply.tickets);
      SentAndSaved(old(event.Now()), sent, event.Now(), batch, reply, r, saved);
    } else {
      SentAndUnanswered(old(event.Now()), sent, batch, reply);
      r := if reply.NoReply? then Cut else Unanswered(reply.retryable);
    }
  }

  /** The delivery call, and what it comes to. */
  method SendOnce(event: Notification, batch: seq<TokenId>) returns (reply: BatchReply)
    requires event.Valid() && Distinct(batch) && forall t | t in batch :: !SentIn(event.rows, t)
    modifies event`log, event`handed, event`answers, event`refusal, event`lost
    ensures event.Valid() && BatchSent(old(event.Now()), event.Now(), batch, reply)
    ensures (reply.Tickets? ==> |reply.tickets| == |batch|) && forall t | t in batch :: !SentIn(event.rows, t)
  {
    ghost var attempts, posted;
    reply, attempts, posted := event.SendBatch(batch);
    NoMorePosts(event.log);
    OneCallGrows(old(event.log), event.log, event.log, batch, posted);
    RetryableWasRepeated(event.format, attempts, |batch|, reply);
    hide PostedTimes, PostsGrow, IsDelivery, WellFormed, Distinct;
  }

  function EndingOf(r: BatchEnding, pending: nat): Ending
    requires !r.Saved?
  {
    match r
    case Unanswered(again) => ProviderFailed(again, pending)
    case Unsaved => PersistenceFailed
    case Cut => Halted
  }

  /** The last token given to a delivery call was in three POSTs. */
  ghost predicate LastWasRepeated(before: seq<Entry>, after: seq<Entry>, handed: seq<TokenId>) {
    handed != [] && Posts(after, handed[|handed| - 1]) == Posts(before, handed[|handed| - 1]) + ExpoFetch.DEFAULT_ATTEMPTS
  }

  lemma RepeatedAtTheEnd(a: seq<Entry>, b: seq<Entry>, c: seq<Entry>, handed: seq<TokenId>, batch: seq<TokenId>)
    requires PostsGrow(a, b, handed) && batch != [] && forall t | t in batch :: t !in handed
    requires PostedTimes(b, c, batch, ExpoFetch.DEFAULT_ATTEMPTS)
    ensures LastWasRepeated(a, c, handed + batch)
  {
    var last := batch[|batch| - 1];
    assert last in batch && (handed + batch)[|handed + batch| - 1] == last;
  }

  /** A claim that has done nothing yet. */
  predicate IsFresh(v: View) {
    v.handed == [] && v.answers == [] && v.refusal == None && !v.lost && v.refused == 0
  }

  /** Wherever a claim is or ends: what it did since `start`, with `saved` the tickets whose rows were written. */
  ghost predicate SoFar(start: View, v: View, pending: seq<TokenId>, saved: seq<Ticket>) {
    && |saved| <= |v.handed| && v.handed <= pending
    && saved <= v.answers && |v.answers| <= |saved| + MAX_MESSAGES_PER_REQUEST
    && RowsMatch(start.rows, v.rows, pending, saved) && PostsGrow(start.log, v.log, v.handed)
    && start.disabled <= v.disabled <= start.disabled + InvalidSet(pending, saved)
  }

  /** The batches so far were answered and saved. */
  ghost predicate Underway(start: View, v: View, pending: seq<TokenId>, saved: seq<Ticket>, tally: Tally) {
    && SoFar(start, v, pending, saved) && v.handed == pending[..|saved|] && v.answers == saved
    && Tallies(tally, pending[..|saved|], saved) && v.disabled == start.disabled + InvalidSet(pending, saved)
    && v.refusal == None && !v.lost && v.refused == 0 && v.status == start.status
  }

  /** A batch was not. */
  ghost predicate BrokeOff(start: View, v: View, pending: seq<TokenId>, saved: seq<Ticket>, r: BatchEnding) {
    && SoFar(start, v, pending, saved) && !r.Saved? && v.status == start.status
    && v.lost == r.Cut? && v.refused == (if r.Unsaved? then 1 else 0)
    && v.refusal == (if r.Unanswered? then Some(r.again) else None)
    && (r.Unanswered? ==> saved == v.answers && v.disabled == start.disabled + InvalidSet(pending, saved) && |saved| < |pending|)
    && (r == Unanswered(true) ==> LastWasRepeated(start.log, v.log, v.handed))
  }

  lemma NothingSaved(rows: Rows, pending: seq<TokenId>)
    ensures RowsMatch(rows, rows, pending, []) && InvalidSet(pending, []) == {} && Tallies(Tally([], 0, 0, 0), [], [])
  {
    assert pending[..0] == [] && VerdictsOf([]) == [];
  }

  lemma NothingUnderway(start: View, pending: seq<TokenId>)
    requires IsFresh(start)
    ensures Underway(start, start, pending, [], Tally([], 0, 0, 0)) && SoFar(start, start, pending, [])
  {
    NoMorePosts(start.log);
    NothingSaved(start.rows, pending);
    hide RowsMatch, PostsGrow, Tallies, InvalidSet;
  }

  lemma InvalidSetsAddUp(pending: seq<TokenId>, saved: seq<Ticket>, batch: seq<TokenId>, more: seq<Ticket>)
    requires Follows(pending, |saved|, batch) && |more| <= |batch|
    ensures InvalidSet(pending, saved) + InvalidSet(batch, more) == InvalidSet(pending, saved + more)
  {
    var n, m := |saved|, |saved + more|;
    assert VerdictsOf(saved) + VerdictsOf(more) == VerdictsOf(saved + more);
    assert batch[..|more|] == pending[n..m] && pending[..n] + pending[n..m] == pending[..m];
    InvalidIdsConcat(pending[..n], pending[n..m], VerdictsOf(saved), VerdictsOf(more));
    hide InvalidIds, VerdictsOf, Count;
  }

  lemma TurnGoesFurther(start: View, v: View, v': View, pending: seq<TokenId>, saved: seq<Ticket>, tally: Tally,
                        batch: seq<TokenId>, r: BatchEnding, more: seq<Ticket>)
    requires Underway(start, v, pending, saved, tally) && Follows(pending, |saved|, batch) && TurnDone(v, v', batch, r, more)
    requires 0 < |batch| <= MAX_MESSAGES_PER_REQUEST && forall t | t in batch :: t !in pending[..|saved|]
    ensures SoFar(start, v', pending, saved + more)
  {
    PostsAddUp(start.log, v.log, v'.log, v.handed, batch);
    RowsAddUp(start.rows, v.rows, pending, saved, batch, more);
    InvalidSetsAddUp(pending, saved, batch, more);
    hide RowsMatch, PostsGrow, PostedTimes, Tallies, InvalidSet, Upserted;
  }

  lemma TurnKeepsUnderway(start: View, v: View, v': View, pending: seq<TokenId>, saved: seq<Ticket>, tally: Tally,
                          batch: seq<TokenId>, r: BatchEnding, more: seq<Ticket>)
    requires Underway(start, v, pending, saved, tally) && Follows(pending, |saved|, batch) && TurnDone(v, v', batch, r, more)
    requires 0 < |batch| <= MAX_MESSAGES_PER_REQUEST && forall t | t in batch :: t !in pending[..|saved|]
    requires r.Saved?
    ensures Underway(start, v', pending, saved + more, Plus(tally, r.tally))
  {
    TurnGoesFurther(start, v, v', pending, saved, tally, batch, r, more);
    InvalidSetsAddUp(pending, saved, batch, more);
    TalliesAddUp(tally, r.tally, pending, saved, batch, more);
    hide RowsMatch, PostsGrow, PostedTimes, Tallies, InvalidSet, Upserted, LastWasRepeated, SoFar;
  }

  lemma TurnBreaksOff(start: View, v: View, v': View, pending: seq<TokenId>, saved: seq<Ticket>, tally: Tally,
                      batch: seq<TokenId>, r: BatchEnding, more: seq<Ticket>)
    requires Underway(start, v, pending, saved, tally) && Follows(pending, |saved|, batch) && TurnDone(v, v', batch, r, more)
    requires 0 < |batch| <= MAX_MESSAGES_PER_REQUEST && forall t | t in batch :: t !in pending[..|saved|]
    requires !r.Saved?
    ensures BrokeOff(start, v', pending, saved + more, r)
  {
    TurnGoesFurther(start, v, v', pending, saved, tally, batch, r, more);
    InvalidSetsAddUp(pending, saved, batch, more);
    assert saved + [] == saved;
    if r == Unanswered(true) { RepeatedAtTheEnd(start.log, v.log, v'.log, v.handed, batch); }
    NothingSaved(start.rows, batch);
    hide RowsMatch, PostsGrow, PostedTimes, Tallies, InvalidSet, Upserted, LastWasRepeated, SoFar;
  }

  /** The batch loop; `saved` holds the tickets whose rows were written, in claim order. */
  method DeliverBatches(event: Notification, pendingTokens: seq<TokenId>) returns (total: BatchEnding, ghost saved: seq<Ticket>)
    requires event.Valid() && IsFresh(event.Now()) && Distinct(pendingTokens)
    requires forall t | t in pendingTokens :: !SentIn(event.rows, t)
    modifies event`rows, event`log, event`handed, event`answers, event`refusal, event`disabled, event`lost, event`refused
    ensures event.Valid()
    ensures
      if total.Saved? then
        Underway(old(event.Now()), event.Now(), pendingTokens, saved, total.tally) && |saved| == |pendingTokens|
      else BrokeOff(old(event.Now()), event.Now(), pendingTokens, saved, total)
  {
    saved := [];
    ghost var start := event.Now();
    var tally := Tally([], 0, 0, 0);
    var batches := Chunks(pendingTokens, MAX_MESSAGES_PER_REQUEST);
    NothingUnderway(start, pendingTokens);
    hide Underway, BrokeOff, TurnDone, Follows, Distinct, SentIn, Flatten;
    EmptyBatches(batches);
    for b := 0 to |batches|
      invariant event.Valid() && |saved| <= |pendingTokens| && Flatten(batches[..b]) == pendingTokens[..|saved|]
      invariant Underway(start, event.Now(), pendingTokens, saved, tally)
    {
      var tokenBatch := batches[b];
      ghost var before := event.Now();
      NextBatch(batches, pendingTokens, b, |saved|);
      NextIsUnsent(start, before, pendingTokens, saved, tally, tokenBatch);
      var r;
      ghost var more;
      r, more := DeliverBatch(event, tokenBatch);
      if !r.Saved? {
        TurnBreaksOff(start, before, event.Now(), pendingTokens, saved, tally, tokenBatch, r, more);
        return r, saved + more;
      }
      TurnKeepsUnderway(start, before, event.Now(), pendingTokens, saved, tally, tokenBatch, r, more);
      SavedLength(before, event.Now(), pendingTokens, |saved|, tokenBatch, r, more);
      tally, saved := Plus(tally, r.tally), saved + more;
    }
    assert batches[..|batches|] == batches;
    total := Saved(tally);
  }

  lemma EmptyBatches(batches: seq<seq<TokenId>>)
    ensures Flatten(batches[..0]) == []
  {
  }

  lemma NextIsUnsent(start: View, v: View, pending: seq<TokenId>, saved: seq<Ticket>, tally: Tally, batch: seq<TokenId>)
    requires Underway(start, v, pending, saved, tally) && Distinct(pending) && Follows(pending, |saved|, batch)
    requires forall t | t in pending :: !SentIn(start.rows, t)
    ensures Distinct(batch) && forall t | t in batch :: !SentIn(v.rows, t) && t !in pending[..|saved|]
  {
    StillUnsent(start.rows, v.rows, pending, saved, batch);
  }

  lemma SavedLength(v: View, v': View, pending: seq<TokenId>, n: nat, batch: seq<TokenId>, r: BatchEnding, more: seq<Ticket>)
    requires TurnDone(v, v', batch, r, more) && r.Saved? && Follows(pending, n, batch)
    ensures |more| == |batch| && n + |more| <= |pending|
  {
  }

  /** Either the status was left, or it is the one that all pending tokens' tickets lead to. */
  ghost predicate StatusHasCause(start: View, v: View, pending: seq<TokenId>, saved: seq<Ticket>) {
    || v.status == start.status
    || (if pending == [] then v.status == EventSent else |saved| == |pending| && v.status == StatusOfTickets(saved))
  }

  /** How the `try` block ends. */
  ghost predicate Tried(start: View, v: View, pending: seq<TokenId>, saved: seq<Ticket>, ending: Ending) {
    && SoFar(start, v, pending, saved) && StatusHasCause(start, v, pending, saved)
    && v.lost == ending.Halted? && v.refused == (if ending.PersistenceFailed? then 1 else 0)
    && v.refusal == (if ending.ProviderFailed? then Some(ending.retryable) else None)
    && (v.refusal == Some(true) ==> LastWasRepeated(start.log, v.log, v.handed))
    && match ending
       case Returned(result) =>
         && result.Delivered? && result.skipped == (pending == []) && saved == v.answers && |saved| == |pending|
         && result.delivered == |OkTickets(saved)| && result.delivered + result.failed == |pending|
         && v.disabled == start.disabled + InvalidSet(pending, saved)
         && v.status == if pending == [] then EventSent else StatusOfTickets(saved)
       case ProviderFailed(_, n) =>
         n == |pending| > |saved| && saved == v.answers && v.disabled == start.disabled + InvalidSet(pending, saved)
       case _ => true
  }

  /** The end of the `try` block: the status that follows from the tickets, and the result. */
  method Conclude(event: Notification, pendingTokens: seq<TokenId>, tally: Tally, ghost start: View, ghost saved: seq<Ticket>)
    returns (ending: Ending)
    requires event.Valid() && |pendingTokens| == |saved| > 0 && Underway(start, event.Now(), pendingTokens, saved, tally)
    modifies event`status, event`lost, event`refused
    ensures event.Valid() && Tried(start, event.Now(), pendingTokens, saved, ending)
  {
    assert pendingTokens[..|saved|] == pendingTokens;
    VerdictsAddUp(VerdictsOf(saved));
    SuccessesAreOkTickets(saved);
    hide SoFar, InvalidSet, InvalidIds, LastWasRepeated, OkTickets, Count;
    var next := NextStatus(tally.success, |tally.invalidIds|, tally.retryable, tally.permanent, |pendingTokens|);
    assert next == StatusOfTickets(saved);
    ghost var before := event.Now();
    var answer := event.SetStatus(next);
    OnlyStatusChanged(start, before, event.Now(), pendingTokens, saved);
    if answer != Done { return if answer == Lost then Halted else PersistenceFailed; }
    ending := Returned(Delivered(tally.success, |pendingTokens| - tally.success, false));
  }

  lemma OnlyStatusChanged(start: View, v: View, v': View, pending: seq<TokenId>, saved: seq<Ticket>)
    requires SoFar(start, v, pending, saved) && v' == v.(status := v'.status, lost := v'.lost, refused := v'.refused)
    ensures SoFar(start, v', pending, saved)
  {
  }

  lemma BrokenTry(start: View, v: View, pending: seq<TokenId>, saved: seq<Ticket>, r: BatchEnding)
    requires BrokeOff(start, v, pending, saved, r)
    ensures Tried(start, v, pending, saved, EndingOf(r, |pending|))
  {
    hide SoFar, InvalidSet, LastWasRepeated, StatusOfTickets, OkTickets;
  }

  /** The `try` block. */
  method TryDeliver(event: Notification, tokens: seq<TokenId>) returns (ending: Ending, ghost saved: seq<Ticket>)
    requires event.Valid() && IsFresh(event.Now()) && Distinct(tokens) && tokens != []
    modifies event
    ensures event.Valid() && Tried(old(event.Now()), event.Now(), Unsent(tokens, old(event.rows)), saved, ending)
  {
    hide SoFar, Underway, BrokeOff, StatusOfTickets, LastWasRepeated, Distinct, InvalidSet, Unsent, OkTickets, SentIn;
    saved := [];
    ghost var start, pending := event.Now(), Unsent(tokens, event.rows);
    NothingUnderway(start, pending);
    NothingDisabled(pending);
    var answer, completed := event.ReadCompleted(tokens);
    OnlyStatusChanged(start, start, event.Now(), pending, saved);
    if answer == Lost { return Halted, saved; }
    if answer == Refused { return PersistenceFailed, saved; }
    var pendingTokens := Without(tokens, completed);
    WithoutIsUnsent(tokens, event.rows, completed);
    UnsentIsAFilter(tokens, event.rows);
    if |pendingTokens| == 0 {
      answer := event.SetStatus(EventSent);
      OnlyStatusChanged(start, start, event.Now(), pending, saved);
      if answer == Lost { return Halted, saved; }
      if answer == Refused { return PersistenceFailed, saved; }
      return Returned(Delivered(0, 0, true)), saved;
    }
    var total;
    total, saved := DeliverBatches(event, pendingTokens);
    if !total.Saved? {
      BrokenTry(start, event.Now(), pending, saved, total);
      return EndingOf(total, |pendingTokens|), saved;
    }
    ending := Conclude(event, pendingTokens, total.tally, start, saved);
  }

  lemma NothingDisabled(pending: seq<TokenId>)
    ensures InvalidSet(pending, []) == {} && OkTickets([]) == {}
  {
    NothingSaved(map[], pending);
  }

  /**
   What a claim promises, whatever fails and wherever the run stops. Delivery calls are made in claim order for tokens
   without a sent row, one for each such token at most; a token of a call is in one to three POSTs and any other token
   in none; the rows of `saved` are written and no others, and at most one batch of tickets goes unsaved; only
   tokens their own ticket calls unregistered are disabled.
   */
  ghost predicate ClaimKeeps(start: View, v: View, pending: seq<TokenId>, saved: seq<Ticket>) {
    && |saved| <= |v.handed| && v.handed <= pending && PostsGrow(start.log, v.log, v.handed)
    && saved <= v.answers && |v.answers| <= |saved| + 100
    && RowsFollowTickets(start.rows, v.rows, pending, saved)
    && DisabledAtMost(start.disabled, v.disabled, pending, saved)
    && (v.refusal == Some(true) ==> LastWasRepeated(start.log, v.log, v.handed))
  }

  /** When a status is written, also by a run that stopped or failed since: never without its cause. */
  ghost predicate StatusKeeps(start: View, v: View, pending: seq<TokenId>, saved: seq<Ticket>) {
    v.status != start.status ==>
      match v.status
      case Processing => false
      case EventSent => pending == [] || (|saved| == |pending| && IsDue(EventSent, saved))
      case EventCancelled => v.refusal == Some(false) || (|saved| == |pending| > 0 && IsDue(EventCancelled, saved))
      case EventFailed => v.refusal == Some(true) || v.refused > 0 || (|saved| == |pending| > 0 && IsDue(EventFailed, saved))
  }

  lemma TriedKeeps(start: View, v: View, pending: seq<TokenId>, saved: seq<Ticket>, ending: Ending)
    requires Distinct(pending) && Tried(start, v, pending, saved, ending)
    ensures ClaimKeeps(start, v, pending, saved) && RowsMatch(start.rows, v.rows, pending, saved)
    ensures StatusKeeps(start, v, pending, saved)
    ensures ending.Returned? || ending.ProviderFailed? ==> DisabledByTickets(start.disabled, v.disabled, pending, saved)
    ensures ending.Returned? && pending != [] ==> IsDue(v.status, saved)
  {
    RowsMatchTickets(start.rows, v.rows, pending, saved);
    InvalidSetCarriesTheError(start.disabled, v.disabled, pending, saved);
    if saved != [] { StatusIsDecidedByTickets(saved); }
    hide RowsMatch, RowsFollowTickets, DisabledByTickets, DisabledAtMost, InvalidSet, StatusOfTickets, IsDue, LastWasRepeated, PostsGrow, OkTickets;
  }

  /**
   One claim, `catch` included. Apart from what every claim keeps: it is stopped exactly if a call was lost, and throws
   exactly if a call to the database was refused. Otherwise all tickets are saved, exactly the tokens they call
   unregistered are disabled, and either every pending token has its ticket and the status follows from them, or the
   provider failed, after three POSTs of the last batch if that is worth retrying, and the status says which.
   */
  method ProcessClaimedNotification(event: Notification, tokens: seq<TokenId>) returns (result: Result, ghost saved: seq<Ticket>)
    requires event.Valid() && Distinct(tokens)
    modifies event
    ensures event.Valid()
    ensures
      var start, v, pending := old(event.Now()), event.Now(), Unsent(tokens, old(event.rows));
      && ClaimKeeps(start, v, pending, saved) && StatusKeeps(start, v, pending, saved)
      && (result.Stopped? <==> v.lost)
      && (result.Thrown? <==> !v.lost && v.refused > 0)
      && (result.Thrown? && v.refused == 1 && v.refusal == None ==> v.status == EventFailed)
      && (result.Delivered? ==>
            && saved == v.answers && DisabledByTickets(start.disabled, v.disabled, pending, saved)
            && result.skipped == (pending == []) && result.delivered + result.failed == |pending|
            && if v.refusal == None then
                 && |saved| == |pending| && result.delivered == |OkTickets(saved)|
                 && v.status == (if tokens == [] then start.status else if pending == [] then EventSent else v.status)
                 && (pending != [] ==> IsDue(v.status, saved))
               else
                 && |saved| < |pending| && result.delivered == 0
                 && v.status == if v.refusal.value then EventFailed else EventCancelled)
  {
    saved := [];
    ghost var first := event.Now();
    event.handed, event.answers, event.refusal, event.lost, event.refused := [], [], None, false, 0;
    ghost var start, pending := event.Now(), Unsent(tokens, event.rows);
    UnsentIsAFilter(tokens, event.rows);
    if |tokens| == 0 {
      NothingClaimed(first, start);
      return Delivered(0, 0, true), saved;
    }
    hide ClaimKeeps, StatusKeeps, SoFar, DisabledByTickets, IsDue, OkTickets, Unsent, Distinct, RowsMatch, InvalidSet,
         StatusOfTickets, LastWasRepeated;
    var ending;
    ending, saved := TryDeliver(event, tokens);
    ghost var tried := event.Now();
    TriedKeeps(start, tried, pending, saved, ending);
    SameStart(first, start, tried, pending, saved);
    if ending.Returned? { return ending.result, saved; }
    if ending.Halted? { return Stopped, saved; }
    var failureStatus := if ending.ProviderFailed? && !ending.retryable then EventCancelled else EventFailed;
    var answer := event.SetStatus(failureStatus);
    FailureIsRecorded(first, tried, event.Now(), pending, saved, failureStatus);
    if answer == Lost { return Stopped, saved; }
    if answer == Refused || ending.PersistenceFailed? { return Thrown, saved; }
    result := Delivered(0, ending.pending, false);
  }

  lemma NothingClaimed(first: View, start: View)
    requires IsFresh(start) && start == first.(handed := [], answers := [], refusal := None, lost := false, refused := 0)
    ensures ClaimKeeps(first, start, [], []) && StatusKeeps(first, start, [], [])
    ensures DisabledByTickets(first.disabled, start.disabled, [], []) && OkTickets([]) == {}
  {
    NothingUnderway(start, []);
    NothingDisabled([]);
    RowsMatchTickets(first.rows, start.rows, [], []);
  }

  lemma SameStart(first: View, start: View, v: View, pending: seq<TokenId>, saved: seq<Ticket>)
    requires start == first.(handed := [], answers := [], refusal := None, lost := false, refused := 0)
    requires ClaimKeeps(start, v, pending, saved) && StatusKeeps(start, v, pending, saved)
    ensures ClaimKeeps(first, v, pending, saved) && StatusKeeps(first, v, pending, saved)
  {
    hide RowsFollowTickets, DisabledAtMost, IsDue, LastWasRepeated, PostsGrow;
  }

  lemma FailureIsRecorded(start: View, v: View, v': View, pending: seq<TokenId>, saved: seq<Ticket>, failure: EventStatus)
    requires ClaimKeeps(start, v, pending, saved) && StatusKeeps(start, v, pending, saved)
    requires v' == v.(status := v'.status, lost := v'.lost, refused := v'.refused) && v'.refused >= v.refused
    requires v'.status == v.status || v'.status == failure
    requires if failure == EventCancelled then v.refusal == Some(false)
             else failure == EventFailed && (v.refusal == Some(true) || v.refused > 0)
    ensures ClaimKeeps(start, v', pending, saved) && StatusKeeps(start, v', pending, saved)
  {
    hide RowsFollowTickets, DisabledAtMost, IsDue, LastWasRepeated, PostsGrow;
  }

  /** Tokens sent before are not handed over and are still sent after. */
  ghost predicate KeepsSent(before: Rows, handed: seq<TokenId>, after: Rows) {
    forall t | SentIn(before, t) :: t !in handed && SentIn(after, t)
  }

  lemma {:induction false} SentForGood(rows: seq<Rows>, handed: seq<seq<TokenId>>, a: nat, c: nat)
    requires |rows| == |handed| + 1 && a <= c < |handed|
    requires forall d | 0 <= d < |handed| :: KeepsSent(rows[d], handed[d], rows[d + 1])
    ensures KeepsSent(rows[a], handed[c], rows[c + 1])
  {
    assert KeepsSent(rows[c], handed[c], rows[c + 1]);
    if a < c { SentForGood(rows, handed, a, c - 1); }
  }

  lemma SentStaysSent(before: Rows, after: Rows, tokens: seq<TokenId>,
                      handed: seq<TokenId>, saved: seq<Ticket>)
    requires Distinct(tokens) && handed <= Unsent(tokens, before)
    requires RowsFollowTickets(before, after, Unsent(tokens, before), saved)
    ensures KeepsSent(before, handed, after)
  {
    var pending := Unsent(tokens, before);
    UnsentIsAFilter(tokens, before);
    assert forall t | t in handed :: t in pending;
    assert forall t | t in pending[..|saved|] :: t in pending;
  }

  /**
   Any number of claims of one event, one after the other, each ending well, failing or stopping anywhere:
   from the first sent row of a token on, no claim POSTs the token again and its row stays sent; before that, each
   claim POSTs it at most three times.
   */
  method ProcessClaims(event: Notification, claims: seq<seq<TokenId>>)
    returns (ghost rows: seq<Rows>, ghost handed: seq<seq<TokenId>>, ghost logs: seq<seq<Entry>>)
    requires event.Valid() && forall c | 0 <= c < |claims| :: Distinct(claims[c])
    modifies event
    ensures event.Valid() && |handed| == |claims| && |rows| == |logs| == |claims| + 1
    ensures logs[0] == old(event.log) && logs[|claims|] == event.log
    ensures forall c | 0 <= c < |claims| :: PostsGrow(logs[c], logs[c + 1], handed[c])
    ensures rows[0] == old(event.rows) && rows[|claims|] == event.rows
    ensures forall c | 0 <= c < |claims| :: handed[c] <= Unsent(claims[c], rows[c])
    ensures forall a, c | 0 <= a <= c < |claims| :: KeepsSent(rows[a], handed[c], rows[c + 1])
  {
    hide PostsGrow, Distinct, RowsFollowTickets, DisabledAtMost, StatusKeeps, LastWasRepeated, KeepsSent, Unsent;
    rows, handed, logs := [event.rows], [], [event.log];
    for c := 0 to |claims|
      invariant event.Valid() && |handed| == c && |rows| == |logs| == c + 1
      invariant logs[0] == old(event.log) && logs[c] == event.log
      invariant forall d | 0 <= d < c :: PostsGrow(logs[d], logs[d + 1], handed[d])
      invariant rows[0] == old(event.rows) && rows[c] == event.rows
      invariant forall d | 0 <= d < c :: handed[d] <= Unsent(claims[d], rows[d])
      invariant forall d | 0 <= d < c :: KeepsSent(rows[d], handed[d], rows[d + 1])
    {
      var result;
      ghost var saved;
      ghost var before := event.rows;
      result, saved := ProcessClaimedNotification(event, claims[c]);
      SentStaysSent(before, event.rows, claims[c], event.handed, saved);
      rows, handed, logs := rows + [event.rows], handed + [event.handed], logs + [event.log];
    }
    forall a, c | 0 <= a <= c < |claims| ensures KeepsSent(rows[a], handed[c], rows[c + 1]) {
      SentForGood(rows, handed, a, c);
    }
  }
}
