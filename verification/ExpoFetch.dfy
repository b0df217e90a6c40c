/** Posting one batch to Expo: at most three attempts, with the body of every answer read under a limit. */
module ExpoFetch {
  import opened Basics
  import opened BoundedRead
  import opened HttpAttempts

  const DEFAULT_ATTEMPTS := 3

  /** What a call gives back or throws: a payload, an HTTP error with its status, or the error of the reader. */
  datatype Result = Payload(json: Json) | HttpError(status: Option<nat>) | Rethrown

  // ---------- one response ----------

  datatype JsonResult = Parsed(json: Json) | Refused

  /** `readBoundedJsonResponse`: a missing body is the empty text. */
  function JsonOf(r: Response, maxBytes: nat, codec: Codec): JsonResult {
    if !r.isJson || r.declared.Malformed? || (r.declared.Length? && r.declared.n > maxBytes) then Refused
    else
      match Reading(if r.body.Some? then r.body.value else [], maxBytes)
      case Interrupted => Refused
      case TooLarge => Refused
      case Assembled(bytes) =>
        var text := if r.body.None? then Some([]) else codec.decode(bytes);
        var json := if text.Some? then codec.parse(text.value) else None;
        if json.Some? then Parsed(json.value) else Refused
  }

  method ReadBoundedJsonResponse(r: Response, maxBytes: nat, codec: Codec) returns (result: JsonResult)
    ensures result == JsonOf(r, maxBytes, codec)
  {
    if !r.isJson || r.declared.Malformed? || (r.declared.Length? && r.declared.n > maxBytes) { return Refused; }
    var text := Some([]);
    if r.body.Some? {
      var read := ReadChunks(r.body.value, maxBytes);
      if !read.Assembled? { return Refused; }
      text := codec.decode(read.bytes);
      if text.None? { return Refused; }
    }
    var json := codec.parse(text.value);
    result := if json.Some? then Parsed(json.value) else Refused;
  }

  // ---------- one attempt ----------

  predicate IsOk(status: nat) { 200 <= status <= 299 }

  predicate IsTransient(status: nat) { status == 408 || status == 429 || 500 <= status <= 599 }

  datatype Verdict = Final(result: Result) | Again

  function Judge(a: Attempt, maxBytes: nat, codec: Codec): Verdict {
    if a.answer.None? then Again
    else
      var r := a.answer.value;
      var json := JsonOf(r, maxBytes, codec);
      if json.Refused? then if IsTransient(r.status) then Again else Final(Rethrown)
      else if IsOk(r.status) then Final(Payload(json.json))
      else if IsTransient(r.status) then Again
      else Final(HttpError(Some(r.status)))
  }

  function Exhausted(a: Attempt): Result {
    HttpError(if a.answer.Some? then Some(a.answer.value.status) else None)
  }

  /**
   Tried again are exactly no answer, 408, 429 and 5xx, whatever their body; otherwise a success gives its payload, a
   refused body the reader's error, and any other status its own.
   */
  lemma AttemptMeaning(a: Attempt, maxBytes: nat, codec: Codec)
    ensures Judge(a, maxBytes, codec).Again? <==>
      a.answer.None? || a.answer.value.status == 408 || a.answer.value.status == 429 || 500 <= a.answer.value.status <= 599
    ensures !Judge(a, maxBytes, codec).Again? ==>
      var json, status := JsonOf(a.answer.value, maxBytes, codec), a.answer.value.status;
      Judge(a, maxBytes, codec).result
      == if json.Refused? then Rethrown else if 200 <= status <= 299 then Payload(json.json) else HttpError(Some(status))
    ensures Exhausted(a) == HttpError(if a.answer.Some? then Some(a.answer.value.status) else None)
  {
    hide JsonOf;
  }

  /** The JSON of a response: of its whole body, when the head allows it and the body fits; none counts as empty text. */
  lemma JsonMeaning(r: Response, maxBytes: nat, codec: Codec, json: Json)
    ensures JsonOf(r, maxBytes, codec) == Parsed(json) <==>
      && r.isJson && !r.declared.Malformed? && (r.declared.Length? ==> r.declared.n <= maxBytes)
      && if r.body.None? then codec.parse([]) == Some(json)
         else
           && Broken !in r.body.value && |Content(r.body.value)| <= maxBytes
           && codec.decode(Content(r.body.value)).Some?
           && codec.parse(codec.decode(Content(r.body.value)).value) == Some(json)
  {
    if r.body.Some? { ReadingMeaning(r.body.value, maxBytes); }
    assert Reading([], maxBytes) == Assembled([]);
  }

  // ---------- pauses ----------

  function ParseRetryAfter(header: RetryAfter, now: int): (r: Option<nat>)
    ensures r.Some? ==> r.value <= MAX_DELAY
  {
    if header.Missing? || header.empty then None
    else if header.number.Some? && header.number.value >= 0.0 then
      Some(Min((header.number.value * 1000.0 + 0.5).Floor, MAX_DELAY))
    else if header.date.None? then None
    else Some(Min(Max(header.date.value - now, 0), MAX_DELAY))
  }

  /** No number that counts and no date. */
  predicate HasNoDelay(header: RetryAfter) {
    header.Missing? || header.empty || ((header.number.Some? ==> header.number.value < 0.0) && header.date.None?)
  }

  /** Without a usable header the pause doubles from 300 ms, with less than 150 ms added, up to 2 seconds. */
  function RetryDelay(attempt: nat, header: RetryAfter, now: int, random: real): (ms: nat)
    requires 0.0 <= random < 1.0
    ensures ms <= MAX_DELAY
    ensures header.Header? && !header.empty && header.number.Some? && header.number.value >= 0.0 ==>
      ms == if header.number.value >= 10.0 then 10_000 else (header.number.value * 1000.0 + 0.5).Floor
    ensures header.Header? && !header.empty && (header.number.Some? ==> header.number.value < 0.0) && header.date.Some? ==>
      ms == if header.date.value <= now then 0 else if header.date.value - now < 10_000 then header.date.value - now else 10_000
    ensures HasNoDelay(header) ==> Min(300 * Pow2(attempt), 2_000) <= ms <= Min(300 * Pow2(attempt) + 149, 2_000)
  {
    var requested := ParseRetryAfter(header, now);
    if requested.Some? then requested.value
    else
      assert 0 <= (random * 150.0).Floor <= 149;
      Min(300 * Pow2(attempt) + (random * 150.0).Floor, 2_000)
  }

  function HeaderOf(a: Attempt): RetryAfter {
    if a.answer.Some? then a.answer.value.retryAfter else Missing
  }

  // ---------- the loop ----------

  /** The attempts a call may make, from the option given, if any. */
  function Attempts(option: Option<int>): (n: nat)
    ensures 1 <= n <= 3
  {
    Min(Max(if option.Some? then option.value else DEFAULT_ATTEMPTS, 1), 3)
  }

  ghost predicate IsCall(attempts: seq<Attempt>, pauses: seq<Pause>, option: Option<int>, maxBytes: nat, codec: Codec, r: Result) {
    && 1 <= |attempts| <= Attempts(option) && |pauses| == |attempts| - 1
    && (forall i | 0 <= i < |attempts| - 1 :: Judge(attempts[i], maxBytes, codec).Again?)
    && (forall i | 0 <= i < |pauses| ::
          0.0 <= pauses[i].random < 1.0
          && pauses[i].ms == RetryDelay(i, HeaderOf(attempts[i]), pauses[i].now, pauses[i].random))
    && var last := attempts[|attempts| - 1];
       match Judge(last, maxBytes, codec)
       case Final(result) => r == result
       case Again => |attempts| == Attempts(option) && r == Exhausted(last)
  }

  /** `random()`: at least 0, below 1. */
  method Look(net: Net) returns (now: int, random: real)
    ensures 0.0 <= random < 1.0
  {
    now, random := net.Look();
    if random < 0.0 || random >= 1.0 { random := 0.0; }
  }

  /** `fetchExpoJsonWithRetry`. */
  method FetchExpoJson(net: Net, option: Option<int>, maxBytes: nat, codec: Codec)
    returns (r: Result, ghost attempts: seq<Attempt>, ghost pauses: seq<Pause>)
    modifies net
    ensures net.attempts == old(net.attempts) + attempts && net.pauses == old(net.pauses) + pauses
    ensures IsCall(attempts, pauses, option, maxBytes, codec, r)
  {
    attempts, pauses := [], [];
    var limit := Attempts(option);
    var attempt := 0;
    while attempt < limit
      invariant 0 <= attempt < limit && |attempts| == attempt == |pauses|
      invariant net.attempts == old(net.attempts) + attempts && net.pauses == old(net.pauses) + pauses
      invariant forall i | 0 <= i < |attempts| :: Judge(attempts[i], maxBytes, codec).Again?
      invariant forall i | 0 <= i < |pauses| ::
        0.0 <= pauses[i].random < 1.0
        && pauses[i].ms == RetryDelay(i, HeaderOf(attempts[i]), pauses[i].now, pauses[i].random)
    {
      var a := net.Fetch();
      attempts := attempts + [a];
      if a.answer.None? {
        if attempt + 1 >= limit { break; }
      } else {
        var response := a.answer.value;
        var json := ReadBoundedJsonResponse(response, maxBytes, codec);
        if json.Refused? && !IsTransient(response.status) { return Rethrown, attempts, pauses; }
        if json.Parsed? && IsOk(response.status) { return Payload(json.json), attempts, pauses; }
        if !IsTransient(response.status) || attempt + 1 >= limit {
          return HttpError(Some(response.status)), attempts, pauses;
        }
      }
      var now, random := Look(net);
      var delay := RetryDelay(attempt, HeaderOf(a), now, random);
      net.Sleep(delay, now, random);
      pauses := pauses + [Pause(now, random, delay)];
      attempt := attempt + 1;
    }
    r := HttpError(None);
  }

  /**
   Every call makes at most three attempts, tries again only after 408, 429, 5xx or no answer, and sleeps at most
   20 seconds in all, whatever the header asks for; it gives
   back a payload only from a success status, and an error without a status only when the last attempt got no answer.
   */
  lemma CallsAreBounded(attempts: seq<Attempt>, pauses: seq<Pause>, option: Option<int>, maxBytes: nat, codec: Codec, r: Result)
    requires IsCall(attempts, pauses, option, maxBytes, codec, r)
    ensures forall i | 0 <= i < |attempts| - 1 ::
      attempts[i].answer.None? || IsTransient(attempts[i].answer.value.status)
    ensures |attempts| <= 3 && (option.Some? ==> |attempts| <= Max(option.value, 1))
    ensures Total(pauses) <= (|attempts| - 1) * MAX_DELAY <= 20_000
    ensures
      var last := attempts[|attempts| - 1].answer;
      && (r == HttpError(None) <==> last.None?)
      && (r.Payload? ==>
            && last.Some? && 200 <= last.value.status <= 299
            && (last.value.body.Some? ==>
                  && |Content(last.value.body.value)| <= maxBytes
                  && codec.decode(Content(last.value.body.value)).Some?
                  && codec.parse(codec.decode(Content(last.value.body.value)).value) == Some(r.json)))
  {
    forall p | p in pauses ensures p.ms <= MAX_DELAY {
      var i :| 0 <= i < |pauses| && pauses[i] == p;
    }
    TotalIsBounded(pauses, MAX_DELAY);
    var last := attempts[|attempts| - 1].answer;
    if last.Some? && last.value.body.Some? { ReadingMeaning(last.value.body.value, maxBytes); }
  }

  /** The dispatcher's reading of a failed call: worth retrying without a status or with a transient one. */
  predicate WorthRetrying(r: Result) {
    r.HttpError? && (r.status.Some? ==> IsTransient(r.status.value))
  }

  /** So a delivery is rescheduled exactly when the last attempt was itself one to be tried again. */
  lemma RetryableMeansExhausted(attempts: seq<Attempt>, pauses: seq<Pause>, option: Option<int>, maxBytes: nat,
                                codec: Codec, r: Result)
    requires IsCall(attempts, pauses, option, maxBytes, codec, r)
    ensures WorthRetrying(r) <==>
      && |attempts| == (match option case None => 3 case Some(n) => if n < 1 then 1 else if n < 3 then n else 3)
      && (attempts[|attempts| - 1].answer.None? || IsTransient(attempts[|attempts| - 1].answer.value.status))
  {
    var last := attempts[|attempts| - 1];
    match Judge(last, maxBytes, codec)
    case Final(result) => assert last.answer.Some? && !IsTransient(last.answer.value.status);
    case Again => assert last.answer.None? || IsTransient(last.answer.value.status);
  }
}
