/** Fetching one JSON document from the event source, with a bounded body and a bounded number of attempts. */
module UpstreamFetch {
  import opened Basics
  import opened BoundedRead
  import opened HttpAttempts

  const BASE_RETRY_DELAY := 250

  datatype Failure =
    | BadOptions | Redirect | Status(code: nat) | ContentType | ContentLength | BodyTooLarge | EmptyBody
    | BodyEncoding | InvalidJson | Timeout | Network

  datatype Result = Value(json: Json) | Failed(why: Failure)

  // ---------- one response ----------

  /** The outcome of reading a body: settled, or interrupted like the transport itself. */
  datatype BodyResult = Settled(result: Result) | Cut

  /** `readBoundedJson`. */
  function JsonOf(r: Response, maxBytes: nat, codec: Codec): BodyResult {
    if !r.isJson then Settled(Failed(ContentType))
    else if r.declared.Malformed? then Settled(Failed(ContentLength))
    else if r.declared.Length? && r.declared.n > maxBytes then Settled(Failed(BodyTooLarge))
    else if r.body.None? then Settled(Failed(EmptyBody))
    else
      match Reading(r.body.value, maxBytes)
      case Interrupted => Cut
      case TooLarge => Settled(Failed(BodyTooLarge))
      case Assembled(bytes) =>
        var text := codec.decode(bytes);
        if text.None? then Settled(Failed(BodyEncoding))
        else
          var json := codec.parse(text.value);
          Settled(if json.None? then Failed(InvalidJson) else Value(json.value))
  }

  method ReadBoundedJson(r: Response, maxBytes: nat, codec: Codec) returns (result: BodyResult)
    ensures result == JsonOf(r, maxBytes, codec)
  {
    if !r.isJson { return Settled(Failed(ContentType)); }
    if r.declared.Malformed? { return Settled(Failed(ContentLength)); }
    if r.declared.Length? && r.declared.n > maxBytes { return Settled(Failed(BodyTooLarge)); }
    if r.body.None? { return Settled(Failed(EmptyBody)); }
    var read := ReadChunks(r.body.value, maxBytes);
    match read {
      case Interrupted => return Cut;
      case TooLarge => return Settled(Failed(BodyTooLarge));
      case Assembled(bytes) =>
        var text := codec.decode(bytes);
        if text.None? { return Settled(Failed(BodyEncoding)); }
        var json := codec.parse(text.value);
        result := Settled(if json.None? then Failed(InvalidJson) else Value(json.value));
    }
  }

  /** A value comes from exactly the chunks in order, all of them, and no more bytes than allowed. */
  lemma ValueIsTheWholeBody(r: Response, maxBytes: nat, codec: Codec, json: Json)
    ensures JsonOf(r, maxBytes, codec) == Settled(Value(json)) <==>
      && r.isJson && !r.declared.Malformed? && (r.declared.Length? ==> r.declared.n <= maxBytes)
      && r.body.Some? && Broken !in r.body.value && |Content(r.body.value)| <= maxBytes
      && codec.decode(Content(r.body.value)).Some?
      && codec.parse(codec.decode(Content(r.body.value)).value) == Some(json)
  {
    if r.body.Some? { ReadingMeaning(r.body.value, maxBytes); }
  }

  /** The head of the response lets its body be read. */
  predicate Readable(r: Response, maxBytes: nat) {
    r.isJson && !r.declared.Malformed? && (r.declared.Length? ==> r.declared.n <= maxBytes)
  }

  ghost predicate FitsWhole(r: Response, maxBytes: nat) {
    r.body.Some? && Broken !in r.body.value && |Content(r.body.value)| <= maxBytes
  }

  /** When each refusal is given; a broken body is none, and is an interruption only if it broke within the limit. */
  lemma EachRefusalHasItsCause(r: Response, maxBytes: nat, codec: Codec)
    ensures
      var given := JsonOf(r, maxBytes, codec);
      && (given == Settled(Failed(ContentType)) <==> !r.isJson)
      && (given == Settled(Failed(ContentLength)) <==> r.isJson && r.declared.Malformed?)
      && (given == Settled(Failed(BodyTooLarge)) <==>
            || (r.isJson && r.declared.Length? && r.declared.n > maxBytes)
            || (Readable(r, maxBytes) && r.body.Some? && Overflows(r.body.value, maxBytes)))
      && (given == Settled(Failed(EmptyBody)) <==> Readable(r, maxBytes) && r.body.None?)
      && (given == Cut <==> Readable(r, maxBytes) && r.body.Some? && BreaksOff(r.body.value, maxBytes))
      && (given == Settled(Failed(BodyEncoding)) <==>
            Readable(r, maxBytes) && FitsWhole(r, maxBytes) && codec.decode(Content(r.body.value)).None?)
      && (given == Settled(Failed(InvalidJson)) <==>
            && Readable(r, maxBytes) && FitsWhole(r, maxBytes) && codec.decode(Content(r.body.value)).Some?
            && codec.parse(codec.decode(Content(r.body.value)).value).None?)
      && (given.Settled? && given.result.Failed? ==>
            given.result.why in {ContentType, ContentLength, BodyTooLarge, EmptyBody, BodyEncoding, InvalidJson})
  {
    if r.body.Some? {
      ReadingMeaning(r.body.value, maxBytes);
      RefusalsHaveTheirCause(r.body.value, maxBytes);
    }
    hide Reading, Overflows, BreaksOff, Content;
  }

  // ---------- one attempt ----------

  predicate IsRedirect(status: nat) { 300 <= status < 400 }

  predicate IsRetryable(status: nat) { status == 429 || 500 <= status <= 599 }

  predicate IsOk(status: nat) { 200 <= status <= 299 }

  datatype Verdict = Final(result: Result) | Again

  function Judge(a: Attempt, maxBytes: nat, codec: Codec): Verdict {
    if a.answer.None? then Again
    else
      var r := a.answer.value;
      if IsRedirect(r.status) then Final(Failed(Redirect))
      else if IsRetryable(r.status) then Again
      else if !IsOk(r.status) then Final(Failed(Status(r.status)))
      else
        var json := JsonOf(r, maxBytes, codec);
        if json.Cut? then Again else Final(json.result)
  }

  /** What the last attempt throws when it would be tried again. */
  function Exhausted(a: Attempt): Result {
    if a.answer.Some? && IsRetryable(a.answer.value.status) then Failed(Status(a.answer.value.status))
    else Failed(if a.timedOut then Timeout else Network)
  }

  /**
   Tried again are exactly 429, 5xx and faults of the transport, before an answer or while the body of a readable
   success is read; a redirect and every other status end the call.
   */
  lemma OnlyTransientsAreRetried(a: Attempt, maxBytes: nat, codec: Codec)
    ensures Judge(a, maxBytes, codec).Again? <==>
      || a.answer.None?
      || a.answer.value.status == 429 || 500 <= a.answer.value.status <= 599
      || (200 <= a.answer.value.status <= 299 && Readable(a.answer.value, maxBytes) && a.answer.value.body.Some?
          && BreaksOff(a.answer.value.body.value, maxBytes))
    ensures a.answer.Some? && 300 <= a.answer.value.status <= 399 ==> Judge(a, maxBytes, codec) == Final(Failed(Redirect))
    ensures a.answer.Some? && (a.answer.value.status < 200 || (400 <= a.answer.value.status <= 499 && a.answer.value.status != 429)
                               || a.answer.value.status > 599) ==>
      Judge(a, maxBytes, codec) == Final(Failed(Status(a.answer.value.status)))
    ensures a.answer.Some? && 200 <= a.answer.value.status <= 299 && !Judge(a, maxBytes, codec).Again? ==>
      JsonOf(a.answer.value, maxBytes, codec) == Settled(Judge(a, maxBytes, codec).result)
  {
    if a.answer.Some? { EachRefusalHasItsCause(a.answer.value, maxBytes, codec); }
    hide JsonOf, Readable, BreaksOff;
  }

  /** The error of a last attempt: its status, or whether the time was up. */
  lemma LastErrorMeaning(a: Attempt)
    ensures Exhausted(a) ==
      Failed(if a.answer.Some? && (a.answer.value.status == 429 || 500 <= a.answer.value.status <= 599)
             then Status(a.answer.value.status)
             else if a.timedOut then Timeout else Network)
  {
  }

  // ---------- pauses ----------

  function ParseRetryAfter(header: RetryAfter, now: int): Option<nat> {
    if header.Missing? then None
    else if header.digits.Some? then
      if header.digits.value <= 0x1F_FFFF_FFFF_FFFF then Some(header.digits.value * 1000) else None
    else if header.date.None? then None
    else Some(Max(0, header.date.value - now))
  }

  function RetryDelay(retryIndex: nat, header: RetryAfter, now: int, random: real): (ms: nat)
    ensures ms <= MAX_DELAY
    ensures header.Missing? ==> ms <= 250 * Pow2(retryIndex)
    ensures header.Header? && header.digits.None? && header.date.None? ==> ms <= 250 * Pow2(retryIndex)
    ensures header.Header? && header.digits.Some? && header.digits.value > 0x1F_FFFF_FFFF_FFFF ==> ms <= 250 * Pow2(retryIndex)
    ensures header.Header? && header.digits.Some? && header.digits.value <= 0x1F_FFFF_FFFF_FFFF ==>
      ms == if header.digits.value < 10 then header.digits.value * 1000 else 10_000
    ensures header.Header? && header.digits.None? && header.date.Some? ==>
      ms == if header.date.value <= now then 0 else if header.date.value - now < 10_000 then header.date.value - now else 10_000
    ensures header.Missing? && random >= 1.0 ==> ms == Min(250 * Pow2(retryIndex), 10_000)
    ensures header.Missing? && 0.0 <= random <= 1.0 ==>
      ms as real <= Min(250 * Pow2(retryIndex), 10_000) as real * random < (ms + 1) as real
  {
    var requested := ParseRetryAfter(header, now);
    if requested.Some? then Min(requested.value, MAX_DELAY)
    else
      var bounded := if random < 0.0 then 0.0 else if random > 1.0 then 1.0 else random;
      var ceiling := Min(BASE_RETRY_DELAY * Pow2(retryIndex), MAX_DELAY);
      ScaledDown(ceiling, bounded);
      (ceiling as real * bounded).Floor
  }

  lemma ScaledDown(ceiling: nat, x: real)
    requires 0.0 <= x <= 1.0
    ensures 0 <= (ceiling as real * x).Floor <= ceiling
    ensures x == 1.0 ==> (ceiling as real * x).Floor == ceiling
  {
    assert 0.0 <= ceiling as real * x <= ceiling as real;
  }

  function HeaderOf(a: Attempt): RetryAfter {
    if a.answer.Some? && !IsRedirect(a.answer.value.status) && IsRetryable(a.answer.value.status)
    then a.answer.value.retryAfter else Missing
  }

  // ---------- the loop ----------

  /** One call: the attempts it made, its pauses, and its result. */
  ghost predicate IsCall(attempts: seq<Attempt>, pauses: seq<Pause>, maxAttempts: int, maxBytes: nat, codec: Codec, r: Result) {
    if maxAttempts < 1 then attempts == [] && pauses == [] && r == Failed(BadOptions)
    else
      && 1 <= |attempts| <= maxAttempts && |pauses| == |attempts| - 1
      && (forall i | 0 <= i < |attempts| - 1 :: Judge(attempts[i], maxBytes, codec).Again?)
      && (forall i | 0 <= i < |pauses| ::
            pauses[i].ms == RetryDelay(i, HeaderOf(attempts[i]), pauses[i].now, pauses[i].random))
      && var last := attempts[|attempts| - 1];
         match Judge(last, maxBytes, codec)
         case Final(result) => r == result
         case Again => |attempts| == maxAttempts && r == Exhausted(last)
  }

  /** `fetchBoundedJson`, from the options check on; the throw after its loop is never reached. */
  method FetchBoundedJson(net: Net, maxAttempts: int, maxBytes: nat, codec: Codec)
    returns (r: Result, ghost attempts: seq<Attempt>, ghost pauses: seq<Pause>)
    modifies net
    ensures net.attempts == old(net.attempts) + attempts && net.pauses == old(net.pauses) + pauses
    ensures IsCall(attempts, pauses, maxAttempts, maxBytes, codec, r)
  {
    attempts, pauses := [], [];
    if maxAttempts < 1 { return Failed(BadOptions), attempts, pauses; }
    var attempt := 1;
    while true
      invariant 1 <= attempt <= maxAttempts && |attempts| == attempt - 1 == |pauses|
      invariant net.attempts == old(net.attempts) + attempts && net.pauses == old(net.pauses) + pauses
      invariant forall i | 0 <= i < |attempts| :: Judge(attempts[i], maxBytes, codec).Again?
      invariant forall i | 0 <= i < |pauses| ::
        pauses[i].ms == RetryDelay(i, HeaderOf(attempts[i]), pauses[i].now, pauses[i].random)
      decreases maxAttempts - attempt
    {
      var a := net.Fetch();
      attempts := attempts + [a];
      var retryAfter := Missing;
      if a.answer.Some? {
        var response := a.answer.value;
        if IsRedirect(response.status) { return Failed(Redirect), attempts, pauses; }
        if IsRetryable(response.status) {
          retryAfter := response.retryAfter;
          if attempt == maxAttempts { return Failed(Status(response.status)), attempts, pauses; }
        } else if !IsOk(response.status) {
          return Failed(Status(response.status)), attempts, pauses;
        } else {
          var json := ReadBoundedJson(response, maxBytes, codec);
          if json.Settled? { return json.result, attempts, pauses; }
          if attempt == maxAttempts { return Failed(if a.timedOut then Timeout else Network), attempts, pauses; }
        }
      } else {
        if attempt == maxAttempts { return Failed(if a.timedOut then Timeout else Network), attempts, pauses; }
      }
      var now, random := net.Look();
      var delay := RetryDelay(attempt - 1, retryAfter, now, random);
      net.Sleep(delay, now, random);
      pauses := pauses + [Pause(now, random, delay)];
      attempt := attempt + 1;
    }
  }

  /** Every call is bounded: attempts, and time asleep; a value is the content of the last answer. */
  lemma CallsAreBounded(attempts: seq<Attempt>, pauses: seq<Pause>, maxAttempts: int, maxBytes: nat, codec: Codec, r: Result)
    requires IsCall(attempts, pauses, maxAttempts, maxBytes, codec, r) && maxAttempts >= 1
    ensures |attempts| <= maxAttempts && Total(pauses) <= (maxAttempts - 1) * MAX_DELAY
    ensures r.Value? ==>
      var last := attempts[|attempts| - 1].answer;
      && last.Some? && 200 <= last.value.status <= 299 && last.value.body.Some?
      && |Content(last.value.body.value)| <= maxBytes
      && codec.decode(Content(last.value.body.value)).Some?
      && codec.parse(codec.decode(Content(last.value.body.value)).value) == Some(r.json)
  {
    forall p | p in pauses ensures p.ms <= MAX_DELAY {
      var i :| 0 <= i < |pauses| && pauses[i] == p;
    }
    TotalIsBounded(pauses, MAX_DELAY);
    assert |pauses| * MAX_DELAY <= (maxAttempts - 1) * MAX_DELAY;
    var last := attempts[|attempts| - 1].answer;
    if r.Value? && last.Some? { ValueIsTheWholeBody(last.value, maxBytes, codec, r.json); }
  }

  /** The first answer that is not tried again decides: two calls that saw the same first answers agree. */
  lemma FirstFinalAnswerDecides(attempts: seq<Attempt>, pauses: seq<Pause>, other: seq<Attempt>, pauses': seq<Pause>,
                                maxAttempts: int, maxBytes: nat, codec: Codec, r: Result, r': Result)
    requires IsCall(attempts, pauses, maxAttempts, maxBytes, codec, r)
    requires IsCall(other, pauses', maxAttempts, maxBytes, codec, r')
    requires attempts <= other || other <= attempts
    ensures attempts == other && r == r'
  {
    if maxAttempts >= 1 {
      var n := Min(|attempts|, |other|) - 1;
      assert attempts[n] == other[n];
    }
  }
}
