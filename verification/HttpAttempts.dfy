/** What the two retrying clients share: responses, the Retry-After header, and the record of attempts and pauses. */
module HttpAttempts {
  import opened Basics
  import opened BoundedRead
  import opened JsStrings
  import opened ByteStrings

  type Json = nat

  /** UTF-8 decoding and JSON parsing, either of which may refuse. */
  datatype Codec = Codec(decode: seq<Byte> -> Option<JsString>, parse: JsString -> Option<Json>)

  /**
   A Retry-After header (section 10.2.3 of RFC 9110) as the code looks at it: whether it is empty, its value
   as plain digits, as a finite number, and as a date in milliseconds.
   */
  datatype RetryAfter = Missing | Header(empty: bool, digits: Option<nat>, number: Option<real>, date: Option<int>)

  datatype Declared = Undeclared | Malformed | Length(n: nat)

  datatype Response = Response(status: nat, retryAfter: RetryAfter, isJson: bool, declared: Declared, body: Option<seq<Item>>)

  /** One attempt: an answer or none, and whether the timeout had struck. */
  datatype Attempt = Attempt(answer: Option<Response>, timedOut: bool)

  /** One pause with the clock and the random number it was computed from. */
  datatype Pause = Pause(now: int, random: real, ms: nat)

  const MAX_DELAY := 10_000

  function Pow2(n: nat): (r: nat)
    ensures r >= 1
  {
    if n == 0 then 1 else 2 * Pow2(n - 1)
  }

  function Total(pauses: seq<Pause>): nat {
    if pauses == [] then 0 else Total(pauses[..|pauses| - 1]) + pauses[|pauses| - 1].ms
  }

  lemma {:induction false} TotalIsBounded(pauses: seq<Pause>, most: nat)
    requires forall p | p in pauses :: p.ms <= most
    ensures Total(pauses) <= |pauses| * most
  {
    if pauses != [] {
      TotalIsBounded(pauses[..|pauses| - 1], most);
      assert pauses[|pauses| - 1] in pauses;
    }
  }

  class Net {
    ghost var attempts: seq<Attempt>
    ghost var pauses: seq<Pause>

    constructor ()
      ensures attempts == [] && pauses == []
    {
      attempts, pauses := [], [];
    }

    method Fetch() returns (a: Attempt)
      modifies this`attempts
      ensures attempts == old(attempts) + [a]
    {
      a := *;
      attempts := attempts + [a];
    }

    /** The clock and the random number a pause is computed from. */
    method Look() returns (now: int, random: real) {
      now, random := *, *;
    }

    method Sleep(ms: nat, ghost now: int, ghost random: real)
      modifies this`pauses
      ensures pauses == old(pauses) + [Pause(now, random, ms)]
    {
      pauses := pauses + [Pause(now, random, ms)];
    }
  }
}
