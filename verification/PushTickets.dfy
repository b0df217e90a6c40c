/** Expo tickets: what `normalizeExpoTickets` lets through, and the four ways a ticket counts. */
module PushTickets {
  import opened Basics

  /** A JSON field: missing, a string, or something else. */
  datatype Field = Absent | Text(text: string) | Other

  datatype RawDetails = NoDetails | Details(error: Field) | NotAnObject

  datatype RawTicket =
    | NotATicket
    | RawTicket(status: Field, id: Field, message: Field, details: RawDetails)

  /** The `data` of the response: missing, one value, or an array of them. */
  datatype RawData = Missing | Single(ticket: RawTicket) | Many(tickets: seq<RawTicket>)

  datatype Ticket = Ticket(ok: bool, id: Option<string>, message: Option<string>, error: Option<string>)

  function OptionalBoundedString(f: Field, maxLength: nat): Option<string> {
    if f.Text? && |f.text| <= maxLength then Some(f.text) else None
  }

  /** White space as `trim` removes it. */
  predicate IsBlank(s: string) {
    forall i | 0 <= i < |s| ::
      || '\t' <= s[i] <= '\r' || s[i] == ' ' || s[i] == '\U{a0}' || s[i] == '\U{1680}'
      || '\U{2000}' <= s[i] <= '\U{200a}' || s[i] == '\U{2028}' || s[i] == '\U{2029}'
      || s[i] == '\U{202f}' || s[i] == '\U{205f}' || s[i] == '\U{3000}' || s[i] == '\U{feff}'
  }

  lemma BlankMeaning(s: string)
    ensures IsBlank(s) <==>
      forall c | c in s ::
        c as int in {9, 10, 11, 12, 13, 32, 160, 5760, 8192, 8193, 8194, 8195, 8196, 8197, 8198, 8199, 8200, 8201, 8202,
                     8232, 8233, 8239, 8287, 12288, 65279}
  {
    assert forall i | 0 <= i < |s| :: s[i] in s;
  }

  /** One ticket; `None` stands for the error the source throws. */
  function NormalizeTicket(raw: RawTicket): Option<Ticket> {
    if raw.NotATicket? || (raw.status != Text("ok") && raw.status != Text("error")) then None
    else
      var message := OptionalBoundedString(raw.message, 500);
      if raw.message != Absent && message.None? then None
      else if raw.details.NotAnObject? then None
      else
        var rawError := if raw.details.Details? then raw.details.error else Absent;
        var error := OptionalBoundedString(rawError, 120);
        if rawError != Absent && error.None? then None
        else
          var id := OptionalBoundedString(raw.id, 256);
          var ok := raw.status == Text("ok");
          if ok && (id.None? || IsBlank(id.value)) then None
          else if ok && error.Some? then None
          else Some(Ticket(ok, if id == Some("") then None else id, message, error))
  }

  function RawTickets(data: RawData): seq<RawTicket> {
    match data
    case Missing => []
    case Single(ticket) => [ticket]
    case Many(tickets) => tickets
  }

  function NormalizeAll(raw: seq<RawTicket>): Option<seq<Ticket>> {
    if raw == [] then Some([])
    else
      var first, rest := NormalizeTicket(raw[0]), NormalizeAll(raw[1..]);
      if first.None? || rest.None? then None else Some([first.value] + rest.value)
  }

  function NormalizeExpoTickets(data: RawData, expectedCount: nat): Option<seq<Ticket>> {
    if data.Missing? || |RawTickets(data)| != expectedCount then None else NormalizeAll(RawTickets(data))
  }

  /** A ticket says "sent" only with an id to look the receipt up by, and never with an error code. */
  predicate WellFormed(t: Ticket) {
    t.ok ==> t.id.Some? && !IsBlank(t.id.value) && t.error.None?
  }

  /** Tickets that come through are one per message, in message order, and well formed. */
  lemma {:induction false} NormalizedTicketsMatchMessages(data: RawData, expectedCount: nat)
    ensures
      var r := NormalizeExpoTickets(data, expectedCount);
      r.Some? ==>
        && |r.value| == expectedCount == |RawTickets(data)|
        && forall i | 0 <= i < expectedCount ::
             WellFormed(r.value[i]) && NormalizeTicket(RawTickets(data)[i]) == Some(r.value[i])
             && (r.value[i].ok <==> RawTickets(data)[i].status == Text("ok"))
    ensures NormalizeExpoTickets(data, expectedCount).None? <==>
      data.Missing? || |RawTickets(data)| != expectedCount
      || exists i :: 0 <= i < |RawTickets(data)| && NormalizeTicket(RawTickets(data)[i]).None?
  {
    AllNormalized(RawTickets(data));
  }

  lemma {:induction false} AllNormalized(raw: seq<RawTicket>)
    ensures NormalizeAll(raw).None? <==> exists i :: 0 <= i < |raw| && NormalizeTicket(raw[i]).None?
    ensures NormalizeAll(raw).Some? ==>
      |NormalizeAll(raw).value| == |raw|
      && forall i | 0 <= i < |raw| :: NormalizeTicket(raw[i]) == Some(NormalizeAll(raw).value[i])
  {
    if raw != [] {
      AllNormalized(raw[1..]);
      assert forall i | 0 < i < |raw| :: raw[i] == raw[1..][i - 1];
    }
  }

  /** A text of at most so many code units. */
  predicate IsBounded(f: Field, maxLength: nat) { f.Text? && |f.text| <= maxLength }

  /** What a ticket keeps of its raw form, and what in the raw form is refused. */
  lemma TicketsKeepTheirFields(raw: RawTicket)
    ensures NormalizeTicket(raw).None? <==>
      || raw.NotATicket?
      || (raw.status != Text("ok") && raw.status != Text("error"))
      || (raw.message != Absent && !IsBounded(raw.message, 500))
      || raw.details.NotAnObject?
      || (raw.details.Details? && raw.details.error != Absent && !IsBounded(raw.details.error, 120))
      || (raw.status == Text("ok") &&
            ((raw.details.Details? && raw.details.error != Absent) || !IsBounded(raw.id, 256) || IsBlank(raw.id.text)))
    ensures NormalizeTicket(raw).Some? ==>
      var t := NormalizeTicket(raw).value;
      && (t.ok <==> raw.status == Text("ok"))
      && t.error == (if raw.details.Details? && raw.details.error.Text? then Some(raw.details.error.text) else None)
      && t.message == (if raw.message.Text? then Some(raw.message.text) else None)
      && t.id == (if IsBounded(raw.id, 256) && raw.id.text != "" then Some(raw.id.text) else None)
  {
  }

  // ---------- how a ticket counts ----------

  datatype Verdict = Success | InvalidToken | Retryable | Permanent

  const RETRYABLE_ERRORS := {"ExpoServerError", "InternalServerError", "MessageRateExceeded", "ServiceUnavailable"}

  function ErrorCode(t: Ticket): Option<string> {
    if t.ok then None else if t.error.Some? then t.error else Some("EXPO_PUSH_ERROR")
  }

  function Judge(t: Ticket): Verdict {
    if t.ok then Success
    else if ErrorCode(t) == Some("DeviceNotRegistered") then InvalidToken
    else if ErrorCode(t).value in RETRYABLE_ERRORS then Retryable
    else Permanent
  }

  /** An error ticket whose details name this code. */
  predicate Carries(t: Ticket, code: string) {
    !t.ok && t.error == Some(code)
  }

  /** An error that a later delivery may not meet again. */
  predicate IsPassing(t: Ticket) {
    || Carries(t, "MessageRateExceeded") || Carries(t, "ExpoServerError")
    || Carries(t, "InternalServerError") || Carries(t, "ServiceUnavailable")
  }

  /** The four ways a ticket counts, by what it says. */
  lemma VerdictsFollowErrors(t: Ticket)
    ensures Judge(t) == Success <==> t.ok
    ensures Judge(t) == InvalidToken <==> Carries(t, "DeviceNotRegistered")
    ensures Judge(t) == Retryable <==> IsPassing(t)
  {
  }

  function VerdictsOf(tickets: seq<Ticket>): seq<Verdict> {
    seq(|tickets|, i requires 0 <= i < |tickets| => Judge(tickets[i]))
  }

  function Count(verdicts: seq<Verdict>, v: Verdict): (r: nat)
    ensures r <= |verdicts|
  {
    if verdicts == [] then 0
    else (if verdicts[|verdicts| - 1] == v then 1 else 0) + Count(verdicts[..|verdicts| - 1], v)
  }

  lemma {:induction false} VerdictsAddUp(verdicts: seq<Verdict>)
    ensures Count(verdicts, Success) + Count(verdicts, InvalidToken) + Count(verdicts, Retryable) + Count(verdicts, Permanent)
            == |verdicts|
  {
    if verdicts != [] { VerdictsAddUp(verdicts[..|verdicts| - 1]); }
  }

  lemma {:induction false} CountedMeansPresent(verdicts: seq<Verdict>, v: Verdict)
    ensures Count(verdicts, v) > 0 <==> v in verdicts
  {
    if verdicts != [] {
      var rest, last := verdicts[..|verdicts| - 1], verdicts[|verdicts| - 1];
      CountedMeansPresent(rest, v);
      assert verdicts == rest + [last];
    }
  }
}
