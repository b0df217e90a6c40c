/** The mobile client: one stored request id, at most three calls, and what that suffices for. */
module DeletionClient {
  import opened Basics
  import opened JsStrings
  import opened DeletionProtocol
  import opened DeletionSystem
  import opened DeletionPrograms
  import opened DeletionBound

  const MAX_CONTINUATION_CALLS := 3

  /** What `functions.invoke` resolves to. */
  datatype Answer = Error | Data(id: RequestId, deleted: bool, phase: Phase, resumable: bool)

  datatype Result = Success | Thrown | Unavailable

  predicate Confirms(id: RequestId, a: Answer) {
    a.Data? && a.id == id && a.deleted && a.phase == Completed
  }

  /** The answer 202 of this request. */
  predicate IsResumable(id: RequestId, a: Answer) {
    a == Data(id, false, StorageDeleting, true)
  }

  predicate AsksAgain(id: RequestId, a: Answer) {
    a.Data? && a.id == id && !a.deleted && a.phase == StorageDeleting && a.resumable
  }

  /** The JSON the handler sends for an outcome; anything but a 2xx is an error to the client. */
  function Body(id: RequestId, outcome: Outcome): Answer {
    match outcome
    case Deleted(_) => Data(id, true, Completed, false)
    case Continue => Data(id, false, StorageDeleting, true)
    case _ => Error
  }

  /** Some call within the limit confirms, and every one before it asked to be called again. */
  ghost predicate ConfirmedInTime(id: RequestId, answers: seq<Answer>) {
    exists k :: 0 <= k < MAX_CONTINUATION_CALLS && k < |answers| && Confirms(id, answers[k])
                && forall j | 0 <= j < k :: AsksAgain(id, answers[j])
  }

  class Client {
    var storedId: Option<RequestId>
    ghost var sent: seq<RequestId>   // the id of every call made

    constructor ()
      ensures storedId == None && sent == []
    {
      storedId, sent := None, [];
    }

    method GetOrCreateRequestId(newId: RequestId) returns (id: RequestId)
      modifies this`storedId
      ensures storedId == Some(id)
      ensures id == if old(storedId).Some? then old(storedId).value else newId
    {
      if storedId.Some? { return storedId.value; }
      storedId := Some(newId);
      return newId;
    }

    /** `answers[k]` is what the k-th call would resolve to. */
    method DeleteOwnAccount(newId: RequestId, answers: seq<Answer>) returns (result: Result)
      requires |answers| >= MAX_CONTINUATION_CALLS
      modifies this
      ensures var id := if old(storedId).Some? then old(storedId).value else newId;
        && (result == Success <==> ConfirmedInTime(id, answers))
        && storedId == (if result == Success then None else Some(id))
        && |old(sent)| < |sent| <= |old(sent)| + MAX_CONTINUATION_CALLS && old(sent) <= sent
        && (forall j | |old(sent)| <= j < |sent| :: sent[j] == id)
        // It calls again exactly as long as it is asked to, up to three times; the last answer decides.
        && var calls := |sent| - |old(sent)|;
           && (forall j | 0 <= j < calls - 1 :: IsResumable(id, answers[j]))
           && (calls == 3 || !IsResumable(id, answers[calls - 1]))
           && match answers[calls - 1]
              case Error => result == Thrown
              case Data(i, deleted, phase, _) => result == if i == id && deleted && phase == Completed then Success else Unavailable
    {
      var id := GetOrCreateRequestId(newId);
      var attempt := 0;
      while attempt < MAX_CONTINUATION_CALLS
        invariant 0 <= attempt <= MAX_CONTINUATION_CALLS
        invariant storedId == Some(id)
        invariant |sent| == |old(sent)| + attempt && old(sent) <= sent
        invariant forall j | |old(sent)| <= j < |sent| :: sent[j] == id
        invariant forall j | 0 <= j < attempt :: AsksAgain(id, answers[j])
      {
        var data := answers[attempt];
        sent := sent + [id];
        if data.Error? { return Thrown; }
        if Confirms(id, data) {
          storedId := None;
          return Success;
        }
        if !AsksAgain(id, data) { break; }
        attempt := attempt + 1;
      }
      return Unavailable;
    }
  }

  /**
   Undisturbed from the first call on, three calls delete the account if and only if fewer than 15000
   objects are stored.
   */
  lemma ThreeCallsSuffice(less: Collation, dbs: seq<Db>, runs: seq<Run>, logs: seq<seq<Event>>, outcomes: seq<Outcome>, answers: seq<Answer>)
    requires QuietCalls(less, dbs, runs, logs, outcomes) && |runs| == MAX_CONTINUATION_CALLS
    requires Suits(less, runs[0]) && OnTrack(less, dbs[0], runs[0], ReadingRequest)
    requires |answers| == |runs| && forall k | 0 <= k < |runs| :: answers[k] == Body(runs[0].id, outcomes[k])
    ensures ConfirmedInTime(runs[0].id, answers) <==> |Owned(dbs[0], runs[0].user)| < 15_000
  {
    var count := |Owned(dbs[0], runs[0].user)|;
    forall k | 0 <= k < |runs|
      ensures Confirms(runs[0].id, answers[k]) <==> k >= count / HANDLER_CAP
      ensures AsksAgain(runs[0].id, answers[k]) <==> k < count / HANDLER_CAP
    {
      NthCall(less, dbs, runs, logs, outcomes, k);
    }
    if count < 15_000 {
      assert Confirms(runs[0].id, answers[count / HANDLER_CAP]);
    }
  }
}
