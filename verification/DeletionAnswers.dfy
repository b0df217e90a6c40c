/**
 What each answer of the two programs says about the calls before it. Every error code has a cause of its own in
 the last calls and their replies, every confirmation a completed row, every `resumable` a full share of removals.
 */
module DeletionAnswers {
  import opened Basics
  import opened JsStrings
  import opened DeletionProtocol
  import opened DeletionPrograms

  // ---------- the causes ----------

  /** The row a reply brings, from a read or a write. */
  function RowOf(reply: Reply): Option<Request> {
    match reply
    case Found(request) => request
    case Written(row) => Some(row)
    case _ => None
  }

  predicate BroughtRow(log: seq<Event>) {
    log != [] && RowOf(log[|log| - 1].reply).Some?
  }

  function BroughtBy(log: seq<Event>): Request
    requires BroughtRow(log)
  {
    RowOf(log[|log| - 1].reply).value
  }

  /** The k-th call from the end. */
  function Back(log: seq<Event>, k: nat): Event
    requires k < |log|
  {
    log[|log| - 1 - k]
  }

  predicate Awaits(log: seq<Event>, call: Call) {
    log != [] && Back(log, 0).call == call
  }

  /** The k-th call from the end wrote this phase, and no row came back. */
  predicate WriteThrew(log: seq<Event>, k: nat, next: Phase) {
    && k < |log| && Back(log, k).call.AdvanceRequest? && Back(log, k).call.next == next
    && Back(log, k).call.error == None && !Back(log, k).reply.Written?
  }

  /** Read after a lost write: no row of the user that was written for, at or past the phase asked for. */
  predicate NotRecovered(log: seq<Event>, next: Phase) {
    && WriteThrew(log, 1, next) && Back(log, 0).call == GetRequest(Back(log, 1).call.id)
    && (BroughtRow(log) && Back(log, 0).reply.Found? && BroughtBy(log).user == Back(log, 1).call.user ==>
          Rank(BroughtBy(log).phase) < Rank(next))
  }

  /** A write was answered with a row that is not as far as asked for. */
  predicate WroteTooLittle(log: seq<Event>) {
    && log != [] && Back(log, 0).call.AdvanceRequest? && Back(log, 0).call.error == None && Back(log, 0).reply.Written?
    && Rank(Back(log, 0).reply.row.phase) < Rank(Back(log, 0).call.next)
  }

  /** A failure that the handler records in the row, by the call that failed. */
  predicate Failed(run: Run, log: seq<Event>, code: string) {
    && log != []
    && var e := Back(log, 0);
       || (code == "AUTH_DELETE_STATUS_UNKNOWN" && StillUnsure(run, log) && !e.reply.Auth?)
       || (code == "AUTH_DELETE_FAILED" && StillUnsure(run, log) && e.reply.Auth? && e.reply.auth.exists_)
       || (code == "STORAGE_LIST_FAILED" && e.call.ListStoragePaths? && !e.reply.Listed?)
       || (code == "STORAGE_LIST_INVALID" && e.call.ListStoragePaths? && e.reply.Listed?
           && !HandlerAccepts(run.user, e.call.after, e.reply.paths))
       || (code == "STORAGE_DELETE_FAILED" && e.call.RemoveStoragePaths? && !e.reply.Done?)
  }

  /** The Auth user was looked up right after the call that deletes it. */
  predicate StillUnsure(run: Run, log: seq<Event>) {
    |log| > 1 && Back(log, 1).call == DeleteAuthUser(run.user) && Back(log, 0).call == GetAuthState(run.user)
  }

  /** A user was read among the last two calls whose sign-in, or whose token, is not recent by the last clock. */
  predicate SignInIsOld(run: Run, log: seq<Event>)
    requires run.Handler?
  {
    exists k :: 0 <= k < 2 && k < |log| && Back(log, k).call == GetAuthState(run.user)
      && Back(log, k).reply.Auth? && Back(log, k).reply.auth.exists_
      && var signIn := Back(log, k).reply.auth.lastSignInMs;
         signIn.None? || !IsRecent(signIn.value, Back(log, 0).nowMs) || !IsRecent(run.issuedAtMs, Back(log, 0).nowMs)
  }

  /** An error response of the handler. */
  predicate ErrorHasCause(run: Run, log: seq<Event>, status: nat, code: string)
    requires run.Handler?
  {
    && log != []
    && var e := Back(log, 0);
       || (status == 502 && code == "DELETION_STATE_READ_FAILED" && |log| == 1 && !e.reply.Found?)
       || (status == 403 && code == "REQUEST_OWNER_MISMATCH" && BroughtRow(log) && BroughtBy(log).user != run.user
           && (|log| == 1 || e.call == BeginRequest(run.user, run.id)))
       || (status == 502 && code == "AUTH_STATE_READ_FAILED" && |log| == 2 && e.call == GetAuthState(run.user) && !e.reply.Auth?)
       || (status == 401 && code == "AUTH_USER_NOT_FOUND" && |log| == 2 && log[0].reply == Found(None)
           && e.reply.Auth? && !e.reply.auth.exists_)
       || (status == 403 && code == "RECENT_LOGIN_REQUIRED" && SignInIsOld(run, log))
       || (status == 502 && code == "DELETION_STATE_CREATE_FAILED" && e.call == BeginRequest(run.user, run.id) && !e.reply.Written?)
       || (status == 502 && code == "AUTH_DELETED_STATE_WRITE_FAILED" && NotRecovered(log, AuthDeleted))
       || (status == 502 && code == "STORAGE_DELETING_STATE_WRITE_FAILED" && NotRecovered(log, StorageDeleting))
       || (status == 502 && code == "COMPLETED_STATE_WRITE_FAILED" && NotRecovered(log, Completed))
       || (status == 502 && code == "DELETION_STATE_INVALID" && WroteTooLittle(log))
       || (status == 502 && WasRecorded(run, log, code))
  }

  /** A failure on the way, recorded by one last write, whatever that write answers. */
  predicate WasRecorded(run: Run, log: seq<Event>, code: string) {
    && log != [] && Failed(run, log[..|log| - 1], code)
    && var call := Back(log, 0).call; call.AdvanceRequest? && call.next == call.expected && call.error == Some(code)
  }

  /** An error of a claim. */
  predicate ClaimHasCause(run: Run, log: seq<Event>, code: string) {
    && log != []
    && var e := Back(log, 0);
       || (code == "CONTINUATION_STATE_READ_FAILED" && e.call.GetRequest? && !e.reply.Found?)
       || (code == "CONTINUATION_STATE_INVALID" && RowIsNoUse(run, log))
       || (code == "CONTINUATION_STATE_WRITE_FAILED" && SameUser(log) && NotRecovered(log, Back(log, 1).call.next))
       || (code == "CONTINUATION_STORAGE_LIST_FAILED" && e.call.ListStoragePaths? && !e.reply.Listed?)
       || (code == "CONTINUATION_STORAGE_LIST_INVALID" && e.call.ListStoragePaths? && e.reply.Listed?
           && !WorkerAccepts(run.user, e.reply.paths))
       || (code == "CONTINUATION_STORAGE_DELETE_FAILED" && e.call.RemoveStoragePaths? && !e.reply.Done?)
       || (code == "CONTINUATION_COMPLETE_FAILED" && WroteTooLittle(log) && e.call.next == Completed)
  }

  /** No row, another user's, one in a phase before the claims', or one that a write did not bring far enough. */
  predicate RowIsNoUse(run: Run, log: seq<Event>) {
    && log != []
    && var e := Back(log, 0);
       || (e.call.GetRequest? && e.reply == Found(None))
       || (|log| == 1 && BroughtRow(log) && (BroughtBy(log).user != run.user || BroughtBy(log).phase == Requested))
       || (|log| > 1 && e.call.GetRequest? && BroughtRow(log) && Back(log, 1).call.AdvanceRequest? && !SameUser(log))
       || (WroteTooLittle(log) && e.call.next == StorageDeleting)
  }

  /** The row read back is of the user that the write before was for. */
  predicate SameUser(log: seq<Event>) {
    |log| > 1 && BroughtRow(log) && Back(log, 1).call.AdvanceRequest? && BroughtBy(log).user == Back(log, 1).call.user
  }

  predicate ListWasEmpty(log: seq<Event>, k: nat) {
    k < |log| && Back(log, k).call.ListStoragePaths? && Back(log, k).reply == Listed([])
  }

  /** The list came back empty, and right after it the phase was written, or read back where that write was lost. */
  predicate JustCompleted(log: seq<Event>) {
    || (&& ListWasEmpty(log, 1) && Back(log, 0).call.AdvanceRequest? && Back(log, 0).call.next == Completed
        && Back(log, 0).reply.Written?)
    || (ListWasEmpty(log, 2) && WriteThrew(log, 1, Completed) && BroughtRow(log) && Back(log, 0).call.GetRequest?
        && BroughtBy(log).phase == Completed && BroughtBy(log).user == Back(log, 1).call.user)
  }

  /** No list was asked for: a call on the way brought a row that was completed before. */
  predicate WasCompleted(run: Run, log: seq<Event>) {
    && BroughtRow(log) && BroughtBy(log).phase == Completed
    && (forall e | e in log :: !e.call.ListStoragePaths?)
    && (|log| == 1 || Back(log, 0).call.BeginRequest? ==> BroughtBy(log).user == run.user)
  }

  predicate EndsAtCap(log: seq<Event>, cap: nat) {
    log != [] && Back(log, 0).call.RemoveStoragePaths? && Back(log, 0).reply.Done? && |Removed(log)| >= cap
  }

  predicate Explains(run: Run, log: seq<Event>, outcome: Outcome) {
    match outcome
    case Rejected(status, code) => run.Handler? && ErrorHasCause(run, log, status, code)
    case ClaimFailed(code) => run.Worker? && ClaimHasCause(run, log, code)
    case Deleted(idempotent) => run.Handler? && if idempotent then WasCompleted(run, log) else JustCompleted(log)
    case ClaimCompleted => run.Worker? && (WasCompleted(run, log) || (JustCompleted(log) && BroughtBy(log).phase == Completed))
    case Continue => run.Handler? && EndsAtCap(log, 5_000)
    case ClaimResumable => run.Worker? && EndsAtCap(log, 500)
  }

  // ---------- how a process came to be suspended where it is ----------

  predicate NeverListed(log: seq<Event>) {
    (forall e | e in log :: !e.call.ListStoragePaths? && !e.call.RemoveStoragePaths?) && Removed(log) == []
  }

  predicate Came(run: Run, log: seq<Event>, at: Local) {
    match at
    case ReadingRequest => log == []
    case ReadingAuthBeforeBegin => run.Handler? && |log| == 1 && log[0].reply == Found(None) && NeverListed(log)
    case Beginning(auth) =>
      && run.Handler? && |log| == 2 && NeverListed(log)
      && log[1].call == GetAuthState(run.user) && log[1].reply == Auth(auth) && auth.exists_
    case ReadingAuth(_) => run.Handler? && |log| == 1 && NeverListed(log)
    case DeletingAuth(_) => run.Handler? && log != [] && NeverListed(log)
    case RecheckingAuth(_) => run.Handler? && Awaits(log, DeleteAuthUser(run.user)) && NeverListed(log)
    case Advancing(_, next) => NextIsDue(log, 0, next) && (run.Worker? ==> next != AuthDeleted)
    case Recovering(st, next) =>
      && Awaits(log, AdvanceRequest(st.user, st.id, st.phase, next, None)) && !Back(log, 0).reply.Written?
      && NextIsDue(log, 1, next) && (run.Worker? ==> next != AuthDeleted)
    case Listing(_, _, removed) => log != [] && |Removed(log)| == removed
    case Removing(_, _, removed, page) => log != [] && |Removed(log)| == removed && page != []
    case RecordingFailure(_, code) => run.Handler? && Failed(run, log, code)
    case Finished(outcome) => Explains(run, log, outcome)
  }

  /** The storage phases come before any list, the completed one right after an empty one. */
  predicate NextIsDue(log: seq<Event>, k: nat, next: Phase) {
    log != [] && next != Requested && if next == Completed then ListWasEmpty(log, k) else NeverListed(log)
  }

  lemma {:induction false} RemovedOneMore(log: seq<Event>, e: Event)
    ensures Removed(log + [e]) == Removed(log) + if e.call.RemoveStoragePaths? then e.call.paths else []
  {
    if log == [] {
      assert [e][1..] == [];
    } else {
      RemovedOneMore(log[1..], e);
      assert (log + [e])[1..] == log[1..] + [e];
    }
  }

  /** What one more event leaves as it was. */
  lemma OneMore(log: seq<Event>, e: Event)
    ensures var more := log + [e];
            && Back(more, 0) == e && (forall k | 0 <= k < |log| :: Back(more, k + 1) == Back(log, k))
            && (log == [] ==> NeverListed(log)) && (log != [] ==> more[0] == log[0]) && more[..|more| - 1] == log
            && (!e.call.ListStoragePaths? && !e.call.RemoveStoragePaths? && NeverListed(log) ==> NeverListed(more))
            && |Removed(more)| == |Removed(log)| + if e.call.RemoveStoragePaths? then |e.call.paths| else 0
  {
    RemovedOneMore(log, e);
  }

  lemma ReadGoesOn(run: Run, log: seq<Event>, at: Local, e: Event)
    requires Came(run, log, at) && at.ReadingRequest? && e.call == Pending(run, at)
    ensures Came(run, log + [e], Resume(run, at, e.reply, e.nowMs))
  {
    hide Removed, HandlerAccepts, WorkerAccepts;
    OneMore(log, e);
  }

  lemma FirstAuthGoesOn(run: Run, log: seq<Event>, at: Local, e: Event)
    requires Came(run, log, at) && at.ReadingAuthBeforeBegin? && e.call == Pending(run, at)
    ensures Came(run, log + [e], Resume(run, at, e.reply, e.nowMs))
  {
    hide Removed, HandlerAccepts, WorkerAccepts;
    OneMore(log, e);
  }

  lemma BeginGoesOn(run: Run, log: seq<Event>, at: Local, e: Event)
    requires Came(run, log, at) && at.Beginning? && e.call == Pending(run, at)
    ensures Came(run, log + [e], Resume(run, at, e.reply, e.nowMs))
  {
    hide Removed, HandlerAccepts, WorkerAccepts;
    OneMore(log, e);
    assert Back(log + [e], 1) == log[1];
  }

  lemma LaterAuthGoesOn(run: Run, log: seq<Event>, at: Local, e: Event)
    requires Came(run, log, at) && at.ReadingAuth? && e.call == Pending(run, at)
    ensures Came(run, log + [e], Resume(run, at, e.reply, e.nowMs))
  {
    hide Removed, HandlerAccepts, WorkerAccepts;
    OneMore(log, e);
  }

  lemma AuthGoesOn(run: Run, log: seq<Event>, at: Local, e: Event)
    requires Came(run, log, at) && (at.DeletingAuth? || at.RecheckingAuth? || at.RecordingFailure?) && e.call == Pending(run, at)
    ensures Came(run, log + [e], Resume(run, at, e.reply, e.nowMs))
  {
    hide Removed, HandlerAccepts, WorkerAccepts;
    OneMore(log, e);
  }

  lemma WriteGoesOn(run: Run, log: seq<Event>, at: Local, e: Event)
    requires Came(run, log, at) && at.Advancing? && e.call == Pending(run, at)
    ensures Came(run, log + [e], Resume(run, at, e.reply, e.nowMs))
  {
    hide Removed, HandlerAccepts, WorkerAccepts, WasRecorded;
    OneMore(log, e);
  }

  /** The row read back lets the handler go on. */
  predicate IsRecovery(st: Request, next: Phase, reply: Reply) {
    && reply.Found? && reply.request.Some? && reply.request.value.user == st.user
    && Rank(reply.request.value.phase) >= Rank(next)
  }

  lemma LostWriteIsACause(run: Run, log: seq<Event>, next: Phase)
    requires run.Handler? && next != Requested && NotRecovered(log, next)
    ensures ErrorHasCause(run, log, 502, WriteFailure(next))
  {
    hide NotRecovered, WasRecorded, SignInIsOld, WroteTooLittle;
    LostWriteIsLogged(log, next);
  }

  lemma LostWriteIsLogged(log: seq<Event>, next: Phase)
    requires NotRecovered(log, next)
    ensures log != []
  {
  }

  lemma LostRecoveryGoesOn(run: Run, log: seq<Event>, at: Local, e: Event)
    requires run.Handler? && Came(run, log, at) && at.Recovering? && e.call == Pending(run, at)
    requires !IsRecovery(at.request, at.next, e.reply)
    ensures Came(run, log + [e], Resume(run, at, e.reply, e.nowMs))
  {
    hide Removed, NeverListed, AfterAdvance, ErrorHasCause, ClaimHasCause, JustCompleted, WasCompleted, EndsAtCap, WriteFailure;
    OneMore(log, e);
    LostWriteIsACause(run, log + [e], at.next);
  }

  lemma RecoveryGoesOn(run: Run, log: seq<Event>, at: Local, e: Event)
    requires run.Handler? && Came(run, log, at) && at.Recovering? && e.call == Pending(run, at)
    requires at.next != Completed && IsRecovery(at.request, at.next, e.reply)
    ensures Came(run, log + [e], Resume(run, at, e.reply, e.nowMs))
  {
    hide Removed, ErrorHasCause, ClaimHasCause, JustCompleted, EndsAtCap;
    OneMore(log, e);
  }

  lemma LastRecoveryGoesOn(run: Run, log: seq<Event>, at: Local, e: Event)
    requires run.Handler? && Came(run, log, at) && at.Recovering? && e.call == Pending(run, at)
    requires at.next == Completed && IsRecovery(at.request, at.next, e.reply)
    ensures Came(run, log + [e], Resume(run, at, e.reply, e.nowMs))
  {
    hide Removed, ErrorHasCause, ClaimHasCause, WasCompleted, EndsAtCap;
    OneMore(log, e);
  }

  lemma ClaimRecoveryGoesOn(run: Run, log: seq<Event>, at: Local, e: Event)
    requires run.Worker? && Came(run, log, at) && at.Recovering? && e.call == Pending(run, at)
    ensures Came(run, log + [e], Resume(run, at, e.reply, e.nowMs))
  {
    hide Removed, HandlerAccepts, WorkerAccepts, WasRecorded;
    OneMore(log, e);
  }

  lemma ListGoesOn(run: Run, log: seq<Event>, at: Local, e: Event)
    requires run.Handler? && Came(run, log, at) && at.Listing? && e.call == Pending(run, at)
    ensures Came(run, log + [e], Resume(run, at, e.reply, e.nowMs))
  {
    hide Removed, HandlerAccepts, WorkerAccepts, WasRecorded;
    OneMore(log, e);
  }

  lemma ClaimListGoesOn(run: Run, log: seq<Event>, at: Local, e: Event)
    requires run.Worker? && Came(run, log, at) && at.Listing? && e.call == Pending(run, at)
    ensures Came(run, log + [e], Resume(run, at, e.reply, e.nowMs))
  {
    hide Removed, HandlerAccepts, WorkerAccepts, WasRecorded;
    OneMore(log, e);
  }

  lemma RemovalGoesOn(run: Run, log: seq<Event>, at: Local, e: Event)
    requires Came(run, log, at) && at.Removing? && e.call == Pending(run, at)
    ensures Came(run, log + [e], Resume(run, at, e.reply, e.nowMs))
  {
    hide Removed, HandlerAccepts, WorkerAccepts, WasRecorded;
    OneMore(log, e);
  }

  lemma CameGoesOn(run: Run, log: seq<Event>, at: Local, e: Event)
    requires Came(run, log, at) && !at.Finished? && e.call == Pending(run, at)
    ensures Came(run, log + [e], Resume(run, at, e.reply, e.nowMs))
  {
    hide Resume, Pending;
    match at
    case ReadingRequest => ReadGoesOn(run, log, at, e);
    case ReadingAuthBeforeBegin => FirstAuthGoesOn(run, log, at, e);
    case Beginning(_) => BeginGoesOn(run, log, at, e);
    case ReadingAuth(_) => LaterAuthGoesOn(run, log, at, e);
    case DeletingAuth(_) | RecheckingAuth(_) | RecordingFailure(_, _) => AuthGoesOn(run, log, at, e);
    case Advancing(_, _) => WriteGoesOn(run, log, at, e);
    case Recovering(_, next) =>
      if run.Worker? {
        ClaimRecoveryGoesOn(run, log, at, e);
      } else if !IsRecovery(at.request, next, e.reply) {
        LostRecoveryGoesOn(run, log, at, e);
      } else if next == Completed {
        LastRecoveryGoesOn(run, log, at, e);
      } else {
        RecoveryGoesOn(run, log, at, e);
      }
    case Listing(_, _, _) => if run.Handler? { ListGoesOn(run, log, at, e); } else { ClaimListGoesOn(run, log, at, e); }
    case Removing(_, _, _, _) => RemovalGoesOn(run, log, at, e);
  }

  lemma {:induction false} CameAllTheWay(run: Run, before: seq<Event>, at: Local, rest: seq<Event>, last: Local)
    requires Came(run, before, at) && Follows(run, at, rest, last)
    ensures Came(run, before + rest, last)
    decreases |rest|
  {
    hide Came, Resume, Pending;
    if rest == [] {
      assert before + rest == before;
    } else {
      CameGoesOn(run, before, at, rest[0]);
      CameAllTheWay(run, before + [rest[0]], Resume(run, at, rest[0].reply, rest[0].nowMs), rest[1..], last);
      assert before + [rest[0]] + rest[1..] == before + rest;
    }
  }

  /** Whatever the services answer, the answer of a whole call or claim has its cause in the calls it made. */
  lemma AnswersHaveCauses(run: Run, log: seq<Event>, outcome: Outcome)
    requires Follows(run, ReadingRequest, log, Finished(outcome))
    ensures Explains(run, log, outcome)
  {
    CameAllTheWay(run, [], ReadingRequest, log, Finished(outcome));
    assert [] + log == log;
  }
}
