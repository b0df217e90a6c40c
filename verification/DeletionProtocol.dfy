/**
 The account-deletion handler and the continuation worker as resumable processes. A process is
 suspended at one dependency call (`Pending`); `Resume` is the code that runs between two awaits.
 */
module DeletionProtocol {
  import opened Basics
  import opened JsStrings

  type UserId = JsString
  type RequestId = JsString
  type Path = JsString

  // ---------- constants ----------

  const PAGE_SIZE := 100
  const HANDLER_CAP := 5_000
  const WORKER_CAP := 500
  const CLOCK_SKEW_MS := 60_000
  const RECENT_LOGIN_WINDOW_MS := 10 * 60 * 1000

  // ---------- the persisted request ----------

  datatype Phase = Requested | AuthDeleted | StorageDeleting | Completed

  function Rank(p: Phase): nat {
    match p
    case Requested => 0
    case AuthDeleted => 1
    case StorageDeleting => 2
    case Completed => 3
  }

  /** A request row, as the SQL functions return it. */
  datatype Request = Request(user: UserId, id: RequestId, phase: Phase)

  datatype AuthState = AuthState(exists_: bool, lastSignInMs: Option<int>)

  // ---------- dependency calls ----------

  datatype Call =
    | GetRequest(id: RequestId)
    | BeginRequest(user: UserId, id: RequestId)
    | AdvanceRequest(user: UserId, id: RequestId, expected: Phase, next: Phase, error: Option<string>)
    | GetAuthState(user: UserId)
    | DeleteAuthUser(user: UserId)
    | ListStoragePaths(user: UserId, id: RequestId, after: Option<Path>, pageSize: nat)
    | RemoveStoragePaths(paths: seq<Path>)

  datatype Reply =
    | Threw
    | Found(request: Option<Request>)
    | Written(row: Request)
    | Auth(auth: AuthState)
    | Listed(paths: seq<Path>)
    | Done

  // ---------- processes ----------

  /** What a process was started with: a verified token and a body, or a leased claim. */
  datatype Run =
    | Handler(user: UserId, id: RequestId, issuedAtMs: int)
    | Worker(user: UserId, id: RequestId)
  {
    function Cap(): nat { if Handler? then HANDLER_CAP else WORKER_CAP }
  }

  datatype Outcome =
    | Rejected(status: nat, code: string)   // a handler's error response
    | Deleted(idempotent: bool)             // 200, deleted: true, phase completed
    | Continue                              // 202, deleted: false, resumable: true
    | ClaimCompleted
    | ClaimResumable
    | ClaimFailed(code: string)

  datatype Local =
    | ReadingRequest
    | ReadingAuthBeforeBegin
    | Beginning(auth: AuthState)
    | ReadingAuth(request: Request)
    | DeletingAuth(request: Request)
    | RecheckingAuth(request: Request)
    | Advancing(request: Request, next: Phase)
    | Recovering(request: Request, next: Phase)
    | Listing(request: Request, after: Option<Path>, removed: nat)
    | Removing(request: Request, after: Option<Path>, removed: nat, page: seq<Path>)
    | RecordingFailure(request: Request, code: string)
    | Finished(outcome: Outcome)

  /** The dependency call a suspended process is waiting for. */
  function Pending(run: Run, at: Local): Call
    requires !at.Finished?
  {
    match at
    case ReadingRequest => GetRequest(run.id)
    case ReadingAuthBeforeBegin => GetAuthState(run.user)
    case Beginning(_) => BeginRequest(run.user, run.id)
    case ReadingAuth(_) => GetAuthState(run.user)
    case DeletingAuth(_) => DeleteAuthUser(run.user)
    case RecheckingAuth(_) => GetAuthState(run.user)
    case Advancing(st, next) => AdvanceRequest(st.user, st.id, st.phase, next, None)
    case Recovering(st, _) => GetRequest(st.id)
    case Listing(_, after, _) => ListStoragePaths(run.user, run.id, after, PAGE_SIZE)
    case Removing(_, _, _, page) => RemoveStoragePaths(page)
    case RecordingFailure(st, code) => AdvanceRequest(st.user, st.id, st.phase, st.phase, Some(code))
  }

  // ---------- pure helpers of the source ----------

  predicate RecentLoginIsValid(issuedAtMs: int, lastSignInMs: Option<int>, nowMs: int) {
    && lastSignInMs.Some?
    && issuedAtMs <= nowMs + CLOCK_SKEW_MS
    && lastSignInMs.value <= nowMs + CLOCK_SKEW_MS
    && nowMs - issuedAtMs <= RECENT_LOGIN_WINDOW_MS
    && nowMs - lastSignInMs.value <= RECENT_LOGIN_WINDOW_MS
  }

  /** The path's text before its first slash is the user id, whatever its case. */
  predicate OwnsPath(user: UserId, path: Path) {
    IndexOf(path, SLASH) == |user| && Lower(path[..|user|]) == user
  }

  /** The user id unit by unit, in either case, then the first slash. */
  lemma OwnedPathMeaning(user: UserId, path: Path)
    ensures OwnsPath(user, path) <==>
              && |path| > |user| && path[|user|] == 47
              && forall i | 0 <= i < |user| ::
                   path[i] != 47 && (if 65 <= path[i] <= 90 then path[i] + 32 else path[i]) == user[i]
  {
    if OwnsPath(user, path) {
      assert forall i | 0 <= i < |user| :: path[..|user|][i] == path[i];
    } else if |path| > |user| && path[|user|] == 47 && IndexOf(path, SLASH) == |user| {
      assert |Lower(path[..|user|])| == |user|;
    }
  }

  predicate IsAfter(after: Option<Path>, path: Path) {
    Less(if after.Some? then after.value else [], path)
  }

  /** The handler's page check: owned paths, strictly ascending, all after the cursor. */
  predicate HandlerAccepts(user: UserId, after: Option<Path>, page: seq<Path>) {
    && |page| <= PAGE_SIZE
    && (forall i | 0 <= i < |page| :: OwnsPath(user, page[i]) && IsAfter(after, page[i]))
    && (forall i | 0 < i < |page| :: Less(page[i - 1], page[i]))
  }

  /** The worker's page check: owned paths with a file name; no order is asked for. */
  predicate WorkerAccepts(user: UserId, page: seq<Path>) {
    && |page| <= PAGE_SIZE
    && (forall i | 0 <= i < |page| :: OwnsPath(user, page[i]) && |page[i]| > |user| + 1)
  }

  function WriteFailure(next: Phase): string {
    match next
    case AuthDeleted => "AUTH_DELETED_STATE_WRITE_FAILED"
    case StorageDeleting => "STORAGE_DELETING_STATE_WRITE_FAILED"
    case _ => "COMPLETED_STATE_WRITE_FAILED"
  }

  // ---------- control flow between awaits ----------

  function Reject(status: nat, code: string): Local { Finished(Rejected(status, code)) }

  function Fail(code: string): Local { Finished(ClaimFailed(code)) }

  /** The handler once it holds a state of its own user: `auth` is what an earlier await read. */
  function HandlerPhase(run: Run, st: Request, auth: Option<AuthState>, nowMs: int): Local
    requires run.Handler?
  {
    match st.phase
    case Completed => Finished(Deleted(true))
    case Requested => if auth.None? then ReadingAuth(st) else HandlerAuth(run, st, auth.value, nowMs)
    case AuthDeleted => Advancing(st, StorageDeleting)
    case StorageDeleting => Listing(st, None, 0)
  }

  function HandlerAuth(run: Run, st: Request, auth: AuthState, nowMs: int): Local
    requires run.Handler?
  {
    if !auth.exists_ then Advancing(st, AuthDeleted)
    else if !RecentLoginIsValid(run.issuedAtMs, auth.lastSignInMs, nowMs) then Reject(403, "RECENT_LOGIN_REQUIRED")
    else DeletingAuth(st)
  }

  /** What follows the phase checks in both programs. */
  function EnterStorage(run: Run, st: Request): Local {
    match st.phase
    case Completed => Finished(if run.Handler? then Deleted(true) else ClaimCompleted)
    case StorageDeleting => Listing(st, None, 0)
    case _ => if run.Handler? then Reject(502, "DELETION_STATE_INVALID") else Fail("CONTINUATION_STATE_INVALID")
  }

  function AfterAdvance(run: Run, next: Phase, st: Request): Local {
    if next == Completed then
      if run.Handler? then Finished(Deleted(false))
      else if st.phase == Completed then Finished(ClaimCompleted)
      else Fail("CONTINUATION_COMPLETE_FAILED")
    else if next == AuthDeleted && st.phase == AuthDeleted then Advancing(st, StorageDeleting)
    else EnterStorage(run, st)
  }

  /** `advanceWithConcurrentRecovery` (handler) and `advancePhase` (worker) after the write threw. */
  function AfterRecovery(run: Run, st: Request, next: Phase, reply: Reply): Local {
    if run.Handler? then
      if reply.Found? && reply.request.Some? && reply.request.value.user == st.user
         && Rank(reply.request.value.phase) >= Rank(next)
      then AfterAdvance(run, next, reply.request.value)
      else Reject(502, WriteFailure(next))
    else
      if !reply.Found? then Fail("CONTINUATION_STATE_READ_FAILED")
      else if reply.request.None? || reply.request.value.user != st.user then Fail("CONTINUATION_STATE_INVALID")
      else if Rank(reply.request.value.phase) >= Rank(next) then AfterAdvance(run, next, reply.request.value)
      else Fail("CONTINUATION_STATE_WRITE_FAILED")
  }

  function AfterRead(run: Run, reply: Reply, nowMs: int): Local {
    if run.Handler? then
      if !reply.Found? then Reject(502, "DELETION_STATE_READ_FAILED")
      else if reply.request.None? then ReadingAuthBeforeBegin
      else if reply.request.value.user != run.user then Reject(403, "REQUEST_OWNER_MISMATCH")
      else HandlerPhase(run, reply.request.value, None, nowMs)
    else
      if !reply.Found? then Fail("CONTINUATION_STATE_READ_FAILED")
      else if reply.request.None? || reply.request.value.user != run.user then Fail("CONTINUATION_STATE_INVALID")
      else if reply.request.value.phase == AuthDeleted then Advancing(reply.request.value, StorageDeleting)
      else EnterStorage(run, reply.request.value)
  }

  function AfterList(run: Run, st: Request, after: Option<Path>, removed: nat, reply: Reply): Local {
    var bad := !reply.Listed?;
    var refused := !bad && !(if run.Handler? then HandlerAccepts(run.user, after, reply.paths)
                             else WorkerAccepts(run.user, reply.paths));
    if bad || refused then
      if run.Handler? then RecordingFailure(st, if bad then "STORAGE_LIST_FAILED" else "STORAGE_LIST_INVALID")
      else Fail(if bad then "CONTINUATION_STORAGE_LIST_FAILED" else "CONTINUATION_STORAGE_LIST_INVALID")
    else if reply.paths == [] then Advancing(st, Completed)
    else Removing(st, after, removed, reply.paths)
  }

  function AfterRemove(run: Run, st: Request, removed: nat, page: seq<Path>, reply: Reply): Local {
    if !reply.Done? || page == [] then
      if run.Handler? then RecordingFailure(st, "STORAGE_DELETE_FAILED")
      else Fail("CONTINUATION_STORAGE_DELETE_FAILED")
    else if removed + |page| < run.Cap() then Listing(st, Some(page[|page| - 1]), removed + |page|)
    else Finished(if run.Handler? then Continue else ClaimResumable)
  }

  /** The code that runs when the pending call of a suspended process settles with `reply`. */
  function Resume(run: Run, at: Local, reply: Reply, nowMs: int): Local
    requires !at.Finished?
  {
    match at
    case ReadingRequest => AfterRead(run, reply, nowMs)
    case ReadingAuthBeforeBegin =>
      if !run.Handler? || !reply.Auth? then Reject(502, "AUTH_STATE_READ_FAILED")
      else if !reply.auth.exists_ then Reject(401, "AUTH_USER_NOT_FOUND")
      else if !RecentLoginIsValid(run.issuedAtMs, reply.auth.lastSignInMs, nowMs) then Reject(403, "RECENT_LOGIN_REQUIRED")
      else Beginning(reply.auth)
    case Beginning(auth) =>
      if !run.Handler? || !reply.Written? then Reject(502, "DELETION_STATE_CREATE_FAILED")
      else if reply.row.user != run.user then Reject(403, "REQUEST_OWNER_MISMATCH")
      else HandlerPhase(run, reply.row, Some(auth), nowMs)
    case ReadingAuth(st) =>
      if !run.Handler? || !reply.Auth? then Reject(502, "AUTH_STATE_READ_FAILED")
      else HandlerAuth(run, st, reply.auth, nowMs)
    case DeletingAuth(st) => RecheckingAuth(st)
    case RecheckingAuth(st) =>
      if !reply.Auth? then RecordingFailure(st, "AUTH_DELETE_STATUS_UNKNOWN")
      else if reply.auth.exists_ then RecordingFailure(st, "AUTH_DELETE_FAILED")
      else Advancing(st, AuthDeleted)
    case Advancing(st, next) =>
      if reply.Written? then AfterAdvance(run, next, reply.row) else Recovering(st, next)
    case Recovering(st, next) => AfterRecovery(run, st, next, reply)
    case Listing(st, after, removed) => AfterList(run, st, after, removed, reply)
    case Removing(st, _, removed, page) => AfterRemove(run, st, removed, page, reply)
    case RecordingFailure(_, code) => Reject(502, code)
  }
}
