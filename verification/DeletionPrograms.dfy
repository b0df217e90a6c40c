/**
 The handler and the worker as the imperative programs they are. `Dependencies` answers every call with
 anything at all; it keeps the log of calls and the suspension point of the matching process, so each
 program has to make exactly the calls `DeletionProtocol` says, in that order.
 */
module DeletionPrograms {
  import opened Basics
  import opened JsStrings
  import opened DeletionProtocol

  datatype Event = Event(call: Call, reply: Reply, nowMs: int)

  /** The process makes these calls, gets these replies, and arrives at `last`. */
  ghost predicate Follows(run: Run, first: Local, log: seq<Event>, last: Local)
    decreases |log|
  {
    if log == [] then first == last
    else
      && !first.Finished?
      && log[0].call == Pending(run, first)
      && Follows(run, Resume(run, first, log[0].reply, log[0].nowMs), log[1..], last)
  }

  lemma {:induction false} FollowsOneMore(run: Run, first: Local, log: seq<Event>, last: Local, e: Event)
    requires Follows(run, first, log, last) && !last.Finished? && e.call == Pending(run, last)
    ensures Follows(run, first, log + [e], Resume(run, last, e.reply, e.nowMs))
    decreases |log|
  {
    if log == [] {
      assert [e][1..] == [];
    } else {
      FollowsOneMore(run, Resume(run, first, log[0].reply, log[0].nowMs), log[1..], last, e);
      assert (log + [e])[1..] == log[1..] + [e];
    }
  }

  // ---------- what any log removes, and how long it can get ----------

  /** All paths handed to the storage API, in order. */
  function Removed(log: seq<Event>): seq<Path> {
    if log == [] then []
    else (if log[0].call.RemoveStoragePaths? then log[0].call.paths else []) + Removed(log[1..])
  }

  /** Strictly ascending, and all after the cursor. */
  ghost predicate Ascends(after: Option<Path>, paths: seq<Path>) {
    && (paths != [] ==> IsAfter(after, paths[0]))
    && (forall i | 0 < i < |paths| :: Less(paths[i - 1], paths[i]))
  }

  lemma {:induction false} AscendingNeverRepeats(paths: seq<Path>, i: nat, j: nat)
    requires Ascends(None, paths) && i < j < |paths|
    ensures Less(paths[i], paths[j]) && paths[i] != paths[j]
  {
    if i + 1 < j {
      AscendingNeverRepeats(paths, i, j - 1);
      LessTransitive(paths[i], paths[j - 1], paths[j]);
    }
    LessIrreflexive(paths[j]);
  }

  /** What a suspension point remembers of its own checks. */
  ghost predicate Checked(run: Run, at: Local) {
    match at
    case Listing(_, _, removed) => removed < run.Cap()
    case Removing(_, after, removed, page) =>
      && removed < run.Cap() && page != []
      && (if run.Handler? then HandlerAccepts(run.user, after, page) else WorkerAccepts(run.user, page))
    case _ => true
  }

  /** No removal comes after this point. */
  predicate PastStorage(at: Local) {
    at.Finished? || at.RecordingFailure? || ((at.Advancing? || at.Recovering?) && at.next == Completed)
  }

  function Cursor(at: Local): Option<Path> {
    if at.Listing? || at.Removing? then at.after else None
  }

  /** How many more paths may be removed from here. */
  function Allowance(run: Run, at: Local): int {
    if PastStorage(at) then 0
    else run.Cap() + PAGE_SIZE - 1 - (if at.Listing? || at.Removing? then at.removed else 0)
  }

  /** How many more calls may be made from here. */
  function CallsLeft(run: Run, at: Local): int {
    match at
    case Finished(_) => 0
    case RecordingFailure(_, _) => 1
    case Listing(_, _, removed) => 2 * (run.Cap() - removed) + 1
    case Removing(_, _, removed, _) => 2 * (run.Cap() - removed)
    case Recovering(_, next) => if next == Completed then 1 else 2 * run.Cap() + (if next == StorageDeleting then 2 else 4)
    case Advancing(_, next) => if next == Completed then 2 else 2 * run.Cap() + (if next == StorageDeleting then 3 else 5)
    case RecheckingAuth(_) => 2 * run.Cap() + 6
    case DeletingAuth(_) => 2 * run.Cap() + 7
    case ReadingAuth(_) => 2 * run.Cap() + 8
    case Beginning(_) => 2 * run.Cap() + 9
    case ReadingAuthBeforeBegin => 2 * run.Cap() + 10
    case ReadingRequest => 2 * run.Cap() + 11
  }

  /** What one reply may do to the walk's bookkeeping. */
  ghost predicate Progresses(run: Run, at: Local, at': Local) {
    && Checked(run, at')
    && 0 <= CallsLeft(run, at') < CallsLeft(run, at)
    && (PastStorage(at) ==> PastStorage(at'))
    && (PastStorage(at') || (Cursor(at') == Cursor(at) && Allowance(run, at') == Allowance(run, at))
        || (at.Removing? && at.page != [] && at' == Listing(at.request, Some(at.page[|at.page| - 1]), at.removed + |at.page|)))
  }

  lemma ListMakesProgress(run: Run, st: Request, after: Option<Path>, removed: nat, reply: Reply)
    requires removed < run.Cap()
    ensures Progresses(run, Listing(st, after, removed), AfterList(run, st, after, removed, reply))
  {
  }

  lemma RemoveMakesProgress(run: Run, st: Request, after: Option<Path>, removed: nat, page: seq<Path>, reply: Reply)
    requires Checked(run, Removing(st, after, removed, page))
    ensures Progresses(run, Removing(st, after, removed, page), AfterRemove(run, st, removed, page, reply))
  {
  }

  lemma EntryMakesProgress(run: Run, st: Request)
    ensures
      var at' := EnterStorage(run, st);
      && Checked(run, at')
      && 0 <= CallsLeft(run, at') <= 2 * run.Cap() + 1
      && (PastStorage(at') || (Cursor(at') == None && Allowance(run, at') == run.Cap() + PAGE_SIZE - 1))
  {
  }

  lemma AdvanceMakesProgress(run: Run, next: Phase, st: Request)
    ensures
      var at' := AfterAdvance(run, next, st);
      && Checked(run, at')
      && 0 <= CallsLeft(run, at') <= (if next == Completed then 0 else 2 * run.Cap() + (if next == StorageDeleting then 1 else 3))
      && (PastStorage(at') || (next != Completed && Cursor(at') == None && Allowance(run, at') == run.Cap() + PAGE_SIZE - 1))
  {
    hide EnterStorage;
    EntryMakesProgress(run, st);
  }

  lemma WriteMakesProgress(run: Run, st: Request, next: Phase, reply: Reply)
    ensures Progresses(run, Advancing(st, next),
                       if reply.Written? then AfterAdvance(run, next, reply.row) else Recovering(st, next))
  {
    if reply.Written? { AdvanceMakesProgress(run, next, reply.row); }
  }

  lemma RecoveryMakesProgress(run: Run, st: Request, next: Phase, reply: Reply)
    ensures Progresses(run, Recovering(st, next), AfterRecovery(run, st, next, reply))
  {
    if reply.Found? && reply.request.Some? { AdvanceMakesProgress(run, next, reply.request.value); }
  }

  lemma ReadMakesProgress(run: Run, reply: Reply, nowMs: int)
    ensures Progresses(run, ReadingRequest, AfterRead(run, reply, nowMs))
  {
    hide EnterStorage;
    if reply.Found? && reply.request.Some? { EntryMakesProgress(run, reply.request.value); }
  }

  lemma OpeningMakesProgress(run: Run, at: Local, reply: Reply, nowMs: int)
    requires at.ReadingAuthBeforeBegin? || at.Beginning?
    ensures Progresses(run, at, Resume(run, at, reply, nowMs))
  {
    hide RecentLoginIsValid;
  }

  lemma AuthMakesProgress(run: Run, at: Local, reply: Reply, nowMs: int)
    requires at.ReadingAuth? || at.DeletingAuth? || at.RecheckingAuth? || at.RecordingFailure?
    ensures Progresses(run, at, Resume(run, at, reply, nowMs))
  {
  }

  lemma PhaseWriteMakesProgress(run: Run, at: Local, reply: Reply, nowMs: int)
    requires at.Advancing? || at.Recovering?
    ensures Progresses(run, at, Resume(run, at, reply, nowMs))
  {
    if at.Advancing? {
      WriteMakesProgress(run, at.request, at.next, reply);
    } else {
      RecoveryMakesProgress(run, at.request, at.next, reply);
    }
  }

  lemma WalkMakesProgress(run: Run, at: Local, reply: Reply, nowMs: int)
    requires (at.Listing? || at.Removing?) && Checked(run, at)
    ensures Progresses(run, at, Resume(run, at, reply, nowMs))
  {
    if at.Listing? {
      ListMakesProgress(run, at.request, at.after, at.removed, reply);
    } else {
      RemoveMakesProgress(run, at.request, at.after, at.removed, at.page, reply);
    }
  }

  /** One call and its reply, whatever the reply is. */
  lemma ResumeMakesProgress(run: Run, at: Local, reply: Reply, nowMs: int)
    requires !at.Finished? && Checked(run, at)
    ensures Progresses(run, at, Resume(run, at, reply, nowMs))
  {
    if at.ReadingRequest? {
      ReadMakesProgress(run, reply, nowMs);
    } else if at.ReadingAuthBeforeBegin? || at.Beginning? {
      OpeningMakesProgress(run, at, reply, nowMs);
    } else if at.Advancing? || at.Recovering? {
      PhaseWriteMakesProgress(run, at, reply, nowMs);
    } else if at.Listing? || at.Removing? {
      WalkMakesProgress(run, at, reply, nowMs);
    } else {
      AuthMakesProgress(run, at, reply, nowMs);
    }
  }

  lemma AscendsThrough(user: UserId, after: Option<Path>, page: seq<Path>, rest: seq<Path>)
    requires HandlerAccepts(user, after, page) && page != []
    requires rest == [] || Ascends(Some(page[|page| - 1]), rest)
    ensures Ascends(after, page + rest)
  {
  }

  /** The bounds on what a log that starts at this suspension point may still do. */
  ghost predicate WithinBounds(run: Run, at: Local, log: seq<Event>) {
    && |log| <= CallsLeft(run, at)
    && |Removed(log)| <= (if PastStorage(at) then 0 else Allowance(run, at))
    && (forall p | p in Removed(log) :: OwnsPath(run.user, p))
    && (run.Handler? ==> Ascends(Cursor(at), Removed(log)))
  }

  lemma OneMoreRemovalStaysWithinBounds(run: Run, at: Local, at': Local, log: seq<Event>)
    requires at.Removing? && Checked(run, at) && Progresses(run, at, at')
    requires log != [] && log[0].call == Pending(run, at) && WithinBounds(run, at', log[1..])
    ensures WithinBounds(run, at, log)
  {
    var rest := Removed(log[1..]);
    assert Removed(log) == at.page + rest;
    if run.Handler? { AscendsThrough(run.user, at.after, at.page, rest); }
    forall p | p in at.page + rest ensures OwnsPath(run.user, p) {
      if p !in rest {
        var i :| 0 <= i < |at.page| && at.page[i] == p;
      }
    }
  }

  lemma OneMoreCallStaysWithinBounds(run: Run, at: Local, at': Local, log: seq<Event>)
    requires !at.Finished? && Checked(run, at) && Progresses(run, at, at')
    requires log != [] && log[0].call == Pending(run, at) && WithinBounds(run, at', log[1..])
    ensures WithinBounds(run, at, log)
  {
    if at.Removing? {
      OneMoreRemovalStaysWithinBounds(run, at, at', log);
    } else {
      assert Removed(log) == Removed(log[1..]);
    }
  }

  /**
   Against a lister that may answer anything: only owned paths are removed, at most the cap plus one
   short of a page; the handler removes them in strictly ascending order; and the process always ends.
   */
  lemma {:induction false} UntrustedLister(run: Run, at: Local, log: seq<Event>, last: Local)
    requires Checked(run, at) && Follows(run, at, log, last)
    ensures WithinBounds(run, at, log)
    decreases |log|
  {
    if log != [] {
      var at' := Resume(run, at, log[0].reply, log[0].nowMs);
      ResumeMakesProgress(run, at, log[0].reply, log[0].nowMs);
      UntrustedLister(run, at', log[1..], last);
      OneMoreCallStaysWithinBounds(run, at, at', log);
    }
  }

  // ---------- only a recent sign-in starts a deletion ----------

  /** At most ten minutes before this clock, and at most one minute after it. */
  predicate IsRecent(ms: int, nowMs: int) {
    -60_000 <= nowMs - ms <= 600_000
  }

  /**
   Wherever the handler holds an existing Auth user, the token and the last sign-in both have to be recent by its
   clock; otherwise it answers 403 and calls nothing more.
   */
  lemma OldSignInIsRefused(run: Run, at: Local, reply: Reply, nowMs: int)
    requires run.Handler? && (at.ReadingAuthBeforeBegin? || at.ReadingAuth? || at.Beginning?)
    requires if at.Beginning? then reply.Written? && reply.row.user == run.user && reply.row.phase == Requested && at.auth.exists_
             else reply.Auth? && reply.auth.exists_
    ensures
      var signIn := (if at.Beginning? then at.auth else reply.auth).lastSignInMs;
      Resume(run, at, reply, nowMs)
      == if signIn.Some? && IsRecent(signIn.value, nowMs) && IsRecent(run.issuedAtMs, nowMs) then
           match at
           case ReadingAuthBeforeBegin => Beginning(reply.auth)
           case ReadingAuth(st) => DeletingAuth(st)
           case _ => DeletingAuth(reply.row)
         else Finished(Rejected(403, "RECENT_LOGIN_REQUIRED"))
  {
  }

  /** Before the j-th call an existing user was read whose sign-in, like the token, is recent by the clock then read. */
  ghost predicate RecentlySignedIn(run: Run, log: seq<Event>, j: nat)
    requires run.Handler? && j <= |log|
  {
    j > 0 && IsRecent(run.issuedAtMs, log[j - 1].nowMs)
    && exists i :: 0 <= i < j && ReadsUser(run, log[i]) && IsRecent(log[i].reply.auth.lastSignInMs.value, log[j - 1].nowMs)
  }

  predicate ReadsUser(run: Run, e: Event) {
    e.call == GetAuthState(run.user) && e.reply.Auth? && e.reply.auth.exists_ && e.reply.auth.lastSignInMs.Some?
  }

  /** No request row is made and no Auth user is deleted but for a recent sign-in, and never another user's. */
  ghost predicate DeletesOnlyRecent(run: Run, log: seq<Event>)
    requires run.Handler?
  {
    forall j | 0 <= j < |log| && (log[j].call.BeginRequest? || log[j].call.DeleteAuthUser?) ::
      log[j].call.user == run.user && RecentlySignedIn(run, log, j)
  }

  /** What a suspended handler owes to the calls before it. */
  ghost predicate Remembers(run: Run, before: seq<Event>, at: Local)
    requires run.Handler?
  {
    && (at.Beginning? ==>
          && RecentlySignedIn(run, before, |before|) && at.auth.exists_
          && exists i :: 0 <= i < |before| && ReadsUser(run, before[i]) && before[i].reply.auth == at.auth)
    && (at.DeletingAuth? ==> RecentlySignedIn(run, before, |before|))
  }

  predicate HoldsAuth(at: Local) { at.ReadingAuthBeforeBegin? || at.Beginning? || at.ReadingAuth? }

  lemma OnlySignInsLeadToDeletion(run: Run, at: Local, reply: Reply, nowMs: int)
    requires run.Handler? && !at.Finished? && !HoldsAuth(at)
    ensures var next := Resume(run, at, reply, nowMs); !next.Beginning? && !next.DeletingAuth?
  {
  }

  lemma SignInIsRemembered(run: Run, before: seq<Event>, at: Local, e: Event)
    requires run.Handler? && HoldsAuth(at) && e.call == Pending(run, at) && Remembers(run, before, at)
    ensures Remembers(run, before + [e], Resume(run, at, e.reply, e.nowMs))
  {
    var log := before + [e];
    assert log[|before|] == e && forall i | 0 <= i < |before| :: log[i] == before[i];
    if at.Beginning? {
      var i :| 0 <= i < |before| && ReadsUser(run, before[i]) && before[i].reply.auth == at.auth;
      assert ReadsUser(run, log[i]) && log[i].reply.auth == at.auth;
    }
  }

  lemma RememberingGoesOn(run: Run, before: seq<Event>, at: Local, e: Event)
    requires run.Handler? && !at.Finished? && e.call == Pending(run, at) && Remembers(run, before, at)
    ensures Remembers(run, before + [e], Resume(run, at, e.reply, e.nowMs))
  {
    hide Resume, Pending, RecentlySignedIn;
    if HoldsAuth(at) {
      SignInIsRemembered(run, before, at, e);
    } else {
      OnlySignInsLeadToDeletion(run, at, e.reply, e.nowMs);
    }
  }

  lemma RecentOneMore(run: Run, before: seq<Event>, e: Event)
    requires run.Handler? && DeletesOnlyRecent(run, before)
    requires e.call.BeginRequest? || e.call.DeleteAuthUser? ==> e.call.user == run.user && RecentlySignedIn(run, before, |before|)
    ensures DeletesOnlyRecent(run, before + [e])
  {
    var log := before + [e];
    forall j | 0 <= j < |log| && (log[j].call.BeginRequest? || log[j].call.DeleteAuthUser?)
      ensures log[j].call.user == run.user && RecentlySignedIn(run, log, j)
    {
      assert forall i | 0 <= i < |before| :: log[i] == before[i];
      assert RecentlySignedIn(run, before, j);
    }
  }

  lemma {:induction false} DeletionsFollowSignIns(run: Run, before: seq<Event>, at: Local, rest: seq<Event>, last: Local)
    requires run.Handler? && Remembers(run, before, at) && DeletesOnlyRecent(run, before) && Follows(run, at, rest, last)
    ensures DeletesOnlyRecent(run, before + rest)
    decreases |rest|
  {
    hide Resume, RecentlySignedIn, DeletesOnlyRecent;
    if rest == [] {
      assert before + rest == before;
    } else {
      var e := rest[0];
      RememberingGoesOn(run, before, at, e);
      RecentOneMore(run, before, e);
      DeletionsFollowSignIns(run, before + [e], Resume(run, at, e.reply, e.nowMs), rest[1..], last);
      assert before + [e] + rest[1..] == before + rest;
    }
  }

  /** Over any log of the handler, whatever the services answered. */
  lemma OnlyRecentSignInsDelete(run: Run, log: seq<Event>, last: Local)
    requires run.Handler? && Follows(run, ReadingRequest, log, last)
    ensures DeletesOnlyRecent(run, log)
  {
    DeletionsFollowSignIns(run, [], ReadingRequest, log, last);
    assert [] + log == log;
  }

  // ---------- the programs ----------

  class Dependencies {
    const run: Run
    ghost var log: seq<Event>
    ghost var at: Local

    ghost predicate Valid()
      reads this
    {
      Follows(run, ReadingRequest, log, at)
    }

    constructor (run: Run)
      ensures Valid() && this.run == run && log == [] && at == ReadingRequest
    {
      this.run, log, at := run, [], ReadingRequest;
    }

    /** One awaited dependency call: the reply and the clock are anyone's choice. */
    method Invoke(call: Call) returns (reply: Reply, nowMs: int)
      requires Valid() && !at.Finished? && call == Pending(run, at)
      modifies this`log, this`at
      ensures Valid() && log == old(log) + [Event(call, reply, nowMs)]
      ensures at == Resume(run, old(at), reply, nowMs)
    {
      reply := *;
      nowMs := *;
      FollowsOneMore(run, ReadingRequest, log, at, Event(call, reply, nowMs));
      log, at := log + [Event(call, reply, nowMs)], Resume(run, at, reply, nowMs);
    }
  }

  method RecordFailure(deps: Dependencies, state: Request, code: string)
    requires deps.Valid() && deps.at == RecordingFailure(state, code)
    modifies deps
    ensures deps.Valid() && deps.at == Finished(Rejected(502, code))
  {
    var _, _ := deps.Invoke(AdvanceRequest(state.user, state.id, state.phase, state.phase, Some(code)));
  }

  /**
   What a phase write gives its caller: the row it wrote, or, when the write threw, the row read back if it is the
   same user's and at or past the phase that was to be reached, and otherwise none.
   */
  ghost predicate GivesRow(events: seq<Event>, state: Request, next: Phase, row: Option<Request>) {
    && events != [] && events[0].call == AdvanceRequest(state.user, state.id, state.phase, next, None)
    && if events[0].reply.Written? then |events| == 1 && row == Some(events[0].reply.row)
       else
         && |events| == 2 && events[1].call == GetRequest(state.id)
         && (row.Some? <==>
               && events[1].reply.Found? && events[1].reply.request.Some?
               && events[1].reply.request.value.user == state.user
               && Rank(events[1].reply.request.value.phase) >= Rank(next))
         && (row.Some? ==> row == events[1].reply.request)
  }

  method AdvanceWithConcurrentRecovery(deps: Dependencies, state: Request, next: Phase) returns (result: Option<Request>)
    requires deps.Valid() && deps.run.Handler? && deps.at == Advancing(state, next)
    modifies deps
    ensures deps.Valid()
    ensures old(deps.log) <= deps.log && GivesRow(deps.log[|old(deps.log)|..], state, next, result)
    ensures result.Some? ==> deps.at == AfterAdvance(deps.run, next, result.value)
    ensures result.None? ==> deps.at == Finished(Rejected(502, WriteFailure(next)))
  {
    hide Follows, AfterAdvance;
    var reply, now := deps.Invoke(AdvanceRequest(state.user, state.id, state.phase, next, None));
    if reply.Written? { return Some(reply.row); }
    reply, now := deps.Invoke(GetRequest(state.id));
    if reply.Found? && reply.request.Some? && reply.request.value.user == state.user
       && Rank(reply.request.value.phase) >= Rank(next) {
      return reply.request;
    }
    return None;
  }

  /** The page's removal calls, a chunk at a time; a page is one chunk. */
  method RemoveInChunks(deps: Dependencies, state: Request, after: Option<Path>, removedCount: nat, paths: seq<Path>)
    returns (ok: bool)
    requires deps.Valid() && deps.run.Handler? && deps.at == Removing(state, after, removedCount, paths)
    requires 0 < |paths| <= PAGE_SIZE
    modifies deps
    ensures deps.Valid()
    ensures deps.at == if ok then AfterRemove(deps.run, state, removedCount, paths, Done)
                       else Finished(Rejected(502, "STORAGE_DELETE_FAILED"))
  {
    var index := 0;
    while index < |paths|
      invariant deps.Valid()
      invariant if index == 0 then deps.at == Removing(state, after, removedCount, paths)
                else index >= |paths| && deps.at == AfterRemove(deps.run, state, removedCount, paths, Done)
    {
      var chunk := paths[index..if index + PAGE_SIZE <= |paths| then index + PAGE_SIZE else |paths|];
      assert chunk == paths;
      var reply, _ := deps.Invoke(RemoveStoragePaths(chunk));
      if !reply.Done? {
        RecordFailure(deps, state, "STORAGE_DELETE_FAILED");
        return false;
      }
      index := index + PAGE_SIZE;
    }
    return true;
  }

  /** The storage walk of one handler call: `None` when it walked off the end of the list. */
  method RemoveStorage(deps: Dependencies, state: Request) returns (outcome: Option<Outcome>)
    requires deps.Valid() && deps.run.Handler? && deps.at == Listing(state, None, 0)
    modifies deps
    ensures deps.Valid()
    ensures deps.at == if outcome.Some? then Finished(outcome.value) else Advancing(state, Completed)
  {
    var afterStoragePath: Option<Path> := None;
    var removedCount := 0;
    while removedCount < HANDLER_CAP
      invariant deps.Valid()
      invariant deps.at == if removedCount < HANDLER_CAP then Listing(state, afterStoragePath, removedCount)
                           else Finished(Continue)
      decreases HANDLER_CAP - removedCount
    {
      var reply, _ := deps.Invoke(ListStoragePaths(deps.run.user, deps.run.id, afterStoragePath, PAGE_SIZE));
      if !reply.Listed? {
        RecordFailure(deps, state, "STORAGE_LIST_FAILED");
        return Some(Rejected(502, "STORAGE_LIST_FAILED"));
      }
      if !HandlerAccepts(deps.run.user, afterStoragePath, reply.paths) {
        RecordFailure(deps, state, "STORAGE_LIST_INVALID");
        return Some(Rejected(502, "STORAGE_LIST_INVALID"));
      }
      if |reply.paths| == 0 { return None; }
      var ok := RemoveInChunks(deps, state, afterStoragePath, removedCount, reply.paths);
      if !ok { return Some(Rejected(502, "STORAGE_DELETE_FAILED")); }
      removedCount := removedCount + |reply.paths|;
      afterStoragePath := Some(reply.paths[|reply.paths| - 1]);
    }
    return Some(Continue);
  }

  /** The handler, from the first read of the request row on. */
  method HandleDeletion(deps: Dependencies) returns (outcome: Outcome)
    requires deps.Valid() && deps.run.Handler? && deps.log == [] && deps.at == ReadingRequest
    modifies deps
    ensures deps.Valid() && deps.at == Finished(outcome)
    ensures |deps.log| <= 2 * HANDLER_CAP + 11
    ensures |Removed(deps.log)| <= 5_099 && Ascends(None, Removed(deps.log))
    ensures forall p | p in Removed(deps.log) :: OwnsPath(deps.run.user, p)
    ensures DeletesOnlyRecent(deps.run, deps.log)
  {
    outcome := HandlerBody(deps);
    OnlyRecentSignInsDelete(deps.run, deps.log, deps.at);
    UntrustedLister(deps.run, ReadingRequest, deps.log, deps.at);
  }

  method HandlerBody(deps: Dependencies) returns (outcome: Outcome)
    requires deps.Valid() && deps.run.Handler? && deps.at == ReadingRequest
    modifies deps
    ensures deps.Valid() && deps.at == Finished(outcome)
  {
    hide Follows, GivesRow;
    var stopped, state, authState, now := OpenRequest(deps);
    if stopped.Some? { return stopped.value; }
    if state.phase == Completed { return Deleted(true); }
    if state.phase == Requested {
      stopped := EnsureAuthDeleted(deps, state, authState, now);
      if stopped.Some? { return stopped.value; }
      var advanced := AdvanceWithConcurrentRecovery(deps, state, AuthDeleted);
      if advanced.None? { return Rejected(502, "AUTH_DELETED_STATE_WRITE_FAILED"); }
      state := advanced.value;
    }
    if state.phase == AuthDeleted {
      var advanced := AdvanceWithConcurrentRecovery(deps, state, StorageDeleting);
      if advanced.None? { return Rejected(502, "STORAGE_DELETING_STATE_WRITE_FAILED"); }
      state := advanced.value;
    }
    outcome := Settle(deps, state);
  }

  /** Reads the request row, or creates it for a recently signed-in user. */
  method OpenRequest(deps: Dependencies)
    returns (stopped: Option<Outcome>, state: Request, authState: Option<AuthState>, now: int)
    requires deps.Valid() && deps.run.Handler? && deps.at == ReadingRequest
    modifies deps
    ensures deps.Valid()
    ensures deps.at == if stopped.Some? then Finished(stopped.value) else HandlerPhase(deps.run, state, authState, now)
  {
    state := *;
    authState := None;
    var reply;
    reply, now := deps.Invoke(GetRequest(deps.run.id));
    if !reply.Found? { return Some(Rejected(502, "DELETION_STATE_READ_FAILED")), state, None, now; }
    if reply.request.Some? {
      state := reply.request.value;
      if state.user != deps.run.user { return Some(Rejected(403, "REQUEST_OWNER_MISMATCH")), state, None, now; }
      return None, state, None, now;
    }
    reply, now := deps.Invoke(GetAuthState(deps.run.user));
    if !reply.Auth? { return Some(Rejected(502, "AUTH_STATE_READ_FAILED")), state, None, now; }
    authState := Some(reply.auth);
    if !reply.auth.exists_ { return Some(Rejected(401, "AUTH_USER_NOT_FOUND")), state, authState, now; }
    if !RecentLoginIsValid(deps.run.issuedAtMs, reply.auth.lastSignInMs, now) {
      return Some(Rejected(403, "RECENT_LOGIN_REQUIRED")), state, authState, now;
    }
    reply, now := deps.Invoke(BeginRequest(deps.run.user, deps.run.id));
    if !reply.Written? { return Some(Rejected(502, "DELETION_STATE_CREATE_FAILED")), state, authState, now; }
    state := reply.row;
    if state.user != deps.run.user { return Some(Rejected(403, "REQUEST_OWNER_MISMATCH")), state, authState, now; }
    return None, state, authState, now;
  }

  /** Deletes the Auth user unless it is gone, and looks again to tell a lost reply from a failure. */
  method EnsureAuthDeleted(deps: Dependencies, state: Request, known: Option<AuthState>, at: int)
    returns (stopped: Option<Outcome>)
    requires deps.Valid() && deps.run.Handler? && state.phase == Requested
    requires deps.at == HandlerPhase(deps.run, state, known, at)
    modifies deps
    ensures deps.Valid()
    ensures deps.at == if stopped.Some? then Finished(stopped.value) else Advancing(state, AuthDeleted)
  {
    var reply;
    var authState, now := known, at;
    if authState.None? {
      reply, now := deps.Invoke(GetAuthState(deps.run.user));
      if !reply.Auth? { return Some(Rejected(502, "AUTH_STATE_READ_FAILED")); }
      authState := Some(reply.auth);
    }
    if authState.value.exists_ {
      if !RecentLoginIsValid(deps.run.issuedAtMs, authState.value.lastSignInMs, now) {
        return Some(Rejected(403, "RECENT_LOGIN_REQUIRED"));
      }
      reply, now := deps.Invoke(DeleteAuthUser(deps.run.user));
      reply, now := deps.Invoke(GetAuthState(deps.run.user));
      if !reply.Auth? {
        RecordFailure(deps, state, "AUTH_DELETE_STATUS_UNKNOWN");
        return Some(Rejected(502, "AUTH_DELETE_STATUS_UNKNOWN"));
      }
      if reply.auth.exists_ {
        RecordFailure(deps, state, "AUTH_DELETE_FAILED");
        return Some(Rejected(502, "AUTH_DELETE_FAILED"));
      }
    }
    return None;
  }

  /** The rest of the handler once the phase has settled. */
  method Settle(deps: Dependencies, state: Request) returns (outcome: Outcome)
    requires deps.Valid() && deps.run.Handler? && deps.at == EnterStorage(deps.run, state)
    modifies deps
    ensures deps.Valid() && deps.at == Finished(outcome)
  {
    if state.phase == Completed { return Deleted(true); }
    if state.phase != StorageDeleting { return Rejected(502, "DELETION_STATE_INVALID"); }
    var stopped := RemoveStorage(deps, state);
    if stopped.Some? { return stopped.value; }
    var advanced := AdvanceWithConcurrentRecovery(deps, state, Completed);
    if advanced.None? { return Rejected(502, "COMPLETED_STATE_WRITE_FAILED"); }
    return Deleted(false);
  }

  // ---------- the worker ----------

  /** A claim's state read; `Err` is the code of the ContinuationError it throws. */
  datatype StateResult = State(request: Request) | Err(code: string)

  method AdvancePhase(deps: Dependencies, state: Request, next: Phase) returns (result: StateResult)
    requires deps.Valid() && deps.run.Worker? && deps.at == Advancing(state, next)
    modifies deps
    ensures deps.Valid()
    ensures old(deps.log) <= deps.log
    ensures GivesRow(deps.log[|old(deps.log)|..], state, next, if result.State? then Some(result.request) else None)
    ensures deps.at == if result.State? then AfterAdvance(deps.run, next, result.request) else Fail(result.code)
  {
    var reply, now := deps.Invoke(AdvanceRequest(state.user, state.id, state.phase, next, None));
    if reply.Written? { return State(reply.row); }
    reply, now := deps.Invoke(GetRequest(state.id));
    if !reply.Found? { return Err("CONTINUATION_STATE_READ_FAILED"); }
    if reply.request.None? || reply.request.value.user != state.user { return Err("CONTINUATION_STATE_INVALID"); }
    if Rank(reply.request.value.phase) >= Rank(next) { return State(reply.request.value); }
    return Err("CONTINUATION_STATE_WRITE_FAILED");
  }

  /** One leased claim. */
  method ProcessClaim(deps: Dependencies) returns (outcome: Outcome)
    requires deps.Valid() && deps.run.Worker? && deps.log == [] && deps.at == ReadingRequest
    modifies deps
    ensures deps.Valid() && deps.at == Finished(outcome)
    ensures |deps.log| <= 2 * WORKER_CAP + 11
    ensures |Removed(deps.log)| <= 599
    ensures forall p | p in Removed(deps.log) :: OwnsPath(deps.run.user, p)
  {
    outcome := ClaimBody(deps);
    UntrustedLister(deps.run, ReadingRequest, deps.log, deps.at);
  }

  method ClaimBody(deps: Dependencies) returns (outcome: Outcome)
    requires deps.Valid() && deps.run.Worker? && deps.at == ReadingRequest
    modifies deps
    ensures deps.Valid() && deps.at == Finished(outcome)
  {
    var reply, now := deps.Invoke(GetRequest(deps.run.id));
    if !reply.Found? { return ClaimFailed("CONTINUATION_STATE_READ_FAILED"); }
    if reply.request.None? || reply.request.value.user != deps.run.user { return ClaimFailed("CONTINUATION_STATE_INVALID"); }
    var state := reply.request.value;
    if state.phase == Completed { return ClaimCompleted; }
    if state.phase == AuthDeleted {
      var advanced := AdvancePhase(deps, state, StorageDeleting);
      if advanced.Err? { return ClaimFailed(advanced.code); }
      state := advanced.request;
    }
    if state.phase == Completed { return ClaimCompleted; }
    if state.phase != StorageDeleting { return ClaimFailed("CONTINUATION_STATE_INVALID"); }

    var stopped := RemoveClaimedStorage(deps, state);
    if stopped.Some? { return stopped.value; }
    var finished := AdvancePhase(deps, state, Completed);
    if finished.Err? { return ClaimFailed(finished.code); }
    if finished.request.phase != Completed { return ClaimFailed("CONTINUATION_COMPLETE_FAILED"); }
    return ClaimCompleted;
  }

  /** The storage walk of one claim: `None` when it walked off the end of the list. */
  method RemoveClaimedStorage(deps: Dependencies, state: Request) returns (outcome: Option<Outcome>)
    requires deps.Valid() && deps.run.Worker? && deps.at == Listing(state, None, 0)
    modifies deps
    ensures deps.Valid()
    ensures deps.at == if outcome.Some? then Finished(outcome.value) else Advancing(state, Completed)
  {
    hide Follows, OwnsPath;
    var afterStoragePath: Option<Path> := None;
    var removedCount := 0;
    while removedCount < WORKER_CAP
      invariant deps.Valid()
      invariant deps.at == if removedCount < WORKER_CAP then Listing(state, afterStoragePath, removedCount)
                           else Finished(ClaimResumable)
      decreases WORKER_CAP - removedCount
    {
      var reply, now := deps.Invoke(ListStoragePaths(deps.run.user, deps.run.id, afterStoragePath, PAGE_SIZE));
      if !reply.Listed? { return Some(ClaimFailed("CONTINUATION_STORAGE_LIST_FAILED")); }
      if !WorkerAccepts(deps.run.user, reply.paths) { return Some(ClaimFailed("CONTINUATION_STORAGE_LIST_INVALID")); }
      var paths := reply.paths;
      if |paths| == 0 { return None; }
      reply, now := deps.Invoke(RemoveStoragePaths(paths));
      if !reply.Done? { return Some(ClaimFailed("CONTINUATION_STORAGE_DELETE_FAILED")); }
      removedCount := removedCount + |paths|;
      afterStoragePath := Some(paths[|paths| - 1]);
    }
    return Some(ClaimResumable);
  }
}
