/**
 Any number of handler calls and worker claims interleaving over one database, one Auth service and
 one storage bucket. Every dependency call is one atomic step; a reply may be lost, a storage removal
 may stop half-way, and a process may stop between any two of its calls.
 */
module DeletionSystem {
  import opened Basics
  import opened JsStrings
  import opened DeletionProtocol

  type Collation = (Path, Path) -> bool
  type Pid = nat

  datatype Row = Row(user: UserId, phase: Phase, lastError: Option<string>)

  datatype Db = Db(rows: map<RequestId, Row>, users: set<UserId>, objects: set<Path>) {
    function Read(id: RequestId): Option<Request> {
      if id in rows then Some(Request(rows[id].user, id, rows[id].phase)) else None
    }

    ghost predicate HasRowOf(user: UserId) { exists id :: id in rows && rows[id].user == user }

    ghost predicate IsEmptyFor(user: UserId) { forall p | p in objects :: !OwnsPath(user, p) }
  }

  // ---------- the SQL functions and the storage API ----------

  predicate TransitionAllowed(expected: Phase, next: Phase) {
    match expected
    case Requested => next == Requested || next == AuthDeleted
    case AuthDeleted => next == StorageDeleting
    case StorageDeleting => next == StorageDeleting || next == Completed
    case Completed => false
  }

  /** The compare-and-set succeeds. */
  predicate CanAdvance(db: Db, c: Call)
    requires c.AdvanceRequest?
  {
    && TransitionAllowed(c.expected, c.next)
    && c.id in db.rows && db.rows[c.id].user == c.user && db.rows[c.id].phase == c.expected
  }

  ghost predicate After(less: Collation, after: Option<Path>, path: Path) {
    less(if after.Some? then after.value else [], path)
  }

  /** `page` is the ascending list of the first `size` stored paths of `user` after the cursor. */
  ghost predicate IsFirstPage(less: Collation, objects: set<Path>, user: UserId, after: Option<Path>, size: nat,
                              page: seq<Path>)
  {
    && |page| <= size
    && (forall i, j | 0 <= i < j < |page| :: less(page[i], page[j]))
    && (forall i | 0 <= i < |page| :: page[i] in objects && OwnsPath(user, page[i]) && After(less, after, page[i]))
    && (forall p | p in objects && OwnsPath(user, p) && After(less, after, p) && p !in page ::
          |page| == size && forall i | 0 <= i < |page| :: less(page[i], p))
  }

  /** The effect a call has when it takes effect in full. */
  function Effect(db: Db, c: Call): Db {
    match c
    case BeginRequest(user, id) =>
      if id in db.rows then db else db.(rows := db.rows[id := Row(user, Requested, None)])
    case AdvanceRequest(user, id, expected, next, error) =>
      if CanAdvance(db, c) then db.(rows := db.rows[id := Row(user, next, error)]) else db
    case DeleteAuthUser(user) => db.(users := db.users - {user})
    case RemoveStoragePaths(paths) => db.(objects := set p | p in db.objects && p !in paths)
    case _ => db
  }

  /** An error reply: nothing happened, or all of it did, or a removal got part of the way. */
  ghost predicate LostEffect(db: Db, c: Call, db': Db) {
    || db' == db
    || db' == Effect(db, c)
    || (c.RemoveStoragePaths? && db' == db.(objects := db'.objects)
        && Effect(db, c).objects <= db'.objects <= db.objects)
  }

  /** One dependency call, as the database, the Auth service and the bucket may answer it. */
  ghost predicate Answers(less: Collation, db: Db, c: Call, reply: Reply, db': Db) {
    if reply.Threw? then LostEffect(db, c, db')
    else
      && db' == Effect(db, c)
      && match c
         case GetRequest(id) => reply == Found(db.Read(id))
         case BeginRequest(_, id) => db'.Read(id).Some? && reply == Written(db'.Read(id).value)
         case AdvanceRequest(user, id, _, next, _) => CanAdvance(db, c) && reply == Written(Request(user, id, next))
         case GetAuthState(user) => reply.Auth? && reply.auth.exists_ == (user in db.users)
         case DeleteAuthUser(_) => reply == Done
         case ListStoragePaths(user, id, after, size) =>
           && id in db.rows && db.rows[id].user == user && db.rows[id].phase in {AuthDeleted, StorageDeleting}
           && reply.Listed? && IsFirstPage(less, db.objects, user, after, size, reply.paths)
         case RemoveStoragePaths(_) => reply == Done
  }

  /** An error reply leaves open whether nothing happened, all of it, or some of a removal. */
  lemma FaultsAreAllowed(less: Collation, db: Db, c: Call, db': Db)
    ensures Answers(less, db, c, Threw, db) && Answers(less, db, c, Threw, Effect(db, c))
    ensures c.RemoveStoragePaths? && db' == Db(db.rows, db.users, db'.objects) ==>
      (Answers(less, db, c, Threw, db') <==>
         db'.objects <= db.objects && forall p | p in db.objects && p !in db'.objects :: p in c.paths)
  {
  }

  // ---------- the system ----------

  datatype Process = Process(run: Run, at: Local)

  datatype Sys = Sys(db: Db, procs: map<Pid, Process>)

  datatype Action =
    | Progress(pid: Pid, reply: Reply, nowMs: int)
    | Start(pid: Pid, run: Run)         // a request arrives, or a claim is leased
    | Stop(pid: Pid)                    // a crash, or a finished process leaving
    | SignUp(user: UserId)              // a new identifier: no request row names it
    | AuthUserVanishes(user: UserId)    // removed by someone else
    | Upload(user: UserId, path: Path)
    | OwnerRemoves(path: Path)

  ghost predicate Step(less: Collation, s: Sys, a: Action, s': Sys) {
    match a
    case Progress(pid, reply, nowMs) =>
      && pid in s.procs && !s.procs[pid].at.Finished?
      && var p := s.procs[pid];
      && Answers(less, s.db, Pending(p.run, p.at), reply, s'.db)
      && s'.procs == s.procs[pid := Process(p.run, Resume(p.run, p.at, reply, nowMs))]
    case Start(pid, run) => pid !in s.procs && s' == s.(procs := s.procs[pid := Process(run, ReadingRequest)])
    case Stop(pid) => s' == s.(procs := s.procs - {pid})
    case SignUp(user) => !s.db.HasRowOf(user) && s' == s.(db := s.db.(users := s.db.users + {user}))
    case AuthUserVanishes(user) => s' == s.(db := s.db.(users := s.db.users - {user}))
    case Upload(user, path) =>
      && OwnsPath(user, path) && !s.db.HasRowOf(user)
      && s' == s.(db := s.db.(objects := s.db.objects + {path}))
    case OwnerRemoves(path) => s' == s.(db := s.db.(objects := s.db.objects - {path}))
  }

  /** A run from a database in which nobody has asked for deletion yet. */
  ghost predicate IsRun(less: Collation, states: seq<Sys>, actions: seq<Action>) {
    && |states| == |actions| + 1
    && states[0].db.rows == map[] && states[0].procs == map[]
    && forall i | 0 <= i < |actions| :: Step(less, states[i], actions[i], states[i + 1])
  }

  // ---------- what others may do to the database ----------

  /** Reflexive and transitive: rows stay, phases only rise, and a user with a row only loses. */
  ghost predicate Later(db: Db, db': Db) {
    && (forall id | id in db.rows ::
          id in db'.rows && db'.rows[id].user == db.rows[id].user && Rank(db.rows[id].phase) <= Rank(db'.rows[id].phase))
    && (forall id | id in db.rows :: db.rows[id].user in db'.users ==> db.rows[id].user in db.users)
    && (forall id, p | id in db.rows && p in db'.objects && OwnsPath(db.rows[id].user, p) :: p in db.objects)
  }

  // ---------- the invariant ----------

  /** What the database promises of every request row. */
  ghost predicate Consistent(db: Db) {
    forall id | id in db.rows ::
      && (Rank(db.rows[id].phase) >= Rank(AuthDeleted) ==> db.rows[id].user !in db.users)
      && (db.rows[id].phase == Completed ==> db.IsEmptyFor(db.rows[id].user))
  }

  /** The row the process read is still there, at the phase it read or past it. */
  ghost predicate Knows(db: Db, run: Run, st: Request) {
    && st.user == run.user
    && st.id in db.rows && db.rows[st.id].user == st.user && Rank(db.rows[st.id].phase) >= Rank(st.phase)
  }

  /** Nothing at or below the cursor remains. */
  ghost predicate Cleared(less: Collation, db: Db, user: UserId, after: Option<Path>) {
    forall p | p in db.objects && OwnsPath(user, p) :: After(less, after, p)
  }

  /** Once the page is removed, nothing at or below its last path remains. */
  ghost predicate PageCovers(less: Collation, db: Db, user: UserId, page: seq<Path>) {
    && page != []
    && (forall i | 0 <= i < |page| :: OwnsPath(user, page[i]))
    && (forall p | p in db.objects && OwnsPath(user, p) && p !in page :: less(page[|page| - 1], p))
  }

  /** What a process knows at each of its suspension points. */
  ghost predicate Justified(less: Collation, db: Db, run: Run, at: Local) {
    match at
    case ReadingRequest => true
    case ReadingAuthBeforeBegin => true
    case Beginning(auth) => auth.exists_
    case ReadingAuth(st) => Knows(db, run, st)
    case DeletingAuth(st) => Knows(db, run, st)
    case RecheckingAuth(st) => Knows(db, run, st)
    case Advancing(st, next) => MayAdvance(db, run, st, next)
    case Recovering(st, next) => MayAdvance(db, run, st, next)
    case Listing(st, after, _) =>
      Knows(db, run, st) && st.phase == StorageDeleting && Cleared(less, db, run.user, after)
    case Removing(st, _, _, page) =>
      Knows(db, run, st) && st.phase == StorageDeleting && PageCovers(less, db, run.user, page)
    case RecordingFailure(st, _) => Knows(db, run, st)
    case Finished(outcome) =>
      (outcome.Deleted? || outcome.ClaimCompleted?) ==>
        exists id :: id in db.rows && db.rows[id] == Row(run.user, Completed, db.rows[id].lastError)
  }

  ghost predicate MayAdvance(db: Db, run: Run, st: Request, next: Phase) {
    && Knows(db, run, st)
    && next != Requested
    && st.user !in db.users
    && (next == Completed ==> db.IsEmptyFor(st.user))
  }

  ghost predicate Invariant(less: Collation, s: Sys) {
    && Consistent(s.db)
    && forall pid | pid in s.procs :: Justified(less, s.db, s.procs[pid].run, s.procs[pid].at)
  }

  // ---------- preservation ----------

  lemma CallsOnlyMoveForward(less: Collation, db: Db, c: Call, reply: Reply, db': Db)
    requires Answers(less, db, c, reply, db')
    ensures Later(db, db')
  {
  }

  lemma LaterReflexive(db: Db)
    ensures Later(db, db)
  {
  }

  lemma LaterTransitive(a: Db, b: Db, c: Db)
    requires Later(a, b) && Later(b, c)
    ensures Later(a, c)
  {
    forall id, p | id in a.rows && p in c.objects && OwnsPath(a.rows[id].user, p) ensures p in a.objects {
      assert b.rows[id].user == a.rows[id].user;
      assert p in b.objects;
    }
  }

  /** Knowledge is stable: no step of anyone else takes it away. */
  lemma JustificationIsStable(less: Collation, db: Db, db': Db, run: Run, at: Local)
    requires Later(db, db') && Consistent(db') && Justified(less, db, run, at)
    ensures Justified(less, db', run, at)
  {
    if at.Finished? && (at.outcome.Deleted? || at.outcome.ClaimCompleted?) {
      var id :| id in db.rows && db.rows[id] == Row(run.user, Completed, db.rows[id].lastError);
      assert db'.rows[id] == Row(run.user, Completed, db'.rows[id].lastError);
    }
  }

  /** A process's own call leaves the database consistent, because of what the process knows. */
  lemma OwnCallKeepsConsistent(less: Collation, db: Db, run: Run, at: Local, reply: Reply, db': Db)
    requires Consistent(db) && !at.Finished? && Justified(less, db, run, at)
    requires Answers(less, db, Pending(run, at), reply, db')
    ensures Consistent(db')
  {
  }

  /** Starting the walk: every owned path is after the empty cursor. */
  lemma NothingBeforeTheFirstPath(less: Collation, db: Db, user: UserId)
    requires IsCollation(less)
    ensures Cleared(less, db, user, None)
  {
  }

  lemma PhaseCheckIsJustified(less: Collation, db: Db, run: Run, st: Request)
    requires IsCollation(less) && Consistent(db) && Knows(db, run, st)
    ensures Justified(less, db, run, EnterStorage(run, st))
    ensures st.phase == AuthDeleted ==> Justified(less, db, run, Advancing(st, StorageDeleting))
  {
    NothingBeforeTheFirstPath(less, db, run.user);
    if st.phase == Completed {
      assert db.rows[st.id] == Row(run.user, Completed, db.rows[st.id].lastError);
    }
  }

  lemma HandlerPhaseIsJustified(less: Collation, db: Db, run: Run, st: Request, auth: Option<AuthState>, nowMs: int)
    requires IsCollation(less) && Consistent(db) && Knows(db, run, st)
    requires run.Handler? && (auth.Some? ==> auth.value.exists_)
    ensures Justified(less, db, run, HandlerPhase(run, st, auth, nowMs))
  {
    PhaseCheckIsJustified(less, db, run, st);
  }

  lemma AdvanceIsJustified(less: Collation, db: Db, run: Run, next: Phase, st: Request)
    requires IsCollation(less) && Consistent(db) && Knows(db, run, st)
    requires next != Requested && Rank(st.phase) >= Rank(next)
    ensures Justified(less, db, run, AfterAdvance(run, next, st))
  {
    PhaseCheckIsJustified(less, db, run, st);
    if next == Completed {
      assert db.rows[st.id] == Row(run.user, Completed, db.rows[st.id].lastError);
    }
  }

  /** A first page after a cleared cursor covers everything up to its last path; an empty one, everything. */
  lemma ListIsJustified(less: Collation, db: Db, run: Run, st: Request, after: Option<Path>, removed: nat, reply: Reply)
    requires Consistent(db) && Justified(less, db, run, Listing(st, after, removed))
    requires Answers(less, db, Pending(run, Listing(st, after, removed)), reply, db) || reply.Threw?
    ensures Justified(less, db, run, AfterList(run, st, after, removed, reply))
  {
    if reply.Listed? {
      var page := reply.paths;
      forall p | p in db.objects && OwnsPath(run.user, p) && p !in page
        ensures |page| == PAGE_SIZE && less(page[|page| - 1], p)
      {
        assert After(less, after, p);
      }
    }
  }

  /** After the page is gone its last path is a cleared cursor. */
  lemma RemoveIsJustified(less: Collation, db: Db, run: Run, at: Local, reply: Reply, db': Db)
    requires at.Removing? && Justified(less, db, run, at) && Consistent(db')
    requires Answers(less, db, Pending(run, at), reply, db')
    ensures Justified(less, db', run, AfterRemove(run, at.request, at.removed, at.page, reply))
  {
  }

  lemma OpeningIsJustified(less: Collation, db: Db, run: Run, at: Local, reply: Reply, nowMs: int, db': Db)
    requires IsCollation(less) && Consistent(db) && Consistent(db') && Justified(less, db, run, at)
    requires at.ReadingRequest? || at.ReadingAuthBeforeBegin? || at.Beginning?
    requires Answers(less, db, Pending(run, at), reply, db')
    ensures Justified(less, db', run, Resume(run, at, reply, nowMs))
  {
    if at.ReadingRequest? {
      if reply.Found? && reply.request.Some? && reply.request.value.user == run.user {
        PhaseCheckIsJustified(less, db', run, reply.request.value);
        if run.Handler? { HandlerPhaseIsJustified(less, db', run, reply.request.value, None, nowMs); }
      }
    } else if at.Beginning? {
      if reply.Written? && reply.row.user == run.user && run.Handler? {
        HandlerPhaseIsJustified(less, db', run, reply.row, Some(at.auth), nowMs);
      }
    }
  }

  lemma AuthIsJustified(less: Collation, db: Db, run: Run, at: Local, reply: Reply, nowMs: int, db': Db)
    requires Consistent(db) && Consistent(db') && Justified(less, db, run, at)
    requires at.ReadingAuth? || at.DeletingAuth? || at.RecheckingAuth? || at.RecordingFailure?
    requires Answers(less, db, Pending(run, at), reply, db')
    ensures Justified(less, db', run, Resume(run, at, reply, nowMs))
  {
    CallsOnlyMoveForward(less, db, Pending(run, at), reply, db');
    JustificationIsStable(less, db, db', run, at);
  }

  lemma WriteIsJustified(less: Collation, db: Db, run: Run, at: Local, reply: Reply, nowMs: int, db': Db)
    requires IsCollation(less) && Consistent(db) && Consistent(db') && Justified(less, db, run, at) && at.Advancing?
    requires Answers(less, db, Pending(run, at), reply, db')
    ensures Justified(less, db', run, Resume(run, at, reply, nowMs))
  {
    CallsOnlyMoveForward(less, db, Pending(run, at), reply, db');
    JustificationIsStable(less, db, db', run, at);
    if reply.Written? {
      AdvanceIsJustified(less, db', run, at.next, reply.row);
      hide Consistent, AfterAdvance, IsCollation;
    }
  }

  lemma RecoveryIsJustified(less: Collation, db: Db, run: Run, at: Local, reply: Reply, nowMs: int, db': Db)
    requires IsCollation(less) && Consistent(db) && Consistent(db') && Justified(less, db, run, at) && at.Recovering?
    requires Answers(less, db, Pending(run, at), reply, db')
    ensures Justified(less, db', run, Resume(run, at, reply, nowMs))
  {
    CallsOnlyMoveForward(less, db, Pending(run, at), reply, db');
    JustificationIsStable(less, db, db', run, at);
    if reply.Found? && reply.request.Some? && reply.request.value.user == at.request.user
       && Rank(reply.request.value.phase) >= Rank(at.next)
    {
      AdvanceIsJustified(less, db', run, at.next, reply.request.value);
      hide Consistent, AfterAdvance, IsCollation;
    }
  }

  lemma WalkIsJustified(less: Collation, db: Db, run: Run, at: Local, reply: Reply, nowMs: int, db': Db)
    requires IsCollation(less) && Consistent(db) && Consistent(db') && Justified(less, db, run, at)
    requires at.Listing? || at.Removing?
    requires Answers(less, db, Pending(run, at), reply, db')
    ensures Justified(less, db', run, Resume(run, at, reply, nowMs))
  {
    CallsOnlyMoveForward(less, db, Pending(run, at), reply, db');
    JustificationIsStable(less, db, db', run, at);
    if at.Listing? {
      ListIsJustified(less, db', run, at.request, at.after, at.removed, reply);
    } else {
      RemoveIsJustified(less, db, run, at, reply, db');
    }
  }

  /** What the process knew before its call, with the reply, justifies where it suspends next. */
  lemma ResumeIsJustified(less: Collation, db: Db, run: Run, at: Local, reply: Reply, nowMs: int, db': Db)
    requires IsCollation(less)
    requires Consistent(db) && Consistent(db') && !at.Finished? && Justified(less, db, run, at)
    requires Answers(less, db, Pending(run, at), reply, db')
    ensures Justified(less, db', run, Resume(run, at, reply, nowMs))
  {
    if at.ReadingRequest? || at.ReadingAuthBeforeBegin? || at.Beginning? {
      OpeningIsJustified(less, db, run, at, reply, nowMs, db');
    } else if at.Advancing? {
      WriteIsJustified(less, db, run, at, reply, nowMs, db');
    } else if at.Recovering? {
      RecoveryIsJustified(less, db, run, at, reply, nowMs, db');
    } else if at.Listing? || at.Removing? {
      WalkIsJustified(less, db, run, at, reply, nowMs, db');
    } else {
      AuthIsJustified(less, db, run, at, reply, nowMs, db');
    }
  }
}
