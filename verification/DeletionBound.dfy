/**
 Calls in which nothing fails and nobody else is active: exactly how much one call removes, how it ends,
 and how many calls a deletion therefore takes. The handler's results need a database that compares paths as
 JavaScript does; the worker's hold for any collation.
 */
module DeletionBound {
  import opened Basics
  import opened JsStrings
  import opened DeletionProtocol
  import opened DeletionSystem
  import opened DeletionPrograms

  function Owned(db: Db, user: UserId): set<Path> {
    set p | p in db.objects && OwnsPath(user, p)
  }

  /** The calls and replies of one undisturbed run, from `at` to its outcome. */
  ghost predicate Quiet(less: Collation, db: Db, run: Run, at: Local, log: seq<Event>, db': Db, outcome: Outcome)
    decreases |log|
  {
    if log == [] then db' == db && at == Finished(outcome)
    else
      && !at.Finished?
      && log[0].call == Pending(run, at) && !log[0].reply.Threw?
      && Answers(less, db, log[0].call, log[0].reply, Effect(db, log[0].call))
      && Quiet(less, Effect(db, log[0].call), run, Resume(run, at, log[0].reply, log[0].nowMs), log[1..], db', outcome)
  }

  /** The order the page checks of this run rely on: any collation for the worker, the order of `<` for the handler. */
  ghost predicate Suits(less: Collation, run: Run) {
    IsCollation(less) && (run.Handler? ==> forall p, q :: less(p, q) <==> Less(p, q))
  }

  /** Whenever the handler looks at the clock, the sign-in it knows of is recent. */
  ghost predicate SignInStaysRecent(run: Run, log: seq<Event>) {
    run.Handler? ==>
      forall i, j | 0 <= i < |log| && 0 <= j < |log| && log[i].reply.Auth? && log[i].reply.auth.exists_ ::
        RecentLoginIsValid(run.issuedAtMs, log[i].reply.auth.lastSignInMs, log[j].nowMs)
  }

  /** The row is exactly what the process read. */
  ghost predicate Holds(db: Db, run: Run, st: Request) {
    && st.user == run.user && st.id == run.id
    && run.id in db.rows && db.rows[run.id].user == run.user && db.rows[run.id].phase == st.phase
  }

  /** Where an undisturbed process may be suspended, and what then holds. */
  ghost predicate OnTrack(less: Collation, db: Db, run: Run, at: Local) {
    match at
    case ReadingRequest =>
      if run.id in db.rows then
        db.rows[run.id].user == run.user && db.rows[run.id].phase != Completed
        && (run.Worker? ==> db.rows[run.id].phase != Requested)
      else run.Handler? && run.user in db.users
    case ReadingAuthBeforeBegin => run.Handler? && run.id !in db.rows && run.user in db.users
    case Beginning(auth) => run.Handler? && run.id !in db.rows && auth.exists_
    case ReadingAuth(st) => run.Handler? && Holds(db, run, st) && st.phase == Requested
    case DeletingAuth(st) => run.Handler? && Holds(db, run, st) && st.phase == Requested
    case RecheckingAuth(st) => run.Handler? && Holds(db, run, st) && st.phase == Requested && run.user !in db.users
    case Advancing(st, next) =>
      Holds(db, run, st) && Rank(next) == Rank(st.phase) + 1 && (next == Completed ==> Owned(db, run.user) == {})
    case Listing(st, after, removed) =>
      && Holds(db, run, st) && st.phase == StorageDeleting && Cleared(less, db, run.user, after)
      && removed < run.Cap() && (removed % PAGE_SIZE == 0 || Owned(db, run.user) == {})
    case Removing(st, after, removed, page) =>
      && Holds(db, run, st) && st.phase == StorageDeleting && PageCovers(less, db, run.user, page)
      && removed < run.Cap() && removed % PAGE_SIZE == 0
      && (forall i, j | 0 <= i < j < |page| :: page[i] != page[j])
      && (forall p | p in page :: p in db.objects)
      && (|page| < PAGE_SIZE ==> forall p | p in Owned(db, run.user) :: p in page)
      && |page| <= PAGE_SIZE
    case _ => false
  }

  /** How many more objects this call can remove before it answers "resumable". */
  function Budget(run: Run, at: Local): int {
    run.Cap() - (if at.Listing? || at.Removing? then at.removed else 0)
  }

  /** The outcome of an undisturbed call that met `count` objects with room for `budget`. */
  ghost predicate EndsRight(run: Run, count: nat, budget: int, db': Db, outcome: Outcome) {
    && run.id in db'.rows && db'.rows[run.id].user == run.user
    && if count >= budget then
         && outcome == (if run.Handler? then Continue else ClaimResumable)
         && |Owned(db', run.user)| == count - budget && db'.rows[run.id].phase == StorageDeleting
       else
         && outcome == (if run.Handler? then Deleted(false) else ClaimCompleted)
         && Owned(db', run.user) == {} && db'.rows[run.id].phase == Completed
  }

  // ---------- counting ----------

  lemma {:induction false} DistinctCount(s: seq<Path>)
    requires forall i, j | 0 <= i < j < |s| :: s[i] != s[j]
    ensures |set p | p in s| == |s|
  {
    if s != [] {
      var rest := s[..|s| - 1];
      DistinctCount(rest);
      assert (set p | p in s) == (set p | p in rest) + {s[|s| - 1]};
    }
  }

  /** Removing a page of distinct stored paths takes exactly that many away. */
  lemma PageRemovalCounts(db: Db, user: UserId, page: seq<Path>)
    requires forall i, j | 0 <= i < j < |page| :: page[i] != page[j]
    requires forall p | p in page :: p in Owned(db, user)
    ensures |Owned(Effect(db, RemoveStoragePaths(page)), user)| == |Owned(db, user)| - |page|
  {
    DistinctCount(page);
    var gone := set p | p in page;
    assert Owned(Effect(db, RemoveStoragePaths(page)), user) == Owned(db, user) - gone;
    assert gone <= Owned(db, user);
  }

  // ---------- one step of an undisturbed run ----------

  /** A worker's bucket holds no object that is only the owner's folder name. */
  ghost predicate EveryPathHasAName(db: Db, user: UserId) {
    forall p | p in Owned(db, user) :: |p| > |user| + 1
  }

  /** One step of an undisturbed run: what is left and the room for it shrink together, until the run ends as it should. */
  ghost predicate GoesRight(less: Collation, run: Run, db: Db, at: Local, db': Db, at': Local) {
    var count, count' := |Owned(db, run.user)|, |Owned(db', run.user)|;
    if at'.Finished? then EndsRight(run, count, Budget(run, at), db', at'.outcome)
    else
      && OnTrack(less, db', run, at')
      && (count < Budget(run, at) ==> count' < Budget(run, at'))
      && (count >= Budget(run, at) ==> count' - Budget(run, at') == count - Budget(run, at))
  }

  /** An honest page passes the handler's check, and the worker's when every path has a name. */
  lemma HonestPageIsAccepted(less: Collation, db: Db, run: Run, at: Local, page: seq<Path>)
    requires Suits(less, run) && at.Listing? && (run.Worker? ==> EveryPathHasAName(db, run.user))
    requires IsFirstPage(less, db.objects, run.user, at.after, PAGE_SIZE, page)
    ensures if run.Handler? then HandlerAccepts(run.user, at.after, page) else WorkerAccepts(run.user, page)
  {
    if run.Worker? {
      forall i | 0 <= i < |page| ensures |page[i]| > |run.user| + 1 { assert page[i] in Owned(db, run.user); }
    }
  }

  lemma HonestPageMeaning(less: Collation, db: Db, user: UserId, after: Option<Path>, page: seq<Path>)
    requires IsCollation(less) && Cleared(less, db, user, after)
    requires IsFirstPage(less, db.objects, user, after, PAGE_SIZE, page)
    ensures page == [] <==> Owned(db, user) == {}
    ensures page != [] ==> PageCovers(less, db, user, page)
    ensures forall i, j | 0 <= i < j < |page| :: page[i] != page[j]
    ensures forall p | p in page :: p in db.objects
    ensures |page| < PAGE_SIZE ==> forall p | p in Owned(db, user) :: p in page
  {
    forall p | p in Owned(db, user) ensures After(less, after, p) {}
    forall i, j | 0 <= i < j < |page| ensures page[i] != page[j] { assert !less(page[i], page[i]); }
    if page != [] {
      assert page[0] in Owned(db, user);
    } else {
      assert Owned(db, user) == {};
    }
  }

  /** Where an accepted page leads. */
  function Onward(at: Local, page: seq<Path>): Local
    requires at.Listing?
  {
    if page == [] then Advancing(at.request, Completed) else Removing(at.request, at.after, at.removed, page)
  }

  lemma OnwardGoesRight(less: Collation, db: Db, run: Run, at: Local, page: seq<Path>)
    requires IsCollation(less) && at.Listing? && OnTrack(less, db, run, at)
    requires IsFirstPage(less, db.objects, run.user, at.after, PAGE_SIZE, page)
    ensures GoesRight(less, run, db, at, db, Onward(at, page))
    ensures page == [] <==> Owned(db, run.user) == {}
  {
    HonestPageMeaning(less, db, run.user, at.after, page);
    assert |page| <= PAGE_SIZE;
    hide Cleared, PageCovers, IsFirstPage, IsCollation;
  }

  /** An accepted page: nothing is left, or the page is removed next. */
  lemma AcceptedPageStaysOnTrack(less: Collation, db: Db, run: Run, at: Local, reply: Reply)
    requires Suits(less, run) && at.Listing? && OnTrack(less, db, run, at)
    requires !reply.Threw? && Answers(less, db, Pending(run, at), reply, db)
    requires run.Worker? ==> WorkerAccepts(run.user, reply.paths)
    ensures reply.Listed? && IsFirstPage(less, db.objects, run.user, at.after, PAGE_SIZE, reply.paths)
    ensures AfterList(run, at.request, at.after, at.removed, reply) == Onward(at, reply.paths)
    ensures GoesRight(less, run, db, at, db, Onward(at, reply.paths)) && (reply.paths == [] <==> Owned(db, run.user) == {})
  {
    OnwardGoesRight(less, db, run, at, reply.paths);
    if run.Handler? { HonestPageIsAccepted(less, db, run, at, reply.paths); }
    hide GoesRight, IsFirstPage, HandlerAccepts, WorkerAccepts, IsCollation, OnTrack;
  }

  lemma ListStaysOnTrack(less: Collation, db: Db, run: Run, at: Local, reply: Reply)
    requires Suits(less, run) && at.Listing? && OnTrack(less, db, run, at)
    requires run.Worker? ==> EveryPathHasAName(db, run.user)
    requires !reply.Threw? && Answers(less, db, Pending(run, at), reply, db)
    ensures
      var at' := AfterList(run, at.request, at.after, at.removed, reply);
      !at'.Finished? && !at'.Beginning? && GoesRight(less, run, db, at, db, at')
  {
    HonestPageIsAccepted(less, db, run, at, reply.paths);
    AcceptedPageStaysOnTrack(less, db, run, at, reply);
  }

  /** The page goes, and nothing at or below its last path is left. */
  lemma RemovalClears(less: Collation, db: Db, run: Run, at: Local)
    requires at.Removing? && OnTrack(less, db, run, at)
    ensures
      var db' := Effect(db, RemoveStoragePaths(at.page));
      && |Owned(db', run.user)| == |Owned(db, run.user)| - |at.page|
      && (|at.page| < PAGE_SIZE ==> Owned(db', run.user) == {})
      && Cleared(less, db', run.user, Some(at.page[|at.page| - 1])) && Holds(db', run, at.request)
  {
    PageRemovalCounts(db, run.user, at.page);
  }

  lemma RemoveStaysOnTrack(less: Collation, db: Db, run: Run, at: Local)
    requires at.Removing? && OnTrack(less, db, run, at)
    ensures
      var at' := AfterRemove(run, at.request, at.removed, at.page, Done);
      var db' := Effect(db, RemoveStoragePaths(at.page));
      && |Owned(db', run.user)| == |Owned(db, run.user)| - |at.page|
      && (if at'.Finished? then
            && Budget(run, at) == |at.page|
            && EndsRight(run, |Owned(db, run.user)|, Budget(run, at), db', at'.outcome)
          else at'.Listing? && OnTrack(less, db', run, at') && Budget(run, at') == Budget(run, at) - |at.page|)
  {
    RemovalClears(less, db, run, at);
    hide Cleared, PageCovers;
  }

  lemma RemoveGoesRight(less: Collation, db: Db, run: Run, at: Local)
    requires at.Removing? && OnTrack(less, db, run, at)
    ensures
      var at' := AfterRemove(run, at.request, at.removed, at.page, Done);
      !at'.Beginning? && GoesRight(less, run, db, at, Effect(db, RemoveStoragePaths(at.page)), at')
  {
    hide OnTrack, EndsRight;
    RemoveStaysOnTrack(less, db, run, at);
  }

  /** What an undisturbed call outside the storage walk leads to: the next phase, or completion. */
  ghost predicate ControlGoesRight(less: Collation, db: Db, run: Run, at: Local, reply: Reply, db': Db, at': Local) {
    && Owned(db', run.user) == Owned(db, run.user)
    && (at'.Beginning? ==> reply.Auth? && at'.auth == reply.auth)
    && if at'.Finished? then Owned(db, run.user) == {} && EndsRight(run, 0, run.Cap(), db', at'.outcome)
       else OnTrack(less, db', run, at') && Budget(run, at') == Budget(run, at)
  }

  lemma OpeningStaysOnTrack(less: Collation, db: Db, run: Run, at: Local, reply: Reply, nowMs: int)
    requires IsCollation(less) && OnTrack(less, db, run, at) && (at.ReadingRequest? || at.ReadingAuthBeforeBegin? || at.Beginning?)
    requires !reply.Threw? && Answers(less, db, Pending(run, at), reply, Effect(db, Pending(run, at)))
    requires run.Handler? && reply.Auth? && reply.auth.exists_ ==>
      RecentLoginIsValid(run.issuedAtMs, reply.auth.lastSignInMs, nowMs)
    requires run.Handler? && at.Beginning? ==> RecentLoginIsValid(run.issuedAtMs, at.auth.lastSignInMs, nowMs)
    ensures ControlGoesRight(less, db, run, at, reply, Effect(db, Pending(run, at)), Resume(run, at, reply, nowMs))
  {
    var db' := Effect(db, Pending(run, at));
    assert db'.objects == db.objects;
    NothingBeforeTheFirstPath(less, db', run.user);
  }

  lemma AuthStaysOnTrack(less: Collation, db: Db, run: Run, at: Local, reply: Reply, nowMs: int)
    requires OnTrack(less, db, run, at) && (at.ReadingAuth? || at.DeletingAuth? || at.RecheckingAuth?)
    requires !reply.Threw? && Answers(less, db, Pending(run, at), reply, Effect(db, Pending(run, at)))
    requires reply.Auth? && reply.auth.exists_ ==> RecentLoginIsValid(run.issuedAtMs, reply.auth.lastSignInMs, nowMs)
    ensures ControlGoesRight(less, db, run, at, reply, Effect(db, Pending(run, at)), Resume(run, at, reply, nowMs))
  {
    assert Effect(db, Pending(run, at)).objects == db.objects;
  }

  lemma AdvancingStaysOnTrack(less: Collation, db: Db, run: Run, at: Local, reply: Reply, nowMs: int)
    requires IsCollation(less) && OnTrack(less, db, run, at) && at.Advancing?
    requires !reply.Threw? && Answers(less, db, Pending(run, at), reply, Effect(db, Pending(run, at)))
    ensures ControlGoesRight(less, db, run, at, reply, Effect(db, Pending(run, at)), Resume(run, at, reply, nowMs))
  {
    var db' := Effect(db, Pending(run, at));
    assert db'.objects == db.objects;
    NothingBeforeTheFirstPath(less, db', run.user);
    assert CanAdvance(db, Pending(run, at));
  }

  lemma NoNewPaths(db: Db, call: Call, user: UserId)
    ensures Owned(Effect(db, call), user) <= Owned(db, user)
  {
  }

  /** One undisturbed step, wherever the process is. */
  lemma QuietStepStaysOnTrack(less: Collation, db: Db, run: Run, at: Local, reply: Reply, nowMs: int)
    requires Suits(less, run) && OnTrack(less, db, run, at) && (run.Worker? ==> EveryPathHasAName(db, run.user))
    requires !reply.Threw? && Answers(less, db, Pending(run, at), reply, Effect(db, Pending(run, at)))
    requires run.Handler? && reply.Auth? && reply.auth.exists_ ==>
      RecentLoginIsValid(run.issuedAtMs, reply.auth.lastSignInMs, nowMs)
    requires run.Handler? && at.Beginning? ==> RecentLoginIsValid(run.issuedAtMs, at.auth.lastSignInMs, nowMs)
    ensures
      var db', at' := Effect(db, Pending(run, at)), Resume(run, at, reply, nowMs);
      && (run.Worker? ==> EveryPathHasAName(db', run.user))
      && (at'.Beginning? ==> reply.Auth? && at'.auth == reply.auth)
      && GoesRight(less, run, db, at, db', at')
  {
    NoNewPaths(db, Pending(run, at), run.user);
    if at.Listing? {
      ListStaysOnTrack(less, db, run, at, reply);
    } else if at.Removing? {
      RemoveGoesRight(less, db, run, at);
    } else if at.Advancing? {
      AdvancingStaysOnTrack(less, db, run, at, reply, nowMs);
    } else if at.ReadingAuth? || at.DeletingAuth? || at.RecheckingAuth? {
      AuthStaysOnTrack(less, db, run, at, reply, nowMs);
    } else {
      OpeningStaysOnTrack(less, db, run, at, reply, nowMs);
    }
  }

  /** Whatever is stored, an undisturbed step ends the call or leaves it on track. */
  lemma QuietStepGoesOn(less: Collation, db: Db, run: Run, at: Local, reply: Reply, nowMs: int)
    requires Suits(less, run) && OnTrack(less, db, run, at)
    requires !reply.Threw? && Answers(less, db, Pending(run, at), reply, Effect(db, Pending(run, at)))
    requires run.Handler? && reply.Auth? && reply.auth.exists_ ==>
      RecentLoginIsValid(run.issuedAtMs, reply.auth.lastSignInMs, nowMs)
    requires run.Handler? && at.Beginning? ==> RecentLoginIsValid(run.issuedAtMs, at.auth.lastSignInMs, nowMs)
    ensures
      var db', at' := Effect(db, Pending(run, at)), Resume(run, at, reply, nowMs);
      at'.Finished? || (OnTrack(less, db', run, at') && (at'.Beginning? ==> reply.Auth? && at'.auth == reply.auth))
  {
    if at.Listing? && run.Worker? && !WorkerAccepts(run.user, reply.paths) {
    } else if at.Listing? {
      AcceptedPageStaysOnTrack(less, db, run, at, reply);
    } else if at.Removing? {
      RemoveGoesRight(less, db, run, at);
    } else if at.Advancing? {
      AdvancingStaysOnTrack(less, db, run, at, reply, nowMs);
    } else if at.ReadingAuth? || at.DeletingAuth? || at.RecheckingAuth? {
      AuthStaysOnTrack(less, db, run, at, reply, nowMs);
    } else {
      OpeningStaysOnTrack(less, db, run, at, reply, nowMs);
    }
  }

  /** One undisturbed call: exactly how it ends, and exactly how much is left. */
  lemma {:induction false} QuietCall(less: Collation, db: Db, run: Run, at: Local, log: seq<Event>, db': Db, outcome: Outcome)
    requires Suits(less, run) && OnTrack(less, db, run, at)
    requires Quiet(less, db, run, at, log, db', outcome) && SignInStaysRecent(run, log)
    requires run.Worker? ==> EveryPathHasAName(db, run.user)
    requires run.Handler? && at.Beginning? ==>
      forall j | 0 <= j < |log| :: RecentLoginIsValid(run.issuedAtMs, at.auth.lastSignInMs, log[j].nowMs)
    ensures EndsRight(run, |Owned(db, run.user)|, Budget(run, at), db', outcome)
    decreases |log|
  {
    var e := log[0];
    var mid, at' := Effect(db, e.call), Resume(run, at, e.reply, e.nowMs);
    QuietStepStaysOnTrack(less, db, run, at, e.reply, e.nowMs);
    if at'.Finished? {
      assert log[1..] == [];
    } else {
      QuietCall(less, mid, run, at', log[1..], db', outcome);
    }
  }

  // ---------- undisturbed runs exist ----------

  lemma {:induction false} LeastExists(less: Collation, c: set<Path>) returns (m: Path)
    requires IsCollation(less) && c != {}
    ensures m in c && forall p | p in c && p != m :: less(m, p)
  {
    var some :| some in c;
    m := some;
    if c != {some} {
      var least := LeastExists(less, c - {some});
      m := if less(some, least) then some else least;
      forall p | p in c && p != m ensures less(m, p) {
        if p != some && p != least {
          assert p in c - {some} && less(least, p);
        }
      }
    }
  }

  function Candidates(less: Collation, objects: set<Path>, user: UserId, after: Option<Path>): set<Path> {
    set p | p in objects && OwnsPath(user, p) && less(if after.Some? then after.value else [], p)
  }

  lemma PrependLeast(less: Collation, objects: set<Path>, user: UserId, after: Option<Path>, size: nat, m: Path, rest: seq<Path>)
    requires IsCollation(less) && m in Candidates(less, objects, user, after)
    requires forall p | p in Candidates(less, objects, user, after) && p != m :: less(m, p)
    requires IsFirstPage(less, objects, user, Some(m), size, rest)
    ensures IsFirstPage(less, objects, user, after, size + 1, [m] + rest)
  {
    var page := [m] + rest;
    forall i | 0 <= i < |page| ensures After(less, after, page[i]) {
      if i > 0 { assert less(m, rest[i - 1]); }
    }
    forall p | p in objects && OwnsPath(user, p) && After(less, after, p) && p !in page
      ensures |page| == size + 1 && forall i | 0 <= i < |page| :: less(page[i], p)
    {
      assert p in Candidates(less, objects, user, after) && page[0] == m;
      assert p !in rest by { assert forall q | q in rest :: q in page; }
    }
  }

  /** The SQL list always has an answer, whatever is stored. */
  lemma {:induction false} FirstPageExists(less: Collation, objects: set<Path>, user: UserId, after: Option<Path>, size: nat)
    returns (page: seq<Path>)
    requires IsCollation(less)
    ensures IsFirstPage(less, objects, user, after, size, page)
    decreases size
  {
    var c := Candidates(less, objects, user, after);
    if size == 0 || c == {} {
      assert forall p | p in objects && OwnsPath(user, p) && After(less, after, p) :: p in c;
      return [];
    }
    var m := LeastExists(less, c);
    var rest := FirstPageExists(less, objects, user, Some(m), size - 1);
    PrependLeast(less, objects, user, after, size - 1, m, rest);
    page := [m] + rest;
  }

  /** The reply an undisturbed service gives; a sign-in as old as the token is recent at that instant. */
  lemma ReplyExists(less: Collation, db: Db, run: Run, at: Local) returns (reply: Reply)
    requires Suits(less, run) && OnTrack(less, db, run, at)
    ensures !reply.Threw? && Answers(less, db, Pending(run, at), reply, Effect(db, Pending(run, at)))
    ensures reply.Auth? ==> reply.auth.lastSignInMs == Some(if run.Handler? then run.issuedAtMs else 0)
  {
    var c := Pending(run, at);
    match c
    case GetRequest(id) => reply := Found(db.Read(id));
    case BeginRequest(_, id) => reply := Written(Effect(db, c).Read(id).value);
    case AdvanceRequest(user, id, _, next, _) => reply := Written(Request(user, id, next));
    case GetAuthState(user) => reply := Auth(AuthState(user in db.users, Some(if run.Handler? then run.issuedAtMs else 0)));
    case DeleteAuthUser(_) => reply := Done;
    case ListStoragePaths(user, id, after, size) =>
      var page := FirstPageExists(less, db.objects, user, after, size);
      reply := Listed(page);
    case RemoveStoragePaths(_) => reply := Done;
  }

  /** Every sign-in is as old as the token, and the clock stands at that instant. */
  ghost predicate AtSignIn(run: Run, log: seq<Event>) {
    forall i | 0 <= i < |log| ::
      && log[i].nowMs == SignInMs(run)
      && (log[i].reply.Auth? ==> log[i].reply.auth.lastSignInMs == Some(SignInMs(run)))
  }

  function SignInMs(run: Run): int { if run.Handler? then run.issuedAtMs else 0 }

  lemma AtSignInStaysRecent(run: Run, log: seq<Event>)
    requires AtSignIn(run, log)
    ensures SignInStaysRecent(run, log)
  {
  }

  /** One undisturbed step from a point on track. */
  lemma QuietStepExists(less: Collation, db: Db, run: Run, at: Local) returns (e: Event)
    requires Suits(less, run) && OnTrack(less, db, run, at) && Checked(run, at)
    requires at.Beginning? ==> at.auth.lastSignInMs == Some(SignInMs(run))
    ensures !at.Finished? && e.call == Pending(run, at) && !e.reply.Threw? && AtSignIn(run, [e])
    ensures Answers(less, db, e.call, e.reply, Effect(db, e.call))
    ensures
      var at' := Resume(run, at, e.reply, e.nowMs);
      && 0 <= CallsLeft(run, at') < CallsLeft(run, at)
      && (at'.Finished? || (OnTrack(less, Effect(db, e.call), run, at') && Checked(run, at')))
      && (at'.Beginning? ==> at'.auth.lastSignInMs == Some(SignInMs(run)))
  {
    var reply := ReplyExists(less, db, run, at);
    e := Event(Pending(run, at), reply, SignInMs(run));
    ResumeMakesProgress(run, at, reply, e.nowMs);
    QuietStepGoesOn(less, db, run, at, reply, e.nowMs);
  }

  /** From every point on track an undisturbed run goes to its end. */
  lemma {:induction false} QuietRunExists(less: Collation, db: Db, run: Run, at: Local)
    returns (log: seq<Event>, db': Db, outcome: Outcome)
    requires Suits(less, run) && OnTrack(less, db, run, at) && Checked(run, at)
    requires at.Beginning? ==> at.auth.lastSignInMs == Some(SignInMs(run))
    ensures Quiet(less, db, run, at, log, db', outcome) && AtSignIn(run, log) && SignInStaysRecent(run, log)
    decreases CallsLeft(run, at)
  {
    hide OnTrack, Suits, Answers, Checked, SignInStaysRecent;
    var e := QuietStepExists(less, db, run, at);
    var at' := Resume(run, at, e.reply, e.nowMs);
    db' := Effect(db, e.call);
    var rest := [];
    if at'.Finished? {
      outcome := at'.outcome;
    } else {
      rest, db', outcome := QuietRunExists(less, db', run, at');
    }
    log := [e] + rest;
    QuietOneEarlier(less, db, run, at, e, rest, db', outcome);
    AtSignInStaysRecent(run, log);
  }

  lemma QuietOneEarlier(less: Collation, db: Db, run: Run, at: Local, e: Event, rest: seq<Event>, db': Db, outcome: Outcome)
    requires !at.Finished? && e.call == Pending(run, at) && !e.reply.Threw?
    requires Answers(less, db, e.call, e.reply, Effect(db, e.call))
    requires Quiet(less, Effect(db, e.call), run, Resume(run, at, e.reply, e.nowMs), rest, db', outcome)
    ensures Quiet(less, db, run, at, [e] + rest, db', outcome)
  {
    assert ([e] + rest)[1..] == rest;
  }

  // ---------- one call after another ----------

  /** Consecutive undisturbed calls with one stored request id, each starting where the last one ended. */
  ghost predicate QuietCalls(less: Collation, dbs: seq<Db>, runs: seq<Run>, logs: seq<seq<Event>>, outcomes: seq<Outcome>) {
    && |runs| == |logs| == |outcomes| && |dbs| == |runs| + 1
    && forall k | 0 <= k < |runs| ::
         && runs[k].Handler? && runs[k].user == runs[0].user && runs[k].id == runs[0].id
         && SignInStaysRecent(runs[k], logs[k])
         && Quiet(less, dbs[k], runs[k], ReadingRequest, logs[k], dbs[k + 1], outcomes[k])
  }

  /** A call after completion reads the row and answers from it. */
  lemma QuietRetry(less: Collation, db: Db, run: Run, log: seq<Event>, db': Db, outcome: Outcome)
    requires Quiet(less, db, run, ReadingRequest, log, db', outcome) && run.Handler?
    requires run.id in db.rows && db.rows[run.id].user == run.user && db.rows[run.id].phase == Completed
    ensures db' == db && outcome == Deleted(true)
  {
    var e := log[0];
    assert e.reply == Found(db.Read(run.id));
    assert Resume(run, ReadingRequest, e.reply, e.nowMs) == Finished(Deleted(true));
    assert log[1..] == [];
  }

  /** The k-th call: what it answers, and how many objects it leaves. */
  lemma {:induction false} NthCall(less: Collation, dbs: seq<Db>, runs: seq<Run>, logs: seq<seq<Event>>, outcomes: seq<Outcome>, k: nat)
    requires QuietCalls(less, dbs, runs, logs, outcomes) && k < |runs|
    requires Suits(less, runs[0]) && OnTrack(less, dbs[0], runs[0], ReadingRequest)
    ensures
      var count := |Owned(dbs[0], runs[0].user)|;
      && outcomes[k] == (if k < count / HANDLER_CAP then Continue else Deleted(k > count / HANDLER_CAP))
      && |Owned(dbs[k + 1], runs[0].user)| == (if k < count / HANDLER_CAP then count - HANDLER_CAP * (k + 1) else 0)
      && runs[0].id in dbs[k + 1].rows && dbs[k + 1].rows[runs[0].id].user == runs[0].user
      && dbs[k + 1].rows[runs[0].id].phase == (if k < count / HANDLER_CAP then StorageDeleting else Completed)
  {
    var count := |Owned(dbs[0], runs[0].user)|;
    if k > 0 { NthCall(less, dbs, runs, logs, outcomes, k - 1); }
    if k > count / HANDLER_CAP {
      QuietRetry(less, dbs[k], runs[k], logs[k], dbs[k + 1], outcomes[k]);
    } else {
      QuietCall(less, dbs[k], runs[k], ReadingRequest, logs[k], dbs[k + 1], outcomes[k]);
    }
  }
}
