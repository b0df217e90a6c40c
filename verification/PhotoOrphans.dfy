/** No photo object is forgotten: which failures the tombstone protocol survives, and which it does not. */
module PhotoOrphans {
  import opened JsStrings
  import opened PhotoPaths
  import opened PhotoCleanup

  /** Reads succeed, the process lives on, and memory is not dropped while durable writes may fail. */
  predicate Tolerated(f: Faults) {
    !f.readsFail && !f.crash && !(f.writesFail && f.logout)
  }

  /** Where tombstones cannot get lost under these faults. */
  function Vault(f: Faults, s: State): set<Path> {
    if f.writesFail then s.memory + s.durable else s.durable
  }

  /** A job has the path among its additional ones and has not persisted it yet. */
  predicate Carries(s: State, job: Job, p: Path) {
    (job.at.Queued? || job.at.Reading? || job.at.Persisting?) && p in job.extra && IsOwnedPath(s.owner, p)
  }

  ghost predicate Carried(s: State, p: Path) { exists i :: 0 <= i < |s.jobs| && Carries(s, s.jobs[i], p) }

  ghost predicate NoneForgotten(f: Faults, s: State) {
    forall p | p in s.stored && p !in s.live && p !in InFlight(s) :: p in Vault(f, s) || Carried(s, p)
  }

  /** What the job that holds the lock has secured so far. */
  ghost predicate Secured(f: Faults, s: State, job: Job) {
    match job.at
    case Queued => true
    case Reading(snapshot) => f.writesFail ==> snapshot == s.memory
    case Persisting(pending) =>
      s.memory <= pending && s.durable <= pending && OwnedOnly(s.owner, job.extra) <= pending
      && (f.writesFail ==> s.memory == pending)
    case Deleting(pending, _) => s.memory <= pending && s.durable <= pending && Vault(f, s) == pending
    case Acknowledging(pending) => s.memory == {} && s.durable <= pending && pending !! s.stored
  }

  ghost predicate Tracked(f: Faults, s: State) {
    && Safe(s) && NoneForgotten(f, s)
    && (forall p | p in s.used :: IsOwnedPath(s.owner, p))
    && (s.jobs != [] ==> Secured(f, s, s.jobs[0]))
    && QueueInShape(s)
  }

  /** Only the first job has started, only the replacement's job carries paths, and only while awaited. */
  ghost predicate QueueInShape(s: State) {
    && (forall i | 0 < i < |s.jobs| :: s.jobs[i].at.Queued?)
    && (forall i | 0 <= i < |s.jobs| && !s.jobs[i].own :: s.jobs[i].extra == {})
    && (!s.replace.CleaningFirst? && !s.replace.CleaningLast? ==> OwnJobReturned(s))
  }

  // ---------- steps of the job that holds the lock ----------

  lemma OtherJobsStillCarry(s: State, s': State, p: Path, popped: bool)
    requires s.jobs != [] && s'.owner == s.owner
    requires s'.jobs == s.jobs[1..] || (|s'.jobs| == |s.jobs| && s'.jobs[1..] == s.jobs[1..])
    requires popped <==> |s'.jobs| < |s.jobs|
    requires Carried(s, p) && !Carries(s, s.jobs[0], p)
    ensures Carried(s', p)
  {
    var i :| 0 <= i < |s.jobs| && Carries(s, s.jobs[i], p);
    if popped {
      assert s'.jobs[i - 1] == s.jobs[i];
    } else {
      assert s'.jobs[i] == s'.jobs[1..][i - 1] == s.jobs[i];
    }
  }

  lemma ReadForgetsNothing(f: Faults, s: State, ok: bool, s': State)
    requires Tolerated(f) && Tracked(f, s) && Step(f, s, ReadReplied(ok), s')
    ensures NoneForgotten(f, s') && (s'.jobs != [] ==> Secured(f, s', s'.jobs[0]))
  {
    forall p | p in s.durable ensures IsOwnedPath(s.owner, p) { assert Condemned(s, p); }
    var job, pending := s.jobs[0], PendingAfterRead(s, s.jobs[0], ok);
    assert s.durable <= pending && OwnedOnly(s.owner, job.extra) <= pending;
    forall p | p in s'.stored && p !in s'.live && p !in InFlight(s') ensures p in Vault(f, s') || Carried(s', p) {
      if p !in Vault(f, s) {
        if Carries(s, job, p) {
          assert p in pending;
          assert Carries(s', s'.jobs[0], p);
        } else {
          OtherJobsStillCarry(s, s', p, |s'.jobs| < |s.jobs|);
        }
      }
    }
  }

  lemma PersistForgetsNothing(f: Faults, s: State, ok: bool, written: bool, s': State)
    requires Tolerated(f) && Tracked(f, s) && Step(f, s, PersistReplied(ok, written), s')
    ensures NoneForgotten(f, s') && Secured(f, s', s'.jobs[0])
  {
    var pending := s.jobs[0].at.pending;
    assert Vault(f, s) <= Vault(f, s') == pending;
    forall p | p in s'.stored && p !in s'.live && p !in InFlight(s') ensures p in Vault(f, s') || Carried(s', p) {
      if p !in Vault(f, s') { OtherJobsStillCarry(s, s', p, false); }
    }
  }

  lemma RemoveForgetsNothing(f: Faults, s: State, ok: bool, gone: set<Path>, s': State)
    requires Tolerated(f) && Tracked(f, s) && Step(f, s, RemoveReplied(ok, gone), s')
    ensures NoneForgotten(f, s') && (s'.jobs != [] ==> Secured(f, s', s'.jobs[0]))
  {
    forall p | p in s'.stored && p !in s'.live && p !in InFlight(s') ensures p in Vault(f, s') || Carried(s', p) {
      if p !in Vault(f, s') { OtherJobsStillCarry(s, s', p, |s'.jobs| < |s.jobs|); }
    }
  }

  lemma AckForgetsNothing(f: Faults, s: State, ok: bool, cleared: bool, s': State)
    requires Tolerated(f) && Tracked(f, s) && Step(f, s, AckReplied(ok, cleared), s')
    ensures NoneForgotten(f, s') && (s'.jobs != [] ==> Secured(f, s', s'.jobs[0]))
  {
    forall p | p in s'.stored && p !in s'.live && p !in InFlight(s') ensures Carried(s', p) {
      assert p !in Vault(f, s);
      OtherJobsStillCarry(s, s', p, true);
    }
  }

  lemma BeginForgetsNothing(f: Faults, s: State, s': State)
    requires Tracked(f, s) && Step(f, s, BeginJob, s')
    ensures NoneForgotten(f, s') && Secured(f, s', s'.jobs[0])
  {
    forall p | Carried(s, p) ensures Carried(s', p) {
      if Carries(s, s.jobs[0], p) { assert Carries(s', s'.jobs[0], p); } else { OtherJobsStillCarry(s, s', p, false); }
    }
  }

  lemma JobStepKeepsShape(f: Faults, s: State, a: Action, s': State)
    requires QueueInShape(s) && Step(f, s, a, s') && IsJobAction(a)
    ensures QueueInShape(s') && s'.used == s.used && s'.owner == s.owner
  {
    assert s'.replace == s.replace;
    if |s'.jobs| < |s.jobs| {
      assert s'.jobs == s.jobs[1..];
    } else {
      assert s'.jobs[1..] == s.jobs[1..];
      assert s'.jobs[0].own == s.jobs[0].own && s'.jobs[0].extra == s.jobs[0].extra;
      forall i | 0 < i < |s'.jobs| ensures s'.jobs[i] == s.jobs[i] { assert s'.jobs[i] == s'.jobs[1..][i - 1]; }
    }
  }

  lemma JobStepKeepsTracked(f: Faults, s: State, a: Action, s': State)
    requires Tolerated(f) && Tracked(f, s) && Step(f, s, a, s') && IsJobAction(a)
    ensures Tracked(f, s')
  {
    JobStepsKeepSafe(f, s, a, s');
    JobStepKeepsShape(f, s, a, s');
    JobForgetsNothing(f, s, a, s');
  }

  lemma JobForgetsNothing(f: Faults, s: State, a: Action, s': State)
    requires Tolerated(f) && Tracked(f, s) && Step(f, s, a, s') && IsJobAction(a)
    ensures NoneForgotten(f, s') && (s'.jobs != [] ==> Secured(f, s', s'.jobs[0]))
  {
    match a
    case BeginJob => BeginForgetsNothing(f, s, s');
    case ReadReplied(ok) => ReadForgetsNothing(f, s, ok, s');
    case PersistReplied(ok, written) => PersistForgetsNothing(f, s, ok, written, s');
    case RemoveReplied(ok, gone) => RemoveForgetsNothing(f, s, ok, gone, s');
    case AckReplied(ok, cleared) => AckForgetsNothing(f, s, ok, cleared, s');
  }

  // ---------- steps of the replacement and of everyone else ----------

  lemma EnqueueCarries(s: State, extra: set<Path>, own: bool, p: Path)
    requires Carried(s, p) || (p in extra && IsOwnedPath(s.owner, p))
    ensures Carried(Enqueue(s, extra, own), p)
  {
    var s' := Enqueue(s, extra, own);
    if Carried(s, p) {
      var i :| 0 <= i < |s.jobs| && Carries(s, s.jobs[i], p);
      assert s'.jobs[i] == s.jobs[i];
    } else {
      assert Carries(s', s'.jobs[|s.jobs|], p);
    }
  }

  /** `s'` differs from `s` in the photos, and at most queues the paths it stops watching over. */
  lemma QueueingForgetsNothing(f: Faults, s: State, extra: set<Path>, own: bool, s': State)
    requires Tracked(f, s) && Safe(s')
    requires s'.owner == s.owner && s'.memory == s.memory && s'.durable == s.durable
    requires s'.jobs == s.jobs + [Job(extra, Queued, own)] && (!own ==> extra == {})
    requires (own && (s'.replace.CleaningFirst? || s'.replace.CleaningLast?)) || (!own && s'.replace == s.replace)
    requires s.used <= s'.used && (forall p | p in s'.used :: IsOwnedPath(s.owner, p)) && s'.stored == s.stored
    requires forall p | p in s.live + InFlight(s) && p !in s'.live + InFlight(s') :: p in extra
    ensures Tracked(f, s')
  {
    forall p | p in s'.stored && p !in s'.live && p !in InFlight(s') ensures p in Vault(f, s') || Carried(s', p) {
      if p !in Vault(f, s) {
        EnqueueCarries(s, extra, own, p);
        var i :| 0 <= i < |Enqueue(s, extra, own).jobs| && Carries(s, Enqueue(s, extra, own).jobs[i], p);
        assert s'.jobs[i] == Enqueue(s, extra, own).jobs[i];
      }
    }
    if s.jobs != [] { assert s'.jobs[0] == s.jobs[0]; }
    forall i | 0 < i < |s'.jobs| ensures s'.jobs[i].at.Queued? {}
  }

  /** `s'` differs from `s` only in the photos, and watches over at least as much. */
  lemma WatchingForgetsNothing(f: Faults, s: State, s': State)
    requires Tracked(f, s) && Safe(s')
    requires s'.owner == s.owner && s'.memory == s.memory && s'.durable == s.durable && s'.jobs == s.jobs
    requires s.used <= s'.used && (forall p | p in s'.used :: IsOwnedPath(s.owner, p))
    requires s'.stored <= s.stored + InFlight(s') && s.live + InFlight(s) <= s'.live + InFlight(s')
    requires !s'.replace.CleaningFirst? && !s'.replace.CleaningLast? ==> OwnJobReturned(s)
    requires s'.stored - s.stored <= s'.used - s.used
    ensures Tracked(f, s')
  {
    forall p | p in s'.stored && p !in s'.live && p !in InFlight(s') ensures p in Vault(f, s') || Carried(s', p) {
      if p !in Vault(f, s) {
        var i :| 0 <= i < |s.jobs| && Carries(s, s.jobs[i], p);
        assert Carries(s', s'.jobs[i], p);
      }
    }
    if s.jobs != [] && s.jobs[0].at.Acknowledging? {
      forall p | p in s.jobs[0].at.pending ensures p !in s'.stored { assert p in JobPaths(s.jobs[0]); assert Condemned(s, p); }
    }
  }

  lemma RollBackKeepsTracked(f: Faults, s: State, photos: seq<Photo>, paths: seq<Path>)
    requires Tracked(f, s) && (s.replace.Uploading? || s.replace.Committing?)
    requires s.replace.photos == photos && s.replace.paths == paths
    ensures Tracked(f, RollBack(s, photos, paths))
  {
    RollBackKeepsSafe(s, photos, paths);
    var s' := RollBack(s, photos, paths);
    if NewPaths(photos, paths) == {} {
      WatchingForgetsNothing(f, s, s');
    } else {
      QueueingForgetsNothing(f, s, NewPaths(photos, paths), true, s');
    }
  }

  lemma NewPathIsWatched(photos: seq<Photo>, paths: seq<Path>, path: Path)
    requires Existing(path) !in photos
    ensures NewPaths(photos, paths + [path]) == NewPaths(photos, paths) + {path}
  {
  }

  lemma UploadKeepsTracked(f: Faults, s: State, path: Path, s': State)
    requires Tracked(f, s) && Step(f, s, NextPhoto(true, path), s') && s.replace.photos[|s.replace.paths|].New?
    ensures Tracked(f, s')
  {
    PhotoKeepsSafe(s, true, path);
    var Uploading(photos, paths) := s.replace;
    assert forall i | 0 <= i < |photos| && photos[i].Existing? :: photos[i].path in s.used;
    NewPathIsWatched(photos, paths, path);
    assert InFlight(s') == NewPaths(photos, paths + [path]);
    WatchingForgetsNothing(f, s, s');
  }

  lemma FailedUploadKeepsTracked(f: Faults, s: State, path: Path)
    requires Tracked(f, s) && s.replace.Uploading? && IsOwnedPath(s.owner, path)
    ensures Tracked(f, RollBack(s.(used := s.used + {path}), s.replace.photos, s.replace.paths))
  {
    var t := s.(used := s.used + {path});
    assert Safe(t) by { assert forall p | Condemned(t, p) :: Condemned(s, p); }
    WatchingForgetsNothing(f, s, t);
    RollBackKeepsTracked(f, t, s.replace.photos, s.replace.paths);
  }

  lemma ExistingPhotoKeepsTracked(f: Faults, s: State, a: Action, s': State)
    requires Tracked(f, s) && Step(f, s, a, s') && a.NextPhoto? && s.replace.photos[|s.replace.paths|].Existing?
    ensures Tracked(f, s')
  {
    PhotoKeepsSafe(s, a.ok, a.path);
    var Uploading(photos, paths) := s.replace;
    var p := photos[|paths|].path;
    if IsOwnUploadPath(s.owner, p) {
      assert InFlight(s') == NewPaths(photos, paths + [p]) == NewPaths(photos, paths);
      WatchingForgetsNothing(f, s, s');
    } else {
      RollBackKeepsTracked(f, s, photos, paths);
    }
  }

  lemma PhotoStepKeepsTracked(f: Faults, s: State, a: Action, s': State)
    requires Tracked(f, s) && Step(f, s, a, s') && a.NextPhoto?
    ensures Tracked(f, s')
  {
    if s.replace.photos[|s.replace.paths|].Existing? {
      ExistingPhotoKeepsTracked(f, s, a, s');
    } else if a.ok {
      UploadKeepsTracked(f, s, a.path, s');
    } else {
      FailedUploadKeepsTracked(f, s, a.path);
    }
  }

  lemma CommitKeepsTracked(f: Faults, s: State, ok: bool)
    requires Tracked(f, s) && s.replace.Committing?
    ensures Tracked(f, AfterCommit(s, ok))
  {
    CommitKeepsSafe(s, ok);
    if ok {
      QueueingForgetsNothing(f, s, s.live - PathSet(s.replace.paths), true, AfterCommit(s, ok));
    } else {
      RollBackKeepsTracked(f, s, s.replace.photos, s.replace.paths);
    }
  }

  lemma OtherStepKeepsTracked(f: Faults, s: State, a: Action, s': State)
    requires Tolerated(f) && Tracked(f, s) && Step(f, s, a, s')
    requires a.OpenProfile? || a.StartReplace? || a.OwnJobDone? || a.Logout? || a.Crash?
    ensures Tracked(f, s')
  {
    OtherStepsKeepSafe(f, s, a, s');
    match a
    case OpenProfile => QueueingForgetsNothing(f, s, {}, false, s');
    case StartReplace(_) => QueueingForgetsNothing(f, s, {}, true, s');
    case OwnJobDone => WatchingForgetsNothing(f, s, s');
    case Logout =>
      forall p | p in s'.stored && p !in s'.live && p !in InFlight(s') ensures p in Vault(f, s') || Carried(s', p) {
        if p !in Vault(f, s) {
          var i :| 0 <= i < |s.jobs| && Carries(s, s.jobs[i], p);
          assert Carries(s', s'.jobs[i], p);
        }
      }
    case Crash =>
  }

  lemma StepKeepsTracked(f: Faults, s: State, a: Action, s': State)
    requires Tolerated(f) && Tracked(f, s) && Step(f, s, a, s')
    ensures Tracked(f, s')
  {
    match a
    case NextPhoto(_, _) => PhotoStepKeepsTracked(f, s, a, s');
    case CommitReplied(ok) => CommitKeepsTracked(f, s, ok);
    case _ => if IsJobAction(a) { JobStepKeepsTracked(f, s, a, s'); } else { OtherStepKeepsTracked(f, s, a, s'); }
  }

  lemma {:induction false} AlwaysTracked(f: Faults, states: seq<State>, actions: seq<Action>, i: nat)
    requires Tolerated(f) && IsRun(f, states, actions) && i < |states|
    ensures Tracked(f, states[i])
  {
    if i > 0 {
      AlwaysTracked(f, states, actions, i - 1);
      StepKeepsTracked(f, states[i - 1], actions[i - 1], states[i]);
    }
  }

  /**
   Whenever no replacement is under way (it returned, or it threw), every stored object is live or has a
   tombstone that survives.
   */
  lemma NothingIsOrphaned(f: Faults, states: seq<State>, actions: seq<Action>, i: nat)
    requires Tolerated(f) && IsRun(f, states, actions) && i < |states|
    requires states[i].replace.Idle?
    ensures states[i].stored <= states[i].live + Vault(f, states[i])
    ensures states[i].stored <= states[i].live + states[i].memory + states[i].durable
  {
    AlwaysTracked(f, states, actions, i);
  }

  // ---------- what the tolerated faults leave out ----------

  /** Stored, not live, and nothing will ever delete it: no tombstone and no job names it, no upload is under way. */
  ghost predicate Orphaned(s: State, p: Path) {
    p in s.stored && p !in s.live && p !in InFlight(s) && !Condemned(s, p)
  }

  lemma OrphanSurvivesReplacement(f: Faults, s: State, a: Action, s': State, p: Path)
    requires Safe(s) && Step(f, s, a, s') && Orphaned(s, p) && p in s.used && (a.NextPhoto? || a.CommitReplied?)
    ensures Orphaned(s', p)
  {
    var photos, paths := s.replace.photos, s.replace.paths;
    if s.replace.Committing? && a.ok {
      EnqueueCondemns(s.(live := PathSet(paths)), s.live - PathSet(paths), true, p);
      assert Condemned(s.(live := PathSet(paths)), p) <==> Condemned(s, p);
    } else {
      var t := s.(used := s'.used);
      assert Condemned(t, p) <==> Condemned(s, p);
      EnqueueCondemns(t, NewPaths(photos, paths), true, p);
      assert forall i | 0 <= i < |photos| && photos[i].Existing? :: photos[i].path in s.live;
    }
  }

  /** Under any faults an orphan stays one: no action of anybody deletes it, records it or makes it live. */
  lemma OrphanStays(f: Faults, s: State, a: Action, s': State, p: Path)
    requires Safe(s) && Step(f, s, a, s') && Orphaned(s, p) && p in s.used
    ensures Orphaned(s', p) && p in s'.used
  {
    if IsJobAction(a) {
      if Condemned(s', p) { JobCondemnsNothingNew(f, s, a, s', p); }
      if a.RemoveReplied? { assert s.stored - s'.stored <= JobPaths(s.jobs[0]); }
    } else if a.NextPhoto? || a.CommitReplied? {
      OrphanSurvivesReplacement(f, s, a, s', p);
    } else {
      EnqueueCondemns(s, {}, false, p);
      EnqueueCondemns(s, {}, true, p);
    }
  }

  lemma {:induction false} StoredAreUsed(f: Faults, states: seq<State>, actions: seq<Action>, i: nat)
    requires IsRun(f, states, actions) && i < |states|
    ensures states[i].stored <= states[i].used
  {
    if i > 0 {
      StoredAreUsed(f, states, actions, i - 1);
      assert Step(f, states[i - 1], actions[i - 1], states[i]);
    }
  }

  lemma OrphanStaysInRun(f: Faults, states: seq<State>, actions: seq<Action>, i: nat, p: Path)
    requires IsRun(f, states, actions) && i < |actions| && Orphaned(states[i], p)
    ensures Orphaned(states[i + 1], p)
  {
    AlwaysSafe(f, states, actions, i);
    StoredAreUsed(f, states, actions, i);
    var s, a, s' := states[i], actions[i], states[i + 1];
    OrphanStays(f, s, a, s', p);
  }

  /** Over a whole run: what is orphaned once is stored, dead and unknown from then on. */
  lemma {:induction false} OrphanedForGood(f: Faults, states: seq<State>, actions: seq<Action>, i: nat, j: nat, p: Path)
    requires IsRun(f, states, actions) && i <= j < |states| && Orphaned(states[i], p)
    ensures Orphaned(states[j], p)
  {
    if i < j {
      hide IsRun, Orphaned, Step;
      OrphanedForGood(f, states, actions, i, j - 1, p);
      OrphanStaysInRun(f, states, actions, j - 1, p);
    }
  }

  /** Another job than the first names the path. */
  ghost predicate NamedLater(s: State, p: Path) { exists i :: 0 < i < |s.jobs| && p in JobPaths(s.jobs[i]) }

  lemma CondemnedAfterFirst(s: State, p: Path)
    requires s.jobs != []
    ensures Condemned(s, p) <==> p in s.memory || p in s.durable || p in JobPaths(s.jobs[0]) || NamedLater(s, p)
  {
  }

  /**
   A failed read: the next write of the record orphans exactly the tombstones that were only there, not in
   memory when the job began, not among the job's own paths, and not named by a waiting job.
   */
  lemma FailedReadForgets(f: Faults, s: State, s': State, s'': State, p: Path)
    requires Safe(s) && s.jobs != [] && s.jobs[0].at.Reading?
    requires p in s.stored && (p in s.memory || p in s.durable)
    requires Step(f, s, ReadReplied(false), s') && |s'.jobs| == |s.jobs| && Step(f, s', PersistReplied(true, true), s'')
    ensures Orphaned(s'', p) <==> p !in s.jobs[0].at.snapshot && p !in s.jobs[0].extra && !NamedLater(s, p)
  {
    CondemnedAfterFirst(s, p);
    CondemnedAfterFirst(s'', p);
    assert s''.jobs[1..] == s.jobs[1..];
    assert forall i | 0 < i < |s.jobs| :: s''.jobs[i] == s''.jobs[1..][i - 1] == s.jobs[1..][i - 1] == s.jobs[i];
  }

  /**
   A failed write, a logout, and a storage service that refuses twice: of the paths that job was to delete,
   exactly those are orphaned that no try removed, the old record did not hold and no waiting job names.
   */
  lemma FailedWriteThenLogoutForgets(f: Faults, s: State, s1: State, s2: State, s3: State, s4: State,
                                     gone: set<Path>, more: set<Path>, p: Path)
    requires Safe(s) && s.jobs != [] && s.jobs[0].at.Persisting? && p in s.jobs[0].at.pending && p in s.stored
    requires Step(f, s, PersistReplied(false, false), s1) && Step(f, s1, Logout, s2)
    requires Step(f, s2, RemoveReplied(false, gone), s3) && Step(f, s3, RemoveReplied(false, more), s4)
    ensures Orphaned(s4, p) <==> p !in gone && p !in more && p !in s.durable && !NamedLater(s, p)
  {
    assert Condemned(s, p) by { assert p in JobPaths(s.jobs[0]); }
    assert s4.jobs == s.jobs[1..] && s4.memory == {} && s4.durable == s.durable;
    if NamedLater(s, p) {
      var i :| 0 < i < |s.jobs| && p in JobPaths(s.jobs[i]);
      assert s4.jobs[i - 1] == s.jobs[i];
    }
    if i :| 0 <= i < |s4.jobs| && p in JobPaths(s4.jobs[i]) {
      assert s4.jobs[i] == s.jobs[i + 1];
    }
  }

  /** What a crash at this point would orphan: uploads under way, and dead paths that the record does not hold yet. */
  ghost predicate AtRisk(f: Faults, s: State, p: Path) {
    || p in InFlight(s)
    || (p !in s.live && p !in s.durable && (Carried(s, p) || (f.writesFail && p in s.memory)))
  }

  /** A crash orphans exactly the stored paths at risk, whatever was going on. */
  lemma CrashOrphans(f: Faults, s: State, s': State, p: Path)
    requires Tolerated(f.(crash := false)) && Tracked(f.(crash := false), s) && Step(f, s, Crash, s') && p in s.stored
    ensures Orphaned(s', p) <==> AtRisk(f, s, p)
  {
    if p in InFlight(s) {
      assert !Condemned(s, p);
    }
  }

  /**
   So a crash is harmless exactly when nothing is in flight and every stored dead path that a job carries is on
   record already (where writes may fail, also every one in memory).
   */
  lemma CrashIsHarmlessExactlyWhen(f: Faults, s: State, s': State)
    requires Tolerated(f.(crash := false)) && Tracked(f.(crash := false), s) && Step(f, s, Crash, s')
    ensures
      (forall p | p in s'.stored :: !Orphaned(s', p))
      <==> InFlight(s) == {}
           && (forall p | p in s.stored - s.live && Carried(s, p) :: p in s.durable)
           && (f.writesFail ==> forall p | p in s.stored - s.live && p in s.memory :: p in s.durable)
  {
    forall p | p in s.stored ensures Orphaned(s', p) <==> AtRisk(f, s, p) { CrashOrphans(f, s, s', p); }
    if p :| p in InFlight(s) {
      assert AtRisk(f, s, p);
    }
    forall p | p in s.stored && !AtRisk(f, s, p) && p !in s.live && Carried(s, p) ensures p in s.durable {}
  }

  /** In particular, between the commit and the first write after it: every replaced photo. */
  lemma CrashAfterCommitOrphansReplacedPhotos(f: Faults, s: State, s': State, s'': State, p: Path)
    requires Safe(s) && s.replace.Committing? && Step(f, s, CommitReplied(true), s') && Step(f, s', Crash, s'')
    requires p in s.stored && p !in PathSet(s.replace.paths)
    ensures Orphaned(s'', p) <==> p !in s.durable
    ensures p in s.live ==> Orphaned(s'', p)
  {
    if p in s.live { assert !Condemned(s, p); }
  }

  /**
   If the server committed but the reply said it had not, the rollback condemns live photos, exactly when
   the replacement brought new ones. (`Step` therefore assumes an error means "not committed".)
   */
  lemma LostCommitReplyIsUnsafe(s: State)
    requires Safe(s) && s.replace.Committing?
    ensures
      var photos, paths := s.replace.photos, s.replace.paths;
      Safe(RollBack(s.(live := PathSet(paths)), photos, paths)) <==> NewPaths(photos, paths) == {}
  {
    var photos, paths := s.replace.photos, s.replace.paths;
    var t := s.(live := PathSet(paths));
    var s' := RollBack(t, photos, paths);
    var fresh_ := NewPaths(photos, paths);
    if fresh_ != {} {
      var p :| p in fresh_;
      EnqueueCondemns(t, fresh_, true, p);
      assert Condemned(s', p) by {
        assert Condemned(Enqueue(t, fresh_, true), p);
        assert s'.jobs == Enqueue(t, fresh_, true).jobs;
      }
    } else {
      forall p | Condemned(s', p) ensures Condemned(s, p) {}
    }
  }

  /** Stopping between the deletion and its acknowledgement leaves only tombstones of objects already gone. */
  lemma StopBeforeAcknowledgementIsHarmless(f: Faults, s: State, s': State)
    requires Tracked(f, s) && s.jobs != [] && s.jobs[0].at.Acknowledging?
    requires Step(f.(crash := true), s, Crash, s')
    ensures (s'.memory + s'.durable) !! s'.stored && s'.live == s.live && s'.live <= s'.stored
  {
  }
}
