/**
 One owner's profile photos: the objects in the bucket, the rows that make a photo live, and the
 tombstones (in memory and in secure storage) of objects still to be deleted. Cleanup jobs run one at a
 time in call order (`PhotoLock`); a replacement, other cleanups, a logout and a crash interleave freely.
 Every action is the code between two awaits, with the reply it was waiting for.
 */
module PhotoCleanup {
  import opened JsStrings
  import opened PhotoPaths

  datatype Photo = Existing(path: Path) | New

  datatype JobAt =
    | Queued
    | Reading(snapshot: set<Path>)                     // secureStorage.getItem
    | Persisting(pending: set<Path>)                   // secureStorage.setItem
    | Deleting(pending: set<Path>, attempt: nat)       // storage.remove
    | Acknowledging(pending: set<Path>)                // secureStorage.removeItem

  /** One call of the cleanup: `extra` are the additional paths, `own` says the replacement awaits it. */
  datatype Job = Job(extra: set<Path>, at: JobAt, own: bool)

  datatype Replace =
    | Idle
    | CleaningFirst(photos: seq<Photo>)
    | Uploading(photos: seq<Photo>, paths: seq<Path>)    // photos[|paths|] is next
    | Committing(photos: seq<Photo>, paths: seq<Path>)   // the replace_profile_photos call
    | CleaningLast                                       // the removed paths, or the rolled-back ones

  datatype State = State(
    owner: JsString,
    stored: set<Path>,      // objects in the bucket
    live: set<Path>,        // storage_path of the profile_photos rows
    used: set<Path>,        // every path that was ever given out
    memory: set<Path>,      // inMemoryPhotoCleanup
    durable: set<Path>,     // the paths of the secure-storage record
    jobs: seq<Job>,         // lock queue: only the first may be past Queued
    replace: Replace)

  /** Which failures the environment is allowed. */
  datatype Faults = Faults(readsFail: bool, writesFail: bool, logout: bool, crash: bool)

  datatype Action =
    | OpenProfile                                    // getProfile queues a cleanup
    | BeginJob
    | ReadReplied(ok: bool)
    | PersistReplied(ok: bool, written: bool)
    | RemoveReplied(ok: bool, gone: set<Path>)
    | AckReplied(ok: bool, cleared: bool)
    | StartReplace(photos: seq<Photo>)
    | OwnJobDone                                     // the replacement's awaited cleanup has returned
    | NextPhoto(ok: bool, path: Path)                // an existing path is checked, or an upload replied
    | CommitReplied(ok: bool)
    | Logout
    | Crash

  // ---------- the cleanup job ----------

  function OwnedOnly(owner: JsString, paths: set<Path>): set<Path> {
    set p | p in paths && IsOwnedPath(owner, p)
  }

  /** After the read: memory, the record's owned paths and the owned additional paths together. */
  function PendingAfterRead(s: State, job: Job, ok: bool): set<Path>
    requires job.at.Reading?
  {
    job.at.snapshot + (if ok then OwnedOnly(s.owner, s.durable) else {}) + OwnedOnly(s.owner, job.extra)
  }

  function SetFirst(s: State, at: JobAt): State
    requires s.jobs != []
  {
    s.(jobs := [s.jobs[0].(at := at)] + s.jobs[1..])
  }

  /** The job returns and the lock passes on. */
  function PopFirst(s: State): State
    requires s.jobs != []
  {
    s.(jobs := s.jobs[1..])
  }

  function AfterRead(s: State, ok: bool): State
    requires s.jobs != [] && s.jobs[0].at.Reading?
  {
    var pending := PendingAfterRead(s, s.jobs[0], ok);
    if pending == {} then PopFirst(s) else SetFirst(s, Persisting(pending)).(memory := pending)
  }

  function AfterRemove(s: State, ok: bool, gone: set<Path>): State
    requires s.jobs != [] && s.jobs[0].at.Deleting?
  {
    var Deleting(pending, attempt) := s.jobs[0].at;
    if ok then SetFirst(s, Acknowledging(pending)).(stored := s.stored - pending, memory := {})
    else if attempt == 0 then SetFirst(s, Deleting(pending, 1)).(stored := s.stored - gone)
    else PopFirst(s).(stored := s.stored - gone)
  }

  // ---------- the replacement ----------

  function Enqueue(s: State, extra: set<Path>, own: bool): State {
    s.(jobs := s.jobs + [Job(extra, Queued, own)])
  }

  /** `paths` without the ones that some photo names as existing. */
  function NewPaths(photos: seq<Photo>, paths: seq<Path>): set<Path> {
    set p | p in paths && !exists i :: 0 <= i < |photos| && photos[i] == Existing(p)
  }

  /** The catch block of an uncommitted replacement: queue the new paths, if any, and rethrow. */
  function RollBack(s: State, photos: seq<Photo>, paths: seq<Path>): State {
    var fresh_ := NewPaths(photos, paths);
    if fresh_ == {} then s.(replace := Idle) else Enqueue(s, fresh_, true).(replace := CleaningLast)
  }

  /** The replacement's cleanup has left the queue. */
  predicate OwnJobReturned(s: State) { forall i | 0 <= i < |s.jobs| :: !s.jobs[i].own }

  function AfterPhotos(photos: seq<Photo>, paths: seq<Path>): Replace {
    if |paths| < |photos| then Uploading(photos, paths) else Committing(photos, paths)
  }

  function AfterNextPhoto(s: State, ok: bool, path: Path): State
    requires s.replace.Uploading? && |s.replace.paths| < |s.replace.photos|
  {
    var Uploading(photos, paths) := s.replace;
    match photos[|paths|]
    case Existing(p) =>
      if IsOwnUploadPath(s.owner, p) then s.(replace := AfterPhotos(photos, paths + [p])) else RollBack(s, photos, paths)
    case New =>
      if ok then s.(stored := s.stored + {path}, used := s.used + {path}, replace := AfterPhotos(photos, paths + [path]))
      else RollBack(s.(used := s.used + {path}), photos, paths)
  }

  function PathSet(paths: seq<Path>): set<Path> { set p | p in paths }

  function AfterCommit(s: State, ok: bool): State
    requires s.replace.Committing?
  {
    var Committing(photos, paths) := s.replace;
    if ok then Enqueue(s.(live := PathSet(paths)), s.live - PathSet(paths), true).(replace := CleaningLast)
    else RollBack(s, photos, paths)
  }

  // ---------- the system ----------

  ghost predicate Step(f: Faults, s: State, a: Action, s': State) {
    match a
    case OpenProfile => s' == Enqueue(s, {}, false)
    case BeginJob => s.jobs != [] && s.jobs[0].at.Queued? && s' == SetFirst(s, Reading(s.memory))
    case ReadReplied(ok) => s.jobs != [] && s.jobs[0].at.Reading? && (ok || f.readsFail) && s' == AfterRead(s, ok)
    case PersistReplied(ok, written) =>
      && s.jobs != [] && s.jobs[0].at.Persisting? && (ok || f.writesFail) && (ok ==> written)
      && var pending := s.jobs[0].at.pending;
      && s' == SetFirst(s, Deleting(pending, 0)).(durable := if written then pending else s.durable)
    case RemoveReplied(ok, gone) =>
      && s.jobs != [] && s.jobs[0].at.Deleting? && gone <= s.jobs[0].at.pending
      && s' == AfterRemove(s, ok, gone)
    case AckReplied(ok, cleared) =>
      && s.jobs != [] && s.jobs[0].at.Acknowledging? && (ok ==> cleared)
      && s' == PopFirst(s).(durable := if cleared then {} else s.durable)
    case StartReplace(photos) =>
      // The photos said to exist are live ones: the caller shows what the server returned.
      && s.replace.Idle? && 3 <= |photos| <= 6
      && ExistingAreLive(photos, s.live)
      && s' == Enqueue(s, {}, true).(replace := CleaningFirst(photos))
    case OwnJobDone =>
      && OwnJobReturned(s)
      && ((s.replace.CleaningFirst? && s' == s.(replace := Uploading(s.replace.photos, [])))
          || (s.replace.CleaningLast? && s' == s.(replace := Idle)))
    case NextPhoto(ok, path) =>
      && s.replace.Uploading? && |s.replace.paths| < |s.replace.photos|
      && (s.replace.photos[|s.replace.paths|].New? ==> path !in s.used && IsOwnedPath(s.owner, path))
      && s' == AfterNextPhoto(s, ok, path)
    case CommitReplied(ok) =>
      && s.replace.Committing? && (ok ==> |PathSet(s.replace.paths)| == |s.replace.paths|)
      && s' == AfterCommit(s, ok)
    case Logout => f.logout && s' == s.(memory := {})
    case Crash => f.crash && s' == s.(memory := {}, jobs := [], replace := Idle)
  }

  ghost predicate IsStart(s: State) {
    && s.jobs == [] && s.replace == Idle && s.memory == {}
    && s.live <= s.stored && s.stored <= s.used && s.durable <= s.used && s.durable !! s.live
    && s.stored <= s.live + s.durable
    && forall p | p in s.used :: IsOwnedPath(s.owner, p)
  }

  ghost predicate IsRun(f: Faults, states: seq<State>, actions: seq<Action>) {
    && |states| == |actions| + 1 && IsStart(states[0])
    && forall i | 0 <= i < |actions| :: Step(f, states[i], actions[i], states[i + 1])
  }

  // ---------- safety: a tombstone never names a live photo ----------

  /** Uploaded for the replacement that is under way, and not committed. */
  function InFlight(s: State): set<Path> {
    if s.replace.Uploading? || s.replace.Committing? then NewPaths(s.replace.photos, s.replace.paths) else {}
  }

  /** All paths a job will delete or may still come to delete. */
  function JobPaths(job: Job): set<Path> {
    job.extra + match job.at
                case Queued => {}
                case Reading(snapshot) => snapshot
                case Persisting(pending) => pending
                case Deleting(pending, _) => pending
                case Acknowledging(pending) => pending
  }

  ghost predicate Condemned(s: State, p: Path) {
    p in s.memory || p in s.durable || exists i :: 0 <= i < |s.jobs| && p in JobPaths(s.jobs[i])
  }

  function ReplacePhotos(r: Replace): seq<Photo> {
    match r
    case CleaningFirst(photos) => photos
    case Uploading(photos, _) => photos
    case Committing(photos, _) => photos
    case _ => []
  }

  ghost predicate ExistingAreLive(photos: seq<Photo>, live: set<Path>) {
    forall i | 0 <= i < |photos| && photos[i].Existing? :: photos[i].path in live
  }

  ghost predicate Safe(s: State) {
    && (forall p | Condemned(s, p) :: p !in s.live && p !in InFlight(s) && p in s.used)
    && s.live <= s.stored && s.live <= s.used
    && InFlight(s) <= s.stored && InFlight(s) !! s.live && InFlight(s) <= s.used
    && ExistingAreLive(ReplacePhotos(s.replace), s.live)
    && (s.replace.CleaningFirst? ==> s.replace.photos != [])
    && (s.replace.Uploading? || s.replace.Committing? ==>
          forall p | p in s.replace.paths :: p in s.live || p in InFlight(s))
    && (s.replace.Uploading? ==> |s.replace.paths| < |s.replace.photos|)
  }

  predicate IsJobAction(a: Action) {
    a.BeginJob? || a.ReadReplied? || a.PersistReplied? || a.RemoveReplied? || a.AckReplied?
  }

  lemma OtherJobsStay(f: Faults, s: State, a: Action, s': State, i: nat)
    requires IsJobAction(a) && Step(f, s, a, s') && i < |s'.jobs|
    ensures |s'.jobs| == |s.jobs| || |s'.jobs| == |s.jobs| - 1
    ensures |s'.jobs| == |s.jobs| && i > 0 ==> s'.jobs[i] == s.jobs[i]
    ensures |s'.jobs| == |s.jobs| - 1 ==> s'.jobs[i] == s.jobs[i + 1]
  {
  }

  /** A cleanup job only ever works on paths that were condemned before. */
  lemma JobCondemnsNothingNew(f: Faults, s: State, a: Action, s': State, p: Path)
    requires IsJobAction(a) && Step(f, s, a, s') && Condemned(s', p)
    ensures Condemned(s, p)
  {
    if p in JobPaths(s.jobs[0]) || p in s.memory || p in s.durable {
    } else {
      var i :| 0 <= i < |s'.jobs| && p in JobPaths(s'.jobs[i]);
      OtherJobsStay(f, s, a, s', i);
    }
  }

  lemma JobStepsKeepSafe(f: Faults, s: State, a: Action, s': State)
    requires Safe(s) && Step(f, s, a, s') && IsJobAction(a)
    ensures Safe(s')
  {
    assert s'.live == s.live && s'.used == s.used && s'.replace == s.replace;
    forall p | Condemned(s', p) ensures Condemned(s, p) { JobCondemnsNothingNew(f, s, a, s', p); }
    if a.RemoveReplied? {
      forall p | p in JobPaths(s.jobs[0]) ensures Condemned(s, p) {}
      assert s.stored - s'.stored <= JobPaths(s.jobs[0]);
    } else {
      assert s'.stored == s.stored;
    }
  }

  /** Queueing a job condemns its additional paths and nothing else. */
  lemma EnqueueCondemns(s: State, extra: set<Path>, own: bool, p: Path)
    ensures Condemned(Enqueue(s, extra, own), p) <==> Condemned(s, p) || p in extra
  {
    var s' := Enqueue(s, extra, own);
    var last := |s.jobs|;
    assert s'.jobs[last] == Job(extra, Queued, own);
    if Condemned(s, p) && p !in s.memory && p !in s.durable {
      var i :| 0 <= i < |s.jobs| && p in JobPaths(s.jobs[i]);
      assert s'.jobs[i] == s.jobs[i];
    }
    if p in extra { assert p in JobPaths(s'.jobs[last]); }
  }

  lemma RollBackKeepsSafe(s: State, photos: seq<Photo>, paths: seq<Path>)
    requires Safe(s) && InFlight(s) == NewPaths(photos, paths)
    ensures Safe(RollBack(s, photos, paths))
  {
    var fresh_ := NewPaths(photos, paths);
    forall p ensures Condemned(Enqueue(s, fresh_, true), p) <==> Condemned(s, p) || p in fresh_ {
      EnqueueCondemns(s, fresh_, true, p);
    }
    var s' := RollBack(s, photos, paths);
    forall p | Condemned(s', p) ensures p !in s'.live && p !in InFlight(s') && p in s'.used {
      assert Condemned(Enqueue(s, fresh_, true), p) || Condemned(s, p);
    }
  }

  lemma CommitKeepsSafe(s: State, ok: bool)
    requires Safe(s) && s.replace.Committing?
    ensures Safe(AfterCommit(s, ok))
  {
    var Committing(photos, paths) := s.replace;
    if ok {
      var t := s.(live := PathSet(paths));
      var extra := s.live - PathSet(paths);
      var s' := AfterCommit(s, ok);
      forall p | Condemned(s', p) ensures p !in s'.live && p in s'.used {
        EnqueueCondemns(t, extra, true, p);
        assert Condemned(t, p) ==> Condemned(s, p);
      }
    } else {
      RollBackKeepsSafe(s, photos, paths);
    }
  }

  lemma PhotoKeepsSafe(s: State, ok: bool, path: Path)
    requires Safe(s) && s.replace.Uploading?
    requires s.replace.photos[|s.replace.paths|].New? ==> path !in s.used
    ensures Safe(AfterNextPhoto(s, ok, path))
  {
    var Uploading(photos, paths) := s.replace;
    var s' := AfterNextPhoto(s, ok, path);
    if photos[|paths|].New? && !ok {
      var t := s.(used := s.used + {path});
      assert forall p | Condemned(t, p) :: Condemned(s, p);
      RollBackKeepsSafe(t, photos, paths);
    } else if photos[|paths|].New? {
      assert forall p | Condemned(s', p) :: Condemned(s, p);
      assert forall i | 0 <= i < |photos| && photos[i].Existing? :: photos[i].path in s.used;
      assert NewPaths(photos, paths + [path]) == NewPaths(photos, paths) + {path};
      assert ReplacePhotos(s'.replace) == photos;
    } else if IsOwnUploadPath(s.owner, photos[|paths|].path) {
      assert forall p | Condemned(s', p) :: Condemned(s, p);
      assert NewPaths(photos, paths + [photos[|paths|].path]) == NewPaths(photos, paths);
      assert ReplacePhotos(s'.replace) == photos;
    } else {
      RollBackKeepsSafe(s, photos, paths);
    }
  }

  lemma OtherStepsKeepSafe(f: Faults, s: State, a: Action, s': State)
    requires Safe(s) && Step(f, s, a, s')
    requires a.OpenProfile? || a.StartReplace? || a.OwnJobDone? || a.Logout? || a.Crash?
    ensures Safe(s')
  {
    forall p | Condemned(s', p) ensures Condemned(s, p) {
      EnqueueCondemns(s, {}, a.StartReplace?, p);
    }
  }

  lemma StepKeepsSafe(f: Faults, s: State, a: Action, s': State)
    requires Safe(s) && Step(f, s, a, s')
    ensures Safe(s')
  {
    match a
    case NextPhoto(ok, path) => PhotoKeepsSafe(s, ok, path);
    case CommitReplied(ok) => CommitKeepsSafe(s, ok);
    case OpenProfile => OtherStepsKeepSafe(f, s, a, s');
    case StartReplace(_) => OtherStepsKeepSafe(f, s, a, s');
    case OwnJobDone => OtherStepsKeepSafe(f, s, a, s');
    case Logout => OtherStepsKeepSafe(f, s, a, s');
    case Crash => OtherStepsKeepSafe(f, s, a, s');
    case _ => JobStepsKeepSafe(f, s, a, s');
  }

  lemma {:induction false} AlwaysSafe(f: Faults, states: seq<State>, actions: seq<Action>, i: nat)
    requires IsRun(f, states, actions) && i < |states|
    ensures Safe(states[i])
  {
    if i > 0 {
      AlwaysSafe(f, states, actions, i - 1);
      StepKeepsSafe(f, states[i - 1], actions[i - 1], states[i]);
    }
  }

  /**
   Whatever fails, crashes or logs out: every live photo has its object in every state, no tombstone or
   running cleanup names a live photo, and no step ever takes a live or just-uploaded object away.
   */
  lemma CleanupNeverDeletesALivePhoto(f: Faults, states: seq<State>, actions: seq<Action>, i: nat)
    requires IsRun(f, states, actions) && i < |states|
    ensures states[i].live <= states[i].stored
    ensures (states[i].memory + states[i].durable) !! states[i].live
    ensures i < |actions| && actions[i].RemoveReplied? ==>
      (states[i].stored - states[i + 1].stored) !! (states[i].live + InFlight(states[i]))
    ensures i < |actions| && !actions[i].RemoveReplied? ==> states[i].stored <= states[i + 1].stored
  {
    AlwaysSafe(f, states, actions, i);
    forall p | p in states[i].memory + states[i].durable ensures p !in states[i].live { assert Condemned(states[i], p); }
    if i < |actions| {
      assert Step(f, states[i], actions[i], states[i + 1]);
      if actions[i].RemoveReplied? {
        forall p | p in states[i].stored - states[i + 1].stored ensures p !in states[i].live + InFlight(states[i]) {
          assert p in JobPaths(states[i].jobs[0]);
        }
      }
    }
  }
}
