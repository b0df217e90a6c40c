/**
 The cleanup and the replacement as the imperative programs they are, with every call free to fail. Each
 stretch of code between two awaits is checked to be the action of `PhotoCleanup` it stands for.
 */
module PhotoPrograms {
  import opened JsStrings
  import opened PhotoPaths
  import opened PhotoCleanup
  import opened PhotoOrphans

  /** A call to a service, and whether it was answered without an error. */
  datatype Answered =
    | Read                                        // secureStorage.getItem
    | Saved(paths: set<Path>, ok: bool)           // secureStorage.setItem
    | Removed(paths: set<Path>, ok: bool)         // storage.remove
    | Forgot(ok: bool)                            // secureStorage.removeItem
    | Uploaded(path: Path, ok: bool)              // storage.upload
    | Replaced(newPaths: seq<Path>, ok: bool)     // the replace_profile_photos call

  /** At most two tries, each for all paths; the second one only after a failed first. */
  predicate IsRemoval(paths: set<Path>, trace: seq<Answered>, ok: bool) {
    if ok then trace == [Removed(paths, true)] || trace == [Removed(paths, false), Removed(paths, true)]
    else trace == [Removed(paths, false), Removed(paths, false)]
  }

  /** One cleanup: the record is read, and if anything is pending it is saved, removed and, once removed, forgotten. */
  predicate IsCleanup(pending: set<Path>, trace: seq<Answered>, done: bool) {
    if pending == {} then done && trace == [Read]
    else
      && |trace| >= 4 && trace[0] == Read && trace[1].Saved? && trace[1].paths == pending
      && if done then trace[|trace| - 1].Forgot? && IsRemoval(pending, trace[2..|trace| - 1], true)
         else IsRemoval(pending, trace[2..], false)
  }

  /** No cleanup where there is nothing to clean, and otherwise one of these paths and of what was known before. */
  ghost predicate Cleans(owner: JsString, extra: set<Path>, known: set<Path>, trace: seq<Answered>) {
    if extra == {} then trace == [] else IsCleaned(owner, extra, known, trace)
  }

  ghost predicate IsCleaned(owner: JsString, extra: set<Path>, known: set<Path>, trace: seq<Answered>) {
    exists pending, done :: OwnedOnly(owner, extra) <= pending <= extra + known && IsCleanup(pending, trace, done)
  }

  class Device {
    const owner: JsString
    const f: Faults
    var stored: set<Path>
    var live: set<Path>
    var used: set<Path>
    var memory: set<Path>
    var durable: set<Path>
    ghost var jobs: seq<Job>
    ghost var replace: Replace
    ghost var calls: seq<Answered>

    ghost function S(): State
      reads this
    {
      State(owner, stored, live, used, memory, durable, jobs, replace)
    }

    ghost predicate Valid()
      reads this
    {
      Tolerated(f) && Tracked(f, S())
    }

    /** What the next cleanup will try to delete. */
    ghost function Pending(extra: set<Path>): set<Path>
      reads this
    {
      memory + OwnedOnly(owner, durable) + OwnedOnly(owner, extra)
    }

    /** `removeProfilePhotoObjects`: at most two tries; a failed one may have removed some. */
    method RemoveObjects(paths: set<Path>) returns (ok: bool, ghost trace: seq<Answered>)
      requires Valid() && jobs != [] && jobs[0].at == Deleting(paths, 0)
      modifies this
      ensures Valid() && Same(old(S()), S())
      ensures durable == old(durable) && calls == old(calls) + trace && IsRemoval(paths, trace, ok)
      ensures if ok then
                && stored == old(stored) - paths && memory == {}
                && jobs == [old(jobs[0]).(at := Acknowledging(paths))] + old(jobs[1..])
              else old(stored) - paths <= stored <= old(stored) && memory == old(memory) && jobs == old(jobs[1..])
    {
      hide Tracked;
      trace := [];
      var attempt := 0;
      while attempt < 2
        invariant 0 <= attempt <= 2 && Valid() && Same(old(S()), S())
        invariant calls == old(calls) + trace && trace == seq(attempt, _ => Removed(paths, false))
        invariant memory == old(memory) && durable == old(durable) && old(stored) - paths <= stored <= old(stored)
        invariant jobs == if attempt < 2 then [old(jobs[0]).(at := Deleting(paths, attempt))] + old(jobs[1..]) else old(jobs[1..])
      {
        ok := TryRemove(paths, attempt);
        trace := trace + [Removed(paths, ok)];
        if ok { return; }
        attempt := attempt + 1;
      }
      ok := false;
    }

    /** One call of the storage API; a failed one may have removed some. */
    method TryRemove(paths: set<Path>, attempt: nat) returns (ok: bool)
      requires Valid() && jobs != [] && attempt < 2 && jobs[0].at == Deleting(paths, attempt)
      modifies this
      ensures Valid() && Same(old(S()), S()) && durable == old(durable) && calls == old(calls) + [Removed(paths, ok)]
      ensures if ok then
                && stored == old(stored) - paths && memory == {}
                && jobs == [old(jobs[0]).(at := Acknowledging(paths))] + old(jobs[1..])
              else old(stored) - paths <= stored <= old(stored) && memory == old(memory)
                   && jobs == (if attempt == 0 then [old(jobs[0]).(at := Deleting(paths, 1))] else []) + old(jobs[1..])
    {
      ghost var s := S();
      var gone: set<Path> := *;
      ok, gone := *, gone * paths;
      calls := calls + [Removed(paths, ok)];
      if ok {
        stored, memory := stored - paths, {};
        jobs := [jobs[0].(at := Acknowledging(paths))] + jobs[1..];
      } else {
        stored := stored - gone;
        jobs := (if attempt == 0 then [jobs[0].(at := Deleting(paths, 1))] else []) + jobs[1..];
      }
      StepKeepsTracked(f, s, RemoveReplied(ok, gone), S());
    }

    /** Memory, the record and the additional paths, written to memory before anything is deleted. */
    method ReadPending(extra: set<Path>, ghost own: bool) returns (pending: set<Path>)
      requires Valid() && jobs == [Job(extra, Queued, own)]
      modifies this`memory, this`jobs, this`calls
      ensures Valid() && pending == memory == old(Pending(extra)) && calls == old(calls) + [Read]
      ensures jobs == if pending == {} then [] else [Job(extra, Persisting(pending), own)]
    {
      ghost var s := S();
      jobs := [Job(extra, Reading(memory), own)];
      StepKeepsTracked(f, s, BeginJob, S());

      // getItem; under the tolerated faults it answers.
      s, calls := S(), calls + [Read];
      pending := memory + OwnedOnly(owner, durable) + OwnedOnly(owner, extra);
      memory := pending;
      jobs := if pending == {} then [] else [Job(extra, Persisting(pending), own)];
      StepKeepsTracked(f, s, ReadReplied(true), S());
    }

    method Persist(pending: set<Path>) returns (ok: bool)
      requires Valid() && |jobs| == 1 && jobs[0].at == Persisting(pending)
      modifies this`durable, this`jobs, this`calls
      ensures calls == old(calls) + [Saved(pending, ok)] && (ok || f.writesFail)
      ensures durable == pending || (!ok && durable == old(durable))
      ensures Valid() && jobs == [old(jobs[0]).(at := Deleting(pending, 0))]
    {
      ghost var s := S();
      var written := *;
      ok := *;
      if ok || !f.writesFail { ok, written := true, true; }
      calls := calls + [Saved(pending, ok)];
      if written { durable := pending; }
      jobs := [jobs[0].(at := Deleting(pending, 0))];
      StepKeepsTracked(f, s, PersistReplied(ok, written), S());
    }

    method Acknowledge() returns (ok: bool)
      requires Valid() && |jobs| == 1 && jobs[0].at.Acknowledging?
      modifies this`durable, this`jobs, this`calls
      ensures calls == old(calls) + [Forgot(ok)] && (durable == {} || (!ok && durable == old(durable)))
      ensures Valid() && jobs == []
    {
      ghost var s := S();
      var cleared := *;
      ok := *;
      calls := calls + [Forgot(ok)];
      if ok || cleared { durable := {}; }
      jobs := [];
      StepKeepsTracked(f, s, AckReplied(ok, ok || cleared), S());
    }

    /** `retryPendingProfilePhotoCleanup`, once its call holds the lock. */
    method RetryPendingCleanup(extra: set<Path>, ghost own: bool) returns (done: bool, ghost trace: seq<Answered>)
      requires Valid() && jobs == [Job(extra, Queued, own)]
      modifies this
      ensures Valid() && jobs == [] && Same(old(S()), S())
      ensures calls == old(calls) + trace && IsCleanup(old(Pending(extra)), trace, done)
      ensures done ==> stored == old(stored) - old(Pending(extra)) && memory == {}
      ensures !done ==> memory == old(Pending(extra)) && old(stored) - memory <= stored <= old(stored)
      ensures durable <= old(durable) + old(Pending(extra))
      ensures !done && trace[1].ok ==> durable == old(Pending(extra))
      ensures done && trace[|trace| - 1] == Forgot(true) ==> durable == {}
    {
      hide Tracked;
      var pending := ReadPending(extra, own);
      trace := [Read];
      if pending == {} { return true, trace; }
      var saved := Persist(pending);
      ghost var removals;
      done, removals := RemoveObjects(pending);
      trace := [Read, Saved(pending, saved)] + removals;
      assert trace[2..] == removals;
      if done {
        var forgot := Acknowledge();
        assert (trace + [Forgot(forgot)])[2..|trace|] == removals;
        trace := trace + [Forgot(forgot)];
      }
    }

    /** The replacement awaits its cleanup and goes on. */
    ghost method OwnJobReturns()
      requires Valid() && jobs == [] && (replace.CleaningFirst? || replace.CleaningLast?)
      modifies this`replace
      ensures Valid()
      ensures replace == if old(replace).CleaningFirst? then Uploading(old(replace).photos, []) else Idle
    {
      ghost var s := S();
      replace := if replace.CleaningFirst? then Uploading(replace.photos, []) else Idle;
      StepKeepsTracked(f, s, OwnJobDone, S());
    }

    /** The cleanup a replacement ends with. */
    method CleanLast(extra: set<Path>) returns (ghost trace: seq<Answered>)
      requires Valid() && jobs == [Job(extra, Queued, true)] && replace == CleaningLast
      modifies this
      ensures Valid() && jobs == [] && replace == Idle && live == old(live)
      ensures calls == old(calls) + trace && IsCleaned(owner, extra, old(memory + durable), trace)
    {
      hide Tracked, IsCleanup, OwnedOnly;
      ghost var pending := Pending(extra);
      OwnedOnlyIsLess(owner, durable);
      OwnedOnlyIsLess(owner, extra);
      var done;
      done, trace := RetryPendingCleanup(extra, true);
      OwnJobReturns();
      assert IsCleanup(pending, trace, done);
    }

    /** The catch block, when nothing was committed. */
    method RollBackUploads(photos: seq<Photo>, paths: seq<Path>) returns (ghost trace: seq<Answered>)
      requires Valid() && jobs == (if NewPaths(photos, paths) == {} then [] else [Job(NewPaths(photos, paths), Queued, true)])
      requires replace == if NewPaths(photos, paths) == {} then Idle else CleaningLast
      modifies this
      ensures Valid() && jobs == [] && replace == Idle && live == old(live)
      ensures calls == old(calls) + trace && Cleans(owner, NewPaths(photos, paths), old(memory + durable), trace)
    {
      trace := [];
      var newPaths := set p | p in paths && !exists i :: 0 <= i < |photos| && photos[i] == Existing(p);
      if newPaths != {} {
        trace := CleanLast(newPaths);
      }
    }

    /** One existing photo: its path is checked. */
    method TakeExisting(photos: seq<Photo>, paths: seq<Path>) returns (ok: bool, ghost last: seq<Answered>)
      requires Valid() && jobs == [] && |paths| < |photos| && replace == Uploading(photos, paths) && photos[|paths|].Existing?
      modifies this
      ensures Valid() && jobs == [] && live == old(live)
      ensures ok == IsOwnUploadPath(owner, photos[|paths|].path)
      ensures if ok then used == old(used) && replace == AfterPhotos(photos, paths + [photos[|paths|].path]) else replace == Idle
      ensures if ok then calls == old(calls) && last == [] && memory == old(memory) && durable == old(durable)
              else calls == old(calls) + last && Cleans(owner, NewPaths(photos, paths), old(memory + durable), last)
    {
      last := [];
      ghost var s := S();
      ok := IsOwnUploadPath(owner, photos[|paths|].path);
      if ok {
        replace := AfterPhotos(photos, paths + [photos[|paths|].path]);
        StepKeepsTracked(f, s, NextPhoto(true, []), S());
      } else {
        Queue(RollBack(s, photos, paths));
        StepKeepsTracked(f, s, NextPhoto(true, []), S());
        last := RollBackUploads(photos, paths);
      }
    }

    /** One new photo: its object is uploaded under a path never used. */
    method UploadNew(photos: seq<Photo>, paths: seq<Path>, path: Path) returns (ok: bool, ghost last: seq<Answered>)
      requires Valid() && jobs == [] && |paths| < |photos| && replace == Uploading(photos, paths) && photos[|paths|].New?
      requires path !in used && IsOwnedPath(owner, path)
      modifies this
      ensures Valid() && jobs == [] && live == old(live)
      ensures if ok then used == old(used) + {path} && replace == AfterPhotos(photos, paths + [path]) else replace == Idle
      ensures if ok then calls == old(calls) + [Uploaded(path, true)] && last == [] && memory == old(memory) && durable == old(durable)
              else calls == old(calls) + [Uploaded(path, false)] + last
                   && Cleans(owner, NewPaths(photos, paths), old(memory + durable), last)
    {
      ghost var s := S();
      ok, last := *, [];
      calls := calls + [Uploaded(path, ok)];
      used := used + {path};
      if ok {
        stored := stored + {path};
        replace := AfterPhotos(photos, paths + [path]);
        StepKeepsTracked(f, s, NextPhoto(true, path), S());
      } else {
        Queue(RollBack(s.(used := s.used + {path}), photos, paths));
        StepKeepsTracked(f, s, NextPhoto(false, path), S());
        last := RollBackUploads(photos, paths);
      }
    }

    /** One turn of the loop over the photos. */
    method TakePhoto(photos: seq<Photo>, freshPaths: seq<Path>, paths: seq<Path>)
      returns (ok: bool, ghost upload: seq<Answered>, ghost last: seq<Answered>)
      requires Valid() && jobs == [] && |paths| < |photos| == |freshPaths| && replace == Uploading(photos, paths)
      requires photos[|paths|].New? ==> freshPaths[|paths|] !in used && IsOwnedPath(owner, freshPaths[|paths|])
      modifies this
      ensures Valid() && jobs == [] && live == old(live)
      ensures if ok then
                && replace == AfterPhotos(photos, paths + [PathOf(photos[|paths|], freshPaths[|paths|])])
                && used <= old(used) + (if photos[|paths|].New? then {freshPaths[|paths|]} else {})
                && memory == old(memory) && durable == old(durable) && last == []
              else replace == Idle && Cleans(owner, NewPaths(photos, paths), old(memory + durable), last)
      ensures calls == old(calls) + upload + last
      ensures upload == if photos[|paths|].New? then [Uploaded(freshPaths[|paths|], ok)] else []
      ensures photos[|paths|].Existing? ==> ok == IsAccepted(owner, photos[|paths|])
    {
      hide Tracked, Cleans, IsOwnUploadPath, IsOwnedPath;
      upload := [];
      if photos[|paths|].New? {
        ok, last := UploadNew(photos, paths, freshPaths[|paths|]);
        upload := [Uploaded(freshPaths[|paths|], ok)];
      } else {
        ok, last := TakeExisting(photos, paths);
      }
    }

    /** The loop over the photos: up to the first that is refused or does not upload. */
    method UploadAll(photos: seq<Photo>, freshPaths: seq<Path>)
      returns (ok: bool, paths: seq<Path>, ghost uploads: seq<Answered>, ghost last: seq<Answered>)
      requires Valid() && jobs == [] && photos != [] && replace == Uploading(photos, []) && |freshPaths| == |photos|
      requires Available(owner, used, photos, freshPaths, |photos|)
      modifies this
      ensures Valid() && jobs == [] && live == old(live)
      ensures ok ==> replace == Committing(photos, paths) && memory == old(memory) && durable == old(durable)
      ensures !ok ==> replace == Idle
      ensures |paths| <= |photos| && paths == Chosen(photos, freshPaths, |paths|) && (ok <==> |paths| == |photos|)
      ensures forall i | 0 <= i < |paths| :: IsAccepted(owner, photos[i])
      ensures calls == old(calls) + uploads + last
      ensures ok ==> last == [] && uploads == Uploads(photos, freshPaths, |photos|)
      ensures !ok ==> StopsAt(owner, photos, freshPaths, paths, uploads, last, old(memory + durable))
    {
      hide Tracked, Given, Available, Uploads, Chosen, Cleans, IsOwnUploadPath;
      paths, uploads, last := [], [], [];
      assert replace == AfterPhotos(photos, paths);
      NothingTaken(photos, freshPaths);
      while |paths| < |photos|
        invariant Valid() && jobs == [] && live == old(live) && |paths| <= |photos|
        invariant replace == AfterPhotos(photos, paths) && memory == old(memory) && durable == old(durable)
        invariant used <= old(used) + Given(photos, freshPaths, |paths|)
        invariant paths == Chosen(photos, freshPaths, |paths|) && uploads == Uploads(photos, freshPaths, |paths|)
        invariant calls == old(calls) + uploads && last == []
        invariant forall i | 0 <= i < |paths| :: IsAccepted(owner, photos[i])
        decreases |photos| - |paths|
      {
        if photos[|paths|].New? { AvailableNext(owner, old(used), photos, freshPaths, |photos|, |paths|); }
        OneMoreTaken(photos, freshPaths, |paths|);
        ghost var upload;
        ok, upload, last := TakePhoto(photos, freshPaths, paths);
        uploads := uploads + upload;
        if !ok { return; }
        paths := paths + [PathOf(photos[|paths|], freshPaths[|paths|])];
      }
      ok := true;
    }

    /** Takes over the queue and the replacement's place from a rolled-back or committed state. */
    ghost method Queue(s: State)
      modifies this`jobs, this`replace
      ensures jobs == s.jobs && replace == s.replace
    {
      jobs, replace := s.jobs, s.replace;
    }

    /** The replace_profile_photos call: on success the replaced photos' objects are cleaned up. */
    method Commit(photos: seq<Photo>, paths: seq<Path>) returns (ok: bool, ghost last: seq<Answered>)
      requires Valid() && jobs == [] && replace == Committing(photos, paths)
      modifies this
      ensures Valid() && jobs == [] && replace == Idle && live == if ok then PathSet(paths) else old(live)
      ensures calls == old(calls) + [Replaced(paths, ok)] + last
      ensures if ok then IsCleaned(owner, old(live) - PathSet(paths), old(memory + durable), last)
              else Cleans(owner, NewPaths(photos, paths), old(memory + durable), last)
    {
      hide Tracked, IsCleaned, Cleans, NewPaths, Safe;
      ghost var s := S();
      ok := *;
      ok := ok && |PathSet(paths)| == |paths|;
      calls := calls + [Replaced(paths, ok)];
      if ok {
        var previousPaths := live;
        live := PathSet(paths);
        Queue(AfterCommit(s, true));
        StepKeepsTracked(f, s, CommitReplied(true), S());
        last := CleanLast(previousPaths - PathSet(paths));
      } else {
        Queue(RollBack(s, photos, paths));
        StepKeepsTracked(f, s, CommitReplied(false), S());
        last := RollBackUploads(photos, paths);
      }
    }

    /** The cleanup a replacement starts with. */
    method CleanFirst(photos: seq<Photo>) returns (ghost trace: seq<Answered>)
      requires Valid() && jobs == [] && replace == Idle && 3 <= |photos| <= 6 && ExistingAreLive(photos, live)
      modifies this
      ensures Valid() && jobs == [] && replace == Uploading(photos, []) && live == old(live) && used == old(used)
      ensures calls == old(calls) + trace && exists done :: IsCleanup(old(Pending({})), trace, done)
      ensures memory + durable <= old(memory + durable)
    {
      ghost var s := S();
      jobs, replace := [Job({}, Queued, true)], CleaningFirst(photos);
      StepKeepsTracked(f, s, StartReplace(photos), S());
      var done;
      done, trace := RetryPendingCleanup({}, true);
      OwnJobReturns();
      assert IsCleanup(old(Pending({})), trace, done);
    }

    /**
     `replaceProfilePhotos`, after the session check. It makes the calls it should, in order: a cleanup, the uploads up
     to the first photo that is refused or fails, the commit if there is none, and a cleanup of what was replaced or
     uploaded in vain. It succeeds exactly if the number of photos is right, every existing path is accepted, and no
     upload and not the commit failed; how the cleanups go has no say in that.
     */
    method ReplaceProfilePhotos(photos: seq<Photo>, freshPaths: seq<Path>) returns (ok: bool, ghost t: Trace)
      requires Valid() && jobs == [] && replace == Idle && |freshPaths| == |photos|
      requires ExistingAreLive(photos, live)
      requires Available(owner, used, photos, freshPaths, |photos|)
      modifies this
      ensures Valid() && jobs == [] && replace == Idle
      ensures live <= stored <= live + memory + durable
      ensures live == if ok then PathSet(Chosen(photos, freshPaths, |photos|)) else old(live)
      ensures if 3 <= |photos| <= 6 then
                && calls == old(calls) + t.first + t.uploads + t.commit + t.last
                && IsReplacement(owner, photos, freshPaths, old(Pending({})), old(memory + durable), old(live), t, ok)
              else !ok && calls == old(calls) && S() == old(S())
      ensures ok <==>
        && 3 <= |photos| <= 6 && (forall i | 0 <= i < |photos| :: IsAccepted(owner, photos[i]))
        && WentWell(calls[|old(calls)|..])
    {
      hide Tracked, StopsAt, IsCleanup, Cleans, IsCleaned, Available, Uploads, Chosen, IsAccepted;
      ok, t := false, Trace([], 0, [], [], []);
      if 3 <= |photos| <= 6 {
        ghost var first := CleanFirst(photos);
        var uploaded, paths;
        ghost var uploads, last, commit, known := [], [], [], memory + durable;
        uploaded, paths, uploads, last := UploadAll(photos, freshPaths);
        if uploaded {
          ok, last := Commit(photos, paths);
          commit := [Replaced(paths, ok)];
        }
        t := Trace(first, |paths|, uploads, commit, last);
        CallsAreReplacement(owner, photos, freshPaths, old(Pending({})), known, old(memory + durable), old(live), t, ok);
        hide IsReplacement;
        SucceedsExactlyWhen(owner, photos, freshPaths, old(Pending({})), old(memory + durable), old(live), t, ok);
        assert calls[|old(calls)|..] == t.first + t.uploads + t.commit + t.last;
      }
      NothingLeftBehind(f, S());
    }
  }

  /** What a replacement called: the first cleanup, uploads for the first `taken` photos, the commit, and the last cleanup. */
  datatype Trace = Trace(
    first: seq<Answered>, taken: nat, uploads: seq<Answered>, commit: seq<Answered>, last: seq<Answered>)

  /** The prefix is the owner's folder, and there is no other slash. */
  predicate IsAccepted(owner: JsString, photo: Photo) {
    photo.Existing? ==> IsOwnUploadPath(owner, photo.path)
  }

  /** The uploads of the new ones among the first `n` photos. */
  function Uploads(photos: seq<Photo>, freshPaths: seq<Path>, n: nat): (r: seq<Answered>)
    requires n <= |photos| == |freshPaths|
    ensures forall e | e in r :: e.Uploaded? && e.ok
  {
    if n == 0 then []
    else Uploads(photos, freshPaths, n - 1) + if photos[n - 1].New? then [Uploaded(freshPaths[n - 1], true)] else []
  }

  /** A photo is refused or does not upload, and the uploads before it are cleaned up. */
  ghost predicate StopsAt(owner: JsString, photos: seq<Photo>, freshPaths: seq<Path>, paths: seq<Path>,
                          uploads: seq<Answered>, last: seq<Answered>, known: set<Path>)
  {
    var n := |paths|;
    && n < |photos| == |freshPaths|
    && uploads == Uploads(photos, freshPaths, n) + (if photos[n].New? then [Uploaded(freshPaths[n], false)] else [])
    && (photos[n].Existing? ==> !IsAccepted(owner, photos[n]))
    && Cleans(owner, NewPaths(photos, paths), known, last)
  }

  lemma NothingTaken(photos: seq<Photo>, freshPaths: seq<Path>)
    requires |photos| == |freshPaths|
    ensures Given(photos, freshPaths, 0) == {} && Chosen(photos, freshPaths, 0) == [] && Uploads(photos, freshPaths, 0) == []
  {
  }

  lemma OneMoreTaken(photos: seq<Photo>, freshPaths: seq<Path>, n: nat)
    requires n < |photos| == |freshPaths|
    ensures Given(photos, freshPaths, n + 1)
            == Given(photos, freshPaths, n) + if photos[n].New? then {freshPaths[n]} else {}
    ensures Chosen(photos, freshPaths, n + 1) == Chosen(photos, freshPaths, n) + [PathOf(photos[n], freshPaths[n])]
    ensures Uploads(photos, freshPaths, n + 1)
            == Uploads(photos, freshPaths, n) + if photos[n].New? then [Uploaded(freshPaths[n], true)] else []
  {
  }

  /** The calls of a whole replacement. */
  ghost predicate IsReplacement(owner: JsString, photos: seq<Photo>, freshPaths: seq<Path>, pending: set<Path>,
                                known: set<Path>, live: set<Path>, t: Trace, ok: bool)
  {
    && |photos| == |freshPaths| && t.taken <= |photos| && (exists done :: IsCleanup(pending, t.first, done))
    && (forall i | 0 <= i < t.taken :: IsAccepted(owner, photos[i]))
    && var paths := Chosen(photos, freshPaths, t.taken);
       if t.taken < |photos| then
         !ok && t.commit == [] && StopsAt(owner, photos, freshPaths, paths, t.uploads, t.last, known)
       else
         && t.uploads == Uploads(photos, freshPaths, |photos|) && t.commit == [Replaced(paths, ok)]
         && if ok then IsCleaned(owner, live - PathSet(paths), known, t.last)
            else Cleans(owner, NewPaths(photos, paths), known, t.last)
  }

  lemma OwnedOnlyIsLess(owner: JsString, paths: set<Path>)
    ensures OwnedOnly(owner, paths) <= paths
  {
  }

  lemma CleansMore(owner: JsString, extra: set<Path>, known: set<Path>, more: set<Path>, trace: seq<Answered>)
    requires known <= more
    ensures Cleans(owner, extra, known, trace) ==> Cleans(owner, extra, more, trace)
    ensures IsCleaned(owner, extra, known, trace) ==> IsCleaned(owner, extra, more, trace)
  {
  }

  lemma CallsAreReplacement(owner: JsString, photos: seq<Photo>, freshPaths: seq<Path>, pending: set<Path>,
                            ready: set<Path>, known: set<Path>, live: set<Path>, t: Trace, ok: bool)
    requires IsReplacement(owner, photos, freshPaths, pending, ready, live, t, ok) && ready <= known
    ensures IsReplacement(owner, photos, freshPaths, pending, known, live, t, ok)
  {
    var paths := Chosen(photos, freshPaths, t.taken);
    CleansMore(owner, live - PathSet(paths), ready, known, t.last);
    CleansMore(owner, NewPaths(photos, paths), ready, known, t.last);
    hide IsCleaned, Cleans, IsCleanup, IsAccepted, Chosen, Uploads;
  }

  lemma CleanupOnlyCleans(pending: set<Path>, trace: seq<Answered>, done: bool)
    requires IsCleanup(pending, trace, done)
    ensures forall e | e in trace :: !e.Uploaded? && !e.Replaced?
  {
    if pending != {} {
      var rest := if done then trace[2..|trace| - 1] else trace[2..];
      assert forall e | e in rest :: e.Removed?;
      assert trace == trace[..2] + rest + if done then [trace[|trace| - 1]] else [];
    }
  }

  lemma CleaningOnlyCleans(owner: JsString, extra: set<Path>, known: set<Path>, trace: seq<Answered>)
    requires Cleans(owner, extra, known, trace) || IsCleaned(owner, extra, known, trace)
    ensures forall e | e in trace :: !e.Uploaded? && !e.Replaced?
  {
    if IsCleaned(owner, extra, known, trace) {
      var pending, done :| OwnedOnly(owner, extra) <= pending <= extra + known && IsCleanup(pending, trace, done);
      CleanupOnlyCleans(pending, trace, done);
    }
  }

  predicate WentWell(calls: seq<Answered>) {
    forall e | e in calls :: e.Uploaded? || e.Replaced? ==> e.ok
  }

  lemma SucceedsExactlyWhen(owner: JsString, photos: seq<Photo>, freshPaths: seq<Path>, pending: set<Path>,
                            known: set<Path>, live: set<Path>, t: Trace, ok: bool)
    requires IsReplacement(owner, photos, freshPaths, pending, known, live, t, ok)
    ensures ok <==>
      (forall i | 0 <= i < |photos| :: IsAccepted(owner, photos[i])) && WentWell(t.first + t.uploads + t.commit + t.last)
  {
    var paths := Chosen(photos, freshPaths, t.taken);
    var done :| IsCleanup(pending, t.first, done);
    CleanupOnlyCleans(pending, t.first, done);
    CleaningOnlyCleans(owner, if ok then live - PathSet(paths) else NewPaths(photos, paths), known, t.last);
    hide IsCleaned, Cleans, IsCleanup, IsAccepted, Chosen, NewPaths, PathSet;
    var all := t.first + t.uploads + t.commit + t.last;
    assert forall e | e in all :: e in t.first || e in t.uploads || e in t.commit || e in t.last;
    if t.taken < |photos| {
      if photos[t.taken].New? { assert t.uploads[|t.uploads| - 1] in all; }
    } else {
      assert t.commit[0] in all;
    }
  }

  /** The paths the first `n` photos end up under. */
  function Chosen(photos: seq<Photo>, freshPaths: seq<Path>, n: nat): (paths: seq<Path>)
    requires n <= |photos| == |freshPaths|
    ensures |paths| == n
  {
    if n == 0 then [] else Chosen(photos, freshPaths, n - 1) + [PathOf(photos[n - 1], freshPaths[n - 1])]
  }

  function PathOf(photo: Photo, freshPath: Path): Path {
    if photo.New? then freshPath else photo.path
  }

  /** The paths given to the new ones among the first `n` photos. */
  function Given(photos: seq<Photo>, freshPaths: seq<Path>, n: nat): set<Path>
    requires n <= |photos| == |freshPaths|
  {
    if n == 0 then {} else Given(photos, freshPaths, n - 1) + if photos[n - 1].New? then {freshPaths[n - 1]} else {}
  }

  /** Every new photo gets an owned path that is neither used nor given to an earlier photo. */
  ghost predicate Available(owner: JsString, used: set<Path>, photos: seq<Photo>, freshPaths: seq<Path>, n: nat)
    requires n <= |photos| == |freshPaths|
  {
    n > 0 ==>
      && Available(owner, used, photos, freshPaths, n - 1)
      && (photos[n - 1].New? ==>
            freshPaths[n - 1] !in used + Given(photos, freshPaths, n - 1) && IsOwnedPath(owner, freshPaths[n - 1]))
  }

  lemma {:induction false} AvailableNext(owner: JsString, used: set<Path>, photos: seq<Photo>, freshPaths: seq<Path>, n: nat, i: nat)
    requires i < n <= |photos| == |freshPaths| && Available(owner, used, photos, freshPaths, n) && photos[i].New?
    ensures freshPaths[i] !in used + Given(photos, freshPaths, i) && IsOwnedPath(owner, freshPaths[i])
  {
    if i < n - 1 { AvailableNext(owner, used, photos, freshPaths, n - 1, i); }
  }

  /** With no job and no replacement under way, every stored object is live or on record. */
  lemma NothingLeftBehind(f: Faults, s: State)
    requires Tolerated(f) && Tracked(f, s) && s.jobs == [] && s.replace.Idle?
    ensures s.live <= s.stored <= s.live + s.memory + s.durable
  {
  }

  /** A cleanup touches no row, hands out no path and does not disturb the replacement. */
  ghost predicate Same(s: State, s': State) {
    s'.live == s.live && s'.used == s.used && s'.replace == s.replace && s'.owner == s.owner
  }
}
