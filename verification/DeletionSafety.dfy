/** What every reachable state, and every whole run, of the deletion system keeps. */
module DeletionSafety {
  import opened Basics
  import opened JsStrings
  import opened DeletionProtocol
  import opened DeletionSystem

  // ---------- one step ----------

  lemma StepMovesForward(less: Collation, s: Sys, a: Action, s': Sys)
    requires Step(less, s, a, s')
    ensures Later(s.db, s'.db)
  {
    match a
    case Progress(pid, reply, _) =>
      CallsOnlyMoveForward(less, s.db, Pending(s.procs[pid].run, s.procs[pid].at), reply, s'.db);
    case Upload(user, path) =>
      forall id | id in s.db.rows ensures !OwnsPath(s.db.rows[id].user, path) {
        if OwnsPath(s.db.rows[id].user, path) { OneOwner(s.db.rows[id].user, user, path); }
      }
    case _ =>
  }

  lemma OneOwner(u: UserId, v: UserId, path: Path)
    requires OwnsPath(u, path) && OwnsPath(v, path)
    ensures u == v
  {
  }

  lemma StepKeepsConsistent(less: Collation, s: Sys, a: Action, s': Sys)
    requires Invariant(less, s) && Step(less, s, a, s')
    ensures Consistent(s'.db)
  {
    match a
    case Progress(pid, reply, _) =>
      OwnCallKeepsConsistent(less, s.db, s.procs[pid].run, s.procs[pid].at, reply, s'.db);
    case _ =>
      StepMovesForward(less, s, a, s');
  }

  /** Every step, of anyone, at any moment, with any reply, keeps the invariant. */
  lemma StepKeepsInvariant(less: Collation, s: Sys, a: Action, s': Sys)
    requires IsCollation(less) && Invariant(less, s) && Step(less, s, a, s')
    ensures Invariant(less, s')
  {
    StepMovesForward(less, s, a, s');
    StepKeepsConsistent(less, s, a, s');
    forall pid | pid in s'.procs ensures Justified(less, s'.db, s'.procs[pid].run, s'.procs[pid].at) {
      if a.Progress? && a.pid == pid {
        var p := s.procs[pid];
        ResumeIsJustified(less, s.db, p.run, p.at, a.reply, a.nowMs, s'.db);
      } else if pid in s.procs {
        JustificationIsStable(less, s.db, s'.db, s.procs[pid].run, s.procs[pid].at);
      }
    }
  }

  // ---------- whole runs ----------

  lemma {:induction false} Reachable(less: Collation, states: seq<Sys>, actions: seq<Action>, i: nat)
    requires IsCollation(less) && IsRun(less, states, actions) && i < |states|
    ensures Invariant(less, states[i])
  {
    if i > 0 {
      Reachable(less, states, actions, i - 1);
      StepKeepsInvariant(less, states[i - 1], actions[i - 1], states[i]);
    }
  }

  lemma {:induction false} RunMovesForward(less: Collation, states: seq<Sys>, actions: seq<Action>, i: nat, j: nat)
    requires IsRun(less, states, actions) && i <= j < |states|
    ensures Later(states[i].db, states[j].db)
  {
    hide Later, Step;
    if i == j {
      LaterReflexive(states[i].db);
    } else {
      RunMovesForward(less, states, actions, i, j - 1);
      StepMovesForward(less, states[j - 1], actions[j - 1], states[j]);
      LaterTransitive(states[i].db, states[j - 1].db, states[j].db);
    }
  }

  /** A completed request: no stored object of that user remains, in that state or ever after. */
  lemma CompletedMeansEmptyForGood(less: Collation, states: seq<Sys>, actions: seq<Action>, i: nat, j: nat, id: RequestId)
    requires IsCollation(less) && IsRun(less, states, actions) && i <= j < |states|
    requires id in states[i].db.rows && states[i].db.rows[id].phase == Completed
    ensures id in states[j].db.rows && states[j].db.rows[id].phase == Completed
    ensures states[j].db.IsEmptyFor(states[i].db.rows[id].user)
    ensures states[i].db.rows[id].user !in states[j].db.users
  {
    RunMovesForward(less, states, actions, i, j);
    Reachable(less, states, actions, j);
  }

  /** At or past `auth_deleted` the Auth user is gone, however the deletion call answered. */
  lemma AuthIsGoneFirst(less: Collation, states: seq<Sys>, actions: seq<Action>, i: nat, id: RequestId)
    requires IsCollation(less) && IsRun(less, states, actions) && i < |states|
    requires id in states[i].db.rows && Rank(states[i].db.rows[id].phase) >= Rank(AuthDeleted)
    ensures states[i].db.rows[id].user !in states[i].db.users
  {
    Reachable(less, states, actions, i);
  }

  /** The step is a process's removal call. */
  ghost predicate IsRemoval(s: Sys, a: Action) {
    a.Progress? && a.pid in s.procs && s.procs[a.pid].at.Removing?
  }

  /**
   Every removal either program ever asks for: only the run's own user's paths, only while that user's
   Auth record is gone and one of its requests is at or past `storage_deleting`.
   */
  lemma RemovalsAreSafe(less: Collation, states: seq<Sys>, actions: seq<Action>, i: nat)
    requires IsCollation(less) && IsRun(less, states, actions) && i < |actions| && IsRemoval(states[i], actions[i])
    ensures
      var p := states[i].procs[actions[i].pid];
      && Pending(p.run, p.at) == RemoveStoragePaths(p.at.page)
      && (forall path | path in p.at.page :: OwnsPath(p.run.user, path))
      && (forall path | path in states[i].db.objects - states[i + 1].db.objects :: path in p.at.page)
      && p.run.user !in states[i].db.users
      && p.at.request.id in states[i].db.rows
      && states[i].db.rows[p.at.request.id].user == p.run.user
      && Rank(states[i].db.rows[p.at.request.id].phase) >= Rank(StorageDeleting)
  {
    Reachable(less, states, actions, i);
    assert Step(less, states[i], actions[i], states[i + 1]);
    var p := states[i].procs[actions[i].pid];
    assert Justified(less, states[i].db, p.run, p.at);
  }

  /** Whatever others remove meanwhile, nothing at or below a process's own cursor remains. */
  lemma CursorStaysClear(less: Collation, states: seq<Sys>, actions: seq<Action>, i: nat, pid: Pid, path: Path)
    requires IsCollation(less) && IsRun(less, states, actions) && i < |states|
    requires pid in states[i].procs && states[i].procs[pid].at.Listing? && states[i].procs[pid].at.after.Some?
    requires OwnsPath(states[i].procs[pid].run.user, path)
    requires path == states[i].procs[pid].at.after.value || less(path, states[i].procs[pid].at.after.value)
    ensures path !in states[i].db.objects
  {
    Reachable(less, states, actions, i);
    assert Justified(less, states[i].db, states[i].procs[pid].run, states[i].procs[pid].at);
  }

  /** While a user has an Auth record, no process takes an object of that user out of the bucket. */
  lemma NoRemovalWhileUserExists(less: Collation, states: seq<Sys>, actions: seq<Action>, i: nat, user: UserId, path: Path)
    requires IsCollation(less) && IsRun(less, states, actions) && i < |actions|
    requires user in states[i].db.users && OwnsPath(user, path)
    requires path in states[i].db.objects && path !in states[i + 1].db.objects
    ensures actions[i] == OwnerRemoves(path)
  {
    if actions[i].Progress? {
      var p := states[i].procs[actions[i].pid];
      if IsRemoval(states[i], actions[i]) {
        RemovalsAreSafe(less, states, actions, i);
        OneOwner(user, p.run.user, path);
      }
    }
  }

  /** Persisted phases never go back, and a row never changes hands. */
  lemma PhaseNeverDecreases(less: Collation, states: seq<Sys>, actions: seq<Action>, i: nat, j: nat, id: RequestId)
    requires IsRun(less, states, actions) && i <= j < |states| && id in states[i].db.rows
    ensures id in states[j].db.rows && states[j].db.rows[id].user == states[i].db.rows[id].user
    ensures Rank(states[i].db.rows[id].phase) <= Rank(states[j].db.rows[id].phase)
  {
    RunMovesForward(less, states, actions, i, j);
  }

  /** A row is new and `Requested`, unchanged in its phase, or one phase further. */
  lemma PhasesMoveByOne(less: Collation, s: Sys, a: Action, s': Sys, id: RequestId)
    requires Step(less, s, a, s') && id in s'.db.rows
    ensures if id !in s.db.rows then s'.db.rows[id].phase == Requested
            else Rank(s'.db.rows[id].phase) - Rank(s.db.rows[id].phase) in {0, 1}
  {
  }

  /** A row has been through every phase before its own, one after the other. */
  lemma {:induction false} NoPhaseIsSkipped(less: Collation, states: seq<Sys>, actions: seq<Action>, j: nat, id: RequestId,
                                            earlier: Phase) returns (i: nat)
    requires IsRun(less, states, actions) && j < |states| && id in states[j].db.rows
    requires Rank(earlier) <= Rank(states[j].db.rows[id].phase)
    ensures i <= j && id in states[i].db.rows && states[i].db.rows[id].phase == earlier
  {
    if states[j].db.rows[id].phase == earlier { return j; }
    PhasesMoveByOne(less, states[j - 1], actions[j - 1], states[j], id);
    i := NoPhaseIsSkipped(less, states, actions, j - 1, id, earlier);
  }

  /**
   A 200 with `deleted: true` (or a claim reported completed) is only ever produced once the user has a
   completed request, no stored object and no Auth record, and that stays so.
   */
  lemma SuccessIsTruthful(less: Collation, states: seq<Sys>, actions: seq<Action>, i: nat, j: nat, pid: Pid)
    requires IsCollation(less) && IsRun(less, states, actions) && i <= j < |states|
    requires pid in states[i].procs && states[i].procs[pid].at.Finished?
    requires states[i].procs[pid].at.outcome.Deleted? || states[i].procs[pid].at.outcome.ClaimCompleted?
    ensures
      var user := states[i].procs[pid].run.user;
      && (exists id :: id in states[j].db.rows && states[j].db.rows[id].user == user && states[j].db.rows[id].phase == Completed)
      && states[j].db.IsEmptyFor(user)
      && user !in states[j].db.users
  {
    Reachable(less, states, actions, i);
    var p := states[i].procs[pid];
    assert Justified(less, states[i].db, p.run, p.at);
    var id :| id in states[i].db.rows && states[i].db.rows[id] == Row(p.run.user, Completed, states[i].db.rows[id].lastError);
    CompletedMeansEmptyForGood(less, states, actions, i, j, id);
    RunMovesForward(less, states, actions, i, j);
    assert states[j].db.rows[id].user == p.run.user && states[j].db.rows[id].phase == Completed;
  }

  // ---------- single operations ----------

  /**
   A phase write is acknowledged exactly when it goes one phase on, or stays at `requested` or
   `storage_deleting`, and the row is the user's and still where it was read; then it is what was asked for.
   */
  lemma WritesSucceedExactlyWhen(less: Collation, db: Db, c: Call, reply: Reply, db': Db)
    requires c.AdvanceRequest? && reply.Written?
    ensures Answers(less, db, c, reply, db') <==>
              && (Rank(c.next) == Rank(c.expected) + 1 || (c.next == c.expected && c.expected in {Requested, StorageDeleting}))
              && c.id in db.rows && db.rows[c.id].user == c.user && db.rows[c.id].phase == c.expected
              && reply.row == Request(c.user, c.id, c.next)
              && db' == db.(rows := db.rows[c.id := Row(c.user, c.next, c.error)])
  {
    assert db.rows.Keys <= Effect(db, c).rows.Keys;
  }

  /** Recording a failure never changes a phase, whatever the row has become meanwhile. */
  lemma RecordingFailureKeepsPhases(less: Collation, db: Db, run: Run, at: Local, reply: Reply, db': Db)
    requires at.RecordingFailure? && Answers(less, db, Pending(run, at), reply, db')
    ensures db'.rows.Keys == db.rows.Keys
    ensures forall id | id in db.rows :: db'.rows[id].phase == db.rows[id].phase && db'.rows[id].user == db.rows[id].user
    ensures db'.users == db.users && db'.objects == db.objects
    ensures reply.Written? ==> at.request.id in db.rows && db'.rows[at.request.id].lastError == Some(at.code)
    ensures forall nowMs :: Resume(run, at, reply, nowMs) == Finished(Rejected(502, at.code))
  {
  }

  /** The row a process may go on with after a phase write of its own threw. */
  predicate Recovered(db: Db, st: Request, next: Phase) {
    st.id in db.rows && db.rows[st.id].user == st.user && Rank(db.rows[st.id].phase) >= Rank(next)
  }

  /**
   Losing the compare-and-set, or its reply: the process goes on exactly when its read is answered and the
   database's row is then the same user's and at or past the phase it wanted, and it goes on from that row;
   otherwise it ends in an error. The read changes nothing.
   */
  lemma RecoveryIsSound(less: Collation, db: Db, run: Run, st: Request, next: Phase, reply: Reply, nowMs: int, db': Db)
    requires next != Requested && Answers(less, db, Pending(run, Recovering(st, next)), reply, db')
    ensures db' == db
    ensures
      var after := Resume(run, Recovering(st, next), reply, nowMs);
      && (after.Finished? && (after.outcome.Rejected? || after.outcome.ClaimFailed?)
          <==> reply.Threw? || !Recovered(db, st, next))
      && (!reply.Threw? && Recovered(db, st, next) ==>
            after == AfterAdvance(run, next, Request(st.user, st.id, db.rows[st.id].phase)))
  {
  }

  /** A retry of a completed request reads once, changes nothing and answers 200, idempotent. */
  lemma RetryAfterCompletionHasNoEffect(less: Collation, db: Db, run: Run, reply: Reply, nowMs: int, db': Db)
    requires run.Handler? && run.id in db.rows
    requires db.rows[run.id].user == run.user && db.rows[run.id].phase == Completed
    requires Answers(less, db, Pending(run, ReadingRequest), reply, db')
    ensures db' == db
    ensures Resume(run, ReadingRequest, reply, nowMs) ==
            Finished(if reply.Threw? then Rejected(502, "DELETION_STATE_READ_FAILED") else Deleted(true))
  {
  }
}
