/**
 Pages the two programs' checks do not agree on: objects named only by their owner's folder, which the worker
 refuses, and pages in an order of the database that is not the order of `<`, which the handler refuses.
 */
module DeletionFolders {
  import opened Basics
  import opened JsStrings
  import opened DeletionProtocol
  import opened DeletionSystem
  import opened DeletionPrograms
  import opened DeletionBound

  predicate IsBare(user: UserId, path: Path) { |path| == |user| + 1 }

  /** On a page the handler accepts, the worker's check fails exactly when some path is only a folder name. */
  lemma WorkerRefusesBareFolders(user: UserId, after: Option<Path>, page: seq<Path>)
    requires HandlerAccepts(user, after, page)
    ensures WorkerAccepts(user, page) <==> !exists i :: 0 <= i < |page| && IsBare(user, page[i])
  {
    forall i | 0 <= i < |page| ensures |page[i]| >= |user| + 1 {
      assert OwnsPath(user, page[i]);
    }
  }

  /** A lower-case id without a slash, as UUID text is. */
  predicate IsCanonical(user: UserId) { SLASH !in user && Lower(user) == user }

  lemma FolderNameIsOwned(user: UserId)
    requires IsCanonical(user)
    ensures OwnsPath(user, user + [SLASH])
  {
    var path := user + [SLASH];
    assert path[..|user|] == user && path[|user|] == SLASH;
    assert forall i | 0 <= i < |user| :: path[i] == user[i] && user[i] in user;
  }

  /**
   For every user there is such a bucket: an honest list answers the one page that a handler call goes on to
   remove and a claim of the same request refuses.
   */
  lemma BareFolderSplitsThePrograms(less: Collation, user: UserId, id: RequestId) returns (db: Db, reply: Reply)
    requires IsCollation(less) && IsCanonical(user)
    ensures Consistent(db) && id in db.rows && db.rows[id].user == user && db.rows[id].phase == StorageDeleting
    ensures reply.Listed? && Answers(less, db, ListStoragePaths(user, id, None, PAGE_SIZE), reply, db)
    ensures forall run: Run, st: Request | run.user == user ::
      AfterList(run, st, None, 0, reply)
      == if run.Handler? then Removing(st, None, 0, [user + [SLASH]]) else Fail("CONTINUATION_STORAGE_LIST_INVALID")
  {
    var path := user + [SLASH];
    FolderNameIsOwned(user);
    db := Db(map[id := Row(user, StorageDeleting, None)], {}, {path});
    reply := Listed([path]);
    assert IsFirstPage(less, db.objects, user, None, PAGE_SIZE, [path]);
    assert HandlerAccepts(user, None, [path]);
    assert !WorkerAccepts(user, [path]) by { assert [path][0] == path; }
  }

  // ---------- a claim that meets a folder name ----------

  /** The owned paths before `bare` in the database's order. */
  ghost function Before(less: Collation, db: Db, user: UserId, bare: Path): set<Path> {
    set p | p in Owned(db, user) && less(p, bare)
  }

  ghost predicate IsFirstBare(less: Collation, db: Db, user: UserId, bare: Path) {
    && bare in Owned(db, user) && IsBare(user, bare)
    && forall p | p in Owned(db, user) && IsBare(user, p) && p != bare :: less(bare, p)
  }

  /** What the claim removes next lies before the first folder name. */
  ghost predicate NotThereYet(less: Collation, at: Local, bare: Path) {
    at.Removing? ==> |at.page| == PAGE_SIZE && forall p | p in at.page :: less(p, bare)
  }

  /** How such a claim ends: at its cap if the folder name is that far off, refused at its page otherwise. */
  ghost predicate EndsAtFolder(run: Run, count: nat, before: nat, budget: int, db': Db, outcome: Outcome) {
    && run.id in db'.rows && db'.rows[run.id].user == run.user && db'.rows[run.id].phase == StorageDeleting
    && if before >= budget then outcome == ClaimResumable && |Owned(db', run.user)| == count - budget
       else
         && outcome == ClaimFailed("CONTINUATION_STORAGE_LIST_INVALID")
         && |Owned(db', run.user)| == count - before / PAGE_SIZE * PAGE_SIZE
  }

  /** One step of such a claim: it ends as it should, or a page or nothing is taken from every number alike. */
  ghost predicate ComesNearer(less: Collation, run: Run, bare: Path, db: Db, at: Local, db': Db, at': Local) {
    var count, before := |Owned(db, run.user)|, |Before(less, db, run.user, bare)|;
    if at'.Finished? then EndsAtFolder(run, count, before, Budget(run, at), db', at'.outcome)
    else
      && OnTrack(less, db', run, at') && IsFirstBare(less, db', run.user, bare) && NotThereYet(less, at', bare)
      && var taken := Budget(run, at) - Budget(run, at');
         (taken == 0 || taken == PAGE_SIZE)
         && |Owned(db', run.user)| == count - taken && |Before(less, db', run.user, bare)| == before - taken
  }

  lemma {:induction false} DistinctFits(s: seq<Path>, c: set<Path>)
    requires (forall i, j | 0 <= i < j < |s| :: s[i] != s[j]) && forall p | p in s :: p in c
    ensures |s| <= |c|
  {
    if s != [] {
      var n := |s| - 1;
      forall p | p in s[..n] ensures p in c - {s[n]} {
        var i :| 0 <= i < n && s[i] == p;
      }
      DistinctFits(s[..n], c - {s[n]});
    }
  }

  /** The page reaches the first folder name exactly when fewer than a page of paths lie before it. */
  lemma PageReachesFolder(less: Collation, db: Db, user: UserId, after: Option<Path>, page: seq<Path>, bare: Path)
    requires IsCollation(less) && Cleared(less, db, user, after) && IsFirstBare(less, db, user, bare)
    requires IsFirstPage(less, db.objects, user, after, PAGE_SIZE, page)
    ensures bare in page <==> |Before(less, db, user, bare)| < PAGE_SIZE
    ensures bare !in page ==> |page| == PAGE_SIZE && forall p | p in page :: less(p, bare)
  {
    var before := Before(less, db, user, bare);
    HonestPageMeaning(less, db, user, after, page);
    forall p | p in Owned(db, user) ensures After(less, after, p) {}
    if bare in page {
      var k :| 0 <= k < |page| && page[k] == bare;
      forall p | p in before ensures p in page[..k] {
        assert p in page;
        var i :| 0 <= i < |page| && page[i] == p;
        assert i < k by { assert !less(bare, p); }
        assert page[..k][i] == p;
      }
      SetFits(page[..k], before);
    } else {
      forall p | p in page ensures p in before {
        var i :| 0 <= i < |page| && page[i] == p;
        assert less(page[i], bare);
      }
      DistinctFits(page, before);
    }
  }

  lemma {:induction false} SetFits(s: seq<Path>, c: set<Path>)
    requires forall p | p in c :: p in s
    ensures |c| <= |s|
  {
    if s == [] {
      assert c == {};
    } else {
      var n := |s| - 1;
      forall p | p in c - {s[n]} ensures p in s[..n] {
        var i :| 0 <= i < |s| && s[i] == p;
        assert s[..n][i] == p;
      }
      SetFits(s[..n], c - {s[n]});
      if s[n] in c { assert c == (c - {s[n]}) + {s[n]}; } else { assert c == c - {s[n]}; }
    }
  }

  /** A page that reaches the folder name is refused. */
  lemma FolderPageIsRefused(run: Run, st: Request, after: Option<Path>, removed: nat, page: seq<Path>, bare: Path)
    requires run.Worker? && IsBare(run.user, bare) && bare in page
    ensures AfterList(run, st, after, removed, Listed(page)) == Fail("CONTINUATION_STORAGE_LIST_INVALID")
  {
    var k :| 0 <= k < |page| && page[k] == bare;
    assert !WorkerAccepts(run.user, page);
    hide WorkerAccepts;
  }

  /** A page before it is accepted. */
  lemma EarlierPageIsAccepted(less: Collation, db: Db, user: UserId, page: seq<Path>, bare: Path)
    requires IsCollation(less) && IsFirstBare(less, db, user, bare) && |page| <= PAGE_SIZE
    requires forall p | p in page :: p in Owned(db, user) && less(p, bare)
    ensures WorkerAccepts(user, page)
  {
    forall i | 0 <= i < |page| ensures OwnsPath(user, page[i]) && !IsBare(user, page[i]) {
      assert page[i] in Owned(db, user);
      assert !less(bare, page[i]) && page[i] != bare by { assert !less(bare, bare); }
    }
    WorkerAcceptsNamedPaths(user, page);
  }

  lemma PageIsOwned(less: Collation, db: Db, user: UserId, after: Option<Path>, page: seq<Path>)
    requires IsFirstPage(less, db.objects, user, after, PAGE_SIZE, page)
    ensures |page| <= PAGE_SIZE && forall p | p in page :: p in Owned(db, user)
  {
  }

  lemma FolderPageEndsClaim(less: Collation, db: Db, run: Run, at: Local, page: seq<Path>, bare: Path)
    requires run.Worker? && at.Listing? && Holds(db, run, at.request) && at.request.phase == StorageDeleting
    requires IsBare(run.user, bare) && bare in page && |Before(less, db, run.user, bare)| < PAGE_SIZE
    requires at.removed < run.Cap() && at.removed % PAGE_SIZE == 0
    ensures ComesNearer(less, run, bare, db, at, db, AfterList(run, at.request, at.after, at.removed, Listed(page)))
  {
    FolderPageIsRefused(run, at.request, at.after, at.removed, page, bare);
    hide Before, Owned, AfterList;
  }

  lemma EarlierPageIsRemovedNext(less: Collation, db: Db, run: Run, at: Local, reply: Reply, bare: Path)
    requires IsCollation(less) && run.Worker? && at.Listing? && OnTrack(less, db, run, at)
    requires !reply.Threw? && Answers(less, db, Pending(run, at), reply, db)
    requires IsFirstBare(less, db, run.user, bare) && NotThereYet(less, Onward(at, reply.paths), bare)
    requires WorkerAccepts(run.user, reply.paths) && reply.paths != []
    ensures ComesNearer(less, run, bare, db, at, db, AfterList(run, at.request, at.after, at.removed, reply))
  {
    AcceptedPageStaysOnTrack(less, db, run, at, reply);
    hide OnTrack, IsFirstBare, IsFirstPage, WorkerAccepts, AfterList, IsCollation, Before, Owned, NotThereYet;
  }

  lemma ListMeetsFolder(less: Collation, db: Db, run: Run, at: Local, reply: Reply, bare: Path)
    requires IsCollation(less) && run.Worker? && at.Listing? && OnTrack(less, db, run, at)
    requires IsFirstBare(less, db, run.user, bare)
    requires !reply.Threw? && Answers(less, db, Pending(run, at), reply, db)
    ensures ComesNearer(less, run, bare, db, at, db, AfterList(run, at.request, at.after, at.removed, reply))
  {
    var page := reply.paths;
    PageReachesFolder(less, db, run.user, at.after, page, bare);
    PageIsOwned(less, db, run.user, at.after, page);
    hide IsFirstPage, IsCollation, Cleared, AfterList, ComesNearer, WorkerAccepts, Before, Owned, PageCovers;
    if bare in page {
      FolderPageEndsClaim(less, db, run, at, page, bare);
    } else {
      EarlierPageIsAccepted(less, db, run.user, page, bare);
      EarlierPageIsRemovedNext(less, db, run, at, reply, bare);
    }
  }

  /** A page before the folder name goes: it is still the first one, a page nearer. */
  lemma RemovalComesNearer(less: Collation, db: Db, user: UserId, page: seq<Path>, bare: Path)
    requires IsCollation(less) && IsFirstBare(less, db, user, bare)
    requires (forall i, j | 0 <= i < j < |page| :: page[i] != page[j]) && forall p | p in page :: p in Owned(db, user)
    requires forall p | p in page :: less(p, bare)
    ensures
      var db' := Effect(db, RemoveStoragePaths(page));
      IsFirstBare(less, db', user, bare)
      && |Before(less, db', user, bare)| == |Before(less, db, user, bare)| - |page|
  {
    var db' := Effect(db, RemoveStoragePaths(page));
    var gone := set p | p in page;
    DistinctCount(page);
    assert Before(less, db', user, bare) == Before(less, db, user, bare) - gone;
    assert gone <= Before(less, db, user, bare);
    assert bare !in page by { assert !less(bare, bare); }
  }

  lemma RemoveMeetsFolder(less: Collation, db: Db, run: Run, at: Local, bare: Path)
    requires IsCollation(less) && run.Worker? && at.Removing? && OnTrack(less, db, run, at)
    requires IsFirstBare(less, db, run.user, bare) && NotThereYet(less, at, bare)
    ensures ComesNearer(less, run, bare, db, at, Effect(db, RemoveStoragePaths(at.page)),
                        AfterRemove(run, at.request, at.removed, at.page, Done))
  {
    RemoveStaysOnTrack(less, db, run, at);
    PageIsDistinctAndOwned(less, db, run, at);
    hide OnTrack, IsCollation, IsFirstBare, Before, Owned, Effect;
    RemovalComesNearer(less, db, run.user, at.page, bare);
    BeforeIsOwned(less, db, run.user, bare);
  }

  lemma PageIsDistinctAndOwned(less: Collation, db: Db, run: Run, at: Local)
    requires at.Removing? && OnTrack(less, db, run, at)
    ensures forall i, j | 0 <= i < j < |at.page| :: at.page[i] != at.page[j]
    ensures forall p | p in at.page :: p in Owned(db, run.user)
  {
  }

  lemma BeforeIsOwned(less: Collation, db: Db, user: UserId, bare: Path)
    ensures |Before(less, db, user, bare)| <= |Owned(db, user)|
  {
    var before, all := Before(less, db, user, bare), Owned(db, user);
    assert all == before + (all - before);
  }

  lemma ControlMeetsFolder(less: Collation, db: Db, run: Run, at: Local, reply: Reply, nowMs: int, bare: Path)
    requires IsCollation(less) && run.Worker? && OnTrack(less, db, run, at) && !at.Listing? && !at.Removing?
    requires IsFirstBare(less, db, run.user, bare)
    requires !reply.Threw? && Answers(less, db, Pending(run, at), reply, Effect(db, Pending(run, at)))
    ensures ComesNearer(less, run, bare, db, at, Effect(db, Pending(run, at)), Resume(run, at, reply, nowMs))
  {
    if at.Advancing? {
      AdvancingStaysOnTrack(less, db, run, at, reply, nowMs);
    } else {
      OpeningStaysOnTrack(less, db, run, at, reply, nowMs);
    }
  }

  /** What holds of the end after a step held of it before the step. */
  lemma NearerEndsAtFolder(less: Collation, run: Run, bare: Path, db: Db, at: Local, mid: Db, at': Local,
                           db': Db, outcome: Outcome)
    requires ComesNearer(less, run, bare, db, at, mid, at') && !at'.Finished?
    requires EndsAtFolder(run, |Owned(mid, run.user)|, |Before(less, mid, run.user, bare)|, Budget(run, at'), db', outcome)
    ensures EndsAtFolder(run, |Owned(db, run.user)|, |Before(less, db, run.user, bare)|, Budget(run, at), db', outcome)
  {
    hide OnTrack, IsFirstBare, NotThereYet, Owned, Before, Budget;
    var before, before' := |Before(less, db, run.user, bare)|, |Before(less, mid, run.user, bare)|;
    if before' == before - PAGE_SIZE {
      assert before / PAGE_SIZE == before' / PAGE_SIZE + 1;
    }
  }

  /**
   An undisturbed claim over a bucket with folder names, under any collation: with `before` paths before the
   first of them it is resumable at its cap of 500 if `before` is that large, and otherwise refused with exactly
   the whole pages before that name removed; the request stays at `storage_deleting`.
   */
  lemma {:induction false} ClaimMeetsFolder(less: Collation, db: Db, run: Run, at: Local, log: seq<Event>, db': Db,
                                            outcome: Outcome, bare: Path)
    requires IsCollation(less) && run.Worker? && OnTrack(less, db, run, at) && Quiet(less, db, run, at, log, db', outcome)
    requires IsFirstBare(less, db, run.user, bare) && NotThereYet(less, at, bare)
    ensures
      EndsAtFolder(run, |Owned(db, run.user)|, |Before(less, db, run.user, bare)|, Budget(run, at), db', outcome)
    decreases |log|
  {
    assert !at.Finished?;
    hide OnTrack, IsCollation, EndsAtFolder, IsFirstBare, Before, Owned, NotThereYet, Resume, Effect, Answers, Budget, Pending;
    var e := log[0];
    var mid, at' := Effect(db, e.call), Resume(run, at, e.reply, e.nowMs);
    ClaimComesNearer(less, db, run, at, e.reply, e.nowMs, bare);
    if at'.Finished? {
      assert log[1..] == [];
    } else {
      ClaimMeetsFolder(less, mid, run, at', log[1..], db', outcome, bare);
      NearerEndsAtFolder(less, run, bare, db, at, mid, at', db', outcome);
    }
  }

  lemma ClaimComesNearer(less: Collation, db: Db, run: Run, at: Local, reply: Reply, nowMs: int, bare: Path)
    requires IsCollation(less) && run.Worker? && OnTrack(less, db, run, at) && !at.Finished?
    requires IsFirstBare(less, db, run.user, bare) && NotThereYet(less, at, bare)
    requires !reply.Threw? && Answers(less, db, Pending(run, at), reply, Effect(db, Pending(run, at)))
    ensures ComesNearer(less, run, bare, db, at, Effect(db, Pending(run, at)), Resume(run, at, reply, nowMs))
  {
    if at.Listing? {
      assert Effect(db, Pending(run, at)) == db;
      hide OnTrack, IsCollation, IsFirstBare, Answers, ComesNearer, AfterList;
      ListMeetsFolder(less, db, run, at, reply, bare);
    } else if at.Removing? {
      RemoveMeetsFolder(less, db, run, at, bare);
    } else {
      ControlMeetsFolder(less, db, run, at, reply, nowMs, bare);
    }
  }

  // ---------- another order than that of `<` ----------

  /** What comes before the i-th path of a page in the handler's check. */
  function Previous(after: Option<Path>, page: seq<Path>, i: nat): Path
    requires i < |page|
  {
    if i > 0 then page[i - 1] else if after.Some? then after.value else []
  }

  lemma {:induction false} AscendingPageIsAfter(user: UserId, after: Option<Path>, page: seq<Path>, n: nat)
    requires n <= |page| && forall i | 0 <= i < |page| :: Less(Previous(after, page, i), page[i])
    ensures forall i | 0 <= i < n :: IsAfter(after, page[i])
  {
    if n > 0 {
      AscendingPageIsAfter(user, after, page, n - 1);
      assert Less(Previous(after, page, n - 1), page[n - 1]);
      if n > 1 {
        LessTransitive(if after.Some? then after.value else [], page[n - 2], page[n - 1]);
      }
    }
  }

  lemma HandlerAcceptsAscendingPages(user: UserId, after: Option<Path>, page: seq<Path>)
    requires |page| <= PAGE_SIZE && forall i | 0 <= i < |page| :: OwnsPath(user, page[i])
    ensures HandlerAccepts(user, after, page) <==> forall i | 0 <= i < |page| :: Less(Previous(after, page, i), page[i])
  {
    hide OwnsPath;
    if forall i | 0 <= i < |page| :: Less(Previous(after, page, i), page[i]) {
      AscendingPageIsAfter(user, after, page, |page|);
      forall i | 0 < i < |page| ensures Less(page[i - 1], page[i]) { assert Less(Previous(after, page, i), page[i]); }
    }
  }

  /**
   An honest page, under any collation: the handler refuses it exactly when two neighbours, the cursor included,
   are in the other order under `<`. The worker's check does not depend on the order.
   */
  lemma HandlerRefusesExactlyOtherOrders(less: Collation, objects: set<Path>, user: UserId, after: Option<Path>,
                                         page: seq<Path>)
    requires IsFirstPage(less, objects, user, after, PAGE_SIZE, page)
    ensures forall i | 0 <= i < |page| :: less(Previous(after, page, i), page[i])
    ensures !HandlerAccepts(user, after, page) <==>
      exists i :: 0 <= i < |page| && !Less(Previous(after, page, i), page[i])
    ensures WorkerAccepts(user, page) <==> forall i | 0 <= i < |page| :: !IsBare(user, page[i])
  {
    HandlerAcceptsAscendingPages(user, after, page);
    WorkerAcceptsNamedPaths(user, page);
    hide OwnsPath, HandlerAccepts, WorkerAccepts, Less;
  }

  lemma WorkerAcceptsNamedPaths(user: UserId, page: seq<Path>)
    requires |page| <= PAGE_SIZE && forall i | 0 <= i < |page| :: OwnsPath(user, page[i])
    ensures WorkerAccepts(user, page) <==> forall i | 0 <= i < |page| :: !IsBare(user, page[i])
  {
    forall i | 0 <= i < |page| ensures |page[i]| >= |user| + 1 {
      assert OwnsPath(user, page[i]);
    }
  }
}
