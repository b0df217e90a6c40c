/**
 `mapWithConcurrency`: runners share one index and one results array. The scheduler below resumes any
 runner that can go on, so the loop's invariants hold in every interleaving.
 */
module WorkerPool {
  import opened Basics

  /** What one call of the worker comes to. */
  datatype Attempt<+R> = Value(value: R) | Throws

  datatype Runner =
    | Ready                // about to test the loop's condition
    | Busy(index: nat)     // awaiting worker(items[index])
    | Ended
    | Rejected

  predicate CanGoOn(r: Runner) { r.Ready? || r.Busy? }

  function Weight(r: Runner): nat {
    match r
    case Ready => 1
    case Busy(_) => 2
    case _ => 0
  }

  function TotalWeight(runners: seq<Runner>): nat {
    if runners == [] then 0 else Weight(runners[0]) + TotalWeight(runners[1..])
  }

  /** How many calls of the worker are awaited. */
  function InFlight(runners: seq<Runner>): nat {
    |set k: nat | k < |runners| && runners[k].Busy?|
  }

  lemma {:induction false} BusyAmongFirst(runners: seq<Runner>, n: nat)
    requires n <= |runners|
    ensures |set k: nat | k < n && runners[k].Busy?| <= n
    ensures (forall k | 0 <= k < n :: runners[k].Busy?) ==> |set k: nat | k < n && runners[k].Busy?| == n
  {
    if n > 0 {
      BusyAmongFirst(runners, n - 1);
      var before := set k: nat | k < n - 1 && runners[k].Busy?;
      assert (set k: nat | k < n && runners[k].Busy?) == before + if runners[n - 1].Busy? then {n - 1} else {};
    }
  }

  lemma AtMostAll(runners: seq<Runner>)
    ensures InFlight(runners) <= |runners|
    ensures (forall k | 0 <= k < |runners| :: runners[k].Busy?) ==> InFlight(runners) == |runners|
  {
    BusyAmongFirst(runners, |runners|);
  }

  lemma {:induction false} WeightOfUpdate(runners: seq<Runner>, k: nat, r: Runner)
    requires k < |runners|
    ensures TotalWeight(runners[k := r]) == TotalWeight(runners) - Weight(runners[k]) + Weight(r)
  {
    if k > 0 {
      WeightOfUpdate(runners[1..], k - 1, r);
      assert runners[k := r][1..] == runners[1..][k - 1 := r];
    }
  }

  lemma OthersStay(runners: seq<Runner>, k: nat, r: Runner)
    requires k < |runners|
    ensures forall other | other in runners && other != runners[k] :: other in runners[k := r]
    ensures r in runners[k := r]
  {
    forall other | other in runners && other != runners[k] ensures other in runners[k := r] {
      var j :| 0 <= j < |runners| && runners[j] == other;
      assert runners[k := r][j] == other;
    }
    assert runners[k := r][k] == r;
  }

  /** Items up to the shared index were handed out once each; each is in flight, stored, or was thrown on. */
  ghost predicate Accounted<R>(results: seq<Option<R>>, runners: seq<Runner>, nextIndex: nat, outcome: nat -> Attempt<R>) {
    && nextIndex <= |results|
    && (forall i | nextIndex <= i < |results| :: results[i] == None)
    && (forall k | 0 <= k < |runners| && runners[k].Busy? :: runners[k].index < nextIndex && results[runners[k].index] == None)
    && (forall j, k | 0 <= j < k < |runners| && runners[j].Busy? && runners[k].Busy? :: runners[j].index != runners[k].index)
    && (forall i: nat | i < nextIndex ::
          (outcome(i).Value? && results[i] == Some(outcome(i).value))
          || (results[i] == None && (Busy(i) in runners || (outcome(i).Throws? && Rejected in runners))))
    && (Ended in runners ==> nextIndex == |results|)
    && (Rejected in runners ==> exists i: nat :: i < nextIndex && outcome(i).Throws?)
  }

  lemma StartAccounts<R>(results: seq<Option<R>>, runners: seq<Runner>, width: nat, outcome: nat -> Attempt<R>)
    requires |runners| == width <= |results| && forall i | 0 <= i < width :: runners[i] == Busy(i)
    requires forall i | 0 <= i < |results| :: results[i] == None
    ensures Accounted(results, runners, width, outcome) && InFlight(runners) == width
  {
    AtMostAll(runners);
    forall i: nat | i < width ensures Busy(i) in runners { assert runners[i] == Busy(i); }
  }

  lemma HandingOutAccounts<R>(results: seq<Option<R>>, runners: seq<Runner>, nextIndex: nat, outcome: nat -> Attempt<R>, k: nat)
    requires Accounted(results, runners, nextIndex, outcome) && k < |runners| && runners[k].Ready?
    ensures nextIndex < |results| ==> Accounted(results, runners[k := Busy(nextIndex)], nextIndex + 1, outcome)
    ensures nextIndex == |results| ==> Accounted(results, runners[k := Ended], nextIndex, outcome)
  {
    OthersStay(runners, k, Busy(nextIndex));
    OthersStay(runners, k, Ended);
  }

  lemma ReturningAccounts<R>(results: seq<Option<R>>, runners: seq<Runner>, nextIndex: nat, outcome: nat -> Attempt<R>, k: nat)
    requires Accounted(results, runners, nextIndex, outcome) && k < |runners| && runners[k].Busy?
    ensures
      var i := runners[k].index;
      if outcome(i).Value? then Accounted(results[i := Some(outcome(i).value)], runners[k := Ready], nextIndex, outcome)
      else Accounted(results, runners[k := Rejected], nextIndex, outcome)
  {
    var i := runners[k].index;
    OthersStay(runners, k, Ready);
    OthersStay(runners, k, Rejected);
    assert outcome(i).Value? ==> Rejected in runners[k := Ready] ==> Rejected in runners;
    assert outcome(i).Value? ==> Ended in runners[k := Ready] ==> Ended in runners;
    assert Ended in runners[k := Rejected] ==> Ended in runners;
  }

  /** Nobody can go on: every item handed out is stored or was thrown on. */
  lemma AllSettled<R>(results: seq<Option<R>>, runners: seq<Runner>, nextIndex: nat, outcome: nat -> Attempt<R>)
    requires Accounted(results, runners, nextIndex, outcome)
    requires forall k | 0 <= k < |runners| :: !CanGoOn(runners[k])
    ensures Rejected in runners <==> exists i: nat :: i < nextIndex && outcome(i).Throws?
    ensures Rejected !in runners && runners != [] ==> nextIndex == |results|
    ensures Rejected !in runners ==> forall i: nat | i < nextIndex :: outcome(i).Value? && results[i] == Some(outcome(i).value)
    ensures forall i: nat | i < |results| && results[i].Some? :: outcome(i) == Value(results[i].value)
  {
    assert forall i: nat :: Busy(i) !in runners;
    if runners != [] && Rejected !in runners { assert runners[0] == Ended; }
  }

  /** The loop's condition and, if there is an item left, handing it out; otherwise the runner ends. */
  method TestCondition<R>(count: nat, runners: seq<Runner>, nextIndex: nat, k: nat,
                          ghost results: seq<Option<R>>, ghost outcome: nat -> Attempt<R>)
    returns (next: nat, after: seq<Runner>)
    requires count == |results| && Accounted(results, runners, nextIndex, outcome)
    requires k < |runners| && runners[k].Ready?
    ensures next == (if nextIndex < count then nextIndex + 1 else nextIndex) && |after| == |runners|
    ensures Accounted(results, after, next, outcome)
    ensures 3 * (count - next) + TotalWeight(after) < 3 * (count - nextIndex) + TotalWeight(runners)
  {
    HandingOutAccounts(results, runners, nextIndex, outcome, k);
    if nextIndex < count {
      next, after := nextIndex + 1, runners[k := Busy(nextIndex)];
    } else {
      next, after := nextIndex, runners[k := Ended];
    }
    WeightOfUpdate(runners, k, after[k]);
  }

  /** The awaited call of the worker settles: its value is stored, or the runner rejects. */
  method WorkerSettles<R>(results: array<Option<R>>, runners: seq<Runner>, ghost nextIndex: nat, k: nat,
                          outcome: nat -> Attempt<R>)
    returns (after: seq<Runner>)
    requires Accounted(results[..], runners, nextIndex, outcome) && k < |runners| && runners[k].Busy?
    modifies results
    ensures |after| == |runners| && Accounted(results[..], after, nextIndex, outcome)
    ensures TotalWeight(after) < TotalWeight(runners)
  {
    ghost var before := results[..];
    ReturningAccounts(before, runners, nextIndex, outcome, k);
    var index := runners[k].index;
    var settled := outcome(index);
    if settled.Value? {
      results[index] := Some(settled.value);
      assert results[..] == before[index := Some(settled.value)];
      after := runners[k := Ready];
    } else {
      after := runners[k := Rejected];
    }
    WeightOfUpdate(runners, k, after[k]);
  }

  /** A runner that can go on does, up to its next await; `more` is the item it is handed, if any. */
  method GoOn<R>(results: array<Option<R>>, runners: seq<Runner>, nextIndex: nat, k: nat, outcome: nat -> Attempt<R>)
    returns (next: nat, after: seq<Runner>, ghost more: seq<nat>)
    requires Accounted(results[..], runners, nextIndex, outcome) && k < |runners| && CanGoOn(runners[k])
    modifies results
    ensures |after| == |runners| && next <= results.Length && Accounted(results[..], after, next, outcome)
    ensures (more == [] && next == nextIndex) || (more == [nextIndex] && next == nextIndex + 1)
    ensures 3 * (results.Length - next) + TotalWeight(after) < 3 * (results.Length - nextIndex) + TotalWeight(runners)
  {
    IndexInRange(results[..], runners, nextIndex, outcome);
    hide Accounted, TotalWeight;
    if runners[k].Ready? {
      next, after := TestCondition(results.Length, runners, nextIndex, k, results[..], outcome);
    } else {
      next := nextIndex;
      after := WorkerSettles(results, runners, nextIndex, k, outcome);
    }
    more := if next > nextIndex then [nextIndex] else [];
  }

  lemma IndexInRange<R>(results: seq<Option<R>>, runners: seq<Runner>, nextIndex: nat, outcome: nat -> Attempt<R>)
    requires Accounted(results, runners, nextIndex, outcome)
    ensures nextIndex <= |results|
  {
  }

  /** Each runner is started in turn and runs up to its first await. */
  method StartRunners(width: nat) returns (runners: seq<Runner>, nextIndex: nat)
    ensures nextIndex == width == |runners| && forall k | 0 <= k < width :: runners[k] == Busy(k)
  {
    runners, nextIndex := [], 0;
    while nextIndex < width
      invariant |runners| == nextIndex <= width && forall k | 0 <= k < nextIndex :: runners[k] == Busy(k)
    {
      runners, nextIndex := runners + [Busy(nextIndex)], nextIndex + 1;
    }
  }

  method MapWithConcurrency<T, R>(items: seq<T>, limit: nat, outcome: nat -> Attempt<R>)
    returns (results: array<Option<R>>, failed: bool, ghost handed: seq<nat>, ghost peak: nat)
    ensures fresh(results) && results.Length == |items|
    // Each item is handed to the worker at most once, in order.
    ensures |handed| <= |items| && forall i | 0 <= i < |handed| :: handed[i] == i
    ensures peak == Min(limit, |items|)
    ensures failed <==> exists i: nat :: i < |handed| && outcome(i).Throws?
    // Without a throw every item was handed out, and every result belongs to its item.
    ensures !failed && limit > 0 ==>
      && |handed| == |items|
      && forall i: nat | i < |items| :: outcome(i).Value? && results[i] == Some(outcome(i).value)
    ensures forall i: nat | i < |items| && results[i].Some? :: outcome(i) == Value(results[i].value)
  {
    var width := Min(limit, |items|);
    results := new Option<R>[|items|](_ => None);
    var runners, nextIndex := StartRunners(width);
    handed := seq(width, k => k);
    StartAccounts(results[..], runners, width, outcome);
    hide Accounted, TotalWeight, InFlight;
    peak := InFlight(runners);
    while exists k :: 0 <= k < |runners| && CanGoOn(runners[k])
      invariant |runners| == width && nextIndex <= |items|
      invariant |handed| == nextIndex && forall i | 0 <= i < |handed| :: handed[i] == i
      invariant peak == width
      invariant Accounted(results[..], runners, nextIndex, outcome)
      decreases 3 * (|items| - nextIndex) + TotalWeight(runners)
    {
      var k :| 0 <= k < |runners| && CanGoOn(runners[k]);
      ghost var more;
      nextIndex, runners, more := GoOn(results, runners, nextIndex, k, outcome);
      handed := handed + more;
      AtMostAll(runners);
      peak := Max(InFlight(runners), peak);
    }
    AllSettled(results[..], runners, nextIndex, outcome);
    assert forall i: nat | i < |items| :: results[..][i] == results[i];
    failed := Rejected in runners;
  }
}
