/**
 The per-owner promise chain: each call of `withPhotoCleanupLock` chains its operation on the entry it
 finds in the map and becomes the new entry. The k-th call is number k.
 */
module PhotoLock {
  import opened Basics

  datatype Status =
    | Waiting       // the operation has not been started
    | Running
    | Settled       // resolved or rejected; the `finally` callback has not run
    | Released      // the `finally` callback has run; whoever waits on `tracked` may start

  datatype CallState = CallState(previous: Option<nat>, status: Status, failed: bool)

  /** `entry` is what the map holds for the owner: the number of the call whose promise it is. */
  datatype Chain = Chain(calls: seq<CallState>, entry: Option<nat>)

  datatype Action =
    | Enter                           // withPhotoCleanupLock is called
    | Begin(k: nat)                   // previous has settled either way: the operation starts
    | Settle(k: nat, failed: bool)    // the operation resolves or rejects
    | Finally(k: nat)                 // the tracked promise's callback

  predicate MayBegin(c: Chain, k: nat)
    requires k < |c.calls|
  {
    && c.calls[k].status == Waiting
    && (c.calls[k].previous.Some? ==>
          c.calls[k].previous.value < |c.calls| && c.calls[c.calls[k].previous.value].status == Released)
  }

  ghost predicate Step(c: Chain, a: Action, c': Chain) {
    match a
    case Enter => c' == Chain(c.calls + [CallState(c.entry, Waiting, false)], Some(|c.calls|))
    case Begin(k) =>
      && k < |c.calls| && MayBegin(c, k)
      && c' == c.(calls := c.calls[k := c.calls[k].(status := Running)])
    case Settle(k, failed) =>
      && k < |c.calls| && c.calls[k].status == Running
      && c' == c.(calls := c.calls[k := c.calls[k].(status := Settled, failed := failed)])
    case Finally(k) =>
      && k < |c.calls| && c.calls[k].status == Settled
      && c' == Chain(c.calls[k := c.calls[k].(status := Released)], if c.entry == Some(k) then None else c.entry)
  }

  ghost predicate IsRun(states: seq<Chain>, actions: seq<Action>) {
    && |states| == |actions| + 1 && states[0] == Chain([], None)
    && forall i | 0 <= i < |actions| :: Step(states[i], actions[i], states[i + 1])
  }

  /** Calls below `Front` have released; the one at `Front` is the only one that can be active. */
  ghost predicate Ordered(c: Chain, front: nat) {
    && front <= |c.calls|
    && (forall k | 0 <= k < front :: c.calls[k].status == Released)
    && (forall k | front < k < |c.calls| :: c.calls[k].status == Waiting)
    && (front < |c.calls| ==> c.calls[front].status != Released)
    && (forall k | 0 < k < |c.calls| && k > front :: c.calls[k].previous == Some(k - 1))
    && (front < |c.calls| && c.calls[front].previous.Some? ==> 0 < front && c.calls[front].previous == Some(front - 1))
    && c.entry == (if front < |c.calls| then Some(|c.calls| - 1) else None)
  }

  lemma StepKeepsOrder(c: Chain, a: Action, c': Chain, front: nat) returns (front': nat)
    requires Ordered(c, front) && Step(c, a, c')
    ensures Ordered(c', front') && front' == (if a.Finally? then front + 1 else front)
  {
    front' := if a.Finally? then front + 1 else front;
  }

  lemma {:induction false} Reachable(states: seq<Chain>, actions: seq<Action>, i: nat) returns (front: nat)
    requires IsRun(states, actions) && i < |states|
    ensures Ordered(states[i], front)
  {
    if i == 0 {
      front := 0;
    } else {
      front := Reachable(states, actions, i - 1);
      front := StepKeepsOrder(states[i - 1], actions[i - 1], states[i], front);
    }
  }

  // ---------- what callers rely on ----------

  /** An operation starts only when every earlier one has settled and released, failed or not. */
  lemma OneAtATimeInCallOrder(states: seq<Chain>, actions: seq<Action>, i: nat, k: nat)
    requires IsRun(states, actions) && i < |states| && k < |states[i].calls|
    requires states[i].calls[k].status != Waiting
    ensures forall j | 0 <= j < k :: states[i].calls[j].status == Released
    ensures forall j | k < j < |states[i].calls| :: states[i].calls[k].status == Released || states[i].calls[j].status == Waiting
  {
    var front := Reachable(states, actions, i);
  }

  /** The entry is dropped exactly when every operation has settled: no fresh chain overlaps an old one. */
  lemma EntryDroppedOnlyWhenIdle(states: seq<Chain>, actions: seq<Action>, i: nat)
    requires IsRun(states, actions) && i < |states|
    ensures states[i].entry == None <==> forall k | 0 <= k < |states[i].calls| :: states[i].calls[k].status == Released
  {
    var front := Reachable(states, actions, i);
    if front < |states[i].calls| { assert states[i].calls[front].status != Released; }
  }

  /** The call's operation may start, or is running, or its callback is due. */
  predicate CanMove(c: Chain, k: nat)
    requires k < |c.calls|
  {
    MayBegin(c, k) || c.calls[k].status == Running || c.calls[k].status == Settled
  }

  /** Nothing gets stuck: unless all have released, some call can begin, settle or release. */
  lemma SomeCallCanMove(states: seq<Chain>, actions: seq<Action>, i: nat)
    requires IsRun(states, actions) && i < |states|
    requires exists k :: 0 <= k < |states[i].calls| && states[i].calls[k].status != Released
    ensures exists k :: 0 <= k < |states[i].calls| && CanMove(states[i], k)
  {
    var front := Reachable(states, actions, i);
    var c := states[i];
    assert front < |c.calls|;
    assert CanMove(c, front);
  }

  // ---------- the queue the chain amounts to ----------

  /** Calls `first` up to `next` have not released and wait in that order; is `first` at work? */
  datatype Queue = Queue(first: nat, next: nat, active: bool)

  function AsQueue(c: Chain, front: nat): Queue {
    Queue(front, |c.calls|, front < |c.calls| && c.calls[front].status != Waiting)
  }

  /** Every step of the chain is a step of a first-in first-out lock, or changes nothing a caller sees. */
  lemma ChainIsAFifoLock(c: Chain, a: Action, c': Chain, front: nat) returns (front': nat)
    requires Ordered(c, front) && Step(c, a, c')
    ensures Ordered(c', front')
    ensures
      var q, q' := AsQueue(c, front), AsQueue(c', front');
      match a
      case Enter => q' == q.(next := q.next + 1)
      case Begin(k) => !q.active && k == q.first < q.next && q' == q.(active := true)
      case Settle(k, _) => q.active && k == q.first && q' == q
      case Finally(k) => q.active && k == q.first && q' == Queue(q.first + 1, q.next, false)
  {
    front' := StepKeepsOrder(c, a, c', front);
  }
}
