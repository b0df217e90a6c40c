/**
 Shared realtime controllers: reference counts, idle timers and single-flight removal. Each operation
 below is the code of `useConversationPresence.ts` between two awaits.
 */
module Presence {

  type UserId = nat      // a user id, by its place in the order of ids
  type Cid = nat         // a controller object
  type Pid = nat         // one mounted effect of the hook

  /** A conversation pair: its two user ids in order. */
  datatype Key = Key(low: UserId, high: UserId)

  /** `buildConversationPairKey`. */
  function PairKey(left: UserId, right: UserId): Key {
    if left < right then Key(left, right) else Key(right, left)
  }

  /**
   A controller object: the pair and user it was made for, the user whose presence it watches, and whether its
   two channels (`conversation:<pair>` and `presence:<other>`) are still registered.
   */
  datatype Ctl = Ctl(key: Key, user: UserId, other: UserId, consumers: int, timer: bool, typing: bool, presence: bool)

  /** The module's two maps, the controllers that ever existed, and the removal promises. */
  datatype Reg = Reg(
    ctls: map<Cid, Ctl>,
    controllers: map<Key, Cid>,
    flights: map<Key, nat>,
    nextFlight: nat,
    settled: set<nat>)

  // ---------- the operations ----------

  /** `removeController`, up to its await on the channels. */
  function Detach(r: Reg, key: Key, c: Cid): Reg
    requires c in r.ctls
  {
    r.(controllers := if key in r.controllers && r.controllers[key] == c then r.controllers - {key} else r.controllers,
       ctls := r.ctls[c := r.ctls[c].(typing := false, presence := false)])
  }

  /** `beginControllerRemoval`: one removal of a pair at a time. */
  function BeginRemoval(r: Reg, key: Key, c: Cid): Reg
    requires c in r.ctls
  {
    if key in r.flights then r
    else Detach(r, key, c).(flights := r.flights[key := r.nextFlight], nextFlight := r.nextFlight + 1)
  }

  /** The removal's promise settles, and its `finally` callback runs. */
  function SettleFlight(r: Reg, key: Key): Reg
    requires key in r.flights
  {
    r.(flights := r.flights - {key}, settled := r.settled + {r.flights[key]})
  }

  /** `removeOrphanedRealtimeTopic` for a presence topic: every channel of the topic goes, whoever holds it. */
  function SweepPresence(r: Reg, watched: UserId): Reg {
    r.(ctls := map c | c in r.ctls :: if r.ctls[c].other == watched then r.ctls[c].(presence := false) else r.ctls[c])
  }

  /** The same for a conversation topic. */
  function SweepTyping(r: Reg, key: Key): Reg {
    r.(ctls := map c | c in r.ctls :: if r.ctls[c].key == key then r.ctls[c].(typing := false) else r.ctls[c])
  }

  /** The two sweeps before a controller is made. */
  function Sweep(r: Reg, user: UserId, other: UserId): Reg {
    SweepPresence(SweepTyping(r, PairKey(user, other)), other)
  }

  /** `createController`. */
  function Create(r: Reg, c: Cid, user: UserId, other: UserId): Reg {
    r.(ctls := r.ctls[c := Ctl(PairKey(user, other), user, other, 0, false, true, true)],
       controllers := r.controllers[PairKey(user, other) := c])
  }

  /** The end of `acquireController`: the idle timer is cleared and the count goes up. */
  function Take(r: Reg, c: Cid): Reg
    requires c in r.ctls
  {
    r.(ctls := r.ctls[c := r.ctls[c].(timer := false, consumers := r.ctls[c].consumers + 1)])
  }

  /** `releaseController`. */
  function Release(r: Reg, c: Cid): Reg
    requires c in r.ctls
  {
    var left := if r.ctls[c].consumers - 1 > 0 then r.ctls[c].consumers - 1 else 0;
    r.(ctls := r.ctls[c := r.ctls[c].(consumers := left, timer := if left > 0 then r.ctls[c].timer else true)])
  }

  /** The idle timer's callback. */
  function FireTimer(r: Reg, c: Cid): Reg
    requires c in r.ctls
  {
    var r' := r.(ctls := r.ctls[c := r.ctls[c].(timer := false)]);
    if r.ctls[c].consumers == 0 then BeginRemoval(r', r.ctls[c].key, c) else r'
  }

  // ---------- the effects that use them ----------

  datatype Proc =
    | AwaitingFlight(user: UserId, other: UserId, flight: nat, cancelled: bool)
    | AwaitingRemoval(user: UserId, other: UserId, flight: nat, cancelled: bool)
    | AwaitingSweep(user: UserId, other: UserId, cancelled: bool)
    | Acquired(held: Cid, cancelled: bool)    // resolved; the `then` callback is due
    | Mounted(held: Cid)
    | Unmounted

  datatype State = State(reg: Reg, procs: map<Pid, Proc>)

  datatype Action =
    | Mount(pid: Pid, user: UserId, other: UserId)   // the effect runs: acquireController is called
    | Resume(pid: Pid, newController: Cid)           // what it awaits has settled
    | Deliver(pid: Pid)                              // the `then` callback
    | Unmount(pid: Pid)                              // the effect's cleanup
    | TimerFires(c: Cid)
    | FlightSettles(key: Key)
    | AppPresence(user: UserId)                      // useAppPresence mounts: it sweeps that user's presence topic

  function Cancel(p: Proc): Proc {
    match p
    case AwaitingFlight(user, other, flight, _) => AwaitingFlight(user, other, flight, true)
    case AwaitingRemoval(user, other, flight, _) => AwaitingRemoval(user, other, flight, true)
    case AwaitingSweep(user, other, _) => AwaitingSweep(user, other, true)
    case Acquired(held, _) => Acquired(held, true)
    case _ => p
  }

  function SetProc(s: State, pid: Pid, p: Proc): State {
    s.(procs := s.procs[pid := p])
  }

  /** `acquireController` once no removal is being waited for. */
  function Lookup(s: State, pid: Pid, user: UserId, other: UserId, cancelled: bool): State
    requires Closed(s.reg)
  {
    var key := PairKey(user, other);
    if key in s.reg.controllers then
      var c := s.reg.controllers[key];
      if s.reg.ctls[c].user != user then
        var r := BeginRemoval(s.reg, key, c);
        SetProc(s.(reg := r), pid, AwaitingRemoval(user, other, r.flights[key], cancelled))
      else SetProc(s.(reg := Take(s.reg, c)), pid, Acquired(c, cancelled))
    else SetProc(s.(reg := Sweep(s.reg, user, other)), pid, AwaitingSweep(user, other, cancelled))
  }

  /** After the sweeps: whoever got there first has created the controller. */
  function Settle(s: State, pid: Pid, user: UserId, other: UserId, cancelled: bool, newController: Cid): State
    requires Closed(s.reg)
  {
    var key := PairKey(user, other);
    if key in s.reg.controllers then
      SetProc(s.(reg := Take(s.reg, s.reg.controllers[key])), pid, Acquired(s.reg.controllers[key], cancelled))
    else SetProc(s.(reg := Take(Create(s.reg, newController, user, other), newController)), pid, Acquired(newController, cancelled))
  }

  predicate Closed(r: Reg) {
    forall k | k in r.controllers :: r.controllers[k] in r.ctls
  }

  ghost predicate Step(s: State, a: Action, s': State) {
    && Closed(s.reg)
    && match a
       case Mount(pid, user, other) =>
         && pid !in s.procs
         && var key := PairKey(user, other);
            s' == if key in s.reg.flights then SetProc(s, pid, AwaitingFlight(user, other, s.reg.flights[key], false))
                  else Lookup(s, pid, user, other, false)
       case Resume(pid, c) =>
         && pid in s.procs && c !in s.reg.ctls
         && (match s.procs[pid]
             case AwaitingFlight(user, other, flight, cancelled) =>
               flight in s.reg.settled && s' == Lookup(s, pid, user, other, cancelled)
             case AwaitingRemoval(user, other, flight, cancelled) =>
               flight in s.reg.settled
               && s' == SetProc(s.(reg := Sweep(s.reg, user, other)), pid, AwaitingSweep(user, other, cancelled))
             case AwaitingSweep(user, other, cancelled) => s' == Settle(s, pid, user, other, cancelled, c)
             case _ => false)
       case Deliver(pid) =>
         && pid in s.procs && s.procs[pid].Acquired? && s.procs[pid].held in s.reg.ctls
         && s' == (if s.procs[pid].cancelled then SetProc(s.(reg := Release(s.reg, s.procs[pid].held)), pid, Unmounted)
                   else SetProc(s, pid, Mounted(s.procs[pid].held)))
       case Unmount(pid) =>
         && pid in s.procs
         && (match s.procs[pid]
             case Mounted(c) => c in s.reg.ctls && s' == SetProc(s.(reg := Release(s.reg, c)), pid, Unmounted)
             case Unmounted => false
             case p => !p.cancelled && s' == SetProc(s, pid, Cancel(p)))
       case TimerFires(c) => c in s.reg.ctls && s.reg.ctls[c].timer && s' == s.(reg := FireTimer(s.reg, c))
       case FlightSettles(key) => key in s.reg.flights && s' == s.(reg := SettleFlight(s.reg, key))
       case AppPresence(user) => s' == s.(reg := SweepPresence(s.reg, user))
  }

  ghost predicate IsRun(states: seq<State>, actions: seq<Action>) {
    && |states| == |actions| + 1
    && states[0] == State(Reg(map[], map[], map[], 0, {}), map[])
    && forall i | 0 <= i < |actions| :: Step(states[i], actions[i], states[i + 1])
  }

  // ---------- the invariant ----------

  predicate Holds(p: Proc, c: Cid) {
    (p.Acquired? || p.Mounted?) && p.held == c
  }

  /** The outstanding handles on a controller. */
  function Holders(procs: map<Pid, Proc>, c: Cid): set<Pid> {
    set pid | pid in procs && Holds(procs[pid], c)
  }

  /** At least one channel is registered. */
  predicate IsUp(ctl: Ctl) { ctl.typing || ctl.presence }

  /** The maps: an entry's controller is its pair's, and a controller with a channel is its pair's entry. */
  ghost predicate RegOk(r: Reg) {
    && Closed(r)
    && (forall k | k in r.controllers :: r.ctls[r.controllers[k]].key == k)
    && (forall c | c in r.ctls && IsUp(r.ctls[c]) ::
          r.ctls[c].key in r.controllers && r.controllers[r.ctls[c].key] == c)
    && (forall c | c in r.ctls :: r.ctls[c].key == PairKey(r.ctls[c].user, r.ctls[c].other))
    && (forall c | c in r.ctls && r.ctls[c].timer :: r.ctls[c].consumers == 0)
  }

  predicate HasHandle(p: Proc) { p.Acquired? || p.Mounted? }

  /** Every count is the number of outstanding handles. */
  ghost predicate Counted(ctls: map<Cid, Ctl>, procs: map<Pid, Proc>) {
    && (forall pid | pid in procs && HasHandle(procs[pid]) :: procs[pid].held in ctls)
    && (forall c | c in ctls :: ctls[c].consumers == |Holders(procs, c)|)
  }

  ghost predicate Invariant(s: State) {
    RegOk(s.reg) && Counted(s.reg.ctls, s.procs)
  }

  lemma WithoutOne(holders: set<Pid>, pid: Pid)
    ensures |holders - {pid}| == |holders| - (if pid in holders then 1 else 0)
  {
    if pid in holders {
      assert holders == (holders - {pid}) + {pid};
    } else {
      assert holders - {pid} == holders;
    }
  }

  lemma HoldersChange(procs: map<Pid, Proc>, pid: Pid, p: Proc, c: Cid)
    ensures |Holders(procs[pid := p], c)| ==
            |Holders(procs, c)| - (if pid in Holders(procs, c) then 1 else 0) + (if Holds(p, c) then 1 else 0)
  {
    var now := Holders(procs[pid := p], c);
    WithoutOne(Holders(procs, c), pid);
    WithoutOne(now, pid);
    assert now - {pid} == Holders(procs, c) - {pid};
    assert pid in now <==> Holds(p, c);
  }

  function Held(p: Proc, c: Cid): int { if Holds(p, c) then 1 else 0 }

  /** An effect moves on: the counts change by exactly the handle it gains or gives up. */
  lemma CountsFollow(ctls: map<Cid, Ctl>, procs: map<Pid, Proc>, pid: Pid, p: Proc, ctls': map<Cid, Ctl>)
    requires Counted(ctls, procs) && ctls.Keys <= ctls'.Keys && (HasHandle(p) ==> p.held in ctls')
    requires forall c | c in ctls ::
      ctls'[c].consumers == ctls[c].consumers - (if pid in procs then Held(procs[pid], c) else 0) + Held(p, c)
    requires forall c | c in ctls' && c !in ctls :: ctls'[c].consumers == Held(p, c)
    ensures Counted(ctls', procs[pid := p])
  {
    forall c | c in ctls' ensures ctls'[c].consumers == |Holders(procs[pid := p], c)| {
      HoldersChange(procs, pid, p, c);
      if c !in ctls { assert Holders(procs, c) == {}; }
    }
  }

  // ---------- one operation at a time ----------

  lemma BeginRemovalKeeps(r: Reg, key: Key, c: Cid)
    requires RegOk(r) && c in r.ctls && r.ctls[c].key == key
    ensures RegOk(BeginRemoval(r, key, c)) && SameCounts(r.ctls, BeginRemoval(r, key, c).ctls)
  {
  }

  ghost predicate SameCounts(ctls: map<Cid, Ctl>, ctls': map<Cid, Ctl>) {
    ctls'.Keys == ctls.Keys && forall c | c in ctls :: ctls'[c].consumers == ctls[c].consumers
  }

  lemma SweepTypingKeeps(r: Reg, key: Key)
    requires RegOk(r)
    ensures RegOk(SweepTyping(r, key)) && SameCounts(r.ctls, SweepTyping(r, key).ctls)
  {
  }

  lemma SweepPresenceKeeps(r: Reg, watched: UserId)
    requires RegOk(r)
    ensures RegOk(SweepPresence(r, watched)) && SameCounts(r.ctls, SweepPresence(r, watched).ctls)
  {
  }

  lemma SweepKeeps(r: Reg, user: UserId, other: UserId)
    requires RegOk(r)
    ensures RegOk(Sweep(r, user, other)) && SameCounts(r.ctls, Sweep(r, user, other).ctls)
  {
    SweepTypingKeeps(r, PairKey(user, other));
    SweepPresenceKeeps(SweepTyping(r, PairKey(user, other)), other);
  }

  lemma CreateKeeps(r: Reg, c: Cid, user: UserId, other: UserId)
    requires RegOk(r) && c !in r.ctls && PairKey(user, other) !in r.controllers
    ensures RegOk(Create(r, c, user, other))
  {
  }

  lemma TakeKeeps(r: Reg, c: Cid)
    requires RegOk(r) && c in r.ctls
    ensures RegOk(Take(r, c))
  {
  }

  /** An effect without a handle goes on without one. */
  lemma WaitingKeepsInvariant(s: State, pid: Pid, p: Proc, r: Reg)
    requires Invariant(s) && (pid in s.procs ==> !HasHandle(s.procs[pid])) && !HasHandle(p)
    requires RegOk(r) && SameCounts(s.reg.ctls, r.ctls)
    ensures Invariant(SetProc(s.(reg := r), pid, p))
  {
    CountsFollow(s.reg.ctls, s.procs, pid, p, r.ctls);
  }

  lemma TakingKeepsInvariant(s: State, pid: Pid, c: Cid, cancelled: bool, r: Reg)
    requires Invariant(s) && (pid in s.procs ==> !HasHandle(s.procs[pid])) && RegOk(r) && c in r.ctls
    requires
      || SameCounts(s.reg.ctls, r.ctls)
      || (c !in s.reg.ctls && r.ctls[c].consumers == 0 && SameCounts(s.reg.ctls, r.ctls - {c}))
    ensures Invariant(SetProc(s.(reg := Take(r, c)), pid, Acquired(c, cancelled)))
  {
    TakeKeeps(r, c);
    CountsFollow(s.reg.ctls, s.procs, pid, Acquired(c, cancelled), Take(r, c).ctls);
  }

  lemma LookupKeepsInvariant(s: State, pid: Pid, user: UserId, other: UserId, cancelled: bool)
    requires Invariant(s) && (pid in s.procs ==> s.procs[pid].AwaitingFlight?)
    ensures Invariant(Lookup(s, pid, user, other, cancelled))
  {
    var key := PairKey(user, other);
    if key !in s.reg.controllers {
      SweepKeeps(s.reg, user, other);
      WaitingKeepsInvariant(s, pid, AwaitingSweep(user, other, cancelled), Sweep(s.reg, user, other));
    } else if s.reg.ctls[s.reg.controllers[key]].user != user {
      var r := BeginRemoval(s.reg, key, s.reg.controllers[key]);
      BeginRemovalKeeps(s.reg, key, s.reg.controllers[key]);
      WaitingKeepsInvariant(s, pid, AwaitingRemoval(user, other, r.flights[key], cancelled), r);
    } else {
      TakingKeepsInvariant(s, pid, s.reg.controllers[key], cancelled, s.reg);
    }
  }

  lemma SettleKeepsInvariant(s: State, pid: Pid, user: UserId, other: UserId, cancelled: bool, c: Cid)
    requires Invariant(s) && c !in s.reg.ctls && pid in s.procs && s.procs[pid].AwaitingSweep?
    ensures Invariant(Settle(s, pid, user, other, cancelled, c))
  {
    var key := PairKey(user, other);
    if key in s.reg.controllers {
      TakingKeepsInvariant(s, pid, s.reg.controllers[key], cancelled, s.reg);
    } else {
      CreateKeeps(s.reg, c, user, other);
      assert Create(s.reg, c, user, other).ctls - {c} == s.reg.ctls;
      TakingKeepsInvariant(s, pid, c, cancelled, Create(s.reg, c, user, other));
    }
  }

  /** Giving a handle back: the count was positive, so the clamp at zero changes nothing. */
  lemma ReleaseKeepsInvariant(s: State, pid: Pid)
    requires Invariant(s) && pid in s.procs && HasHandle(s.procs[pid])
    ensures
      var c := s.procs[pid].held;
      && s.reg.ctls[c].consumers > 0
      && Release(s.reg, c).ctls[c].consumers == s.reg.ctls[c].consumers - 1
      && Invariant(SetProc(s.(reg := Release(s.reg, c)), pid, Unmounted))
  {
    var c := s.procs[pid].held;
    assert pid in Holders(s.procs, c);
    CountsFollow(s.reg.ctls, s.procs, pid, Unmounted, Release(s.reg, c).ctls);
  }

  lemma TimerKeepsInvariant(s: State, c: Cid)
    requires Invariant(s) && c in s.reg.ctls && s.reg.ctls[c].timer
    ensures Invariant(s.(reg := FireTimer(s.reg, c)))
  {
    var r := s.reg.(ctls := s.reg.ctls[c := s.reg.ctls[c].(timer := false)]);
    BeginRemovalKeeps(r, r.ctls[c].key, c);
  }

  lemma ResumeKeepsInvariant(s: State, pid: Pid, c: Cid, s': State)
    requires Invariant(s) && Step(s, Resume(pid, c), s')
    ensures Invariant(s')
  {
    match s.procs[pid]
    case AwaitingFlight(user, other, _, cancelled) => LookupKeepsInvariant(s, pid, user, other, cancelled);
    case AwaitingSweep(user, other, cancelled) => SettleKeepsInvariant(s, pid, user, other, cancelled, c);
    case AwaitingRemoval(user, other, _, cancelled) =>
      SweepKeeps(s.reg, user, other);
      WaitingKeepsInvariant(s, pid, s'.procs[pid], s'.reg);
    case _ =>
  }

  /** Every step, with any users, keeps counts, timers and maps in order. */
  lemma StepKeepsInvariant(s: State, a: Action, s': State)
    requires Invariant(s) && Step(s, a, s')
    ensures Invariant(s')
  {
    match a
    case Mount(pid, user, other) =>
      if PairKey(user, other) in s.reg.flights {
        CountsFollow(s.reg.ctls, s.procs, pid, s'.procs[pid], s.reg.ctls);
      } else {
        LookupKeepsInvariant(s, pid, user, other, false);
      }
    case Resume(pid, c) => ResumeKeepsInvariant(s, pid, c, s');
    case Deliver(pid) =>
      ReleaseKeepsInvariant(s, pid);
      if !s.procs[pid].cancelled { CountsFollow(s.reg.ctls, s.procs, pid, s'.procs[pid], s.reg.ctls); }
    case Unmount(pid) =>
      if s.procs[pid].Mounted? {
        ReleaseKeepsInvariant(s, pid);
      } else {
        CountsFollow(s.reg.ctls, s.procs, pid, s'.procs[pid], s.reg.ctls);
      }
    case TimerFires(c) => TimerKeepsInvariant(s, c);
    case FlightSettles(_) =>
    case AppPresence(user) => SweepPresenceKeeps(s.reg, user);
  }

  lemma {:induction false} Reachable(states: seq<State>, actions: seq<Action>, i: nat)
    requires IsRun(states, actions) && i < |states|
    ensures Invariant(states[i])
  {
    if i > 0 {
      Reachable(states, actions, i - 1);
      StepKeepsInvariant(states[i - 1], actions[i - 1], states[i]);
    }
  }

  /**
   In every reachable state, whoever uses the module: a count is the number of outstanding handles, so it
   is positive whenever a handle is given back; a set timer means nobody holds the controller; and a pair
   has at most one controller with a channel, the one in the map.
   */
  lemma CountsAreExact(states: seq<State>, actions: seq<Action>, i: nat, c: Cid)
    requires IsRun(states, actions) && i < |states| && c in states[i].reg.ctls
    ensures states[i].reg.ctls[c].consumers == |Holders(states[i].procs, c)|
    ensures forall pid | pid in Holders(states[i].procs, c) ::
      Release(states[i].reg, c).ctls[c].consumers == states[i].reg.ctls[c].consumers - 1
    ensures states[i].reg.ctls[c].timer ==> Holders(states[i].procs, c) == {}
    ensures forall d | d in states[i].reg.ctls && states[i].reg.ctls[d].key == states[i].reg.ctls[c].key
                       && IsUp(states[i].reg.ctls[c]) && IsUp(states[i].reg.ctls[d]) :: c == d
  {
    Reachable(states, actions, i);
    forall pid | pid in Holders(states[i].procs, c)
      ensures Release(states[i].reg, c).ctls[c].consumers == states[i].reg.ctls[c].consumers - 1
    {
      ReleaseKeepsInvariant(states[i], pid);
    }
  }

  // ---------- removals settle and are forgotten ----------

  /** The removals in flight have not settled, and removals are numbered in the order they began. */
  ghost predicate FlightsOk(r: Reg) {
    && (forall key | key in r.flights :: r.flights[key] !in r.settled && r.flights[key] < r.nextFlight)
    && (forall key, other | key in r.flights && other in r.flights && r.flights[key] == r.flights[other] :: key == other)
    && (forall f | f in r.settled :: f < r.nextFlight)
  }

  /** What an effect awaits has settled, or is the one removal of its pair in flight. */
  ghost predicate AwaitsRemoval(r: Reg, p: Proc) {
    p.AwaitingFlight? || p.AwaitingRemoval? ==>
      p.flight in r.settled
      || (PairKey(p.user, p.other) in r.flights && r.flights[PairKey(p.user, p.other)] == p.flight)
  }

  ghost predicate RemovalsOk(s: State) {
    FlightsOk(s.reg) && forall pid | pid in s.procs :: AwaitsRemoval(s.reg, s.procs[pid])
  }

  /** What a step does to the removals: none, one more, or one settles. */
  ghost predicate FlightsMove(r: Reg, r': Reg) {
    || (r'.flights == r.flights && r'.settled == r.settled && r'.nextFlight == r.nextFlight)
    || (exists key ::
          key !in r.flights && r'.flights == r.flights[key := r.nextFlight] && r'.nextFlight == r.nextFlight + 1
          && r'.settled == r.settled)
    || (exists key ::
          key in r.flights && r'.flights == r.flights - {key} && r'.settled == r.settled + {r.flights[key]}
          && r'.nextFlight == r.nextFlight)
  }

  lemma StepMovesFlights(s: State, a: Action, s': State)
    requires Step(s, a, s')
    ensures FlightsMove(s.reg, s'.reg)
  {
  }

  lemma MovingKeepsRemovals(r: Reg, r': Reg, p: Proc)
    requires FlightsOk(r) && FlightsMove(r, r') && AwaitsRemoval(r, p)
    ensures FlightsOk(r') && AwaitsRemoval(r', p)
  {
  }

  lemma StepKeepsRemovals(s: State, a: Action, s': State)
    requires RemovalsOk(s) && Step(s, a, s')
    ensures RemovalsOk(s')
  {
    StepMovesFlights(s, a, s');
    MovingKeepsRemovals(s.reg, s'.reg, Unmounted);
    forall pid | pid in s'.procs ensures AwaitsRemoval(s'.reg, s'.procs[pid]) {
      if pid in s.procs && s.procs[pid] == s'.procs[pid] {
        MovingKeepsRemovals(s.reg, s'.reg, s.procs[pid]);
      } else {
        ChangedProcAwaits(s, a, s', pid);
      }
    }
  }

  lemma ChangedProcAwaits(s: State, a: Action, s': State, pid: Pid)
    requires RemovalsOk(s) && Step(s, a, s') && pid in s'.procs && !(pid in s.procs && s.procs[pid] == s'.procs[pid])
    ensures AwaitsRemoval(s'.reg, s'.procs[pid])
  {
    if a.Unmount? { assert AwaitsRemoval(s.reg, s.procs[pid]); }
  }

  lemma {:induction false} RemovalsStayOk(states: seq<State>, actions: seq<Action>, i: nat)
    requires IsRun(states, actions) && i < |states|
    ensures RemovalsOk(states[i])
  {
    if i > 0 {
      RemovalsStayOk(states, actions, i - 1);
      StepKeepsRemovals(states[i - 1], actions[i - 1], states[i]);
    }
  }

  /** A settled removal leaves the map: the pair has none in flight then, and whoever awaited it can go on. */
  lemma SettledRemovalLeaves(states: seq<State>, actions: seq<Action>, i: nat, key: Key)
    requires IsRun(states, actions) && i < |actions| && actions[i] == FlightSettles(key)
    ensures key in states[i].reg.flights && states[i].reg.flights[key] !in states[i].reg.settled
    ensures key !in states[i + 1].reg.flights && states[i].reg.flights[key] in states[i + 1].reg.settled
    ensures forall other | other != key :: other in states[i + 1].reg.flights <==> other in states[i].reg.flights
  {
    RemovalsStayOk(states, actions, i);
    assert Step(states[i], actions[i], states[i + 1]);
  }

  /** Nobody waits for ever on a removal: it has settled, or it is in flight and will be forgotten when it settles. */
  lemma WaitersAwaitTheirPair(states: seq<State>, actions: seq<Action>, i: nat, pid: Pid)
    requires IsRun(states, actions) && i < |states| && pid in states[i].procs
    requires states[i].procs[pid].AwaitingFlight? || states[i].procs[pid].AwaitingRemoval?
    ensures
      var p, r := states[i].procs[pid], states[i].reg;
      p.flight in r.settled || (PairKey(p.user, p.other) in r.flights && r.flights[PairKey(p.user, p.other)] == p.flight)
  {
    RemovalsStayOk(states, actions, i);
  }

  predicate SettledOrInFlight(r: Reg, key: Key, f: nat) {
    f in r.settled || (key in r.flights && r.flights[key] == f)
  }

  lemma FlightSettlesOnly(r: Reg, r': Reg, key: Key, f: nat)
    requires SettledOrInFlight(r, key, f) && FlightsMove(r, r')
    ensures SettledOrInFlight(r', key, f)
  {
  }

  lemma RunStep(states: seq<State>, actions: seq<Action>, i: nat)
    requires IsRun(states, actions) && i < |actions|
    ensures |states| == |actions| + 1 && Step(states[i], actions[i], states[i + 1])
  {
    hide Step;
  }

  lemma {:induction false} FlightsSettleOnly(states: seq<State>, actions: seq<Action>, j: nat, i: nat, key: Key)
    requires IsRun(states, actions) && j <= i < |states| && key in states[j].reg.flights
    ensures SettledOrInFlight(states[i].reg, key, states[j].reg.flights[key])
  {
    hide Step, FlightsMove;
    if j < i {
      hide IsRun, SettledOrInFlight;
      FlightsSettleOnly(states, actions, j, i - 1, key);
      RunStep(states, actions, i - 1);
      StepMovesFlights(states[i - 1], actions[i - 1], states[i]);
      FlightSettlesOnly(states[i - 1].reg, states[i].reg, key, states[j].reg.flights[key]);
    }
  }

  /** Some removal of the pair that was in flight at an earlier moment, or is now, has not settled. */
  ghost predicate Unsettled(states: seq<State>, i: nat, key: Key)
    requires i < |states|
  {
    exists j :: 0 <= j <= i && key in states[j].reg.flights && states[j].reg.flights[key] !in states[i].reg.settled
  }

  /** What a fired idle timer does: it removes a controller that nobody holds, unless a removal of the pair is unsettled. */
  lemma IdleTimerRemovesExactlyWhen(states: seq<State>, actions: seq<Action>, i: nat, c: Cid)
    requires IsRun(states, actions) && i < |actions| && actions[i] == TimerFires(c)
    requires c in states[i].reg.ctls && IsUp(states[i].reg.ctls[c])
    ensures
      var key, r, r' := states[i].reg.ctls[c].key, states[i].reg, states[i + 1].reg;
      && Holders(states[i].procs, c) == {} && !r'.ctls[c].timer
      && key in r.controllers && r.controllers[key] == c
      && if Unsettled(states, i, key) then
           r'.ctls[c].typing == r.ctls[c].typing && r'.ctls[c].presence == r.ctls[c].presence && r'.controllers == r.controllers
         else
           && !r'.ctls[c].typing && !r'.ctls[c].presence && r'.controllers == r.controllers - {key}
           && key in r'.flights && r'.flights[key] !in r.settled
  {
    Reachable(states, actions, i);
    CountsAreExact(states, actions, i, c);
    RemovalsStayOk(states, actions, i);
    var key := states[i].reg.ctls[c].key;
    assert Step(states[i], actions[i], states[i + 1]);
    if key in states[i].reg.flights {
      assert Unsettled(states, i, key);
    }
    if Unsettled(states, i, key) {
      var j :| 0 <= j <= i && key in states[j].reg.flights && states[j].reg.flights[key] !in states[i].reg.settled;
      FlightsSettleOnly(states, actions, j, i, key);
    }
  }

  // ---------- getting a handle and giving it back ----------

  /** One key for a pair, in whichever order its users are named, and another key for every other pair. */
  lemma PairsHaveOneKey(a: UserId, b: UserId, c: UserId, d: UserId)
    ensures a <= b ==> PairKey(a, b) == PairKey(b, a) == Key(a, b)
    ensures PairKey(a, b) == PairKey(c, d) <==> (a == c && b == d) || (a == d && b == c)
  {
  }

  /** The pair and current user an effect is acquiring for. */
  predicate Wants(p: Proc, user: UserId, other: UserId) {
    (p.AwaitingFlight? || p.AwaitingRemoval? || p.AwaitingSweep?) && p.user == user && p.other == other
  }

  /** Only these two fields of one controller change, and no other controller does. */
  predicate OnlyHandleChanges(ctls: map<Cid, Ctl>, ctls': map<Cid, Ctl>, c: Cid) {
    && c in ctls && ctls'.Keys == ctls.Keys
    && (forall d | d in ctls && d != c :: ctls'[d] == ctls[d])
    && ctls'[c].key == ctls[c].key && ctls'[c].user == ctls[c].user && ctls'[c].other == ctls[c].other
    && ctls'[c].typing == ctls[c].typing && ctls'[c].presence == ctls[c].presence
  }

  /** A handle on the pair's entry: the one found, with its timer cleared, or a new one with both channels. */
  ghost predicate GetsEntry(r: Reg, r': Reg, c: Cid, user: UserId, other: UserId) {
    var key := PairKey(user, other);
    && key in r'.controllers && r'.controllers[key] == c && c in r'.ctls && r'.ctls[c].key == key
    && r'.flights == r.flights && !r'.ctls[c].timer
    && if key in r.controllers then
         && r.controllers[key] == c && r'.controllers == r.controllers
         && OnlyHandleChanges(r.ctls, r'.ctls, c) && r'.ctls[c].consumers == r.ctls[c].consumers + 1
       else
         && c !in r.ctls && r'.ctls[c].user == user && r'.ctls[c].other == other
         && r'.ctls[c].consumers == 1 && r'.ctls[c].typing && r'.ctls[c].presence
  }

  lemma LookupGetsEntry(s: State, pid: Pid, user: UserId, other: UserId, cancelled: bool)
    requires RegOk(s.reg) && Lookup(s, pid, user, other, cancelled).procs[pid].Acquired?
    ensures
      var s' := Lookup(s, pid, user, other, cancelled);
      GetsEntry(s.reg, s'.reg, s'.procs[pid].held, user, other)
  {
  }

  lemma SettleGetsEntry(s: State, pid: Pid, user: UserId, other: UserId, cancelled: bool, c: Cid)
    requires RegOk(s.reg) && c !in s.reg.ctls
    ensures
      var s' := Settle(s, pid, user, other, cancelled, c);
      s'.procs[pid].Acquired? && GetsEntry(s.reg, s'.reg, s'.procs[pid].held, user, other)
  {
  }

  /**
   An effect that gets its handle gets its pair's entry: one it found, with the idle timer cleared and the count one
   up, or, only if there was none, a new one for its own user and the user it watches, with both channels.
   */
  lemma HandleIsThePairsEntry(s: State, a: Action, s': State, pid: Pid, user: UserId, other: UserId)
    requires Invariant(s) && Step(s, a, s') && pid in s'.procs && s'.procs[pid].Acquired?
    requires if pid in s.procs then Wants(s.procs[pid], user, other) else a == Mount(pid, user, other)
    ensures GetsEntry(s.reg, s'.reg, s'.procs[pid].held, user, other)
  {
    hide GetsEntry, RegOk, Counted, Sweep, Take, Create, BeginRemoval, Release, FireTimer, SettleFlight;
    if a.Mount? {
      LookupGetsEntry(s, pid, user, other, false);
    } else if a.Resume? {
      match s.procs[pid]
      case AwaitingFlight(_, _, _, cancelled) => LookupGetsEntry(s, pid, user, other, cancelled);
      case AwaitingSweep(_, _, cancelled) => SettleGetsEntry(s, pid, user, other, cancelled, a.newController);
      case _ =>
    }
  }

  /** A step moves one effect at most. */
  lemma OthersStay(s: State, a: Action, s': State, pid: Pid)
    requires Step(s, a, s') && pid in s.procs
    ensures pid in s'.procs
    ensures !((a.Mount? || a.Resume? || a.Deliver? || a.Unmount?) && a.pid == pid) ==> s'.procs[pid] == s.procs[pid]
  {
    hide Sweep, Take, Create, BeginRemoval, Release, FireTimer, SettleFlight, SweepPresence;
  }

  /** An effect that gives its handle back starts the idle timer exactly if nobody else holds the controller. */
  lemma LastHandleStartsTheTimer(s: State, a: Action, s': State, pid: Pid)
    requires Invariant(s) && Step(s, a, s') && pid in s.procs && HasHandle(s.procs[pid])
    requires pid in s'.procs && !HasHandle(s'.procs[pid])
    ensures GivesBack(s, s', s.procs[pid].held)
  {
    OthersStay(s, a, s', pid);
    hide Invariant, Release, Lookup, Settle, Sweep, FireTimer, SettleFlight, SweepPresence, GivesBack, OnlyHandleChanges;
    ReleaseGivesBack(s, pid);
  }

  ghost predicate GivesBack(s: State, s': State, c: Cid) {
    && OnlyHandleChanges(s.reg.ctls, s'.reg.ctls, c) && s'.reg.ctls[c].consumers == s.reg.ctls[c].consumers - 1
    && (s'.reg.ctls[c].timer <==> Holders(s'.procs, c) == {})
    && s'.reg.controllers == s.reg.controllers && s'.reg.flights == s.reg.flights
  }

  lemma ReleaseGivesBack(s: State, pid: Pid)
    requires Invariant(s) && pid in s.procs && HasHandle(s.procs[pid])
    ensures GivesBack(s, SetProc(s.(reg := Release(s.reg, s.procs[pid].held)), pid, Unmounted), s.procs[pid].held)
  {
    var c := s.procs[pid].held;
    var s' := SetProc(s.(reg := Release(s.reg, c)), pid, Unmounted);
    ReleaseKeepsInvariant(s, pid);
    assert s'.reg.ctls[c].consumers == |Holders(s'.procs, c)|;
    hide Holders, Counted;
  }

  /** An effect that mounts while its pair's removal is in flight waits for it and touches nothing. */
  lemma MountAwaitsRemoval(s: State, s': State, pid: Pid, user: UserId, other: UserId)
    requires Step(s, Mount(pid, user, other), s') && PairKey(user, other) in s.reg.flights
    ensures s'.reg == s.reg && s'.procs == s.procs[pid := AwaitingFlight(user, other, s.reg.flights[PairKey(user, other)], false)]
  {
  }

  /** An effect that unmounts while it acquires gives the handle back as soon as it gets it. */
  lemma CancelledAcquireIsReleased(s: State, a: Action, s': State, pid: Pid)
    requires Step(s, a, s') && pid in s.procs && pid in s'.procs
    requires s.procs[pid] != s'.procs[pid] && a != Unmount(pid)
    ensures s.procs[pid].Acquired? ==> s'.procs[pid] == if s.procs[pid].cancelled then Unmounted else Mounted(s.procs[pid].held)
    ensures !s.procs[pid].Acquired? ==>
      !s.procs[pid].Mounted? && !s.procs[pid].Unmounted?
      && !s'.procs[pid].Mounted? && !s'.procs[pid].Unmounted? && s'.procs[pid].cancelled == s.procs[pid].cancelled
  {
  }

  // ---------- who takes a channel away ----------

  /** The controller had a channel that is gone. */
  predicate LosesChannel(r: Reg, r': Reg, c: Cid)
    requires c in r.ctls && c in r'.ctls
  {
    (r.ctls[c].typing && !r'.ctls[c].typing) || (r.ctls[c].presence && !r'.ctls[c].presence)
  }

  /** The two sweeps meet a channel of this controller. */
  predicate SweepMeets(ctl: Ctl, user: UserId, other: UserId) {
    (ctl.key == PairKey(user, other) && ctl.typing) || (ctl.other == other && ctl.presence)
  }

  /** The lookup begins the removal of this entry of another user, or sweeps over one of its channels. */
  predicate LookupMeets(r: Reg, user: UserId, other: UserId, c: Cid)
    requires c in r.ctls
  {
    var key := PairKey(user, other);
    if key in r.controllers then
      r.controllers[key] == c && r.ctls[c].user != user && key !in r.flights && IsUp(r.ctls[c])
    else r.ctls[c].other == other && r.ctls[c].user != user && r.ctls[c].presence
  }

  predicate ActionMeets(s: State, a: Action, c: Cid)
    requires c in s.reg.ctls
  {
    match a
    case Mount(_, user, other) => PairKey(user, other) !in s.reg.flights && LookupMeets(s.reg, user, other, c)
    case Resume(pid, _) =>
      && pid in s.procs
      && (match s.procs[pid]
          case AwaitingFlight(user, other, _, _) => LookupMeets(s.reg, user, other, c)
          case AwaitingRemoval(user, other, _, _) => SweepMeets(s.reg.ctls[c], user, other)
          case _ => false)
    case TimerFires(d) =>
      d == c && s.reg.ctls[c].consumers == 0 && s.reg.ctls[c].key !in s.reg.flights && IsUp(s.reg.ctls[c])
    case AppPresence(user) => s.reg.ctls[c].other == user && s.reg.ctls[c].presence
    case _ => false
  }

  lemma SweepTakes(r: Reg, user: UserId, other: UserId, c: Cid)
    requires c in r.ctls
    ensures c in Sweep(r, user, other).ctls
    ensures LosesChannel(r, Sweep(r, user, other), c) <==> SweepMeets(r.ctls[c], user, other)
  {
    var t := SweepTyping(r, PairKey(user, other));
    assert t.ctls[c] == if r.ctls[c].key == PairKey(user, other) then r.ctls[c].(typing := false) else r.ctls[c];
  }

  lemma LookupTakes(s: State, pid: Pid, user: UserId, other: UserId, cancelled: bool, c: Cid)
    requires Invariant(s) && c in s.reg.ctls
    ensures c in Lookup(s, pid, user, other, cancelled).reg.ctls
    ensures LosesChannel(s.reg, Lookup(s, pid, user, other, cancelled).reg, c) <==> LookupMeets(s.reg, user, other, c)
  {
    if PairKey(user, other) !in s.reg.controllers { SweepTakes(s.reg, user, other, c); }
  }

  /**
   Exactly when a step takes a channel away from a controller: an acquire that finds another user's entry, or no
   entry but another user's controller that watches the same user; the sweep after an awaited removal; the idle
   timer, which never meets a controller somebody holds; or the app's own presence for the watched user.
   */
  lemma ChannelsAreTakenExactlyWhen(s: State, a: Action, s': State, c: Cid)
    requires Invariant(s) && Step(s, a, s') && c in s.reg.ctls
    ensures c in s'.reg.ctls
    ensures LosesChannel(s.reg, s'.reg, c) <==> ActionMeets(s, a, c)
    ensures a.TimerFires? && ActionMeets(s, a, c) ==> Holders(s.procs, c) == {}
  {
    match a
    case Mount(pid, user, other) =>
      if PairKey(user, other) !in s.reg.flights { LookupTakes(s, pid, user, other, false, c); }
    case Resume(pid, _) => ResumeTakes(s, a, s', c);
    case _ =>
  }

  lemma ResumeTakes(s: State, a: Action, s': State, c: Cid)
    requires Invariant(s) && Step(s, a, s') && c in s.reg.ctls && a.Resume?
    ensures c in s'.reg.ctls && (LosesChannel(s.reg, s'.reg, c) <==> ActionMeets(s, a, c))
  {
    match s.procs[a.pid]
    case AwaitingFlight(user, other, _, cancelled) => LookupTakes(s, a.pid, user, other, cancelled, c);
    case AwaitingRemoval(user, other, _, _) => SweepTakes(s.reg, user, other, c);
    case _ =>
  }

  // ---------- one user per pair and per watched user ----------

  /**
   How the hook is used: `pairUser` is the one user that mounts a pair, `watcher` the one that watches a user,
   and `watched` the users that somebody watches, none of which is the app's own.
   */
  datatype Usage = Usage(pairUser: Key -> UserId, watcher: UserId -> UserId, watched: set<UserId>)

  ghost predicate Fits(u: Usage, user: UserId, other: UserId) {
    u.pairUser(PairKey(user, other)) == user && u.watcher(other) == user && other in u.watched
  }

  ghost predicate ActionFits(u: Usage, a: Action) {
    && (a.Mount? ==> Fits(u, a.user, a.other))
    && (a.AppPresence? ==> a.user !in u.watched)
  }

  ghost predicate OneUser(actions: seq<Action>, u: Usage) {
    forall i | 0 <= i < |actions| :: ActionFits(u, actions[i])
  }

  predicate IsWhole(ctl: Ctl) { ctl.typing && ctl.presence }

  ghost predicate Unshared(s: State, u: Usage) {
    && Closed(s.reg)
    && (forall c | c in s.reg.ctls :: Fits(u, s.reg.ctls[c].user, s.reg.ctls[c].other))
    && (forall pid | pid in s.procs && (s.procs[pid].AwaitingFlight? || s.procs[pid].AwaitingSweep?) ::
          Fits(u, s.procs[pid].user, s.procs[pid].other))
    && (forall pid | pid in s.procs :: !s.procs[pid].AwaitingRemoval?)
    && (forall k | k in s.reg.controllers :: IsWhole(s.reg.ctls[s.reg.controllers[k]]))
    && (forall c | c in s.reg.ctls && !IsWhole(s.reg.ctls[c]) :: s.reg.ctls[c].consumers == 0)
  }

  lemma SweepingNothing(r: Reg, user: UserId, other: UserId)
    requires forall c | c in r.ctls :: !SweepMeets(r.ctls[c], user, other)
    ensures Sweep(r, user, other).ctls == r.ctls
  {
    var key, ctls := PairKey(user, other), r.ctls;
    forall c | c in ctls ensures (if ctls[c].key == key then ctls[c].(typing := false) else ctls[c]) == ctls[c] {
      assert !SweepMeets(ctls[c], user, other);
    }
    assert SweepTyping(r, key).ctls == ctls;
    forall c | c in ctls ensures (if ctls[c].other == other then ctls[c].(presence := false) else ctls[c]) == ctls[c] {
      assert !SweepMeets(ctls[c], user, other);
    }
  }

  /** A pair without an entry: nothing with a channel is on either of its topics. */
  lemma SweepsMeetNothing(s: State, user: UserId, other: UserId, u: Usage)
    requires Invariant(s) && Unshared(s, u) && Fits(u, user, other) && PairKey(user, other) !in s.reg.controllers
    ensures forall c | c in s.reg.ctls :: !SweepMeets(s.reg.ctls[c], user, other)
  {
    forall c | c in s.reg.ctls ensures !SweepMeets(s.reg.ctls[c], user, other) {
      assert Fits(u, s.reg.ctls[c].user, s.reg.ctls[c].other);
    }
  }

  lemma AppSweepMeetsNothing(s: State, user: UserId, u: Usage)
    requires Unshared(s, u) && user !in u.watched
    ensures SweepPresence(s.reg, user) == s.reg
  {
    forall c | c in s.reg.ctls ensures s.reg.ctls[c].other != user {
      assert Fits(u, s.reg.ctls[c].user, s.reg.ctls[c].other);
    }
    assert SweepPresence(s.reg, user).ctls == s.reg.ctls;
  }

  lemma LookupStaysUnshared(s: State, pid: Pid, user: UserId, other: UserId, cancelled: bool, u: Usage)
    requires Invariant(s) && Unshared(s, u) && Fits(u, user, other)
    ensures Unshared(Lookup(s, pid, user, other, cancelled), u)
  {
    var key := PairKey(user, other);
    if key in s.reg.controllers {
      var c := s.reg.controllers[key];
      assert Fits(u, s.reg.ctls[c].user, s.reg.ctls[c].other) && s.reg.ctls[c].user == user;
      TakeStaysUnshared(s, pid, c, cancelled, u);
    } else {
      SweepsMeetNothing(s, user, other, u);
      SweepingNothing(s.reg, user, other);
    }
  }

  lemma CreateStaysUnshared(s: State, user: UserId, other: UserId, c: Cid, u: Usage)
    requires Unshared(s, u) && c !in s.reg.ctls && Fits(u, user, other)
    ensures Unshared(s.(reg := Create(s.reg, c, user, other)), u)
  {
  }

  lemma TakeStaysUnshared(s: State, pid: Pid, c: Cid, cancelled: bool, u: Usage)
    requires Unshared(s, u) && c in s.reg.ctls && IsWhole(s.reg.ctls[c])
    ensures Unshared(SetProc(s.(reg := Take(s.reg, c)), pid, Acquired(c, cancelled)), u)
  {
  }

  lemma SettleStaysUnshared(s: State, pid: Pid, user: UserId, other: UserId, cancelled: bool, c: Cid, u: Usage)
    requires Invariant(s) && Unshared(s, u) && c !in s.reg.ctls && Fits(u, user, other)
    ensures Unshared(Settle(s, pid, user, other, cancelled, c), u)
  {
    var key := PairKey(user, other);
    if key in s.reg.controllers {
      TakeStaysUnshared(s, pid, s.reg.controllers[key], cancelled, u);
    } else {
      CreateStaysUnshared(s, user, other, c, u);
      TakeStaysUnshared(s.(reg := Create(s.reg, c, user, other)), pid, c, cancelled, u);
    }
  }

  lemma ResumeStaysUnshared(s: State, pid: Pid, c: Cid, s': State, u: Usage)
    requires Invariant(s) && Unshared(s, u) && Step(s, Resume(pid, c), s')
    ensures Unshared(s', u)
  {
    match s.procs[pid]
    case AwaitingFlight(user, other, _, cancelled) => LookupStaysUnshared(s, pid, user, other, cancelled, u);
    case AwaitingSweep(user, other, cancelled) => SettleStaysUnshared(s, pid, user, other, cancelled, c, u);
    case _ =>
  }

  lemma ReleaseStaysUnshared(s: State, pid: Pid, u: Usage)
    requires Invariant(s) && Unshared(s, u) && pid in s.procs && HasHandle(s.procs[pid])
    ensures Unshared(SetProc(s.(reg := Release(s.reg, s.procs[pid].held)), pid, Unmounted), u)
  {
    ReleaseKeepsInvariant(s, pid);
  }

  lemma TimerStaysUnshared(s: State, c: Cid, u: Usage)
    requires Invariant(s) && Unshared(s, u) && c in s.reg.ctls && s.reg.ctls[c].timer
    ensures Unshared(s.(reg := FireTimer(s.reg, c)), u)
  {
  }

  lemma StepStaysUnshared(s: State, a: Action, s': State, u: Usage)
    requires Invariant(s) && Unshared(s, u) && Step(s, a, s') && ActionFits(u, a)
    ensures Unshared(s', u)
  {
    match a
    case Mount(pid, user, other) =>
      if PairKey(user, other) !in s.reg.flights { LookupStaysUnshared(s, pid, user, other, false, u); }
    case Resume(pid, c) => ResumeStaysUnshared(s, pid, c, s', u);
    case Deliver(pid) => if s.procs[pid].cancelled { ReleaseStaysUnshared(s, pid, u); }
    case Unmount(pid) => if s.procs[pid].Mounted? { ReleaseStaysUnshared(s, pid, u); }
    case TimerFires(c) => TimerStaysUnshared(s, c, u);
    case FlightSettles(_) =>
    case AppPresence(user) => AppSweepMeetsNothing(s, user, u);
  }

  lemma {:induction false} ReachableUnshared(states: seq<State>, actions: seq<Action>, i: nat, u: Usage)
    requires IsRun(states, actions) && OneUser(actions, u) && i < |states|
    ensures Invariant(states[i]) && Unshared(states[i], u)
  {
    Reachable(states, actions, i);
    if i > 0 {
      ReachableUnshared(states, actions, i - 1, u);
      assert ActionFits(u, actions[i - 1]);
      StepStaysUnshared(states[i - 1], actions[i - 1], states[i], u);
    }
  }

  /** The controller an effect holds has both channels and is its pair's entry. */
  ghost predicate HeldIsWhole(s: State, pid: Pid)
    requires pid in s.procs && HasHandle(s.procs[pid])
  {
    var c := s.procs[pid].held;
    && c in s.reg.ctls && IsWhole(s.reg.ctls[c])
    && s.reg.ctls[c].key in s.reg.controllers
    && s.reg.controllers[s.reg.ctls[c].key] == c
  }

  /**
   With one user per pair and per watched user, over every interleaving: a controller somebody holds has both
   channels and is its pair's entry, so all holders of a pair share it.
   */
  lemma HeldControllersStayUp(states: seq<State>, actions: seq<Action>, i: nat, u: Usage, pid: Pid)
    requires IsRun(states, actions) && OneUser(actions, u) && i < |states|
    requires pid in states[i].procs && HasHandle(states[i].procs[pid])
    ensures HeldIsWhole(states[i], pid)
  {
    ReachableUnshared(states, actions, i, u);
    assert pid in Holders(states[i].procs, states[i].procs[pid].held);
  }

  /** Every mount and the app's presence are one signed-in user's, who does not chat with themselves. */
  ghost predicate OneCurrentUser(actions: seq<Action>, me: UserId) {
    forall i | 0 <= i < |actions| ::
      && (actions[i].Mount? ==> actions[i].user == me && actions[i].other != me)
      && (actions[i].AppPresence? ==> actions[i].user == me)
  }

  /** In particular while one user is signed in. */
  lemma OneCurrentUserKeepsChannels(states: seq<State>, actions: seq<Action>, i: nat, me: UserId, pid: Pid)
    requires IsRun(states, actions) && OneCurrentUser(actions, me) && i < |states|
    requires pid in states[i].procs && HasHandle(states[i].procs[pid])
    ensures HeldIsWhole(states[i], pid)
  {
    var others := set j | 0 <= j < |actions| && actions[j].Mount? :: actions[j].other;
    var u := Usage((_: Key) => me, (_: UserId) => me, others);
    assert me !in others;
    HeldControllersStayUp(states, actions, i, u, pid);
  }

  // ---------- where that stops ----------

  const EMPTY := State(Reg(map[], map[], map[], 0, {}), map[])

  /**
   Two users of the device who watch the same third one: the second's mount takes the presence channel of the
   controller the first still holds. Each pair has one user here; only the watched user is shared.
   */
  lemma SharedWatchedUserLosesPresence(first: UserId, second: UserId, watched: UserId)
    returns (states: seq<State>, actions: seq<Action>)
    requires first != second && second != watched && first != watched
    ensures IsRun(states, actions) && actions == [Mount(0, first, watched), Resume(0, 0), Mount(1, second, watched)]
    ensures 0 in states[3].procs && states[3].procs[0] == Acquired(0, false) && 0 in states[3].reg.ctls
    ensures states[3].reg.ctls[0].typing && !states[3].reg.ctls[0].presence && states[2].reg.ctls[0].presence
  {
    var k := PairKey(first, watched);
    var s1 := Lookup(EMPTY, 0, first, watched, false);
    assert s1.reg.ctls == map[];
    var s2 := Settle(s1, 0, first, watched, false, 0);
    assert s2.reg.ctls == map[0 := Ctl(k, first, watched, 1, false, true, true)];
    assert PairKey(second, watched) != k;
    var s3 := Lookup(s2, 1, second, watched, false);
    SweepTakes(s2.reg, second, watched, 0);
    assert SweepTyping(s2.reg, PairKey(second, watched)).ctls[0] == s2.reg.ctls[0];
    states, actions := [EMPTY, s1, s2, s3], [Mount(0, first, watched), Resume(0, 0), Mount(1, second, watched)];
  }

  /** An idle timer's removal is dropped exactly when another removal of the pair is in flight. */
  lemma IdleRemovalCanBeDropped(s: State, c: Cid, s': State)
    requires Invariant(s) && Step(s, TimerFires(c), s') && IsUp(s.reg.ctls[c])
    ensures s'.reg.ctls[c].consumers == 0 && !s'.reg.ctls[c].timer
    ensures IsUp(s'.reg.ctls[c]) <==> s.reg.ctls[c].key in s.reg.flights
  {
  }

  /** The actions of a run in which that happens: two effects of one user on one pair. */
  function IdlingTwice(me: UserId, other: UserId): seq<Action> {
    [Mount(0, me, other), Mount(1, me, other), Resume(0, 0), Deliver(0), Unmount(0), TimerFires(0),
     Resume(1, 1), Deliver(1), Unmount(1), TimerFires(1)]
  }

  /** A registry with the pair's one controller, as far as it has got. */
  function OneController(me: UserId, other: UserId, consumers: int, timer: bool): Reg {
    var k := PairKey(me, other);
    Reg(map[0 := Ctl(k, me, other, consumers, timer, true, true)], map[k := 0], map[], 0, {})
  }

  /** That controller's removal is in flight, and the second effect still awaits its sweep. */
  function FirstGone(me: UserId, other: UserId): State {
    var k := PairKey(me, other);
    State(Reg(map[0 := Ctl(k, me, other, 0, false, false, false)], map[], map[k := 0], 1, {}),
          map[0 := Unmounted, 1 := AwaitingSweep(me, other, false)])
  }

  lemma BothWait(me: UserId, other: UserId)
    ensures
      var w := AwaitingSweep(me, other, false);
      && Step(EMPTY, Mount(0, me, other), State(EMPTY.reg, map[0 := w]))
      && Step(State(EMPTY.reg, map[0 := w]), Mount(1, me, other), State(EMPTY.reg, map[0 := w, 1 := w]))
  {
    assert Sweep(EMPTY.reg, me, other).ctls == map[];
    assert Sweep(EMPTY.reg, me, other) == EMPTY.reg;
  }

  lemma FirstMounts(me: UserId, other: UserId)
    ensures
      var w, up := AwaitingSweep(me, other, false), OneController(me, other, 1, false);
      && Step(State(EMPTY.reg, map[0 := w, 1 := w]), Resume(0, 0), State(up, map[0 := Acquired(0, false), 1 := w]))
      && Step(State(up, map[0 := Acquired(0, false), 1 := w]), Deliver(0), State(up, map[0 := Mounted(0), 1 := w]))
  {
  }

  lemma FirstLeaves(me: UserId, other: UserId)
    ensures
      var w, up, idle := AwaitingSweep(me, other, false), OneController(me, other, 1, false), OneController(me, other, 0, true);
      && Step(State(up, map[0 := Mounted(0), 1 := w]), Unmount(0), State(idle, map[0 := Unmounted, 1 := w]))
      && Step(State(idle, map[0 := Unmounted, 1 := w]), TimerFires(0), FirstGone(me, other))
  {
  }

  /** The first half: the second effect still awaits its sweep when the first one's controller is being removed. */
  lemma FirstIdles(me: UserId, other: UserId) returns (states: seq<State>)
    ensures |states| == 7 && states[0] == EMPTY && states[6] == FirstGone(me, other)
    ensures forall i | 0 <= i < 6 :: Step(states[i], IdlingTwice(me, other)[i], states[i + 1])
  {
    var w, up := AwaitingSweep(me, other, false), OneController(me, other, 1, false);
    states := [EMPTY, State(EMPTY.reg, map[0 := w]), State(EMPTY.reg, map[0 := w, 1 := w]),
               State(up, map[0 := Acquired(0, false), 1 := w]), State(up, map[0 := Mounted(0), 1 := w]),
               State(OneController(me, other, 0, true), map[0 := Unmounted, 1 := w]), FirstGone(me, other)];
    BothWait(me, other);
    FirstMounts(me, other);
    FirstLeaves(me, other);
  }

  /** The second controller, beside the one being removed. */
  function TwoControllers(me: UserId, other: UserId, consumers: int, timer: bool): Reg {
    var k := PairKey(me, other);
    Reg(map[0 := Ctl(k, me, other, 0, false, false, false), 1 := Ctl(k, me, other, consumers, timer, true, true)],
        map[k := 1], map[k := 0], 1, {})
  }

  lemma SecondMounts(me: UserId, other: UserId)
    ensures
      var up := TwoControllers(me, other, 1, false);
      && Step(FirstGone(me, other), Resume(1, 1), State(up, map[0 := Unmounted, 1 := Acquired(1, false)]))
      && Step(State(up, map[0 := Unmounted, 1 := Acquired(1, false)]), Deliver(1), State(up, map[0 := Unmounted, 1 := Mounted(1)]))
  {
  }

  lemma SecondLeaves(me: UserId, other: UserId)
    ensures
      var up, idle, left :=
        TwoControllers(me, other, 1, false), TwoControllers(me, other, 0, true), TwoControllers(me, other, 0, false);
      && Step(State(up, map[0 := Unmounted, 1 := Mounted(1)]), Unmount(1), State(idle, map[0 := Unmounted, 1 := Unmounted]))
      && Step(State(idle, map[0 := Unmounted, 1 := Unmounted]), TimerFires(1), State(left, map[0 := Unmounted, 1 := Unmounted]))
  {
  }

  /**
   From the empty registry: the second controller's idle timer fires while the first one's removal is in flight.
   Nobody holds it and no timer is set, yet it is still the pair's entry with both channels.
   */
  lemma DroppedRemovalHappens(me: UserId, other: UserId) returns (states: seq<State>)
    ensures IsRun(states, IdlingTwice(me, other))
    ensures
      var s := states[10];
      && 1 in s.reg.ctls && s.reg.ctls[1] == Ctl(PairKey(me, other), me, other, 0, false, true, true)
      && s.reg.controllers == map[PairKey(me, other) := 1] && Holders(s.procs, 1) == {}
  {
    states := FirstIdles(me, other);
    var up := TwoControllers(me, other, 1, false);
    SecondMounts(me, other);
    SecondLeaves(me, other);
    states := states + [State(up, map[0 := Unmounted, 1 := Acquired(1, false)]), State(up, map[0 := Unmounted, 1 := Mounted(1)]),
                        State(TwoControllers(me, other, 0, true), map[0 := Unmounted, 1 := Unmounted]),
                        State(TwoControllers(me, other, 0, false), map[0 := Unmounted, 1 := Unmounted])];
  }
}
