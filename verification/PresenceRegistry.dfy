/**
 The module's maps and controller objects, updated in place. Each method is one stretch of code between
 two awaits, and is proved to be the operation of `Presence` on the abstract registry.
 */
module PresenceRegistry {
  import opened Presence

  class Controller {
    ghost const id: Cid
    const key: Key
    const currentUserId: UserId
    ghost const other: UserId     // whose presence topic its presence channel is on
    var joined: bool
    var consumers: int
    var disposalTimer: bool
    ghost var typing: bool        // its two channels are still registered
    ghost var presence: bool

    constructor (ghost id: Cid, key: Key, currentUserId: UserId, otherUserId: UserId)
      ensures this.id == id && View() == Ctl(key, currentUserId, otherUserId, 0, false, true, true) && !joined
    {
      this.id, this.key, this.currentUserId, this.other := id, key, currentUserId, otherUserId;
      joined, consumers, disposalTimer, typing, presence := false, 0, false, true, true;
    }

    ghost function View(): Ctl
      reads this
    {
      Ctl(key, currentUserId, other, consumers, disposalTimer, typing, presence)
    }
  }

  /** What `acquireController` goes on to do after it looked at the map. */
  datatype Found = Taken(controller: Controller) | MustWait(flight: nat) | MustSweep

  class Registry {
    var controllers: map<Key, Controller>
    var removalFlights: map<Key, nat>
    var nextFlight: nat
    ghost var settled: set<nat>
    ghost var all: seq<Controller>   // every controller ever made, by number

    ghost predicate Valid()
      reads this, all
    {
      && (forall i | 0 <= i < |all| :: all[i].id == i)
      && (forall k | k in controllers :: controllers[k] in all)
    }

    ghost function Ctls(): map<Cid, Ctl>
      reads this`all, all
    {
      map i: nat | i < |all| :: all[i].View()
    }

    ghost function Ids(): map<Key, Cid>
      reads this`controllers
    {
      map k | k in controllers :: controllers[k].id
    }

    ghost function View(): Reg
      requires Valid()
      reads this, all
    {
      Reg(Ctls(), Ids(), removalFlights, nextFlight, settled)
    }

    constructor ()
      ensures Valid() && View() == Reg(map[], map[], map[], 0, {})
    {
      controllers, removalFlights, nextFlight, settled, all := map[], map[], 0, {}, [];
    }

    /** The controller's two channels are removed. */
    method CloseChannels(controller: Controller)
      requires Valid() && controller in all
      modifies controller`joined, controller`typing, controller`presence
      ensures Valid() && !controller.joined && Ids() == old(Ids())
      ensures Ctls() == old(Ctls())[controller.id := old(controller.View()).(typing := false, presence := false)]
    {
      ghost var ctls := Ctls();
      controller.joined, controller.typing, controller.presence := false, false, false;
      forall i: nat | i < |all| && i != controller.id ensures all[i].View() == ctls[i] {
        assert all[i].id == i;
      }
    }

    /** `removeController`, up to its await on the channels. */
    method RemoveController(pairKey: Key, controller: Controller)
      requires Valid() && controller in all
      modifies this`controllers, controller`joined, controller`typing, controller`presence
      ensures Valid() && !controller.joined
      ensures View() == Detach(old(View()), pairKey, controller.id)
    {
      ghost var c, ids := controller.id, Ids();
      if pairKey in controllers && controllers[pairKey] == controller { controllers := controllers - {pairKey}; }
      assert Ids() == if pairKey in ids && ids[pairKey] == c then ids - {pairKey} else ids;
      CloseChannels(controller);
    }

    /** `beginControllerRemoval`: the removal to wait for. */
    method BeginControllerRemoval(pairKey: Key, controller: Controller) returns (flight: nat)
      requires Valid() && controller in all
      modifies this, controller
      ensures Valid() && all == old(all)
      ensures View() == BeginRemoval(old(View()), pairKey, controller.id)
      ensures pairKey in removalFlights && flight == removalFlights[pairKey]
      ensures pairKey !in old(removalFlights) ==> !controller.joined
    {
      if pairKey in removalFlights { return removalFlights[pairKey]; }
      RemoveController(pairKey, controller);
      flight := nextFlight;
      removalFlights, nextFlight := removalFlights[pairKey := flight], nextFlight + 1;
    }

    /** The removal's `finally` callback. */
    method RemovalSettled(pairKey: Key)
      requires Valid() && pairKey in removalFlights
      modifies this
      ensures Valid() && all == old(all) && View() == SettleFlight(old(View()), pairKey)
    {
      settled := settled + {removalFlights[pairKey]};
      removalFlights := removalFlights - {pairKey};
    }

    /** The end of `acquireController`. */
    method Take(controller: Controller)
      requires Valid() && controller in all
      modifies controller
      ensures Valid() && View() == Presence.Take(old(View()), controller.id)
    {
      if controller.disposalTimer { controller.disposalTimer := false; }
      controller.consumers := controller.consumers + 1;
    }

    /** `removeOrphanedRealtimeTopic` for both topics of a pair. */
    method SweepTopics(pairKey: Key, otherUserId: UserId)
      requires Valid()
      modifies all
      ensures Valid() && View() == SweepPresence(SweepTyping(old(View()), pairKey), otherUserId)
    {
      forall c | c in all && c.key == pairKey { c.typing := false; }
      assert Ctls() == SweepTyping(old(View()), pairKey).ctls;
      forall c | c in all && c.other == otherUserId { c.presence := false; }
      assert Ctls() == SweepPresence(SweepTyping(old(View()), pairKey), otherUserId).ctls;
    }

    /** `acquireController` once no removal is awaited: take, start removing, or sweep. */
    method LookUp(pairKey: Key, currentUserId: UserId, otherUserId: UserId) returns (found: Found)
      requires Valid() && pairKey == PairKey(currentUserId, otherUserId)
      modifies this, all
      ensures Valid() && all == old(all)
      ensures
        var s := Lookup(State(old(View()), map[]), 0, currentUserId, otherUserId, false);
        && View() == s.reg
        && match s.procs[0]
           case Acquired(c, _) => found.Taken? && found.controller in all && found.controller.id == c
           case AwaitingRemoval(_, _, flight, _) => found == MustWait(flight)
           case _ => found == MustSweep
    {
      if pairKey in controllers {
        var controller := controllers[pairKey];
        if controller.currentUserId != currentUserId {
          var flight := BeginControllerRemoval(pairKey, controller);
          return MustWait(flight);
        }
        Take(controller);
        return Taken(controller);
      }
      SweepTopics(pairKey, otherUserId);
      return MustSweep;
    }

    /** `createController`. */
    method CreateController(pairKey: Key, currentUserId: UserId, otherUserId: UserId) returns (controller: Controller)
      requires Valid() && pairKey == PairKey(currentUserId, otherUserId) && pairKey !in controllers
      modifies this`all, this`controllers
      ensures Valid() && fresh(controller) && all == old(all) + [controller] && controller.id == |old(all)|
      ensures View() == Create(old(View()), controller.id, currentUserId, otherUserId)
    {
      controller := new Controller(|all|, pairKey, currentUserId, otherUserId);
      all := all + [controller];
      controllers := controllers[pairKey := controller];
      assert Ctls() == old(Ctls())[controller.id := Ctl(pairKey, currentUserId, otherUserId, 0, false, true, true)];
      assert Ids() == old(Ids())[pairKey := controller.id];
    }

    /** `acquireController` after the sweeps: the controller found now, or a new one. */
    method TakeOrCreate(pairKey: Key, currentUserId: UserId, otherUserId: UserId) returns (controller: Controller)
      requires Valid() && pairKey == PairKey(currentUserId, otherUserId)
      modifies this, all
      ensures Valid() && controller in all && old(all) <= all
      ensures
        var s := Settle(State(old(View()), map[]), 0, currentUserId, otherUserId, false, |old(all)|);
        View() == s.reg && s.procs[0] == Acquired(controller.id, false)
    {
      if pairKey in controllers {
        controller := controllers[pairKey];
      } else {
        controller := CreateController(pairKey, currentUserId, otherUserId);
      }
      Take(controller);
    }

    method ReleaseController(controller: Controller)
      requires Valid() && controller in all
      modifies controller
      ensures Valid() && View() == Release(old(View()), controller.id)
    {
      controller.consumers := if controller.consumers - 1 > 0 then controller.consumers - 1 else 0;
      if controller.consumers > 0 || controller.disposalTimer { return; }
      controller.disposalTimer := true;
    }

    /** The idle timer's callback. */
    method OnIdle(controller: Controller)
      requires Valid() && controller in all
      modifies this, controller
      ensures Valid() && all == old(all) && View() == FireTimer(old(View()), controller.id)
    {
      controller.disposalTimer := false;
      assert View() == old(View()).(ctls := old(View()).ctls[controller.id := old(View()).ctls[controller.id].(timer := false)]);
      if controller.consumers == 0 {
        var _ := BeginControllerRemoval(controller.key, controller);
      }
    }
  }
}
