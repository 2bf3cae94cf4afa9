/** The trunk manager and the handlers of trunk calls, updated in place. */
module TrunkHandler {
  import opened Octets
  import opened TrunkCalls
  import Store = CallStore

  class TrunkManager {
    const max: map<string, int>
    var activeCalls: map<string, nat>

    constructor (max: map<string, int>)
      ensures this.max == max && activeCalls == map[]
    {
      this.max := max;
      activeCalls := map[];
    }

    method AcquireChannel(name: string) returns (ok: bool)
      modifies this
      ensures ok <==> name in max && (max[name] == 0 || At(old(activeCalls), name) < max[name])
      ensures activeCalls == if ok then old(activeCalls)[name := At(old(activeCalls), name) + 1] else old(activeCalls)
    {
      if name !in max { return false; }
      var n := if name in activeCalls then activeCalls[name] else 0;
      if max[name] == 0 {
        activeCalls := activeCalls[name := n + 1];
        return true;
      }
      if n >= max[name] { return false; }
      activeCalls := activeCalls[name := n + 1];
      return true;
    }

    method ReleaseChannel(name: string)
      modifies this
      ensures activeCalls ==
        if At(old(activeCalls), name) > 0 then old(activeCalls)[name := At(old(activeCalls), name) - 1]
        else old(activeCalls)
    {
      if name in activeCalls && activeCalls[name] > 0 { activeCalls := activeCalls[name := activeCalls[name] - 1]; }
    }
  }

  class Handler {
    const trunkMgr: TrunkManager
    const store: Store.CallTable
    /** Goroutines: response loops and session timers. */
    var loops: map<nat, Loop>
    var next: nat
    var timers: map<nat, Timer>
    var crashed: bool
    ghost var alices: set<string>
    ghost var bobs: set<string>
    ghost var lost: map<string, nat>

    ghost function Value(): (s: State)
      reads this, trunkMgr, store
    {
      State(trunkMgr.max, trunkMgr.activeCalls, loops, next, store.Value(), store.early, timers, alices, bobs, lost,
        crashed)
    }

    constructor (max: map<string, int>)
      ensures Value() == Initial(max) && fresh(trunkMgr) && fresh(store)
    {
      var m := new TrunkManager(max);
      var s := new Store.CallTable();
      trunkMgr, store := m, s;
      loops, next, timers, crashed := map[], 0, map[], false;
      alices, bobs, lost := {}, {}, map[];
    }

    method Acquire(name: string) returns (ok: bool)
      modifies trunkMgr
      ensures ok <==> CanAcquire(old(Value()), name)
      ensures Value() == if ok then Acquired(old(Value()), name) else old(Value())
    {
      ok := trunkMgr.AcquireChannel(name);
    }

    method Release(name: string)
      modifies trunkMgr
      ensures Value() == Released(old(Value()), name)
    {
      trunkMgr.ReleaseChannel(name);
    }

    /** Returning without a release. */
    method Lose(name: string)
      modifies this`lost
      ensures Value() == Lost(old(Value()), name)
    {
      lost := lost[name := At(lost, name) + 1];
    }

    /** StoreEarly, and the goroutine that runs the response loop. */
    method StartLoop(l: Loop)
      modifies this`loops, this`next, this`alices, this`bobs, store`early
      ensures Value() == Entered(old(Value()), l)
    {
      store.early := store.early[l.alice := next];
      loops := loops[next := l];
      next := next + 1;
      alices, bobs := alices + {l.alice}, bobs + {l.bob};
    }

    /** handleTrunkInvite: every early return gives the channel back, except the panic without an offer. */
    method HandleTrunkInvite(trunk: string, alice: string, bob: string, setup: Setup)
      requires !crashed
      modifies this, trunkMgr, store`early
      ensures Value() == Step(old(Value()), Invite(trunk, alice, bob, setup))
    {
      hide Acquired, Released, Entered, Lost, CanAcquire;
      var ok := Acquire(trunk);
      if !ok { return; }
      if setup == NoRtpPort || setup == BadOffer {
        Release(trunk);
        return;
      }
      if setup == NoOffer {
        Lose(trunk);
        crashed := true;
        return;
      }
      if setup == BadFrom || setup == BadTarget || setup == BadConnection {
        Release(trunk);
        return;
      }
      StartLoop(Loop(trunk, alice, bob, false, false, setup.timed));
    }

    /** Leaving a response loop: its deferred RemoveEarly. */
    method LeaveLoop(id: nat)
      requires id in loops
      modifies this`loops, store`early
      ensures Value() == WithoutLoop(old(Value()), id)
    {
      store.early := store.early - {loops[id].alice};
      loops := loops - {id};
    }

    /** The first turn of trunkResponseLoop: sending the INVITE. */
    method SendInvite(id: nat, ok: bool)
      requires !crashed && id in loops && !loops[id].sent
      modifies this`loops, trunkMgr, store`early
      ensures Value() == Step(old(Value()), RequestSent(id, ok))
    {
      hide Released, WithoutLoop;
      var l := loops[id];
      if !ok {
        LeaveLoop(id);
        Release(l.trunk);
        return;
      }
      loops := loops[id := l.(sent := true)];
    }

    /** A turn of trunkResponseLoop that sees the context cancelled or a transaction error. */
    method EndLoop(id: nat)
      requires !crashed && id in loops && loops[id].sent
      modifies this`loops, trunkMgr, store`early
      ensures Value() == Step(old(Value()), TimedOut(id))
      ensures old(loops)[id].cancelled ==> Value() == Step(old(Value()), Aborted(id))
    {
      hide Released, WithoutLoop;
      var l := loops[id];
      LeaveLoop(id);
      Release(l.trunk);
    }

    /** The end of handleTrunk200OK: the call is stored and its session timer started. */
    method Establish(id: nat)
      requires id in loops
      modifies this, store
      ensures Value() == Established(old(Value()), id)
    {
      var l := loops[id];
      store.Store(Store.Call(l.alice, l.bob, l.trunk));
      if l.timed { timers := timers[id := Timer(l.alice, l.trunk)]; }
      store.early := store.early - {l.alice};
      loops := loops - {id};
    }

    /** A turn of trunkResponseLoop that receives a response, with handleTrunk200OK. */
    method HandleTrunkResponse(id: nat, status: int, answer: Answer)
      requires !crashed && id in loops && loops[id].sent
      modifies this, trunkMgr, store
      ensures Value() == Step(old(Value()), Response(id, status, answer))
    {
      hide Released, WithoutLoop, Lost, Established;
      var l := loops[id];
      if 100 <= status < 200 { return; }
      if status == 200 {
        if l.cancelled || answer == BadTo || answer == BadSdp {
          LeaveLoop(id);
          Release(l.trunk);
          return;
        }
        if answer == AliceUnresolvable {
          LeaveLoop(id);
          Lose(l.trunk);
          return;
        }
        Establish(id);
        return;
      }
      if status >= 300 {
        LeaveLoop(id);
        Release(l.trunk);
      }
    }

    method HandleBye(callId: string)
      requires !crashed
      modifies trunkMgr, store
      ensures Value() == Step(old(Value()), Bye(callId))
    {
      hide At, Store.Get, Store.Removed;
      var call := store.Find(callId);
      if call.Some? {
        store.Remove(call.value.alice);
        if call.value.trunk != "" { trunkMgr.ReleaseChannel(call.value.trunk); }
      }
    }

    method HandleCancel(callId: string)
      requires !crashed
      modifies this`loops, store`early
      ensures Value() == Step(old(Value()), CancelCall(callId))
    {
      hide Store.Get;
      var call := store.Find(callId);
      if call.Some? || callId !in store.early { return; }
      var id := store.early[callId];
      if id in loops { loops := loops[id := loops[id].(cancelled := true)]; }
      store.early := store.early - {callId};
    }

    /** trunkSessionTimer running out. */
    method TrunkSessionTimer(id: nat)
      requires !crashed && id in timers
      modifies this`timers, trunkMgr, store
      ensures Value() == Step(old(Value()), SessionExpires(id))
    {
      hide At, Store.Get, Store.Removed;
      var t := timers[id];
      timers := timers - {id};
      var call := store.Find(t.callId);
      if call.None? { return; }
      store.Remove(call.value.alice);
      trunkMgr.ReleaseChannel(t.trunk);
    }
  }
}
