/** Trunk calls under Call-IDs that are used once: every channel is released exactly once, unless it is lost. */
module FreshCalls {
  import opened Octets
  import opened TrunkCalls
  import Store = CallStore

  /** Call-IDs that were never used before, on either leg. */
  predicate FreshIds(s: State, alice: string, bob: string) {
    && alice != "" && bob != "" && alice != bob
    && alice !in s.alices && alice !in s.bobs && bob !in s.alices && bob !in s.bobs
  }

  predicate Allowed(s: State, e: Event) {
    match e
    case Invite(_, alice, bob, _) => FreshIds(s, alice, bob)
    case Internal(alice, bob) => FreshIds(s, alice, bob)
    case _ => true
  }

  predicate IsRun(s: State, es: seq<Event>)
    decreases |es|
  {
    es == [] || (Allowed(s, es[0]) && IsRun(Step(s, es[0]), es[1..]))
  }

  // ---- What every step keeps ----

  predicate Names(s: State) {
    "" !in s.max && s.alices !! s.bobs && "" !in s.alices && "" !in s.bobs
  }

  predicate CallsOk(s: State) {
    && Store.Inverse(s.index)
    && forall a :: a in s.index.calls ==>
         a in s.alices && s.index.calls[a].bob in s.bobs
         && (s.index.calls[a].trunk == "" || s.index.calls[a].trunk in s.max)
  }

  /** A loop's identifiers are its own, and its call is not stored yet. */
  predicate LoopOk(s: State, id: nat, l: Loop) {
    && id < s.next && l.trunk in s.max && l.alice in s.alices && l.bob in s.bobs
    && l.alice !in s.index.calls && l.bob !in s.index.bobToAlice
  }

  predicate LoopsOk(s: State) {
    && (forall id :: id in s.loops ==> LoopOk(s, id, s.loops[id]))
    && (forall i, j :: i in s.loops && j in s.loops && i != j ==>
          s.loops[i].alice != s.loops[j].alice && s.loops[i].bob != s.loops[j].bob)
  }

  /** A timer belongs to a call that was stored before, and to no other. */
  predicate TimerOk(s: State, id: nat, t: Timer) {
    && id < s.next && t.trunk in s.max && t.callId in s.alices
    && (t.callId in s.index.calls ==> s.index.calls[t.callId].trunk == t.trunk)
    && (forall l :: l in s.loops ==> s.loops[l].alice != t.callId)
  }

  predicate TimersOk(s: State) {
    forall id :: id in s.timers ==> TimerOk(s, id, s.timers[id])
  }

  /** Identifiers are used once. */
  predicate Ids(s: State) {
    Names(s) && CallsOk(s) && LoopsOk(s) && TimersOk(s)
  }

  /** Nothing is in excess but what was lost. */
  predicate Balanced(s: State) {
    forall t :: t in s.max ==> Excess(s, t) == At(s.lost, t)
  }

  predicate Inv(s: State) {
    Ids(s) && Shape(s) && Balanced(s)
  }

  // ---- Identifiers ----

  /** Fewer loops, fewer timers, and any change of channel counts keep the identifiers in order. */
  lemma IdsShrink(s: State, r: State)
    requires Ids(s) && r.max == s.max && r.next == s.next && r.index == s.index && r.alices == s.alices
      && r.bobs == s.bobs
    requires forall id :: id in r.loops ==> id in s.loops && r.loops[id].trunk == s.loops[id].trunk
                                            && r.loops[id].alice == s.loops[id].alice
                                            && r.loops[id].bob == s.loops[id].bob
    requires forall id :: id in r.timers ==> id in s.timers && r.timers[id] == s.timers[id]
    ensures Ids(r)
  {
    hide Store.Inverse;
    forall id | id in r.loops ensures LoopOk(r, id, r.loops[id]) {
      assert LoopOk(s, id, s.loops[id]);
    }
    forall id | id in r.timers ensures TimerOk(r, id, r.timers[id]) {
      assert TimerOk(s, id, s.timers[id]);
    }
  }

  lemma LoopJoins(s: State, l: Loop, r: State)
    requires Ids(s) && FreshIds(s, l.alice, l.bob) && l.trunk in s.max
    requires r.max == s.max && r.index == s.index && r.timers == s.timers && r.loops == s.loops[s.next := l]
    requires r.next == s.next + 1 && r.alices == s.alices + {l.alice} && r.bobs == s.bobs + {l.bob}
    ensures Ids(r)
  {
    hide Store.Inverse;
    assert l.bob !in s.index.bobToAlice by { BobsKnown(s); }
    assert s.next !in s.loops by { assert s.next in s.loops ==> LoopOk(s, s.next, s.loops[s.next]); }
    forall id | id in r.loops ensures LoopOk(r, id, r.loops[id]) {
      if id != s.next { assert LoopOk(s, id, s.loops[id]); }
    }
    forall i, j | i in r.loops && j in r.loops && i != j
      ensures r.loops[i].alice != r.loops[j].alice && r.loops[i].bob != r.loops[j].bob
    {
      if i != s.next { assert LoopOk(s, i, s.loops[i]); }
      if j != s.next { assert LoopOk(s, j, s.loops[j]); }
    }
    forall id | id in r.timers ensures TimerOk(r, id, r.timers[id]) {
      assert TimerOk(s, id, s.timers[id]);
    }
  }

  lemma BobsKnown(s: State)
    requires Ids(s)
    ensures forall b :: b in s.index.bobToAlice ==> b in s.bobs
    ensures forall a :: a in s.index.calls ==> a in s.alices && s.index.calls[a].bob in s.bobs
  {
  }

  lemma FreshForIndex(s: State, c: Store.Call)
    requires Ids(s) && c.alice != "" && c.bob != "" && c.alice != c.bob
    requires c.alice !in s.index.calls && c.bob !in s.index.bobToAlice && c.alice !in s.bobs && c.bob !in s.alices
    ensures Store.Fresh(s.index, c)
  {
    assert forall a :: a in s.index.calls ==> s.index.calls[a].bob in s.index.bobToAlice;
  }

  /** A call enters the index; its identifiers are not those of any loop or timer. */
  lemma CallJoins(s: State, c: Store.Call, r: State)
    requires Ids(s) && Store.Fresh(s.index, c) && c.alice in r.alices && c.bob in r.bobs
    requires c.trunk == "" || c.trunk in s.max
    requires Names(r) && r.max == s.max && r.next == s.next && r.loops == s.loops && r.timers == s.timers
    requires s.alices <= r.alices && s.bobs <= r.bobs && r.index == Store.Stored(s.index, c)
    requires forall id :: id in s.loops ==> s.loops[id].alice != c.alice && s.loops[id].bob != c.bob
    requires forall id :: id in s.timers ==> s.timers[id].callId != c.alice
    ensures Ids(r)
  {
    hide Store.Inverse, Store.Fresh, Store.Storable, LoopsOk, TimersOk;
    Store.FreshStorable(s.index, c);
    Store.StoreExact(s.index, c);
    assert LoopsOk(r) by { LoopsStay(s, c, r); }
    assert TimersOk(r) by { TimersStay(s, c, r); }
  }

  lemma LoopsStay(s: State, c: Store.Call, r: State)
    requires LoopsOk(s) && r.max == s.max && r.next == s.next && r.loops == s.loops
    requires s.alices <= r.alices && s.bobs <= r.bobs && r.index == Store.Stored(s.index, c)
    requires forall id :: id in s.loops ==> s.loops[id].alice != c.alice && s.loops[id].bob != c.bob
    ensures LoopsOk(r)
  {
    forall id | id in r.loops ensures LoopOk(r, id, r.loops[id]) {
      assert LoopOk(s, id, s.loops[id]);
    }
  }

  lemma TimersStay(s: State, c: Store.Call, r: State)
    requires TimersOk(s) && r.max == s.max && r.next == s.next && r.loops == s.loops && r.timers == s.timers
    requires s.alices <= r.alices && r.index == Store.Stored(s.index, c)
    requires forall id :: id in s.timers ==> s.timers[id].callId != c.alice
    ensures TimersOk(r)
  {
    forall id | id in r.timers ensures TimerOk(r, id, r.timers[id]) {
      assert TimerOk(s, id, s.timers[id]);
    }
  }

  lemma CallLeaves(s: State, a: string, r: State)
    requires Ids(s) && r.max == s.max && r.next == s.next && r.loops == s.loops
    requires r.alices == s.alices && r.bobs == s.bobs && r.index == Store.Removed(s.index, a)
    requires forall id :: id in r.timers ==> id in s.timers && r.timers[id] == s.timers[id]
    ensures Ids(r)
  {
    hide Store.Inverse;
    Store.RemoveKeeps(s.index, a);
    forall id | id in r.loops ensures LoopOk(r, id, r.loops[id]) {
      assert LoopOk(s, id, s.loops[id]);
    }
    forall id | id in r.timers ensures TimerOk(r, id, r.timers[id]) {
      assert TimerOk(s, id, s.timers[id]);
    }
  }

  lemma TimerJoins(s: State, id: nat, t: Timer, r: State)
    requires Ids(s) && TimerOk(s, id, t) && r.timers == s.timers[id := t]
    requires r.max == s.max && r.next == s.next && r.loops == s.loops && r.index == s.index
    requires r.alices == s.alices && r.bobs == s.bobs
    ensures Ids(r)
  {
    hide Store.Inverse;
    forall k | k in r.loops ensures LoopOk(r, k, r.loops[k]) {
      assert LoopOk(s, k, s.loops[k]);
    }
    forall k | k in r.timers ensures TimerOk(r, k, r.timers[k]) {
      if k != id { assert TimerOk(s, k, s.timers[k]); }
    }
  }

  // ---- Steps ----

  lemma EnteredIds(s: State, l: Loop)
    requires Ids(s) && CanAcquire(s, l.trunk) && FreshIds(s, l.alice, l.bob)
    ensures Ids(Entered(Acquired(s, l.trunk), l))
  {
    hide Ids;
    LoopJoins(s, l, Entered(Acquired(s, l.trunk), l));
  }

  lemma FailedIds(s: State, u: string)
    requires Ids(s)
    ensures Ids(Released(Acquired(s, u), u)) && Ids(Lost(Acquired(s, u), u).(crashed := true))
  {
    hide Ids;
    IdsShrink(s, Released(Acquired(s, u), u));
    IdsShrink(s, Lost(Acquired(s, u), u).(crashed := true));
  }

  lemma InviteIds(s: State, e: Event)
    requires Ids(s) && e.Invite? && Allowed(s, e)
    ensures Ids(OnInvite(s, e))
  {
    hide Ids, Entered, Acquired, Released, Lost, FreshIds;
    if CanAcquire(s, e.trunk) {
      FailedIds(s, e.trunk);
      if e.setup.Proceeds? { EnteredIds(s, Loop(e.trunk, e.alice, e.bob, false, false, e.setup.timed)); }
    }
  }

  lemma EndedIds(s: State, id: nat)
    requires Ids(s) && id in s.loops
    ensures Ids(Ended(s, id)) && Ids(Lost(WithoutLoop(s, id), s.loops[id].trunk))
  {
    hide Ids;
    IdsShrink(s, Ended(s, id));
    IdsShrink(s, Lost(WithoutLoop(s, id), s.loops[id].trunk));
  }

  lemma EstablishedIds(s: State, id: nat)
    requires Ids(s) && id in s.loops
    ensures Ids(Established(s, id))
  {
    hide Store.Inverse, Store.Fresh, CallsOk;
    var l := s.loops[id];
    assert LoopOk(s, id, l);
    var c := Store.Call(l.alice, l.bob, l.trunk);
    var gone := WithoutLoop(s, id);
    IdsShrink(s, gone);
    FreshForIndex(gone, c);
    var kept := gone.(index := Store.Stored(s.index, c));
    forall k | k in s.timers ensures s.timers[k].callId != l.alice { assert TimerOk(s, k, s.timers[k]); }
    CallJoins(gone, c, kept);
    if l.timed { TimerJoins(kept, id, Timer(l.alice, l.trunk), Established(s, id)); }
  }

  lemma InternalIds(s: State, alice: string, bob: string)
    requires Ids(s) && FreshIds(s, alice, bob) && !s.crashed
    ensures Ids(Step(s, Internal(alice, bob)))
  {
    hide Store.Inverse, Store.Fresh, CallsOk;
    var c := Store.Call(alice, bob, "");
    BobsKnown(s);
    FreshForIndex(s, c);
    forall k | k in s.timers ensures s.timers[k].callId != alice { assert TimerOk(s, k, s.timers[k]); }
    forall k | k in s.loops ensures s.loops[k].alice != alice && s.loops[k].bob != bob {
      assert LoopOk(s, k, s.loops[k]);
    }
    CallJoins(s, c, Step(s, Internal(alice, bob)));
  }

  lemma ByeIds(s: State, callId: string)
    requires Ids(s)
    ensures Ids(OnBye(s, callId))
  {
    hide Ids, Store.Get, Store.Removed;
    var c := Store.Get(s.index, callId);
    if c.Some? { CallLeaves(s, c.value.alice, OnBye(s, callId)); }
  }

  /** A session timer finds its own call or none at all. */
  lemma TimerFindsOwn(s: State, id: nat)
    requires Ids(s) && id in s.timers
    ensures var c := Store.Get(s.index, s.timers[id].callId);
      c.Some? ==> c.value.alice in s.index.calls && s.index.calls[c.value.alice] == c.value
                  && c.value.alice == s.timers[id].callId && c.value.trunk == s.timers[id].trunk
  {
    hide LoopsOk, Store.Get, Store.Inverse;
    var t := s.timers[id];
    assert TimerOk(s, id, t);
    BobsKnown(s);
    Store.GetIsSearch(s.index, t.callId);
  }

  lemma SessionIds(s: State, id: nat)
    requires Ids(s) && id in s.timers
    ensures Ids(OnSessionExpires(s, id))
  {
    hide Ids, Store.Get, Store.Removed;
    var c := Store.Get(s.index, s.timers[id].callId);
    if c.Some? {
      CallLeaves(s, c.value.alice, OnSessionExpires(s, id));
    } else {
      IdsShrink(s, OnSessionExpires(s, id));
    }
  }

  lemma CancelIds(s: State, callId: string)
    requires Ids(s)
    ensures Ids(OnCancel(s, callId))
  {
    hide Ids, Store.Get;
    if Store.Get(s.index, callId).None? && callId in s.early { IdsShrink(s, OnCancel(s, callId)); }
  }

  lemma SentIds(s: State, id: nat)
    requires Ids(s) && id in s.loops
    ensures Ids(s.(loops := s.loops[id := s.loops[id].(sent := true)]))
  {
    hide Ids;
    IdsShrink(s, s.(loops := s.loops[id := s.loops[id].(sent := true)]));
  }

  lemma StepIds(s: State, e: Event)
    requires Ids(s) && Allowed(s, e)
    ensures Ids(Step(s, e))
  {
    hide Ids, OnInvite, Ended, Established, OnBye, OnCancel, OnSessionExpires, Lost, WithoutLoop;
    if !s.crashed {
      match e
      case Invite(_, _, _, _) => InviteIds(s, e);
      case RequestSent(id, ok) => if id in s.loops { SentIds(s, id); EndedIds(s, id); }
      case Aborted(id) => if id in s.loops { EndedIds(s, id); }
      case Response(id, status, answer) => if id in s.loops { EndedIds(s, id); EstablishedIds(s, id); }
      case TimedOut(id) => if id in s.loops { EndedIds(s, id); }
      case Internal(alice, bob) => InternalIds(s, alice, bob);
      case Bye(callId) => ByeIds(s, callId);
      case CancelCall(callId) => CancelIds(s, callId);
      case SessionExpires(id) => if id in s.timers { SessionIds(s, id); }
    }
  }

  // ---- Drift ----

  /** The two ways in which a step can keep a channel for ever. */
  predicate Loses(s: State, e: Event, t: string) {
    && !s.crashed
    && match e
       case Invite(trunk, _, _, setup) => trunk == t && setup == NoOffer && CanAcquire(s, t)
       case Response(id, status, answer) =>
         Waiting(s, id) && s.loops[id].trunk == t && !s.loops[id].cancelled && status == 200
           && answer == AliceUnresolvable
       case _ => false
  }

  function Losses(s: State, es: seq<Event>, t: string): (n: nat)
    decreases |es|
  {
    if es == [] then 0 else (if Loses(s, es[0], t) then 1 else 0) + Losses(Step(s, es[0]), es[1..], t)
  }

  lemma StepLoses(s: State, e: Event, t: string)
    ensures At(Step(s, e).lost, t) == At(s.lost, t) + if Loses(s, e, t) then 1 else 0
  {
    hide Store.Get, Store.Removed, Store.Stored, Acquired, Released, Entered, Ended, Lost, WithoutLoop, Established,
      Dropped, OnCancel, At;
  }

  lemma {:induction false} LossesCounted(s: State, es: seq<Event>, t: string)
    ensures At(End(s, es).lost, t) == At(s.lost, t) + Losses(s, es, t)
    decreases |es|
  {
    hide Step, Loses;
    if es == [] {
    } else {
      StepLoses(s, es[0], t);
      LossesCounted(Step(s, es[0]), es[1..], t);
    }
  }

  /** With identifiers in order, a release always finds its channel, and only losses drift. */
  lemma DriftIsLoss(s: State, e: Event, t: string)
    requires Inv(s) && Allowed(s, e) && t in s.max
    ensures StepDrift(s, e, t) == if Loses(s, e, t) then 1 else 0
  {
    hide LoopsOn, CallsOn, Store.Inverse, Store.Get, At, Excess, CallsOk, TimersOk, LoopsOk, Balanced, Shape;
    forall id | id in s.loops ensures At(s.active, s.loops[id].trunk) > 0 && s.loops[id].alice !in s.index.calls {
      HolderCounted(s, id);
    }
    match e
    case Internal(alice, bob) => BobsKnown(s);
    case Bye(callId) =>
      FoundCall(s, callId);
      var c := Store.Get(s.index, callId);
      if c.Some? && c.value.trunk != "" { StoredCounted(s, c.value.alice); }
    case SessionExpires(id) =>
      if id in s.timers {
        TimerFindsOwn(s, id);
        var c := Store.Get(s.index, s.timers[id].callId);
        if c.Some? {
          assert TimerOk(s, id, s.timers[id]) by { TimerKnown(s, id); }
          if c.value.trunk != "" { StoredCounted(s, c.value.alice); }
        }
      }
    case _ =>
  }

  lemma TimerKnown(s: State, id: nat)
    requires Ids(s) && id in s.timers
    ensures TimerOk(s, id, s.timers[id])
  {
  }

  /** Every handler body and loop turn keeps the identifiers in order and the count balanced. */
  lemma StepKeeps(s: State, e: Event)
    requires Inv(s) && Allowed(s, e)
    ensures Inv(Step(s, e))
  {
    hide Ids, Shape, Excess, Step, Loses, StepDrift;
    StepIds(s, e);
    MaxFixed(s, e);
    StepAccounts(s, e, "t");
    forall t | t in s.max ensures Excess(Step(s, e), t) == At(Step(s, e).lost, t) {
      assert t != "" by { NotEmptyName(s); }
      StepAccounts(s, e, t);
      DriftIsLoss(s, e, t);
      StepLoses(s, e, t);
    }
  }

  lemma NotEmptyName(s: State)
    requires Ids(s)
    ensures "" !in s.max
  {
  }

  // ---- Runs ----

  lemma {:induction false} RunKeeps(s: State, es: seq<Event>)
    requires Inv(s) && IsRun(s, es)
    ensures Inv(End(s, es)) && End(s, es).max == s.max
    decreases |es|
  {
    hide Inv, Step;
    if es == [] {
    } else {
      StepKeeps(s, es[0]);
      MaxFixed(s, es[0]);
      RunKeeps(Step(s, es[0]), es[1..]);
    }
  }

  lemma InitialInv(max: map<string, int>)
    requires "" !in max
    ensures Inv(Initial(max))
  {
  }

  /**
    * Conservation over every run with fresh Call-IDs: the channels in use on a trunk are those of its response loops,
    * its stored calls and the losses; so they are exactly the live calls if and only if nothing was lost.
    */
  lemma Conservation(max: map<string, int>, es: seq<Event>, t: string)
    requires "" !in max && t in max && IsRun(Initial(max), es)
    ensures var s := End(Initial(max), es);
      && At(s.active, t) == LoopsOn(s.loops, t) + CallsOn(s.index.calls, t) + Losses(Initial(max), es, t)
      && (At(s.active, t) == LoopsOn(s.loops, t) + CallsOn(s.index.calls, t) <==> Losses(Initial(max), es, t) == 0)
      && (max[t] > 0 ==> At(s.active, t) <= max[t])
  {
    hide Step, Loses, Ids;
    InitialInv(max);
    RunKeeps(Initial(max), es);
    LossesCounted(Initial(max), es, t);
    Accounting(max, es, t);
  }

  // ---- Exits ----

  /** What became of the channel of a loop l that left between s and r. */
  predicate Settled(s: State, r: State, l: Loop, lost: bool) {
    || (l.alice in r.index.calls && At(r.active, l.trunk) == At(s.active, l.trunk))
    || (lost && At(r.active, l.trunk) == At(s.active, l.trunk))
    || (l.alice !in r.index.calls && At(r.active, l.trunk) == At(s.active, l.trunk) - 1)
  }

  lemma ResponseSettles(s: State, id: nat, status: int, answer: Answer)
    requires id in s.loops && s.loops[id].alice !in s.index.calls && At(s.active, s.loops[id].trunk) > 0
    ensures var r := OnResponse(s, id, status, answer);
      id !in r.loops ==>
        Settled(s, r, s.loops[id], status == 200 && answer == AliceUnresolvable && !s.loops[id].cancelled)
  {
    hide Ended, Lost, WithoutLoop, Established, At;
  }

  lemma BystanderLoops(s: State, e: Event, id: nat)
    requires id in s.loops
    requires e.Invite? || e.Internal? || e.Bye? || e.CancelCall? || e.SessionExpires?
    ensures id in Step(s, e).loops
  {
    hide Store.Get, Store.Removed, Store.Stored, Acquired, Released, Entered, Lost, Dropped, OnCancel, At;
  }

  /** A loop leaves with its channel stored, lost or released, the release taking exactly one off the count. */
  lemma LoopExit(s: State, e: Event, id: nat)
    requires Inv(s) && id in s.loops && id !in Step(s, e).loops
    ensures Settled(s, Step(s, e), s.loops[id], Loses(s, e, s.loops[id].trunk))
  {
    hide LoopsOn, CallsOn, Store.Inverse, OnInvite, OnBye, OnSessionExpires, OnResponse, Ended, OnCancel, At, CallsOk,
      TimersOk, Balanced;
    var l := s.loops[id];
    assert LoopOk(s, id, l);
    HolderCounted(s, id);
    if e.Invite? || e.Internal? || e.Bye? || e.CancelCall? || e.SessionExpires? {
      BystanderLoops(s, e, id);
    } else if e.Response? && e.id in s.loops {
      assert LoopOk(s, e.id, s.loops[e.id]);
      HolderCounted(s, e.id);
      ResponseSettles(s, e.id, e.status, e.answer);
      ResponseTouchesOwn(s, e.id, e.status, e.answer);
    }
  }

  lemma ResponseTouchesOwn(s: State, id: nat, status: int, answer: Answer)
    requires id in s.loops
    ensures OnResponse(s, id, status, answer).loops == s.loops
      || OnResponse(s, id, status, answer).loops == s.loops - {id}
  {
    hide Ended, Lost, WithoutLoop, Established;
  }

  lemma HolderCounted(s: State, id: nat)
    requires Inv(s) && id in s.loops
    ensures At(s.active, s.loops[id].trunk) > 0 && s.loops[id].alice !in s.index.calls
  {
    hide LoopsOn, CallsOn, Store.Inverse;
    var t := s.loops[id].trunk;
    assert LoopOk(s, id, s.loops[id]);
    assert Excess(s, t) == At(s.lost, t);
    LoopRemoved(s.loops, id, t);
  }

  /** A stored trunk call leaves only by BYE or by its session timer, and takes exactly one off its trunk's count. */
  lemma CallExit(s: State, e: Event, a: string)
    requires Inv(s) && Allowed(s, e) && a in s.index.calls && a !in Step(s, e).index.calls
    ensures e.Bye? || e.SessionExpires?
    ensures var t := s.index.calls[a].trunk;
      t != "" ==> At(Step(s, e).active, t) == At(s.active, t) - 1
  {
    hide LoopsOn, CallsOn, LoopsOk, Store.Get, Acquired, Released, Entered, Ended, Lost, WithoutLoop, Established,
      Dropped, OnCancel, At, TimersOk, Balanced, Store.Inverse;
    var c := s.index.calls[a];
    if c.trunk != "" { StoredCounted(s, a); }
    match e
    case Bye(callId) => Store.GetIsSearch(s.index, callId);
    case SessionExpires(id) => if id in s.timers { TimerFindsOwn(s, id); }
    case _ =>
  }

  lemma StoredCounted(s: State, a: string)
    requires Inv(s) && a in s.index.calls && s.index.calls[a].trunk != ""
    ensures At(s.active, s.index.calls[a].trunk) > 0
  {
    hide LoopsOn, CallsOn;
    var t := s.index.calls[a].trunk;
    assert Excess(s, t) == At(s.lost, t);
    CallRemoved(s.index.calls, a, t);
  }
}
