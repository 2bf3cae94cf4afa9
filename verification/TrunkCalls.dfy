/**
  * Trunk channels and the calls that hold them: internal/trunk/manager.go and the trunk call life cycle of
  * internal/b2bua/handler.go. Each handler body and each turn of a response loop is one step.
  */
module TrunkCalls {
  import opened Octets
  import Store = CallStore

  /** A response loop waiting for the far end; every one of them has an SDP offer from Alice. */
  datatype Loop = Loop(trunk: string, alice: string, bob: string, sent: bool, cancelled: bool, timed: bool)

  datatype Timer = Timer(callId: string, trunk: string)

  /**
    * max and active are the trunk manager's; loops and timers are goroutines, named by the order of their calls;
    * lost counts the channels that were acquired and can never be released any more.
    */
  datatype State = State(max: map<string, int>, active: map<string, nat>, loops: map<nat, Loop>, next: nat,
                         index: Store.Index, early: map<string, nat>, timers: map<nat, Timer>,
                         alices: set<string>, bobs: set<string>, lost: map<string, nat>, crashed: bool)

  function Initial(max: map<string, int>): (s: State) {
    State(max, map[], map[], 0, Store.EMPTY, map[], map[], {}, {}, map[], false)
  }

  /** How far setting up an INVITE towards a trunk gets after a channel was acquired. */
  datatype Setup = NoRtpPort | BadOffer | NoOffer | BadFrom | BadTarget | BadConnection | Proceeds(timed: bool)

  /** What is wrong with a 200 OK, if anything. */
  datatype Answer = BadTo | BadSdp | AliceUnresolvable | Good

  datatype Event =
    | Invite(trunk: string, alice: string, bob: string, setup: Setup)
    | RequestSent(id: nat, ok: bool)
    | Aborted(id: nat)
    | Response(id: nat, status: int, answer: Answer)
    | TimedOut(id: nat)
    | Internal(alice: string, bob: string)
    | Bye(callId: string)
    | CancelCall(callId: string)
    | SessionExpires(id: nat)

  function At(m: map<string, nat>, t: string): (n: nat) {
    if t in m then m[t] else 0
  }

  predicate CanAcquire(s: State, t: string) {
    t in s.max && (s.max[t] == 0 || At(s.active, t) < s.max[t])
  }

  function Acquired(s: State, t: string): (r: State)
    ensures r.max == s.max && r.lost == s.lost && r.loops == s.loops && r.index == s.index && r.next == s.next
    ensures forall u :: At(r.active, u) == At(s.active, u) + if u == t then 1 else 0
  {
    s.(active := s.active[t := At(s.active, t) + 1])
  }

  function Released(s: State, t: string): (r: State)
    ensures r.max == s.max && r.lost == s.lost && r.loops == s.loops && r.index == s.index
    ensures forall u :: At(r.active, u) == At(s.active, u) - if u == t && At(s.active, u) > 0 then 1 else 0
  {
    if At(s.active, t) > 0 then s.(active := s.active[t := At(s.active, t) - 1]) else s
  }

  function WithoutLoop(s: State, id: nat): (r: State)
    requires id in s.loops
    ensures r.max == s.max && r.lost == s.lost && r.active == s.active && r.index == s.index
      && r.loops == s.loops - {id}
  {
    s.(loops := s.loops - {id}, early := s.early - {s.loops[id].alice})
  }

  /** A loop that ends without a call gives its channel back. */
  function Ended(s: State, id: nat): (r: State)
    requires id in s.loops
    ensures r.max == s.max && r.lost == s.lost && r.index == s.index && r.loops == s.loops - {id}
    ensures forall u ::
      At(r.active, u) == At(s.active, u) - if u == s.loops[id].trunk && At(s.active, u) > 0 then 1 else 0
  {
    Released(WithoutLoop(s, id), s.loops[id].trunk)
  }

  function Lost(s: State, t: string): (r: State)
    ensures r.max == s.max && r.active == s.active && r.index == s.index && r.loops == s.loops
    ensures forall u :: At(r.lost, u) == At(s.lost, u) + if u == t then 1 else 0
  {
    s.(lost := s.lost[t := At(s.lost, t) + 1])
  }

  /** A new response loop. */
  function Entered(s: State, l: Loop): (r: State)
    ensures r.max == s.max && r.lost == s.lost && r.index == s.index && r.loops == s.loops[s.next := l]
    ensures r.active == s.active && r.next == s.next + 1
  {
    s.(loops := s.loops[s.next := l], next := s.next + 1, early := s.early[l.alice := s.next],
       alices := s.alices + {l.alice}, bobs := s.bobs + {l.bob})
  }

  function OnInvite(s: State, e: Event): (r: State)
    requires e.Invite?
  {
    if !CanAcquire(s, e.trunk) then s
    else
      var a := Acquired(s, e.trunk);
      match e.setup
      case NoOffer => Lost(a, e.trunk).(crashed := true)
      case Proceeds(timed) => Entered(a, Loop(e.trunk, e.alice, e.bob, false, false, timed))
      case _ => Released(a, e.trunk)
  }

  function Established(s: State, id: nat): (r: State)
    requires id in s.loops
    ensures r.max == s.max && r.lost == s.lost && r.active == s.active && r.loops == s.loops - {id}
    ensures var l := s.loops[id]; r.index == Store.Stored(s.index, Store.Call(l.alice, l.bob, l.trunk))
  {
    var l := s.loops[id];
    WithoutLoop(s, id).(index := Store.Stored(s.index, Store.Call(l.alice, l.bob, l.trunk)),
                        timers := if l.timed then s.timers[id := Timer(l.alice, l.trunk)] else s.timers)
  }

  function OnResponse(s: State, id: nat, status: int, answer: Answer): (r: State)
    requires id in s.loops
  {
    var l := s.loops[id];
    if status >= 300 then Ended(s, id)
    else if status != 200 then s
    else if l.cancelled then Ended(s, id)
    else
      match answer
      case AliceUnresolvable => Lost(WithoutLoop(s, id), l.trunk)
      case Good => Established(s, id)
      case _ => Ended(s, id)
  }

  /** Removes an established call and gives back a channel of t, unless the call was internal. */
  function Dropped(s: State, c: Store.Call, t: string): (r: State)
    ensures r.max == s.max && r.lost == s.lost && r.loops == s.loops && r.index == Store.Removed(s.index, c.alice)
    ensures forall u :: u != "" ==>
      At(r.active, u) == At(s.active, u) - if u == t && At(s.active, u) > 0 then 1 else 0
  {
    var d := s.(index := Store.Removed(s.index, c.alice));
    if t == "" then d else Released(d, t)
  }

  function OnBye(s: State, callId: string): (r: State) {
    var c := Store.Get(s.index, callId);
    if c.None? then s else Dropped(s, c.value, c.value.trunk)
  }

  function OnSessionExpires(s: State, id: nat): (r: State)
    requires id in s.timers
  {
    var t := s.timers[id];
    var c := Store.Get(s.index, t.callId);
    var rest := s.(timers := s.timers - {id});
    if c.None? then rest else Released(rest.(index := Store.Removed(s.index, c.value.alice)), t.trunk)
  }

  function OnCancel(s: State, callId: string): (r: State)
    ensures r.max == s.max && r.lost == s.lost && r.index == s.index && r.loops.Keys == s.loops.Keys
    ensures r.active == s.active && r.next == s.next && r.timers == s.timers
  {
    if Store.Get(s.index, callId).Some? || callId !in s.early then s
    else
      var id := s.early[callId];
      var loops := if id in s.loops then s.loops[id := s.loops[id].(cancelled := true)] else s.loops;
      s.(loops := loops, early := s.early - {callId})
  }

  predicate Waiting(s: State, id: nat) {
    id in s.loops && s.loops[id].sent
  }

  function Step(s: State, e: Event): (r: State) {
    if s.crashed then s
    else
      match e
      case Invite(_, _, _, _) => OnInvite(s, e)
      case RequestSent(id, ok) =>
        if id !in s.loops || s.loops[id].sent then s
        else if ok then s.(loops := s.loops[id := s.loops[id].(sent := true)])
        else Ended(s, id)
      case Aborted(id) => if Waiting(s, id) && s.loops[id].cancelled then Ended(s, id) else s
      case Response(id, status, answer) => if Waiting(s, id) then OnResponse(s, id, status, answer) else s
      case TimedOut(id) => if Waiting(s, id) then Ended(s, id) else s
      case Internal(alice, bob) =>
        s.(index := Store.Stored(s.index, Store.Call(alice, bob, "")), alices := s.alices + {alice},
          bobs := s.bobs + {bob})
      case Bye(callId) => OnBye(s, callId)
      case CancelCall(callId) => OnCancel(s, callId)
      case SessionExpires(id) => if id in s.timers then OnSessionExpires(s, id) else s
  }

  function End(s: State, es: seq<Event>): (r: State)
    decreases |es|
  {
    if es == [] then s else End(Step(s, es[0]), es[1..])
  }

  // ---- Who holds a channel ----

  function LoopsOn(loops: map<nat, Loop>, t: string): (n: nat) {
    |set id: nat | id in loops && loops[id].trunk == t|
  }

  function CallsOn(calls: map<string, Store.Call>, t: string): (n: nat) {
    |set a | a in calls && calls[a].trunk == t|
  }

  lemma LoopAdded(loops: map<nat, Loop>, id: nat, l: Loop, t: string)
    requires id !in loops
    ensures LoopsOn(loops[id := l], t) == LoopsOn(loops, t) + if l.trunk == t then 1 else 0
  {
    var m := loops[id := l];
    var before := set k: nat | k in loops && loops[k].trunk == t;
    var after := set k: nat | k in m && m[k].trunk == t;
    assert after == if l.trunk == t then before + {id} else before;
  }

  lemma LoopChanged(loops: map<nat, Loop>, id: nat, l: Loop, t: string)
    requires id in loops && loops[id].trunk == l.trunk
    ensures LoopsOn(loops[id := l], t) == LoopsOn(loops, t)
  {
    var m := loops[id := l];
    assert (set k: nat | k in m && m[k].trunk == t) == set k: nat | k in loops && loops[k].trunk == t;
  }

  lemma LoopRemoved(loops: map<nat, Loop>, id: nat, t: string)
    requires id in loops
    ensures LoopsOn(loops, t) == LoopsOn(loops - {id}, t) + if loops[id].trunk == t then 1 else 0
  {
    var m := loops - {id};
    LoopAdded(m, id, loops[id], t);
    assert m[id := loops[id]] == loops;
  }

  lemma CallAdded(calls: map<string, Store.Call>, c: Store.Call, t: string)
    requires c.alice !in calls
    ensures CallsOn(calls[c.alice := c], t) == CallsOn(calls, t) + if c.trunk == t then 1 else 0
  {
    var m := calls[c.alice := c];
    var before := set k | k in calls && calls[k].trunk == t;
    var after := set k | k in m && m[k].trunk == t;
    assert after == if c.trunk == t then before + {c.alice} else before;
  }

  lemma CallRemoved(calls: map<string, Store.Call>, a: string, t: string)
    requires a in calls && calls[a].alice == a
    ensures CallsOn(calls, t) == CallsOn(calls - {a}, t) + if calls[a].trunk == t then 1 else 0
  {
    var m := calls - {a};
    CallAdded(m, calls[a], t);
    assert m[a := calls[a]] == calls;
  }

  /** A call under a Call-ID that may be in use replaces the call stored there. */
  lemma CallStored(calls: map<string, Store.Call>, c: Store.Call, t: string)
    requires c.alice in calls ==> calls[c.alice].alice == c.alice
    ensures CallsOn(calls[c.alice := c], t)
      == CallsOn(calls, t) + (if c.trunk == t then 1 else 0)
         - if c.alice in calls && calls[c.alice].trunk == t then 1 else 0
  {
    hide CallsOn;
    if c.alice in calls {
      CallRemoved(calls, c.alice, t);
      CallAdded(calls - {c.alice}, c, t);
      assert (calls - {c.alice})[c.alice := c] == calls[c.alice := c];
    } else {
      CallAdded(calls, c, t);
    }
  }

  // ---- Accounting for every step ----

  /** What holds in every state, whatever Call-IDs are used. */
  predicate Shape(s: State) {
    && "" !in s.max
    && (forall id :: id in s.loops ==> id < s.next && s.loops[id].trunk in s.max)
    && (forall a :: a in s.index.calls ==>
          s.index.calls[a].alice == a && (s.index.calls[a].trunk == "" || s.index.calls[a].trunk in s.max))
    && (forall id :: id in s.timers ==> s.timers[id].trunk in s.max)
    && (forall t :: t in s.max && s.max[t] > 0 ==> At(s.active, t) <= s.max[t])
  }

  /** Channels in use beyond those of response loops and stored calls. */
  function Excess(s: State, t: string): (n: int) {
    At(s.active, t) - LoopsOn(s.loops, t) - CallsOn(s.index.calls, t)
  }

  /** A holder on u leaves with a release of u: one too many stays behind if there is nothing left to release. */
  function Leaves(s: State, u: string, t: string): (d: int) {
    if u == t && At(s.active, t) == 0 then 1 else 0
  }

  /** A call stored under alice replaces one on t, whose channel nobody will release. */
  function Overwrites(s: State, alice: string, t: string): (d: int) {
    if alice in s.index.calls && s.index.calls[alice].trunk == t then 1 else 0
  }

  function ResponseDrift(s: State, id: nat, status: int, answer: Answer, t: string): (d: int)
    requires id in s.loops
  {
    var l := s.loops[id];
    if status >= 300 then Leaves(s, l.trunk, t)
    else if status != 200 then 0
    else if l.cancelled then Leaves(s, l.trunk, t)
    else
      match answer
      case AliceUnresolvable => if l.trunk == t then 1 else 0
      case Good => Overwrites(s, l.alice, t)
      case _ => Leaves(s, l.trunk, t)
  }

  /** A timer of one trunk that finds a call of another releases the wrong channel. */
  function SessionDrift(s: State, id: nat, t: string): (d: int)
    requires id in s.timers
  {
    var c := Store.Get(s.index, s.timers[id].callId);
    if c.None? then 0
    else (if c.value.trunk == t then 1 else 0) - if s.timers[id].trunk == t && At(s.active, t) > 0 then 1 else 0
  }

  /** What a step adds to the excess of t, read off its guards before it is taken. */
  function StepDrift(s: State, e: Event, t: string): (d: int) {
    if s.crashed then 0
    else
      match e
      case Invite(u, _, _, setup) => if CanAcquire(s, u) && setup == NoOffer && u == t then 1 else 0
      case RequestSent(id, ok) =>
        if id in s.loops && !s.loops[id].sent && !ok then Leaves(s, s.loops[id].trunk, t) else 0
      case Aborted(id) => if Waiting(s, id) && s.loops[id].cancelled then Leaves(s, s.loops[id].trunk, t) else 0
      case Response(id, status, answer) => if Waiting(s, id) then ResponseDrift(s, id, status, answer, t) else 0
      case TimedOut(id) => if Waiting(s, id) then Leaves(s, s.loops[id].trunk, t) else 0
      case Internal(alice, _) => Overwrites(s, alice, t)
      case Bye(callId) =>
        var c := Store.Get(s.index, callId);
        if c.None? then 0 else Leaves(s, c.value.trunk, t)
      case CancelCall(_) => 0
      case SessionExpires(id) => if id in s.timers then SessionDrift(s, id, t) else 0
  }

  lemma EndedAccounts(s: State, id: nat, t: string)
    requires Shape(s) && id in s.loops
    ensures Shape(Ended(s, id)) && Excess(Ended(s, id), t) == Excess(s, t) + Leaves(s, s.loops[id].trunk, t)
  {
    hide LoopsOn, CallsOn, At;
    LoopRemoved(s.loops, id, t);
  }

  lemma LostAccounts(s: State, id: nat, t: string)
    requires Shape(s) && id in s.loops
    ensures var r := Lost(WithoutLoop(s, id), s.loops[id].trunk);
      Shape(r) && Excess(r, t) == Excess(s, t) + if s.loops[id].trunk == t then 1 else 0
  {
    hide LoopsOn, CallsOn, At;
    LoopRemoved(s.loops, id, t);
  }

  lemma EnteredAccounts(s: State, l: Loop, t: string)
    requires Shape(s) && CanAcquire(s, l.trunk)
    ensures var r := Entered(Acquired(s, l.trunk), l); Shape(r) && Excess(r, t) == Excess(s, t)
  {
    hide LoopsOn, CallsOn, At;
    LoopAdded(s.loops, s.next, l, t);
  }

  lemma FailedAccounts(s: State, u: string, t: string)
    requires Shape(s) && CanAcquire(s, u)
    ensures var r := Released(Acquired(s, u), u); Shape(r) && Excess(r, t) == Excess(s, t)
  {
    hide LoopsOn, CallsOn, At;
  }

  lemma CrashAccounts(s: State, u: string, t: string)
    requires Shape(s) && CanAcquire(s, u)
    ensures var r := Lost(Acquired(s, u), u).(crashed := true);
      Shape(r) && Excess(r, t) == Excess(s, t) + if u == t then 1 else 0
  {
    hide LoopsOn, CallsOn, At;
  }

  lemma InviteAccounts(s: State, e: Event, t: string)
    requires Shape(s) && e.Invite? && !s.crashed
    ensures Shape(OnInvite(s, e)) && Excess(OnInvite(s, e), t) == Excess(s, t) + StepDrift(s, e, t)
  {
    hide Shape, Excess, Entered, Acquired, Released, Lost, Leaves, Overwrites, CanAcquire;
    if CanAcquire(s, e.trunk) {
      FailedAccounts(s, e.trunk, t);
      CrashAccounts(s, e.trunk, t);
      if e.setup.Proceeds? { EnteredAccounts(s, Loop(e.trunk, e.alice, e.bob, false, false, e.setup.timed), t); }
    }
  }

  lemma EstablishedAccounts(s: State, id: nat, t: string)
    requires Shape(s) && id in s.loops
    ensures Shape(Established(s, id))
    ensures Excess(Established(s, id), t) == Excess(s, t) + Overwrites(s, s.loops[id].alice, t)
  {
    hide LoopsOn, CallsOn, At;
    var l := s.loops[id];
    LoopRemoved(s.loops, id, t);
    CallStored(s.index.calls, Store.Call(l.alice, l.bob, l.trunk), t);
  }

  lemma InternalAccounts(s: State, alice: string, bob: string, t: string)
    requires Shape(s) && !s.crashed && t != ""
    ensures var r := Step(s, Internal(alice, bob)); Shape(r) && Excess(r, t) == Excess(s, t) + Overwrites(s, alice, t)
  {
    hide LoopsOn, CallsOn, At;
    CallStored(s.index.calls, Store.Call(alice, bob, ""), t);
  }

  lemma FoundCall(s: State, callId: string)
    requires Shape(s)
    ensures var c := Store.Get(s.index, callId);
      c.Some? ==> c.value.alice in s.index.calls && s.index.calls[c.value.alice] == c.value
  {
  }

  lemma ByeAccounts(s: State, callId: string, t: string)
    requires Shape(s) && t != ""
    ensures Shape(OnBye(s, callId))
    ensures var c := Store.Get(s.index, callId);
      Excess(OnBye(s, callId), t) == Excess(s, t) + if c.None? then 0 else Leaves(s, c.value.trunk, t)
  {
    hide LoopsOn, CallsOn, At, Store.Get, Dropped;
    FoundCall(s, callId);
    var c := Store.Get(s.index, callId);
    if c.Some? { CallRemoved(s.index.calls, c.value.alice, t); DroppedShape(s, c.value, c.value.trunk); }
  }

  lemma DroppedShape(s: State, c: Store.Call, u: string)
    requires Shape(s)
    ensures Shape(Dropped(s, c, u))
  {
    hide At;
  }

  lemma SessionAccounts(s: State, id: nat, t: string)
    requires Shape(s) && id in s.timers && t != ""
    ensures Shape(OnSessionExpires(s, id))
    ensures Excess(OnSessionExpires(s, id), t) == Excess(s, t) + SessionDrift(s, id, t)
  {
    hide LoopsOn, CallsOn, At, Store.Get, Released;
    FoundCall(s, s.timers[id].callId);
    var c := Store.Get(s.index, s.timers[id].callId);
    if c.Some? { CallRemoved(s.index.calls, c.value.alice, t); }
    SessionShape(s, id);
  }

  lemma SessionShape(s: State, id: nat)
    requires Shape(s) && id in s.timers
    ensures Shape(OnSessionExpires(s, id))
  {
    hide At, Store.Get;
  }

  lemma UpdateAccounts(s: State, id: nat, l: Loop, early: map<string, nat>, t: string)
    requires Shape(s) && id in s.loops && l.trunk == s.loops[id].trunk
    ensures var r := s.(loops := s.loops[id := l], early := early); Shape(r) && Excess(r, t) == Excess(s, t)
  {
    hide LoopsOn, CallsOn, At;
    LoopChanged(s.loops, id, l, t);
  }

  lemma CancelAccounts(s: State, callId: string, t: string)
    requires Shape(s)
    ensures Shape(OnCancel(s, callId)) && Excess(OnCancel(s, callId), t) == Excess(s, t)
  {
    hide LoopsOn, CallsOn, At, Store.Get;
    if Store.Get(s.index, callId).None? && callId in s.early {
      var id := s.early[callId];
      if id in s.loops { UpdateAccounts(s, id, s.loops[id].(cancelled := true), s.early - {callId}, t); }
    }
  }

  /** Every step, with any Call-IDs: the excess of a trunk changes by exactly what the guards say. */
  lemma StepAccounts(s: State, e: Event, t: string)
    requires Shape(s) && t != ""
    ensures Shape(Step(s, e)) && Excess(Step(s, e), t) == Excess(s, t) + StepDrift(s, e, t)
  {
    hide Shape, Excess, OnInvite, Ended, Established, OnBye, OnCancel, OnSessionExpires, Lost, WithoutLoop, Leaves,
      Overwrites, SessionDrift;
    if !s.crashed {
      match e
      case Invite(_, _, _, _) => InviteAccounts(s, e, t);
      case RequestSent(id, ok) =>
        if id in s.loops {
          EndedAccounts(s, id, t);
          UpdateAccounts(s, id, s.loops[id].(sent := true), s.early, t);
        }
      case Aborted(id) => if id in s.loops { EndedAccounts(s, id, t); }
      case Response(id, status, answer) =>
        if id in s.loops {
          EndedAccounts(s, id, t);
          LostAccounts(s, id, t);
          EstablishedAccounts(s, id, t);
        }
      case TimedOut(id) => if id in s.loops { EndedAccounts(s, id, t); }
      case Internal(alice, bob) => InternalAccounts(s, alice, bob, t);
      case Bye(callId) => ByeAccounts(s, callId, t);
      case CancelCall(callId) => CancelAccounts(s, callId, t);
      case SessionExpires(id) => if id in s.timers { SessionAccounts(s, id, t); }
    }
  }

  function Drift(s: State, es: seq<Event>, t: string): (d: int)
    decreases |es|
  {
    if es == [] then 0 else StepDrift(s, es[0], t) + Drift(Step(s, es[0]), es[1..], t)
  }

  lemma {:induction false} RunAccounts(s: State, es: seq<Event>, t: string)
    requires Shape(s) && t != ""
    ensures Shape(End(s, es)) && Excess(End(s, es), t) == Excess(s, t) + Drift(s, es, t)
    ensures End(s, es).max == s.max
    decreases |es|
  {
    hide Shape, Excess, Step, StepDrift;
    if es == [] {
    } else {
      StepAccounts(s, es[0], t);
      MaxFixed(s, es[0]);
      RunAccounts(Step(s, es[0]), es[1..], t);
    }
  }

  lemma MaxFixed(s: State, e: Event)
    ensures Step(s, e).max == s.max
  {
    hide Store.Get, Acquired, Released, Entered, Ended, Lost, WithoutLoop, Established, Dropped, OnCancel, At;
  }

  /**
    * Every run, with Call-IDs reused in any way: the channels in use on a trunk are those of its response loops and
    * stored calls plus the drift, so the count is exact if and only if the drift is zero. A non-zero limit is never
    * exceeded.
    */
  lemma Accounting(max: map<string, int>, es: seq<Event>, t: string)
    requires "" !in max && t in max
    ensures var s := End(Initial(max), es);
      && At(s.active, t) == LoopsOn(s.loops, t) + CallsOn(s.index.calls, t) + Drift(Initial(max), es, t)
      && (At(s.active, t) == LoopsOn(s.loops, t) + CallsOn(s.index.calls, t) <==> Drift(Initial(max), es, t) == 0)
      && (max[t] > 0 ==> At(s.active, t) <= max[t])
  {
    hide Step, StepDrift;
    RunAccounts(Initial(max), es, t);
  }

  // ---- Witnesses ----

  const ONE_TRUNK: map<string, int> := map["t" := 0]

  /** A 200 OK to a call whose Alice cannot be resolved keeps the channel though nothing holds it. */
  lemma LossWitness()
    ensures var s := End(Initial(ONE_TRUNK), [Invite("t", "a", "b", Proceeds(false)), RequestSent(0, true),
                                              Response(0, 200, AliceUnresolvable)]);
      At(s.active, "t") == 1 && s.loops == map[] && s.index == Store.EMPTY
  {
    var s0 := Initial(ONE_TRUNK);
    var e1, e2, e3 := Invite("t", "a", "b", Proceeds(false)), RequestSent(0, true), Response(0, 200, AliceUnresolvable);
    var s1 := Step(s0, e1);
    var s2 := Step(s1, e2);
    var s3 := Step(s2, e3);
    assert s3.loops == map[];
    assert [e1, e2, e3][1..] == [e2, e3] && [e2, e3][1..] == [e3] && [e3][1..] == [];
    assert End(s2, [e3]) == s3;
    assert End(s1, [e2, e3]) == s3;
  }

  lemma EndCons(s: State, e: Event, es: seq<Event>)
    ensures End(s, [e] + es) == End(Step(s, e), es)
  {
    hide Step;
    assert ([e] + es)[1..] == es;
  }

  /** A call that is set up, answered and stored. */
  lemma AnsweredCall(s: State, u: string, a: string, b: string)
    requires !s.crashed && CanAcquire(s, u) && s.next !in s.loops
    ensures var r := Step(Step(Step(s, Invite(u, a, b, Proceeds(false))), RequestSent(s.next, true)),
                          Response(s.next, 200, Good));
      && r.loops == s.loops && r.index == Store.Stored(s.index, Store.Call(a, b, u)) && r.next == s.next + 1
      && At(r.active, u) == At(s.active, u) + 1 && r.max == s.max && !r.crashed
  {
    hide Store.Stored, At;
    var s1 := Step(s, Invite(u, a, b, Proceeds(false)));
    var l := Loop(u, a, b, false, false, false);
    assert s1 == Entered(Acquired(s, u), l) && s1.loops[s.next] == l && !s1.crashed;
    var s2 := Step(s1, RequestSent(s.next, true));
    assert s2 == s1.(loops := s1.loops[s.next := l.(sent := true)]);
    var s3 := Step(s2, Response(s.next, 200, Good));
    assert s3 == Established(s2, s.next);
    assert s3.loops == s.loops;
  }

  /** Two calls under one Call-ID: the second replaces the first in the store, and BYE gives back one channel of two. */
  lemma ReuseWitness()
    ensures var s := End(Initial(ONE_TRUNK),
                         [Invite("t", "a", "b", Proceeds(false)), RequestSent(0, true), Response(0, 200, Good)]
                         + ([Invite("t", "a", "c", Proceeds(false)), RequestSent(1, true), Response(1, 200, Good)]
                            + [Bye("a")]));
      At(s.active, "t") == 1 && s.loops == map[] && s.index.calls == map[]
  {
    hide End, Step;
    var s0 := Initial(ONE_TRUNK);
    var e1, e2, e3 := Invite("t", "a", "b", Proceeds(false)), RequestSent(0, true), Response(0, 200, Good);
    var e4, e5, e6 := Invite("t", "a", "c", Proceeds(false)), RequestSent(1, true), Response(1, 200, Good);
    AnsweredCall(s0, "t", "a", "b");
    var s3 := Step(Step(Step(s0, e1), e2), e3);
    AnsweredCall(s3, "t", "a", "c");
    var s6 := Step(Step(Step(s3, e4), e5), e6);
    assert s6.index.calls == map["a" := Store.Call("a", "c", "t")];
    ByeTo(s6);
    EndThree(s0, e1, e2, e3, [e4, e5, e6] + [Bye("a")]);
    EndThree(s3, e4, e5, e6, [Bye("a")]);
    assert [Bye("a")] + [] == [Bye("a")];
    EndCons(s6, Bye("a"), []);
    assert End(Step(s6, Bye("a")), []) == Step(s6, Bye("a")) by { NothingMore(Step(s6, Bye("a"))); }
  }

  lemma ByeTo(s: State)
    requires !s.crashed && s.index.calls == map["a" := Store.Call("a", "c", "t")] && At(s.active, "t") == 2
    ensures var r := Step(s, Bye("a")); At(r.active, "t") == 1 && r.loops == s.loops && r.index.calls == map[]
  {
  }

  lemma NothingMore(s: State)
    ensures End(s, []) == s
  {
  }

  lemma EndThree(s: State, a: Event, b: Event, c: Event, es: seq<Event>)
    ensures End(s, [a, b, c] + es) == End(Step(Step(Step(s, a), b), c), es)
  {
    hide End, Step;
    assert [a, b, c] + es == [a] + ([b] + ([c] + es));
    EndCons(s, a, [b] + ([c] + es));
    EndCons(Step(s, a), b, [c] + es);
    EndCons(Step(Step(s, a), b), c, es);
  }
}
