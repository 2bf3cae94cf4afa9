/** The life of one trunk call from its INVITE on, read off the events alone (internal/b2bua/handler.go). */
module CallLives {
  import opened Octets
  import opened TrunkCalls
  import opened FreshCalls
  import Store = CallStore

  /** What an INVITE towards a trunk sets up: its loop, both Call-IDs, the trunk, and a session timer or none. */
  datatype Leg = Leg(id: nat, alice: string, bob: string, trunk: string, timed: bool)

  datatype Life = Ringing(sent: bool, cancelled: bool) | Talking | Over

  /** What an event does to a call, from nothing but the event. */
  function Next(k: Leg, l: Life, e: Event): (r: Life) {
    match l
    case Ringing(sent, cancelled) =>
      (match e
       case RequestSent(id, ok) => if id != k.id || sent then l else if ok then Ringing(true, cancelled) else Over
       case Response(id, status, answer) =>
         if id != k.id || !sent || (status < 300 && status != 200) then l
         else if status == 200 && !cancelled && answer == Good then Talking
         else Over
       case Aborted(id) => if id == k.id && sent && cancelled then Over else l
       case TimedOut(id) => if id == k.id && sent then Over else l
       case CancelCall(callId) => if callId == k.alice then Ringing(sent, true) else l
       case _ => l)
    case Talking =>
      if e == Bye(k.alice) || e == Bye(k.bob) || (k.timed && e == SessionExpires(k.id)) then Over else l
    case Over => Over
  }

  function LifeAfter(k: Leg, l: Life, es: seq<Event>): (r: Life)
    decreases |es|
  {
    if es == [] then l else LifeAfter(k, Next(k, l, es[0]), es[1..])
  }

  // ---- The call in the state ----

  /** Nobody else uses the identifiers of the call. */
  predicate Own(s: State, k: Leg) {
    && k.alice in s.alices && k.bob in s.bobs && k.id < s.next && k.trunk in s.max
    && (forall j :: j in s.loops && j != k.id ==> s.loops[j].alice != k.alice)
    && (forall j :: j in s.timers && s.timers[j].callId == k.alice ==> j == k.id)
    && (forall x :: x in s.early && s.early[x] == k.id ==> x == k.alice)
  }

  predicate LifeIs(s: State, k: Leg, l: Life) {
    match l
    case Ringing(sent, cancelled) =>
      && k.id in s.loops && s.loops[k.id] == Loop(k.trunk, k.alice, k.bob, sent, cancelled, k.timed)
      && k.alice !in s.index.calls && (if cancelled then k.alice !in s.early else k.alice in s.early)
      && (k.alice in s.early ==> s.early[k.alice] == k.id)
    case Talking =>
      && k.id !in s.loops && k.alice !in s.early
      && k.alice in s.index.calls && s.index.calls[k.alice] == Store.Call(k.alice, k.bob, k.trunk)
      && (if k.timed then k.id in s.timers && s.timers[k.id] == Timer(k.alice, k.trunk) else k.id !in s.timers)
    case Over => k.id !in s.loops && k.alice !in s.index.calls && k.alice !in s.early
  }

  predicate Lives(s: State, k: Leg, l: Life) {
    Own(s, k) && LifeIs(s, k, l) && (l.Ringing? ==> k.id !in s.timers)
  }

  // ---- One step ----

  /** Channel counts, losses and crashes are not part of the life of a call. */
  lemma CountsAside(s: State, r: State, k: Leg, l: Life)
    requires Lives(s, k, l) && r == s.(active := r.active, lost := r.lost, crashed := r.crashed)
    ensures Lives(r, k, l)
  {
  }

  lemma ReleasedKeeps(s: State, t: string)
    ensures var r := Released(s, t); r == s.(active := r.active)
  {
  }

  lemma WithoutLives(s: State, k: Leg, l: Life, id: nat)
    requires Lives(s, k, l) && id in s.loops
    ensures Lives(WithoutLoop(s, id), k, if id == k.id then Over else l)
  {
  }

  lemma EndedLives(s: State, k: Leg, l: Life, id: nat)
    requires Lives(s, k, l) && id in s.loops
    ensures Lives(Ended(s, id), k, if id == k.id then Over else l)
    ensures Lives(Lost(WithoutLoop(s, id), s.loops[id].trunk), k, if id == k.id then Over else l)
  {
    hide Released, Lives, WithoutLoop;
    var w, m := WithoutLoop(s, id), if id == k.id then Over else l;
    WithoutLives(s, k, l, id);
    ReleasedKeeps(w, s.loops[id].trunk);
    CountsAside(w, Ended(s, id), k, m);
    CountsAside(w, Lost(w, s.loops[id].trunk), k, m);
  }

  lemma MarkedLives(s: State, k: Leg, l: Life, id: nat)
    requires Lives(s, k, l) && id in s.loops
    ensures Lives(s.(loops := s.loops[id := s.loops[id].(sent := true)]), k,
                  if id == k.id then Ringing(true, s.loops[id].cancelled) else l)
  {
  }

  lemma SentLives(s: State, k: Leg, l: Life, id: nat, ok: bool)
    requires Lives(s, k, l) && !s.crashed
    ensures var e := RequestSent(id, ok); Lives(Step(s, e), k, Next(k, l, e))
  {
    hide Ended, Own;
    if id in s.loops {
      EndedLives(s, k, l, id);
      MarkedLives(s, k, l, id);
    }
  }

  lemma StoredLives(s: State, k: Leg, l: Life, c: Store.Call)
    requires Lives(s, k, l) && c.alice != k.alice
    ensures Lives(s.(index := Store.Stored(s.index, c)), k, l)
  {
  }

  lemma TimerLives(s: State, k: Leg, l: Life, id: nat, t: Timer)
    requires Lives(s, k, l) && id != k.id && t.callId != k.alice
    ensures Lives(s.(timers := s.timers[id := t]), k, l)
  {
  }

  lemma EstablishedLives(s: State, k: Leg, l: Life, id: nat)
    requires Lives(s, k, l) && id in s.loops
    ensures Lives(Established(s, id), k, if id == k.id then Talking else l)
  {
    if id != k.id {
      hide Lives, WithoutLoop;
      var loop := s.loops[id];
      assert loop.alice != k.alice by { OthersDiffer(s, k, l, id); }
      var w := WithoutLoop(s, id);
      WithoutLives(s, k, l, id);
      var c := Store.Call(loop.alice, loop.bob, loop.trunk);
      StoredLives(w, k, l, c);
      if loop.timed { TimerLives(w.(index := Store.Stored(s.index, c)), k, l, id, Timer(loop.alice, loop.trunk)); }
      assert w.timers == s.timers by { TimersAside(s, id); }
    }
  }

  lemma TimersAside(s: State, id: nat)
    requires id in s.loops
    ensures WithoutLoop(s, id).timers == s.timers
  {
  }

  lemma OthersDiffer(s: State, k: Leg, l: Life, id: nat)
    requires Lives(s, k, l) && id in s.loops && id != k.id
    ensures s.loops[id].alice != k.alice
  {
  }

  lemma ResponseLives(s: State, k: Leg, l: Life, id: nat, status: int, answer: Answer)
    requires Lives(s, k, l) && !s.crashed
    ensures var e := Response(id, status, answer); Lives(Step(s, e), k, Next(k, l, e))
  {
    hide Ended, Lost, WithoutLoop, Established, Own;
    if id in s.loops {
      EndedLives(s, k, l, id);
      EstablishedLives(s, k, l, id);
    }
  }

  lemma EndsLives(s: State, k: Leg, l: Life, id: nat)
    requires Lives(s, k, l) && !s.crashed
    ensures Lives(Step(s, Aborted(id)), k, Next(k, l, Aborted(id)))
    ensures Lives(Step(s, TimedOut(id)), k, Next(k, l, TimedOut(id)))
  {
    hide Ended, Own;
    if id in s.loops { EndedLives(s, k, l, id); }
  }

  lemma EnteredLives(s: State, k: Leg, l: Life, loop: Loop)
    requires Lives(s, k, l) && loop.alice !in s.alices && s.next !in s.loops
    ensures Lives(Entered(s, loop), k, l)
  {
  }

  lemma InviteLives(s: State, k: Leg, l: Life, e: Event)
    requires Lives(s, k, l) && Ids(s) && Allowed(s, e) && e.Invite?
    ensures Lives(OnInvite(s, e), k, l)
  {
    hide Ids, Released, Acquired, Lives, Entered;
    var a := Acquired(s, e.trunk);
    AcquiredKeeps(s, e.trunk);
    CountsAside(s, a, k, l);
    match e.setup
    case NoOffer => CountsAside(a, Lost(a, e.trunk).(crashed := true), k, l);
    case Proceeds(timed) =>
      assert s.next !in s.loops by { NextUnused(s); }
      EnteredLives(a, k, l, Loop(e.trunk, e.alice, e.bob, false, false, timed));
    case _ =>
      ReleasedKeeps(a, e.trunk);
      CountsAside(a, Released(a, e.trunk), k, l);
  }

  lemma NextUnused(s: State)
    requires Ids(s)
    ensures s.next !in s.loops && s.next !in s.timers
  {
    assert s.next in s.loops ==> LoopOk(s, s.next, s.loops[s.next]);
    assert s.next in s.timers ==> TimerOk(s, s.next, s.timers[s.next]);
  }

  lemma AcquiredKeeps(s: State, t: string)
    ensures var r := Acquired(s, t); r == s.(active := r.active)
  {
  }

  lemma InternalLives(s: State, k: Leg, l: Life, alice: string, bob: string)
    requires Lives(s, k, l) && FreshIds(s, alice, bob) && !s.crashed
    ensures Lives(Step(s, Internal(alice, bob)), k, l)
  {
  }

  /** A call leaves the index, and with it perhaps a timer of its own. */
  lemma RemovedLives(s: State, k: Leg, l: Life, a: string, id: nat, r: State)
    requires Lives(s, k, l) && a in s.index.calls
    requires r == s.(index := Store.Removed(s.index, a), active := r.active, timers := r.timers)
    requires r.timers == s.timers || (r.timers == s.timers - {id} && (l.Talking? && id == k.id ==> a == k.alice))
    ensures Lives(r, k, if a == k.alice then Over else l)
  {
    assert l.Ringing? ==> a != k.alice;
  }

  lemma ByeLives(s: State, k: Leg, l: Life, callId: string)
    requires Lives(s, k, l) && Ids(s) && !s.crashed
    ensures Lives(Step(s, Bye(callId)), k, Next(k, l, Bye(callId)))
  {
    hide Store.Get, Store.Removed, Own, LoopsOk, TimersOk, Store.Inverse;
    var c := Store.Get(s.index, callId);
    Store.GetIsSearch(s.index, callId);
    if c.Some? {
      var d := s.(index := Store.Removed(s.index, c.value.alice));
      ReleasedKeeps(d, c.value.trunk);
      RemovedLives(s, k, l, c.value.alice, 0, Step(s, Bye(callId)));
      CallerIs(s, k, c.value);
    }
  }

  /** A stored call that carries one of the Call-IDs of k is that of k. */
  lemma CallerIs(s: State, k: Leg, c: Store.Call)
    requires Ids(s) && Own(s, k) && c.alice in s.index.calls && s.index.calls[c.alice] == c
    ensures c.alice == k.bob || c.bob == k.alice ==> false
    ensures k.alice in s.index.calls && s.index.calls[k.alice].bob == k.bob && c.bob == k.bob ==> c.alice == k.alice
  {
  }

  lemma SessionLives(s: State, k: Leg, l: Life, id: nat)
    requires Lives(s, k, l) && Ids(s) && !s.crashed
    ensures Lives(Step(s, SessionExpires(id)), k, Next(k, l, SessionExpires(id)))
  {
    hide Store.Get, Store.Removed, Ids;
    if id in s.timers {
      var t := s.timers[id];
      var c := Store.Get(s.index, t.callId);
      TimerFindsOwn(s, id);
      TimedFound(s, k, l);
      if c.Some? {
        var r := Step(s, SessionExpires(id));
        var rest := s.(timers := s.timers - {id}, index := Store.Removed(s.index, c.value.alice));
        ReleasedKeeps(rest, t.trunk);
        assert r.timers == s.timers - {id};
        assert c.value.alice == t.callId;
        assert id == k.id && l.Talking? ==> t.callId == k.alice;
        if id == k.id && c.value.alice != k.alice { assert !l.Talking?; }
        RemovedLives(s, k, l, c.value.alice, id, r);
      }
    }
  }

  lemma TimedFound(s: State, k: Leg, l: Life)
    requires LifeIs(s, k, l)
    ensures l.Talking? ==> Store.Get(s.index, k.alice).Some?
  {
  }

  lemma CancelledLives(s: State, k: Leg, l: Life, callId: string, id: nat)
    requires Lives(s, k, l) && callId in s.early && s.early[callId] == id
    ensures var loops := if id in s.loops then s.loops[id := s.loops[id].(cancelled := true)] else s.loops;
      Lives(s.(loops := loops, early := s.early - {callId}), k, Next(k, l, CancelCall(callId)))
  {
  }

  lemma CancelLives(s: State, k: Leg, l: Life, callId: string)
    requires Lives(s, k, l) && Ids(s) && !s.crashed
    ensures Lives(Step(s, CancelCall(callId)), k, Next(k, l, CancelCall(callId)))
  {
    hide Store.Get, Ids, Own;
    BobsKnown(s);
    if callId == k.alice && l.Ringing? {
      assert Store.Get(s.index, k.alice).None? by {
        NotBob(s, k);
        NotFound(s.index, k.alice);
      }
    }
    if callId in s.early { CancelledLives(s, k, l, callId, s.early[callId]); }
    if callId == k.alice && !l.Ringing? { assert callId !in s.early; }
  }

  lemma NotBob(s: State, k: Leg)
    requires Ids(s) && Own(s, k)
    ensures k.alice !in s.index.bobToAlice
  {
    BobsKnown(s);
  }

  lemma NotFound(s: Store.Index, a: string)
    requires a !in s.calls && a !in s.bobToAlice
    ensures Store.Get(s, a).None?
  {
  }

  lemma StepLives(s: State, k: Leg, l: Life, e: Event)
    requires Lives(s, k, l) && Ids(s) && Allowed(s, e) && !s.crashed
    ensures Lives(Step(s, e), k, Next(k, l, e))
  {
    hide Ids, Lives, OnInvite, Ended, Established, OnBye, OnCancel, OnSessionExpires, OnResponse;
    match e
    case Invite(_, _, _, _) => InviteLives(s, k, l, e);
    case RequestSent(id, ok) => SentLives(s, k, l, id, ok);
    case Aborted(id) => EndsLives(s, k, l, id);
    case Response(id, status, answer) => ResponseLives(s, k, l, id, status, answer);
    case TimedOut(id) => EndsLives(s, k, l, id);
    case Internal(alice, bob) => InternalLives(s, k, l, alice, bob);
    case Bye(callId) => ByeLives(s, k, l, callId);
    case CancelCall(callId) => CancelLives(s, k, l, callId);
    case SessionExpires(id) => SessionLives(s, k, l, id);
  }

  // ---- Runs ----

  predicate EarlyBelow(s: State) {
    forall x :: x in s.early ==> s.early[x] < s.next
  }

  /** No loop is registered that was not before. */
  predicate Fewer(s: State, r: State) {
    r.next == s.next && forall x :: x in r.early ==> x in s.early && r.early[x] == s.early[x]
  }

  lemma LoopsFewer(s: State, id: nat)
    requires id in s.loops
    ensures Fewer(s, Ended(s, id)) && Fewer(s, Established(s, id))
    ensures Fewer(s, Lost(WithoutLoop(s, id), s.loops[id].trunk))
  {
    hide Released;
    ReleasedKeeps(WithoutLoop(s, id), s.loops[id].trunk);
  }

  lemma CallsFewer(s: State, callId: string)
    ensures Fewer(s, OnBye(s, callId)) && Fewer(s, OnCancel(s, callId))
  {
    hide Released, Store.Get, Store.Removed;
    var c := Store.Get(s.index, callId);
    if c.Some? { ReleasedKeeps(s.(index := Store.Removed(s.index, c.value.alice)), c.value.trunk); }
  }

  lemma SessionFewer(s: State, id: nat)
    requires id in s.timers
    ensures Fewer(s, OnSessionExpires(s, id))
  {
    hide Released, Store.Get, Store.Removed;
    var t := s.timers[id];
    var c := Store.Get(s.index, t.callId);
    if c.Some? {
      ReleasedKeeps(s.(timers := s.timers - {id}, index := Store.Removed(s.index, c.value.alice)), t.trunk);
    }
  }

  lemma InviteBelow(s: State, e: Event)
    requires EarlyBelow(s) && e.Invite?
    ensures EarlyBelow(OnInvite(s, e))
  {
    hide Acquired, Released, CanAcquire;
    AcquiredKeeps(s, e.trunk);
    ReleasedKeeps(Acquired(s, e.trunk), e.trunk);
  }

  lemma StepBelow(s: State, e: Event)
    requires EarlyBelow(s)
    ensures EarlyBelow(Step(s, e))
  {
    hide OnInvite, Ended, Established, Lost, WithoutLoop, OnBye, OnCancel, OnSessionExpires;
    match e
    case Invite(_, _, _, _) => InviteBelow(s, e);
    case RequestSent(id, _) => if id in s.loops { LoopsFewer(s, id); }
    case Aborted(id) => if id in s.loops { LoopsFewer(s, id); }
    case Response(id, _, _) => if id in s.loops { LoopsFewer(s, id); }
    case TimedOut(id) => if id in s.loops { LoopsFewer(s, id); }
    case Bye(callId) => CallsFewer(s, callId);
    case CancelCall(callId) => CallsFewer(s, callId);
    case SessionExpires(id) => if id in s.timers { SessionFewer(s, id); }
    case Internal(_, _) =>
  }

  /** An INVITE is taken up if and only if its trunk is known and has a channel left; else nothing changes. */
  lemma LifeStarts(s: State, t: string, alice: string, bob: string, timed: bool)
    requires Ids(s) && EarlyBelow(s) && FreshIds(s, alice, bob) && !s.crashed
    ensures var r := Step(s, Invite(t, alice, bob, Proceeds(timed)));
      if t in s.max && (s.max[t] == 0 || At(s.active, t) < s.max[t]) then
        && Lives(r, Leg(s.next, alice, bob, t, timed), Ringing(false, false)) && r.loops.Keys == s.loops.Keys + {s.next}
        && At(r.active, t) == At(s.active, t) + 1
      else r == s
  {
    hide Ids, Acquired, Lives, Entered;
    var a := Acquired(s, t);
    AcquiredKeeps(s, t);
    if t in s.max && (s.max[t] == 0 || At(s.active, t) < s.max[t]) {
      NextUnused(s);
      forall j | j in s.loops ensures s.loops[j].alice != alice { LoopKnown(s, j); }
      forall j | j in s.timers ensures s.timers[j].callId != alice { TimerNamed(s, j); }
      BobsKnown(s);
      RingsAtFirst(a, Loop(t, alice, bob, false, false, timed));
    }
  }

  lemma RingsAtFirst(s: State, l: Loop)
    requires EarlyBelow(s) && s.next !in s.loops && s.next !in s.timers && l.trunk in s.max
    requires l.alice !in s.index.calls && !l.sent && !l.cancelled
    requires forall j :: j in s.loops ==> s.loops[j].alice != l.alice
    requires forall j :: j in s.timers ==> s.timers[j].callId != l.alice
    ensures Lives(Entered(s, l), Leg(s.next, l.alice, l.bob, l.trunk, l.timed), Ringing(false, false))
  {
  }

  lemma LoopKnown(s: State, j: nat)
    requires Ids(s) && j in s.loops
    ensures s.loops[j].alice in s.alices
  {
    assert LoopOk(s, j, s.loops[j]);
  }

  lemma TimerNamed(s: State, j: nat)
    requires Ids(s) && j in s.timers
    ensures s.timers[j].callId in s.alices
  {
    assert TimerOk(s, j, s.timers[j]);
  }

  lemma {:induction false} CrashStays(s: State, es: seq<Event>)
    requires s.crashed
    ensures End(s, es) == s
    decreases |es|
  {
    if es == [] {
    } else {
      CrashStays(s, es[1..]);
    }
  }

  /** Unless the program crashes, the events of a run alone say what becomes of a call. */
  lemma {:induction false} LifeGoesOn(s: State, k: Leg, l: Life, es: seq<Event>)
    requires Inv(s) && Lives(s, k, l) && IsRun(s, es) && !End(s, es).crashed
    ensures Lives(End(s, es), k, LifeAfter(k, l, es))
    decreases |es|
  {
    hide Inv, Lives, Step, Next;
    if es == [] {
    } else {
      if s.crashed { CrashStays(s, es); }
      assert Ids(s) by { IdsOf(s); }
      StepLives(s, k, l, es[0]);
      StepKeeps(s, es[0]);
      LifeGoesOn(Step(s, es[0]), k, Next(k, l, es[0]), es[1..]);
    }
  }

  lemma IdsOf(s: State)
    requires Inv(s)
    ensures Ids(s)
  {
  }

  lemma {:induction false} RunBelow(s: State, es: seq<Event>)
    requires EarlyBelow(s)
    ensures EarlyBelow(End(s, es))
    decreases |es|
  {
    hide Step, EarlyBelow;
    if es == [] {
    } else {
      StepBelow(s, es[0]);
      RunBelow(Step(s, es[0]), es[1..]);
    }
  }

  /**
    * Every trunk call of every run with fresh Call-IDs, from its INVITE on: it has a response loop exactly
    * while it rings, and is stored, as the call between its two legs, exactly while it talks.
    */
  lemma CallExactly(max: map<string, int>, before: seq<Event>, k: Leg, after: seq<Event>)
    requires "" !in max && IsRun(Initial(max), before)
    requires var s := End(Initial(max), before); var e := Invite(k.trunk, k.alice, k.bob, Proceeds(k.timed));
      && !s.crashed && k.id == s.next && FreshIds(s, k.alice, k.bob)
      && k.trunk in s.max && (s.max[k.trunk] == 0 || At(s.active, k.trunk) < s.max[k.trunk])
      && IsRun(Step(s, e), after) && !End(Step(s, e), after).crashed
    ensures var s := End(Initial(max), before); var e := Invite(k.trunk, k.alice, k.bob, Proceeds(k.timed));
      var r := End(Step(s, e), after); var l := LifeAfter(k, Ringing(false, false), after);
      && (k.id in r.loops <==> l.Ringing?)
      && (k.alice in r.index.calls <==> l.Talking?)
      && (l.Talking? ==> r.index.calls[k.alice] == Store.Call(k.alice, k.bob, k.trunk))
  {
    hide Step, Inv, Own, LifeAfter, At, FreshIds, EarlyBelow, Ids;
    var s := End(Initial(max), before);
    var e := Invite(k.trunk, k.alice, k.bob, Proceeds(k.timed));
    InitialInv(max);
    RunKeeps(Initial(max), before);
    assert EarlyBelow(Initial(max)) by { NothingEarly(max); }
    RunBelow(Initial(max), before);
    IdsOf(s);
    LifeStarts(s, k.trunk, k.alice, k.bob, k.timed);
    StepKeeps(s, e);
    LifeGoesOn(Step(s, e), k, Ringing(false, false), after);
  }

  lemma NothingEarly(max: map<string, int>)
    ensures EarlyBelow(Initial(max))
  {
  }

  // ---- CANCEL ----

  function LegOf(id: nat, l: Loop): (k: Leg) {
    Leg(id, l.alice, l.bob, l.trunk, l.timed)
  }

  /** Every loop is a call that rings. */
  predicate AllRing(s: State) {
    EarlyBelow(s) && forall id :: id in s.loops ==>
      Lives(s, LegOf(id, s.loops[id]), Ringing(s.loops[id].sent, s.loops[id].cancelled))
  }

  lemma LegLives(s: State, k: Leg, l: Life)
    requires Lives(s, k, l) && k.id in s.loops
    ensures k == LegOf(k.id, s.loops[k.id]) && l == Ringing(s.loops[k.id].sent, s.loops[k.id].cancelled)
  {
  }

  lemma NewLoops(s: State, e: Event, id: nat)
    requires id in Step(s, e).loops && id !in s.loops
    ensures e.Invite? && e.setup.Proceeds? && id == s.next && !s.crashed
  {
    hide Store.Get, Store.Removed, Store.Stored, Acquired, Released, Lost, Dropped, OnCancel, At;
  }

  lemma AllRingStep(s: State, e: Event)
    requires AllRing(s) && Ids(s) && Allowed(s, e)
    ensures AllRing(Step(s, e))
  {
    hide Ids, Lives, Step, EarlyBelow;
    if s.crashed {
      assert Step(s, e) == s by { CrashedStep(s, e); }
    } else {
      var r := Step(s, e);
      StepBelow(s, e);
      forall id | id in r.loops
        ensures Lives(r, LegOf(id, r.loops[id]), Ringing(r.loops[id].sent, r.loops[id].cancelled))
      {
        if id in s.loops {
          var k, l := LegOf(id, s.loops[id]), Ringing(s.loops[id].sent, s.loops[id].cancelled);
          StepLives(s, k, l, e);
          LegLives(r, k, Next(k, l, e));
        } else {
          NewLoops(s, e, id);
          LifeStarts(s, e.trunk, e.alice, e.bob, e.setup.timed);
          LegLives(r, Leg(s.next, e.alice, e.bob, e.trunk, e.setup.timed), Ringing(false, false));
        }
      }
    }
  }

  lemma CrashedStep(s: State, e: Event)
    requires s.crashed
    ensures Step(s, e) == s
  {
  }

  lemma {:induction false} AllRingRun(s: State, es: seq<Event>)
    requires AllRing(s) && Inv(s) && IsRun(s, es)
    ensures AllRing(End(s, es)) && Inv(End(s, es))
    decreases |es|
  {
    hide AllRing, Inv, Step;
    if es == [] {
    } else {
      IdsOf(s);
      AllRingStep(s, es[0]);
      StepKeeps(s, es[0]);
      AllRingRun(Step(s, es[0]), es[1..]);
    }
  }

  lemma {:induction false} NeverStored(s: State, k: Leg, l: Life, es: seq<Event>)
    requires Inv(s) && Lives(s, k, l) && IsRun(s, es) && (l == Over || (l.Ringing? && l.cancelled))
    ensures k.alice !in End(s, es).index.calls
    decreases |es|
  {
    hide Inv, Step, Own;
    if es == [] {
    } else if s.crashed {
      CrashStays(s, es);
    } else {
      IdsOf(s);
      StepLives(s, k, l, es[0]);
      StepKeeps(s, es[0]);
      NeverStored(Step(s, es[0]), k, Next(k, l, es[0]), es[1..]);
    }
  }

  /**
    * Over every run with fresh Call-IDs: a CANCEL that comes while the response loop of its call is there keeps
    * that call out of the store, at every later point of the run.
    */
  lemma CancelCancels(max: map<string, int>, before: seq<Event>, id: nat, alice: string, after: seq<Event>)
    requires "" !in max && IsRun(Initial(max), before)
    requires var s := End(Initial(max), before);
      id in s.loops && s.loops[id].alice == alice && IsRun(Step(s, CancelCall(alice)), after)
    ensures var s := End(Initial(max), before);
      alice !in End(Step(s, CancelCall(alice)), after).index.calls
  {
    hide Inv, Step, Lives, EarlyBelow;
    var s := End(Initial(max), before);
    InitialInv(max);
    assert AllRing(Initial(max)) by { NothingEarly(max); }
    AllRingRun(Initial(max), before);
    var k, l := LegOf(id, s.loops[id]), Ringing(s.loops[id].sent, s.loops[id].cancelled);
    StepKeeps(s, CancelCall(alice));
    if s.crashed {
      CrashedStep(s, CancelCall(alice));
      CrashStays(s, after);
      assert alice !in s.index.calls by { RingingNotStored(s, k, l); }
    } else {
      IdsOf(s);
      StepLives(s, k, l, CancelCall(alice));
      NeverStored(Step(s, CancelCall(alice)), k, Next(k, l, CancelCall(alice)), after);
    }
  }

  lemma RingingNotStored(s: State, k: Leg, l: Life)
    requires Lives(s, k, l) && l.Ringing?
    ensures k.alice !in s.index.calls
  {
  }

  /** And when that loop leaves, it takes exactly one off the count of its trunk, and nothing is stored or lost. */
  lemma CancelledExit(s: State, e: Event, id: nat)
    requires Inv(s) && id in s.loops && s.loops[id].cancelled && id !in Step(s, e).loops
    ensures var r, t := Step(s, e), s.loops[id].trunk;
      At(r.active, t) == At(s.active, t) - 1 && r.index == s.index && r.lost == s.lost
  {
    hide Ids, Shape, Balanced, OnInvite, OnBye, OnSessionExpires, Established, Lost, WithoutLoop, Ended, OnCancel, At;
    HolderCounted(s, id);
    if e.Invite? || e.Internal? || e.Bye? || e.CancelCall? || e.SessionExpires? { BystanderLoops(s, e, id); }
  }
}
