/**
  * The table of server transactions by branch (internal/sip/transaction.go), with branches that come back:
  * deletion goes by branch, whoever is registered under it.
  */
module TransactionTable {
  import opened Octets
  import Ist = InviteServer
  import Nist = NonInviteServer

  datatype Kind = Invite(tx: Ist.Tx) | NonInvite(ntx: Nist.Ntx)

  /**
    * A transaction ever made; armed counts its timers H, I and J that were started and have not run yet. A
    * timer that is stopped stays counted, since its callback may already be waiting for the transaction's lock.
    */
  datatype Slot = Slot(branch: string, kind: Kind, armed: nat)

  /** Transactions in the order in which they were made, and the registered one of each branch. */
  datatype State = State(slots: seq<Slot>, table: map<string, nat>)

  const EMPTY := State([], map[])

  /**
    * A request whose branch was not found registers a new transaction, even if another one did so in the meantime.
    * Take and TakeN are everything that reaches a transaction except the callbacks of its end timers.
    */
  datatype Event =
    | Register(branch: string, kind: Kind)
    | Take(id: nat, event: Ist.Event)
    | TakeN(id: nat, nevent: Nist.Nevent)
    | EndTimer(id: nat)
    | StopAll

  predicate New(k: Kind) {
    match k
    case Invite(tx) => tx == Ist.New(tx.reliable)
    case NonInvite(ntx) => ntx == Nist.NEW
  }

  predicate Live(slot: Slot) {
    match slot.kind
    case Invite(tx) => tx.phase != Ist.Terminated
    case NonInvite(ntx) => ntx.state != Nist.NTerminated
  }

  predicate Stopped(slot: Slot) {
    match slot.kind
    case Invite(tx) => tx.stopped
    case NonInvite(ntx) => ntx.stopped
  }

  predicate In(s: State, id: nat) {
    id < |s.slots| && s.slots[id].branch in s.table && s.table[s.slots[id].branch] == id
  }

  /** Steps that are modelled by EndTimer and StopAll. */
  predicate Plain(e: Ist.Event) {
    e != Ist.TimerH && e != Ist.TimerI && e != Ist.Stop
  }

  predicate PlainN(e: Nist.Nevent) {
    e.NRespond? || e == Nist.NRetransmission
  }

  predicate Takes(s: State, id: nat, e: Ist.Event) {
    id < |s.slots| && s.slots[id].kind.Invite? && Plain(e)
  }

  predicate TakesN(s: State, id: nat, e: Nist.Nevent) {
    id < |s.slots| && s.slots[id].kind.NonInvite? && PlainN(e)
  }

  function Without(t: map<string, nat>, branch: string, gone: bool): (r: map<string, nat>) {
    if gone then t - {branch} else t
  }

  function OnTake(s: State, id: nat, e: Ist.Event): (r: State)
    requires Takes(s, id, e)
  {
    var slot := s.slots[id];
    var tx := slot.kind.tx;
    State(s.slots[id := Slot(slot.branch, Invite(Ist.Step(tx, e).0), slot.armed + if Ist.Arms(tx, e) then 1 else 0)],
          Without(s.table, slot.branch, Ist.Deletes(tx, e)))
  }

  function OnTakeN(s: State, id: nat, e: Nist.Nevent): (r: State)
    requires TakesN(s, id, e)
  {
    var slot := s.slots[id];
    var ntx := slot.kind.ntx;
    var started := if Nist.NArms(ntx, e) then 1 else 0;
    s.(slots := s.slots[id := Slot(slot.branch, NonInvite(Nist.NStep(ntx, e).0), slot.armed + started)])
  }

  function EndedKind(k: Kind): (r: Kind) {
    match k
    case Invite(tx) => Invite(Ist.Step(tx, Ist.TimerH).0)
    case NonInvite(ntx) => NonInvite(Nist.NStep(ntx, Nist.TimerJ).0)
  }

  /** The callback of an end timer, which runs once for each time the timer was started. */
  predicate Fires(s: State, id: nat) {
    id < |s.slots| && s.slots[id].armed > 0
  }

  function OnEndTimer(s: State, id: nat): (r: State)
    requires Fires(s, id)
  {
    var slot := s.slots[id];
    State(s.slots[id := Slot(slot.branch, EndedKind(slot.kind), slot.armed - 1)],
          Without(s.table, slot.branch, !Stopped(slot)))
  }

  function StoppedKind(k: Kind): (r: Kind) {
    match k
    case Invite(tx) => Invite(Ist.Step(tx, Ist.Stop).0)
    case NonInvite(ntx) => NonInvite(Nist.NStep(ntx, Nist.NStop).0)
  }

  function StoppedSlots(s: State): (r: seq<Slot>)
    ensures |r| == |s.slots|
  {
    seq(|s.slots|, id requires 0 <= id < |s.slots| =>
      if In(s, id) then s.slots[id].(kind := StoppedKind(s.slots[id].kind)) else s.slots[id])
  }

  function Step(s: State, e: Event): (r: State) {
    match e
    case Register(branch, kind) => State(s.slots + [Slot(branch, kind, 0)], s.table[branch := |s.slots|])
    case Take(id, event) => if Takes(s, id, event) then OnTake(s, id, event) else s
    case TakeN(id, nevent) => if TakesN(s, id, nevent) then OnTakeN(s, id, nevent) else s
    case EndTimer(id) => if Fires(s, id) then OnEndTimer(s, id) else s
    case StopAll => State(StoppedSlots(s), map[])
  }

  function Run(s: State, es: seq<Event>): (r: State)
    decreases |es|
  {
    if es == [] then s else Run(Step(s, es[0]), es[1..])
  }

  // ---- Each transaction on its own ----

  /** What reaches the INVITE transaction id in a step. */
  function Reaches(s: State, e: Event, id: nat): (r: seq<Ist.Event>)
    requires id < |s.slots|
  {
    match e
    case Take(k, event) => if k == id && Plain(event) then [event] else []
    case EndTimer(k) => if k == id && s.slots[id].armed > 0 then [Ist.TimerH] else []
    case StopAll => if In(s, id) then [Ist.Stop] else []
    case _ => []
  }

  function NReaches(s: State, e: Event, id: nat): (r: seq<Nist.Nevent>)
    requires id < |s.slots|
  {
    match e
    case TakeN(k, event) => if k == id && PlainN(event) then [event] else []
    case EndTimer(k) => if k == id && s.slots[id].armed > 0 then [Nist.TimerJ] else []
    case StopAll => if In(s, id) then [Nist.NStop] else []
    case _ => []
  }

  function AllReach(s: State, es: seq<Event>, id: nat): (r: seq<Ist.Event>)
    requires id < |s.slots|
    decreases |es|
  {
    if es == [] then []
    else
      SlotsStay(s, es[0]);
      Reaches(s, es[0], id) + AllReach(Step(s, es[0]), es[1..], id)
  }

  function AllNReach(s: State, es: seq<Event>, id: nat): (r: seq<Nist.Nevent>)
    requires id < |s.slots|
    decreases |es|
  {
    if es == [] then []
    else
      SlotsStay(s, es[0]);
      NReaches(s, es[0], id) + AllNReach(Step(s, es[0]), es[1..], id)
  }

  lemma SlotSteps(s: State, e: Event, id: nat)
    requires id < |s.slots|
    ensures |s.slots| <= |Step(s, e).slots|
    ensures var k, r := s.slots[id].kind, Step(s, e).slots[id].kind;
      match k
      case Invite(tx) =>
        var es := Reaches(s, e, id); r == Invite(if es == [] then tx else Ist.Step(tx, es[0]).0) && |es| <= 1
      case NonInvite(ntx) =>
        var es := NReaches(s, e, id); r == NonInvite(if es == [] then ntx else Nist.NStep(ntx, es[0]).0) && |es| <= 1
  {
    hide Ist.Step, Nist.NStep, Ist.Deletes, Ist.Arms;
    SlotsStay(s, e);
  }

  lemma IstFew(tx: Ist.Tx, xs: seq<Ist.Event>, ys: seq<Ist.Event>)
    requires |xs| <= 1
    ensures Ist.Run(tx, xs + ys).0 == Ist.Run(if xs == [] then tx else Ist.Step(tx, xs[0]).0, ys).0
  {
    hide Ist.Step;
    if xs == [] {
      assert xs + ys == ys;
    } else {
      assert (xs + ys)[0] == xs[0] && (xs + ys)[1..] == ys;
    }
  }

  lemma NistFew(ntx: Nist.Ntx, xs: seq<Nist.Nevent>, ys: seq<Nist.Nevent>)
    requires |xs| <= 1
    ensures Nist.NRun(ntx, xs + ys).0 == Nist.NRun(if xs == [] then ntx else Nist.NStep(ntx, xs[0]).0, ys).0
  {
    hide Nist.NStep;
    if xs == [] {
      assert xs + ys == ys;
    } else {
      assert (xs + ys)[0] == xs[0] && (xs + ys)[1..] == ys;
    }
  }

  /** Over every run of the table each transaction runs on what reaches it, as if it were alone. */
  lemma {:induction false} EachOnItsOwn(s: State, es: seq<Event>, id: nat)
    requires id < |s.slots|
    ensures id < |Run(s, es).slots|
    ensures var r := Run(s, es).slots[id].kind;
      match s.slots[id].kind
      case Invite(tx) => r == Invite(Ist.Run(tx, AllReach(s, es, id)).0)
      case NonInvite(ntx) => r == NonInvite(Nist.NRun(ntx, AllNReach(s, es, id)).0)
    decreases |es|
  {
    hide Step, Reaches, NReaches, Ist.Step, Nist.NStep;
    if es == [] {
    } else {
      var t := Step(s, es[0]);
      SlotSteps(s, es[0], id);
      EachOnItsOwn(t, es[1..], id);
      match s.slots[id].kind
      case Invite(tx) => IstFew(tx, Reaches(s, es[0], id), AllReach(t, es[1..], id));
      case NonInvite(ntx) => NistFew(ntx, NReaches(s, es[0], id), AllNReach(t, es[1..], id));
    }
  }

  /** Does a step start an end timer of a transaction? Completed and Confirmed start one, and a final response does. */
  predicate StartsTimer(s: State, e: Event, id: nat)
    requires id < |s.slots|
  {
    match s.slots[id].kind
    case Invite(tx) =>
      && e.Take? && e.id == id && Plain(e.event)
      && var p := Ist.Step(tx, e.event).0.phase;
      p != tx.phase && (p == Ist.Completed || p == Ist.Confirmed)
    case NonInvite(ntx) =>
      && e.TakeN? && e.id == id && e.nevent.NRespond?
      && exists x :: x in Nist.NStep(ntx, e.nevent).1 && x.status >= 200
  }

  /** Timers that were started and have not run yet. */
  lemma TimersCounted(s: State, e: Event, id: nat)
    requires id < |s.slots|
    ensures |s.slots| <= |Step(s, e).slots|
    ensures Step(s, e).slots[id].armed == s.slots[id].armed + (if StartsTimer(s, e, id) then 1 else 0)
      - if e == EndTimer(id) && s.slots[id].armed > 0 then 1 else 0
  {
    hide Ist.Step, Nist.NStep, Ist.Deletes, Ist.Arms, Nist.NArms;
    SlotsStay(s, e);
    match s.slots[id].kind
    case Invite(tx) => if e.Take? { Ist.ArmsExactly(tx, e.event); }
    case NonInvite(ntx) => if e.TakeN? { Nist.NArmsExactly(ntx, e.nevent); }
  }

  // ---- When a live transaction is not in the table ----

  /** Another transaction of its branch is registered or deletes the branch, or all are stopped. */
  predicate Disturbs(s: State, e: Event, id: nat)
    requires id < |s.slots|
  {
    var branch := s.slots[id].branch;
    match e
    case Register(b, _) => b == branch
    case Take(k, event) =>
      Takes(s, k, event) && k != id && s.slots[k].branch == branch && Ist.Deletes(s.slots[k].kind.tx, event)
    case TakeN(_, _) => false
    case EndTimer(k) => Fires(s, k) && k != id && s.slots[k].branch == branch && !Stopped(s.slots[k])
    case StopAll => true
  }

  predicate Disturbed(s: State, es: seq<Event>, id: nat)
    requires id < |s.slots|
    decreases |es|
  {
    es != [] && (Disturbs(s, es[0], id) || (SlotsStay(s, es[0]); Disturbed(Step(s, es[0]), es[1..], id)))
  }

  lemma SlotsStay(s: State, e: Event)
    ensures |s.slots| <= |Step(s, e).slots|
    ensures forall id :: 0 <= id < |s.slots| ==> Step(s, e).slots[id].branch == s.slots[id].branch
  {
    hide Ist.Step, Nist.NStep;
  }

  lemma {:induction false} RunStays(s: State, es: seq<Event>)
    ensures |s.slots| <= |Run(s, es).slots|
    ensures forall id :: 0 <= id < |s.slots| ==> Run(s, es).slots[id].branch == s.slots[id].branch
    decreases |es|
  {
    hide Step;
    if es == [] {
    } else {
      SlotsStay(s, es[0]);
      RunStays(Step(s, es[0]), es[1..]);
    }
  }

  /** A table entry always names an existing transaction. */
  predicate Bounded(s: State) {
    forall b :: b in s.table ==> s.table[b] < |s.slots|
  }

  lemma StepOut(s: State, e: Event, id: nat)
    requires Bounded(s) && id < |s.slots| && !In(s, id)
    ensures Bounded(Step(s, e)) && id < |Step(s, e).slots| && !In(Step(s, e), id)
  {
    hide Ist.Step, Nist.NStep;
    SlotsStay(s, e);
  }

  lemma {:induction false} NeverBack(s: State, es: seq<Event>, id: nat)
    requires Bounded(s) && id < |s.slots| && !In(s, id)
    ensures !In(Run(s, es), id)
    decreases |es|
  {
    hide Step, In, Bounded;
    if es == [] {
    } else {
      StepOut(s, es[0], id);
      NeverBack(Step(s, es[0]), es[1..], id);
    }
  }

  lemma KindEnds(k: Kind, e: Ist.Event, n: Nist.Nevent)
    ensures k.Invite? && k.tx.phase == Ist.Terminated ==> Ist.Step(k.tx, e).0.phase == Ist.Terminated
    ensures k.NonInvite? && k.ntx.state == Nist.NTerminated ==> Nist.NStep(k.ntx, n).0.state == Nist.NTerminated
    ensures k.Invite? && k.tx.phase != Ist.Terminated && Plain(e) ==>
      (Ist.Step(k.tx, e).0.phase == Ist.Terminated <==> Ist.Deletes(k.tx, e))
    ensures k.NonInvite? && k.ntx.state != Nist.NTerminated && PlainN(n) ==>
      Nist.NStep(k.ntx, n).0.state != Nist.NTerminated
  {
  }

  lemma StepDead(s: State, e: Event, id: nat)
    requires id < |s.slots| && !Live(s.slots[id])
    ensures id < |Step(s, e).slots| && !Live(Step(s, e).slots[id])
  {
    hide Ist.Step, Nist.NStep, Ist.Deletes, Ist.Arms;
    var k := s.slots[id].kind;
    match e
    case Take(_, event) => KindEnds(k, event, Nist.NStop);
    case TakeN(_, nevent) => KindEnds(k, Ist.Stop, nevent);
    case EndTimer(_) => KindEnds(k, Ist.TimerH, Nist.TimerJ);
    case StopAll => KindEnds(k, Ist.Stop, Nist.NStop);
    case _ =>
  }

  lemma {:induction false} DeadStays(s: State, es: seq<Event>, id: nat)
    requires id < |s.slots| && !Live(s.slots[id])
    ensures id < |Run(s, es).slots| && !Live(Run(s, es).slots[id])
    decreases |es|
  {
    hide Step, Live;
    if es == [] {
    } else {
      StepDead(s, es[0], id);
      DeadStays(Step(s, es[0]), es[1..], id);
    }
  }

  /** One step of a registered live transaction: it stays registered exactly if it stays live and is not disturbed. */
  lemma StepIn(s: State, e: Event, id: nat)
    requires Bounded(s) && In(s, id) && Live(s.slots[id])
    ensures Bounded(Step(s, e)) && id < |Step(s, e).slots|
    ensures In(Step(s, e), id) <==> Live(Step(s, e).slots[id]) && !Disturbs(s, e, id)
  {
    hide Ist.Step, Nist.NStep, Ist.Deletes, Ist.Arms;
    SlotsStay(s, e);
    var k := s.slots[id].kind;
    match e
    case Take(_, event) => KindEnds(k, event, Nist.NStop);
    case TakeN(_, nevent) => KindEnds(k, Ist.Stop, nevent);
    case EndTimer(_) => EndedDead(s.slots[id]);
    case _ =>
  }

  lemma EndedDead(slot: Slot)
    ensures Stopped(slot) ==> EndedKind(slot.kind) == slot.kind
    ensures !Stopped(slot) ==> !Live(slot.(kind := EndedKind(slot.kind)))
  {
  }

  /**
    * A transaction that is registered is in the table at the end of a run if and only if it is still live and no other
    * transaction of its branch was registered or deleted the branch in between.
    */
  lemma {:induction false} RegisteredExactly(s: State, es: seq<Event>, id: nat)
    requires Bounded(s) && In(s, id) && Live(s.slots[id])
    ensures id < |Run(s, es).slots|
    ensures In(Run(s, es), id) <==> Live(Run(s, es).slots[id]) && !Disturbed(s, es, id)
    decreases |es|
  {
    hide Step, Live, In, Bounded, Disturbs;
    RunStays(s, es);
    assert id < |s.slots| by { InBound(s, id); }
    if es == [] {
    } else {
      var t := Step(s, es[0]);
      StepIn(s, es[0], id);
      RunStays(t, es[1..]);
      if In(t, id) {
        RegisteredExactly(t, es[1..], id);
      } else {
        NeverBack(t, es[1..], id);
        if !Live(t.slots[id]) { DeadStays(t, es[1..], id); }
      }
    }
  }

  lemma {:induction false} RunBounded(s: State, es: seq<Event>)
    requires Bounded(s)
    ensures Bounded(Run(s, es))
    decreases |es|
  {
    hide Step, Bounded;
    if es == [] {
    } else {
      StepBounded(s, es[0]);
      RunBounded(Step(s, es[0]), es[1..]);
    }
  }

  lemma StepBounded(s: State, e: Event)
    requires Bounded(s)
    ensures Bounded(Step(s, e))
  {
    hide Ist.Step, Nist.NStep;
  }

  /** The same for every transaction that is made in a run of the whole table. */
  lemma EveryRegistration(before: seq<Event>, branch: string, kind: Kind, after: seq<Event>)
    requires New(kind)
    ensures var s := Step(Run(EMPTY, before), Register(branch, kind));
      var id := |s.slots| - 1;
      id >= 0 && id < |Run(s, after).slots|
      && (In(Run(s, after), id) <==> Live(Run(s, after).slots[id]) && !Disturbed(s, after, id))
  {
    hide Run, Disturbed;
    assert Bounded(Run(EMPTY, before)) by { RunBounded(EMPTY, before); }
    var s := Step(Run(EMPTY, before), Register(branch, kind));
    StepBounded(Run(EMPTY, before), Register(branch, kind));
    RegisteredExactly(s, after, |s.slots| - 1);
  }

  lemma InBound(s: State, id: nat)
    requires In(s, id)
    ensures id < |s.slots|
  {
  }

  lemma {:induction false} OwnBranch(s: State, es: seq<Event>, id: nat)
    requires id < |s.slots| && StopAll !in es
    requires forall k :: 0 <= k < |Run(s, es).slots| && k != id ==> Run(s, es).slots[k].branch != s.slots[id].branch
    ensures !Disturbed(s, es, id)
    decreases |es|
  {
    hide Step, Ist.Deletes, Takes, TakesN, Fires, Stopped;
    if es == [] {
    } else {
      var t := Step(s, es[0]);
      SlotsStay(s, es[0]);
      RunStays(t, es[1..]);
      assert es[0] in es;
      assert es[0].Register? ==> |t.slots| == |s.slots| + 1 && t.slots[|s.slots|].branch == es[0].branch by {
        RegisterAdds(s, es[0]);
      }
      assert forall k :: 0 <= k < |s.slots| && k != id ==> s.slots[k].branch != s.slots[id].branch by {
        assert forall k :: 0 <= k < |s.slots| ==> Run(s, es).slots[k].branch == t.slots[k].branch;
      }
      TakesBound(s, es[0]);
      assert Run(s, es) == Run(t, es[1..]) && t.slots[id].branch == s.slots[id].branch;
      assert forall e :: e in es[1..] ==> e in es;
      OwnBranch(t, es[1..], id);
    }
  }

  lemma RegisterAdds(s: State, e: Event)
    ensures e.Register? ==>
      |Step(s, e).slots| == |s.slots| + 1 && Step(s, e).slots[|s.slots|].branch == e.branch
  {
  }

  lemma TakesBound(s: State, e: Event)
    ensures e.Take? && Takes(s, e.id, e.event) ==> e.id < |s.slots|
    ensures e.EndTimer? && Fires(s, e.id) ==> e.id < |s.slots|
  {
  }

  /** With a branch of its own and without Stop, a transaction is in the table exactly while it is not terminated. */
  lemma RegisteredWhileLive(s: State, es: seq<Event>, id: nat)
    requires Bounded(s) && In(s, id) && Live(s.slots[id]) && StopAll !in es
    requires forall k :: 0 <= k < |Run(s, es).slots| && k != id ==> Run(s, es).slots[k].branch != s.slots[id].branch
    ensures id < |Run(s, es).slots| && (In(Run(s, es), id) <==> Live(Run(s, es).slots[id]))
  {
    hide Step, Live, Bounded;
    RegisteredExactly(s, es, id);
    OwnBranch(s, es, id);
  }

  /**
    * A 486, a 200 offered in Completed, the same INVITE again, and then timer H of the first transaction: the
    * second one is live and no longer in the table.
    */
  lemma LateTimerWitness()
    ensures var k := Invite(Ist.New(false));
      var s := Run(EMPTY, [Register("b", k), Take(0, Ist.Respond(Ist.Response(486, "Busy Here"))),
                           Take(0, Ist.Respond(Ist.Response(200, "OK"))), Register("b", k), EndTimer(0)]);
      |s.slots| == 2 && Live(s.slots[1]) && !In(s, 1) && "b" !in s.table
  {
    var k := Invite(Ist.New(false));
    var e1, e2 := Register("b", k), Take(0, Ist.Respond(Ist.Response(486, "Busy Here")));
    var e3, e4, e5 := Take(0, Ist.Respond(Ist.Response(200, "OK"))), Register("b", k), EndTimer(0);
    var s1 := Step(EMPTY, e1);
    assert s1.slots == [Slot("b", k, 0)];
    var s2 := Step(s1, e2);
    assert |s2.slots| == 1 && s2.slots[0].armed == 1 && s2.slots[0].branch == "b";
    assert s2.slots[0].kind.tx.phase == Ist.Completed;
    var s3 := Step(s2, e3);
    assert |s3.slots| == 1 && s3.slots[0].armed == 1 && s3.slots[0].branch == "b" && "b" !in s3.table;
    var s4 := Step(s3, e4);
    var s5 := Step(s4, e5);
    assert s5.slots[1] == Slot("b", k, 0);
    Unroll(EMPTY, e1, e2, e3, e4, e5);
  }

  lemma Unroll(s: State, a: Event, b: Event, c: Event, d: Event, e: Event)
    ensures Run(s, [a, b, c, d, e]) == Step(Step(Step(Step(Step(s, a), b), c), d), e)
  {
    hide Step;
    assert [a, b, c, d, e][1..] == [b, c, d, e] && [b, c, d, e][1..] == [c, d, e];
    assert [c, d, e][1..] == [d, e] && [d, e][1..] == [e] && [e][1..] == [];
    var t := Step(Step(s, a), b);
    assert Run(s, [a, b, c, d, e]) == Run(t, [c, d, e]);
    assert Run(t, [c, d, e]) == Run(Step(Step(t, c), d), [e]);
  }
}
