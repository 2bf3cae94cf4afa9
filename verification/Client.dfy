/** The client transaction of internal/sip/uac.go (section 17.1.1 of RFC 3261). */
module Client {
  import opened Octets

  datatype Phase = Calling | Proceeding | Completed | Terminated

  function Rank(p: Phase): (n: nat) {
    match p
    case Calling => 0
    case Proceeding => 1
    case Completed => 2
    case Terminated => 3
  }

  datatype Sent = Request | Ack | CancelRequest

  const CAPACITY := 4

  /** queue holds the statuses waiting in the Responses channel. */
  datatype Tx = Tx(phase: Phase, invite: bool, reliable: bool, retxCount: nat, stopped: bool, registered: bool,
                   queue: seq<int>)

  function New(invite: bool, reliable: bool): (t: Tx) {
    Tx(Calling, invite, reliable, 0, false, true, [])
  }

  /**
    * What may happen after Send: responses (matches says that the CSeq method is the transaction's), timer callbacks
    * however late (delivered says whether the transport took the request), a reader taking a response,
    * a CANCEL request, and the two ways of stopping.
    */
  datatype Event =
    | Response(status: int, matches: bool) | TimerA(delivered: bool) | TimerB | TimerD
    | Receive | SendCancel | StopTimers | Cancel

  predicate Early(p: Phase) {
    p == Calling || p == Proceeding
  }

  function Queued(t: Tx, status: int): (r: Tx) {
    if |t.queue| < CAPACITY then t.(queue := t.queue + [status]) else t
  }

  function OnResponse(t: Tx, sc: int): (r: (Tx, seq<Sent>)) {
    if t.phase == Terminated || sc < 100 then (t, [])
    else if sc < 200 then (Queued(if t.phase == Calling then t.(phase := Proceeding) else t, sc), [])
    else if Early(t.phase) then (Queued(t.(phase := Completed), sc), if sc >= 300 && t.invite then [Ack] else [])
    else (Queued(t, sc), [])
  }

  function Ended(t: Tx): (r: Tx) {
    t.(phase := Terminated, registered := false)
  }

  function Step(t: Tx, e: Event): (r: (Tx, seq<Sent>)) {
    match e
    case Response(sc, matches) => if matches then OnResponse(t, sc) else (t, [])
    case TimerA(delivered) =>
      if t.stopped || t.phase != Calling || !delivered then (t, []) else (t.(retxCount := t.retxCount + 1), [Request])
    case TimerB => if t.stopped then (t, []) else (Ended(t), [])
    case TimerD => if t.stopped then (t, []) else (Ended(t), [])
    case Receive => (if t.queue == [] then t else t.(queue := t.queue[1..]), [])
    case SendCancel => (t, if Early(t.phase) then [CancelRequest] else [])
    case StopTimers => (t.(stopped := true), [])
    case Cancel => (Ended(t.(stopped := true)), [])
  }

  function Run(t: Tx, es: seq<Event>): (r: (Tx, seq<Sent>))
    decreases |es|
  {
    if es == [] then (t, [])
    else
      var (u, out) := Step(t, es[0]);
      var (v, more) := Run(u, es[1..]);
      (v, out + more)
  }

  lemma StepFacts(t: Tx, e: Event)
    ensures var (u, out) := Step(t, e);
      && Rank(t.phase) <= Rank(u.phase) && u.invite == t.invite
      && (Request in out ==> t.phase == Calling)
      && (|t.queue| <= CAPACITY ==> |u.queue| <= CAPACITY)
      && |out| <= 1
  {
  }

  /** The rank of the phase never decreases and the channel never holds more than it can. */
  lemma {:induction false} RankNeverDecreases(t: Tx, es: seq<Event>)
    ensures Rank(t.phase) <= Rank(Run(t, es).0.phase)
    ensures |t.queue| <= CAPACITY ==> |Run(t, es).0.queue| <= CAPACITY
    decreases |es|
  {
    hide Step;
    if es == [] {
    } else {
      StepFacts(t, es[0]);
      RankNeverDecreases(Step(t, es[0]).0, es[1..]);
    }
  }

  lemma {:induction false} NotRepeatedLater(t: Tx, es: seq<Event>)
    requires t.phase != Calling
    ensures Request !in Run(t, es).1
    decreases |es|
  {
    hide Step;
    if es == [] {
    } else {
      StepFacts(t, es[0]);
      NotRepeatedLater(Step(t, es[0]).0, es[1..]);
    }
  }

  /** Once a matching response of any class has come in, the request is never sent again. */
  lemma NotRepeatedAfterResponse(t: Tx, before: seq<Event>, sc: int, after: seq<Event>)
    requires sc >= 100
    ensures Request !in Run(Step(Run(t, before).0, Response(sc, true)).0, after).1
  {
    NotRepeatedLater(Step(Run(t, before).0, Response(sc, true)).0, after);
  }

  function Acks(sent: seq<Sent>): (n: nat) {
    if sent == [] then 0 else (if sent[0] == Ack then 1 else 0) + Acks(sent[1..])
  }

  lemma {:induction false} AcksAppend(a: seq<Sent>, b: seq<Sent>)
    ensures Acks(a + b) == Acks(a) + Acks(b)
  {
    if a == [] {
      assert a + b == b;
    } else {
      assert (a + b)[1..] == a[1..] + b;
      AcksAppend(a[1..], b);
    }
  }

  /** Events that end a transaction without a final response. */
  predicate EndsEarly(e: Event, stopped: bool) {
    e == Cancel || (!stopped && (e == TimerB || e == TimerD))
  }

  /** The first final response to arrive before the transaction ends otherwise. */
  function FirstFinal(es: seq<Event>, stopped: bool): (r: Option<int>)
    decreases |es|
  {
    if es == [] || EndsEarly(es[0], stopped) then None
    else if FinalResponse(es[0]) then Some(es[0].status)
    else FirstFinal(es[1..], stopped || es[0] == StopTimers)
  }

  lemma {:induction false} NoAckLater(t: Tx, es: seq<Event>)
    requires Rank(t.phase) >= 2
    ensures Acks(Run(t, es).1) == 0
    decreases |es|
  {
    if es == [] {
    } else {
      var (u, out) := Step(t, es[0]);
      NoAckLater(u, es[1..]);
      AcksAppend(out, Run(u, es[1..]).1);
    }
  }

  predicate FinalResponse(e: Event) {
    e.Response? && e.matches && e.status >= 200
  }

  lemma EarlyStep(t: Tx, e: Event)
    requires Early(t.phase)
    ensures var (u, out) := Step(t, e);
      && u.invite == t.invite && |out| <= 1
      && (Early(u.phase) <==> !EndsEarly(e, t.stopped) && !FinalResponse(e))
      && (Early(u.phase) ==> Ack !in out && u.stopped == (t.stopped || e == StopTimers))
      && (EndsEarly(e, t.stopped) ==> out == [])
      && (FinalResponse(e) ==> out == if e.status >= 300 && t.invite then [Ack] else [])
  {
  }

  lemma AcksOfOne(out: seq<Sent>)
    requires |out| <= 1
    ensures Acks(out) == if out == [Ack] then 1 else 0
  {
    assert out != [] ==> out[1..] == [] && out == [out[0]];
  }

  /** One ACK if and only if the request is an INVITE whose first final response is 300 or more; otherwise none. */
  lemma {:induction false} AckExactly(t: Tx, es: seq<Event>)
    requires Early(t.phase)
    ensures var first := FirstFinal(es, t.stopped);
      Acks(Run(t, es).1) == if t.invite && first.Some? && first.value >= 300 then 1 else 0
    decreases |es|
  {
    hide Step, Acks, EndsEarly;
    assert Acks([]) == 0 by { AcksOfOne([]); }
    if es == [] {
    } else {
      var (u, out) := Step(t, es[0]);
      AcksAppend(out, Run(u, es[1..]).1);
      EarlyStep(t, es[0]);
      AcksOfOne(out);
      if Early(u.phase) {
        AckExactly(u, es[1..]);
      } else {
        NoAckLater(u, es[1..]);
      }
    }
  }

  /** The promises for the runs of a transaction whose request was just sent. */
  lemma EveryRun(invite: bool, reliable: bool, es: seq<Event>)
    ensures Acks(Run(New(invite, reliable), es).1) <= 1
    ensures Acks(Run(New(invite, reliable), es).1) == 1 ==>
      invite && FirstFinal(es, false).Some? && FirstFinal(es, false).value >= 300
    ensures |Run(New(invite, reliable), es).0.queue| <= CAPACITY
  {
    AckExactly(New(invite, reliable), es);
    RankNeverDecreases(New(invite, reliable), es);
  }

  /** Over every run a transaction is pending exactly as long as it is not terminated. */
  lemma {:induction false} PendingWhileLive(t: Tx, es: seq<Event>)
    requires t.registered <==> t.phase != Terminated
    ensures var u := Run(t, es).0; u.registered <==> u.phase != Terminated
    decreases |es|
  {
    if es == [] {
    } else {
      PendingWhileLive(Step(t, es[0]).0, es[1..]);
    }
  }

  // ---- The transaction as the program keeps it ----

  class UacManager {
    var pending: map<string, UacTransaction>

    constructor ()
      ensures pending == map[]
    {
      pending := map[];
    }

    method Deregister(branch: string)
      modifies this
      ensures pending == old(pending) - {branch}
    {
      pending := pending - {branch};
    }
  }

  class UacTransaction {
    const manager: UacManager
    const branch: string
    const invite: bool
    const reliable: bool
    var state: Phase
    var retxCount: nat
    var stopped: bool
    var responses: seq<int>
    ghost var sent: seq<Sent>

    ghost predicate Valid()
      reads this, manager
    {
      branch in manager.pending ==> manager.pending[branch] == this
    }

    ghost function Value(): (t: Tx)
      reads this, manager
    {
      Tx(state, invite, reliable, retxCount, stopped, branch in manager.pending, responses)
    }

    /** NewTransaction, then a Send the transport accepts. */
    constructor (m: UacManager, branch: string, invite: bool, reliable: bool)
      requires branch !in m.pending
      modifies m
      ensures manager == m && this.branch == branch
      ensures Valid() && Value() == New(invite, reliable) && sent == [Request]
      ensures m.pending == old(m.pending)[branch := this]
    {
      manager := m;
      this.branch := branch;
      this.invite := invite;
      this.reliable := reliable;
      state := Calling;
      retxCount := 0;
      stopped := false;
      responses := [];
      sent := [Request];
      new;
      m.pending := m.pending[branch := this];
    }

    /** A send on a buffered channel that gives up when the buffer is full. */
    method Offer(status: int)
      modifies this`responses
      ensures responses == if |old(responses)| < CAPACITY then old(responses) + [status] else old(responses)
    {
      if |responses| < CAPACITY { responses := responses + [status]; }
    }

    method HandleResponse(status: int, matches: bool)
      requires Valid()
      modifies this
      ensures Valid() && Value() == Step(old(Value()), Response(status, matches)).0
      ensures sent == old(sent) + Step(old(Value()), Response(status, matches)).1
    {
      if !matches || state == Terminated { return; }
      if 100 <= status < 200 {
        if state == Calling { state := Proceeding; }
        Offer(status);
      } else if 200 <= status < 300 {
        if state == Calling || state == Proceeding { state := Completed; }
        Offer(status);
      } else if status >= 300 {
        if state == Calling || state == Proceeding {
          state := Completed;
          if invite { sent := sent + [Ack]; }
        }
        Offer(status);
      }
    }

    /** Callback of timer A. */
    method TimerAFired(delivered: bool)
      requires Valid()
      modifies this
      ensures Valid() && Value() == Step(old(Value()), TimerA(delivered)).0
      ensures sent == old(sent) + Step(old(Value()), TimerA(delivered)).1
    {
      if stopped || state != Calling || !delivered { return; }
      sent := sent + [Request];
      retxCount := retxCount + 1;
    }

    /** Callback of timers B and D. */
    method EndTimerFired()
      requires Valid()
      modifies this, manager
      ensures Valid() && Value() == Step(old(Value()), TimerB).0 == Step(old(Value()), TimerD).0
      ensures manager.pending - {branch} == old(manager.pending) - {branch}
      ensures sent == old(sent)
    {
      if stopped { return; }
      state := Terminated;
      manager.Deregister(branch);
    }

    method CancelTransaction()
      requires Valid()
      modifies this, manager
      ensures Valid() && Value() == Step(old(Value()), Cancel).0
      ensures manager.pending == old(manager.pending) - {branch}
      ensures sent == old(sent)
    {
      stopped := true;
      state := Terminated;
      manager.Deregister(branch);
    }
  }
}
