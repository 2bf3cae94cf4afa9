/** Transactions under an ideal clock: their retransmission counters follow the back-off and stay within ten. */
module TimedTransactions {
  import opened Octets
  import Backoff
  import Server = InviteServer
  import Client

  /** Time passes, or something happens to the transaction. */
  datatype Timed<E> = Wait(until: nat) | Deliver(event: E)

  // ---- INVITE server transaction over an unreliable transport, from the moment it is completed ----

  datatype ServerState = ServerState(tx: Server.Tx, timer: Backoff.State)

  predicate ServerLive(t: Server.Tx) {
    t.phase == Server.Completed && !t.stopped
  }

  /** Timers G and H run exactly when they are due; a callback of a finished transaction does nothing. */
  predicate ServerEnabled(s: ServerState, e: Timed<Server.Event>) {
    match e
    case Wait(until) => Backoff.Enabled(s.timer, Backoff.Wait(until))
    case Deliver(event) =>
      && (event == Server.TimerG && ServerLive(s.tx) ==> Backoff.Enabled(s.timer, Backoff.Repeat))
      && (event == Server.TimerH && ServerLive(s.tx) ==> Backoff.Enabled(s.timer, Backoff.Timeout))
  }

  function ServerStep(s: ServerState, e: Timed<Server.Event>): (r: ServerState) {
    match e
    case Wait(until) => s.(timer := Backoff.Step(s.timer, Backoff.Wait(until)))
    case Deliver(event) =>
      var u := Server.Step(s.tx, event).0;
      var repeats := event == Server.TimerG && ServerLive(s.tx);
      var timer := if repeats then Backoff.Step(s.timer, Backoff.Repeat) else s.timer;
      ServerState(u, if ServerLive(u) then timer else Backoff.Step(timer, Backoff.Halt))
  }

  predicate ServerRun(s: ServerState, es: seq<Timed<Server.Event>>)
    decreases |es|
  {
    es == [] || (ServerEnabled(s, es[0]) && ServerRun(ServerStep(s, es[0]), es[1..]))
  }

  function ServerEnd(s: ServerState, es: seq<Timed<Server.Event>>): (r: ServerState)
    decreases |es|
  {
    if es == [] then s else ServerEnd(ServerStep(s, es[0]), es[1..])
  }

  predicate ServerCoupled(s: ServerState) {
    && Backoff.Inv(s.timer) && s.tx.gCount == s.timer.count && Server.Inv(s.tx)
    && (s.timer.running <==> ServerLive(s.tx))
    && Server.Rank(s.tx.phase) >= 2
  }

  lemma ServerStepKeeps(s: ServerState, e: Timed<Server.Event>)
    requires ServerCoupled(s) && ServerEnabled(s, e)
    ensures ServerCoupled(ServerStep(s, e))
  {
    hide Backoff.Inv, Backoff.Interval;
    match e
    case Wait(until) => Backoff.StepKeeps(s.timer, Backoff.Wait(until));
    case Deliver(event) =>
      Server.StepFacts(s.tx, event);
      var u := Server.Step(s.tx, event).0;
      if event == Server.TimerG && ServerLive(s.tx) {
        Backoff.StepKeeps(s.timer, Backoff.Repeat);
      } else {
        Backoff.StepKeeps(s.timer, Backoff.Halt);
      }
  }

  /** gCount never exceeds ten, so the shift in scheduleTimerG never exceeds 1024 times T1. */
  lemma {:induction false} ServerCounterBounded(s: ServerState, es: seq<Timed<Server.Event>>)
    requires ServerCoupled(s) && ServerRun(s, es)
    ensures var end := ServerEnd(s, es); ServerCoupled(end) && end.tx.gCount <= 10
    ensures ServerEnd(s, es).timer.t1 == s.timer.t1
    ensures Backoff.Shifted(s.timer.t1, ServerEnd(s, es).tx.gCount) <= 1024 * s.timer.t1
    decreases |es|
  {
    hide ServerStep, Backoff.Shifted;
    if es == [] {
      Backoff.CountBound(s.timer);
      Backoff.ShiftBound(s.timer.t1, s.tx.gCount);
    } else {
      ServerStepKeeps(s, es[0]);
      assert ServerStep(s, es[0]).timer.t1 == s.timer.t1 by { ServerKeepsT1(s, es[0]); }
      ServerCounterBounded(ServerStep(s, es[0]), es[1..]);
    }
  }

  lemma ServerKeepsT1(s: ServerState, e: Timed<Server.Event>)
    ensures ServerStep(s, e).timer.t1 == s.timer.t1
  {
    hide Server.Step;
  }

  /** The step into Completed starts the timers. */
  lemma ServerStarts(t: Server.Tx, res: Server.Response, t1: nat, now: nat)
    requires Server.Inv(t) && Server.Early(t.phase) && !t.reliable && !t.stopped && res.status >= 300 && t1 > 0
    ensures ServerCoupled(ServerState(Server.Step(t, Server.Respond(res)).0, Backoff.Started(t1, now)))
    ensures ServerCoupled(ServerState(Server.Step(t, Server.Cancel(false)).0, Backoff.Started(t1, now)))
  {
    Backoff.IntervalIs(t1, 0);
  }

  // ---- Client transaction over an unreliable transport, from its Send on ----

  datatype ClientState = ClientState(tx: Client.Tx, timer: Backoff.State)

  predicate ClientLive(t: Client.Tx) {
    t.phase == Client.Calling && !t.stopped
  }

  /** Timer A is due at its time, or has been given up after a send that failed. */
  predicate ClientEnabled(s: ClientState, e: Timed<Client.Event>) {
    match e
    case Wait(until) => Backoff.Enabled(s.timer, Backoff.Wait(until))
    case Deliver(event) =>
      && (event.TimerA? && ClientLive(s.tx) ==> Backoff.Enabled(s.timer, Backoff.Repeat))
      && (event == Client.TimerB && ClientLive(s.tx) && s.timer.running ==> Backoff.Enabled(s.timer, Backoff.Timeout))
  }

  function ClientStep(s: ClientState, e: Timed<Client.Event>): (r: ClientState) {
    match e
    case Wait(until) => s.(timer := Backoff.Step(s.timer, Backoff.Wait(until)))
    case Deliver(event) =>
      var u := Client.Step(s.tx, event).0;
      var fired := event.TimerA? && ClientLive(s.tx);
      var timer := if fired && event.delivered then Backoff.Step(s.timer, Backoff.Repeat) else s.timer;
      ClientState(u, if ClientLive(u) && !(fired && !event.delivered) then timer else Backoff.Step(timer, Backoff.Halt))
  }

  predicate ClientRun(s: ClientState, es: seq<Timed<Client.Event>>)
    decreases |es|
  {
    es == [] || (ClientEnabled(s, es[0]) && ClientRun(ClientStep(s, es[0]), es[1..]))
  }

  function ClientEnd(s: ClientState, es: seq<Timed<Client.Event>>): (r: ClientState)
    decreases |es|
  {
    if es == [] then s else ClientEnd(ClientStep(s, es[0]), es[1..])
  }

  predicate ClientCoupled(s: ClientState) {
    && Backoff.Inv(s.timer) && s.tx.retxCount == s.timer.count
    && (s.timer.running ==> ClientLive(s.tx))
  }

  lemma ClientStepKeeps(s: ClientState, e: Timed<Client.Event>)
    requires ClientCoupled(s) && ClientEnabled(s, e)
    ensures ClientCoupled(ClientStep(s, e))
  {
    hide Backoff.Inv, Backoff.Interval;
    match e
    case Wait(until) => Backoff.StepKeeps(s.timer, Backoff.Wait(until));
    case Deliver(event) =>
      Client.StepFacts(s.tx, event);
      if event.TimerA? && ClientLive(s.tx) && event.delivered {
        Backoff.StepKeeps(s.timer, Backoff.Repeat);
      } else {
        Backoff.StepKeeps(s.timer, Backoff.Halt);
      }
  }

  /** retxCount never exceeds ten. */
  lemma {:induction false} ClientCounterBounded(s: ClientState, es: seq<Timed<Client.Event>>)
    requires ClientCoupled(s) && ClientRun(s, es)
    ensures var end := ClientEnd(s, es); ClientCoupled(end) && end.tx.retxCount <= 10
    ensures ClientEnd(s, es).timer.t1 == s.timer.t1
    ensures Backoff.Shifted(s.timer.t1, ClientEnd(s, es).tx.retxCount) <= 1024 * s.timer.t1
    decreases |es|
  {
    hide ClientStep, Backoff.Shifted;
    if es == [] {
      Backoff.CountBound(s.timer);
      Backoff.ShiftBound(s.timer.t1, s.tx.retxCount);
    } else {
      ClientStepKeeps(s, es[0]);
      assert ClientStep(s, es[0]).timer.t1 == s.timer.t1 by { ClientKeepsT1(s, es[0]); }
      ClientCounterBounded(ClientStep(s, es[0]), es[1..]);
    }
  }

  lemma ClientKeepsT1(s: ClientState, e: Timed<Client.Event>)
    ensures ClientStep(s, e).timer.t1 == s.timer.t1
  {
    hide Client.Step;
  }

  lemma ClientStarts(invite: bool, t1: nat, now: nat)
    requires t1 > 0
    ensures ClientCoupled(ClientState(Client.New(invite, false), Backoff.Started(t1, now)))
  {
    Backoff.IntervalIs(t1, 0);
  }
}
