/** The INVITE server transaction of internal/sip/transaction.go (sections 9.2 and 17.2.1 of RFC 3261). */
module InviteServer {
  import opened Octets

  datatype Phase = Trying | Proceeding | Completed | Confirmed | Terminated

  function Rank(p: Phase): (n: nat) {
    match p
    case Trying => 0
    case Proceeding => 1
    case Completed => 2
    case Confirmed => 3
    case Terminated => 4
  }

  datatype Response = Response(status: int, text: string)

  datatype Cause = OnRespond | OnTimerG | OnRetransmission | OnCancel

  /** A message handed to the transport: an answer to the INVITE, or to a CANCEL for it. */
  datatype Sent = Sent(forInvite: bool, response: Response, cause: Cause)

  datatype Tx = Tx(phase: Phase, lastResp: Option<Response>, cancelOk: bool, gCount: nat, reliable: bool,
                   stopped: bool)

  function New(reliable: bool): (t: Tx) {
    Tx(Trying, None, false, 0, reliable, false)
  }

  /**
    * The critical sections. A timer callback may run at any point, however late; CANCEL, ACK and a repeated
    * INVITE may reach a transaction that has left the table in the meantime. handled says whether a CANCEL
    * comes with a request handler, which then answers the INVITE through Respond.
    */
  datatype Event =
    | Respond(response: Response) | Ack | Retransmission | Cancel(handled: bool)
    | TimerG | TimerH | TimerI | Stop

  const REQUEST_TERMINATED := Response(487, "Request Terminated")
  const CANCEL_OK := Response(200, "OK")
  const NO_TRANSACTION := Response(481, "Call Leg/Transaction Does Not Exist")

  predicate Early(p: Phase) {
    p == Trying || p == Proceeding
  }

  function Ended(t: Tx): (r: Tx) {
    t.(phase := Terminated)
  }

  /** Completed with res as the response to repeat. */
  function Finished(t: Tx, res: Response): (r: Tx) {
    t.(phase := Completed, lastResp := Some(res), gCount := if t.reliable then t.gCount else 0)
  }

  function OnResponse(t: Tx, res: Response): (r: (Tx, seq<Sent>)) {
    var sc := res.status;
    var out := [Sent(true, res, OnRespond)];
    if t.phase == Terminated || t.phase == Confirmed then (t, [])
    else if 100 <= sc < 200 then
      if !Early(t.phase) then (t, [])
      else if sc == 100 then (t, out)
      else (t.(phase := Proceeding), out)
    else if 200 <= sc < 300 then (Ended(t), out)
    else if sc >= 300 then
      if t.phase == Completed then (t.(lastResp := Some(res)), []) else (Finished(t, res), out)
    else (t, [])
  }

  function OnCancelRequest(t: Tx, handled: bool): (r: (Tx, seq<Sent>)) {
    if Early(t.phase) then
      var ok := Sent(false, CANCEL_OK, OnCancel);
      if handled then (t.(cancelOk := true), [ok])
      else (Finished(t.(cancelOk := true), REQUEST_TERMINATED), [ok, Sent(true, REQUEST_TERMINATED, OnCancel)])
    else if t.phase == Completed && t.cancelOk then (t, [Sent(false, CANCEL_OK, OnCancel)])
    else (t, [Sent(false, NO_TRANSACTION, OnCancel)])
  }

  function Step(t: Tx, e: Event): (r: (Tx, seq<Sent>)) {
    match e
    case Respond(res) => OnResponse(t, res)
    case Ack =>
      if t.phase != Completed then (t, []) else if t.reliable then (Ended(t), []) else (t.(phase := Confirmed), [])
    case Retransmission =>
      (t, if t.phase == Completed && t.lastResp.Some? then [Sent(true, t.lastResp.value, OnRetransmission)] else [])
    case Cancel(handled) => OnCancelRequest(t, handled)
    case TimerG =>
      if t.stopped || t.phase != Completed || t.lastResp.None? then (t, [])
      else (t.(gCount := t.gCount + 1), [Sent(true, t.lastResp.value, OnTimerG)])
    case TimerH => if t.stopped then (t, []) else (Ended(t), [])
    case TimerI => if t.stopped then (t, []) else (Ended(t), [])
    case Stop => (t.(stopped := true), [])
  }

  /** Does the step delete its branch from the table? */
  predicate Deletes(t: Tx, e: Event) {
    match e
    case Respond(res) => t.phase != Terminated && t.phase != Confirmed && 200 <= res.status < 300
    case Ack => t.phase == Completed && t.reliable
    case TimerH => !t.stopped
    case TimerI => !t.stopped
    case _ => false
  }

  /** Does the step start timer H or timer I, whose callbacks end the transaction? */
  predicate Arms(t: Tx, e: Event) {
    match e
    case Respond(res) => Early(t.phase) && res.status >= 300
    case Cancel(handled) => Early(t.phase) && !handled
    case Ack => t.phase == Completed && !t.reliable
    case _ => false
  }

  /** Timer H starts with Completed and timer I with Confirmed, and at no other time. */
  lemma ArmsExactly(t: Tx, e: Event)
    ensures var u := Step(t, e).0; Arms(t, e) <==> u.phase != t.phase && (u.phase == Completed || u.phase == Confirmed)
  {
  }

  function Run(t: Tx, es: seq<Event>): (r: (Tx, seq<Sent>))
    decreases |es|
  {
    if es == [] then (t, [])
    else
      var (u, out) := Step(t, es[0]);
      var (v, more) := Run(u, es[1..]);
      (v, out + more)
  }

  /** Kept by every step: a repeated response is there when needed and is never below 300. */
  predicate Inv(t: Tx) {
    && (t.phase == Completed ==> t.lastResp.Some?)
    && (t.lastResp.Some? ==> t.lastResp.value.status >= 300)
  }

  /** What one step may send, by the phase it starts in. */
  predicate Fitting(t: Tx, x: Sent) {
    && (x.forInvite ==> Rank(t.phase) < 3)
    && (x.forInvite && t.phase == Completed ==> x.response.status >= 200)
    && (x.cause == OnTimerG || x.cause == OnRetransmission ==> x.response.status >= 300)
  }

  lemma StepFacts(t: Tx, e: Event)
    requires Inv(t)
    ensures var (u, out) := Step(t, e);
      && Inv(u) && Rank(t.phase) <= Rank(u.phase)
      && (forall x :: x in out ==> Fitting(t, x))
      && (forall i :: 0 <= i < |out| && out[i].forInvite && out[i].response.status >= 200 ==>
            i == |out| - 1 && Rank(u.phase) >= 2 && (out[i].response.status < 300 ==> u.phase == Terminated))
      && (t.stopped == u.stopped || e == Stop)
  {
  }

  /** The rank of the phase never decreases, over every run. */
  lemma {:induction false} RankNeverDecreases(t: Tx, es: seq<Event>)
    requires Inv(t)
    ensures Inv(Run(t, es).0) && Rank(t.phase) <= Rank(Run(t, es).0.phase)
    decreases |es|
  {
    hide Step;
    if es == [] {
    } else {
      StepFacts(t, es[0]);
      RankNeverDecreases(Step(t, es[0]).0, es[1..]);
    }
  }

  lemma {:induction false} RunAppend(t: Tx, xs: seq<Event>, ys: seq<Event>)
    ensures Run(t, xs + ys).0 == Run(Run(t, xs).0, ys).0
    ensures Run(t, xs + ys).1 == Run(t, xs).1 + Run(Run(t, xs).0, ys).1
    decreases |xs|
  {
    hide Step;
    if xs == [] {
      assert xs + ys == ys;
    } else {
      assert (xs + ys)[1..] == xs[1..] + ys;
      RunAppend(Step(t, xs[0]).0, xs[1..], ys);
    }
  }

  /** From a later phase on, only what fits that phase is sent. */
  lemma {:induction false} LaterSends(t: Tx, es: seq<Event>, x: Sent)
    requires Inv(t) && x in Run(t, es).1
    ensures x.forInvite && Rank(t.phase) >= 2 ==> x.response.status >= 200
    ensures Rank(t.phase) >= 3 ==> !x.forInvite
    ensures x.cause == OnTimerG || x.cause == OnRetransmission ==> x.response.status >= 300
    decreases |es|
  {
    hide Step;
    var (u, out) := Step(t, es[0]);
    StepFacts(t, es[0]);
    if x !in out { LaterSends(u, es[1..], x); }
  }

  /** No provisional after a final response, and nothing at all after a 2xx. */
  predicate Ordered(sent: seq<Sent>) {
    forall i, j :: 0 <= i < j < |sent| && sent[i].forInvite && sent[j].forInvite && sent[i].response.status >= 200 ==>
      sent[i].response.status >= 300 && sent[j].response.status >= 200
  }

  lemma {:induction false} SendsOrdered(t: Tx, es: seq<Event>)
    requires Inv(t)
    ensures Ordered(Run(t, es).1)
    decreases |es|
  {
    hide Step;
    if es == [] {
    } else {
      var (u, out) := Step(t, es[0]);
      var more := Run(u, es[1..]).1;
      StepFacts(t, es[0]);
      SendsOrdered(u, es[1..]);
      var all := out + more;
      forall i, j | 0 <= i < j < |all| && all[i].forInvite && all[j].forInvite && all[i].response.status >= 200
        ensures all[i].response.status >= 300 && all[j].response.status >= 200
      {
        if i < |out| {
          assert all[i] == out[i];
          assert all[j] == more[j - |out|];
          LaterSends(u, es[1..], more[j - |out|]);
        } else {
          assert all[i] == more[i - |out|] && all[j] == more[j - |out|];
        }
      }
    }
  }

  /** Once an ACK has been accepted in Completed, the INVITE is never answered again. */
  lemma SilentAfterAck(t: Tx, before: seq<Event>, after: seq<Event>, x: Sent)
    requires Inv(t) && Run(t, before).0.phase == Completed
    requires x in Run(Step(Run(t, before).0, Ack).0, after).1
    ensures !x.forInvite
  {
    RankNeverDecreases(t, before);
    var u := Run(t, before).0;
    StepFacts(u, Ack);
    LaterSends(Step(u, Ack).0, after, x);
  }

  /** Everything that timer G or a repeated INVITE sends has status 300 or more. */
  lemma RepeatsAreFinal(reliable: bool, es: seq<Event>, x: Sent)
    requires x in Run(New(reliable), es).1 && (x.cause == OnTimerG || x.cause == OnRetransmission)
    ensures x.forInvite ==> x.response.status >= 300
  {
    LaterSends(New(reliable), es, x);
  }

  /** All four promises for the runs of a new transaction. */
  lemma EveryRun(reliable: bool, es: seq<Event>)
    ensures Ordered(Run(New(reliable), es).1)
    ensures forall n :: 0 <= n <= |es| ==>
      Rank(Run(New(reliable), es[..n]).0.phase) <= Rank(Run(New(reliable), es).0.phase)
    ensures forall x :: x in Run(New(reliable), es).1 && (x.cause == OnTimerG || x.cause == OnRetransmission) ==>
      x.response.status >= 300
  {
    hide Step;
    var t := New(reliable);
    SendsOrdered(t, es);
    forall n | 0 <= n <= |es| ensures Rank(Run(t, es[..n]).0.phase) <= Rank(Run(t, es).0.phase) {
      RankNeverDecreases(t, es[..n]);
      RunAppend(t, es[..n], es[n..]);
      assert es == es[..n] + es[n..];
      RankNeverDecreases(Run(t, es[..n]).0, es[n..]);
    }
    forall x | x in Run(t, es).1 && (x.cause == OnTimerG || x.cause == OnRetransmission)
      ensures x.response.status >= 300
    {
      LaterSends(t, es, x);
    }
  }

  // ---- Where the code differs from a stricter reading ----

  /** A second final response is not always suppressed: a 2xx after a non-2xx one goes out and ends the transaction. */
  lemma SecondFinalWitness(reliable: bool)
    ensures var t := Run(New(reliable), [Respond(Response(486, "Busy Here")), Respond(Response(200, "OK"))]);
      |t.1| == 2 && t.1[1].response.status == 200 && t.0.phase == Terminated
  {
    var busy, ok := Response(486, "Busy Here"), Response(200, "OK");
    var es := [Respond(busy), Respond(ok)];
    var t := Step(New(reliable), es[0]).0;
    assert es[1..] == [Respond(ok)] && [Respond(ok)][1..] == [];
    assert Run(t, [Respond(ok)]).1 == [Sent(true, ok, OnRespond)] + [];
  }

  /** A final response to the INVITE that is not a repetition. */
  predicate FirstHand(x: Sent) {
    x.forInvite && x.response.status >= 200 && (x.cause == OnRespond || x.cause == OnCancel)
  }

  function Finals(sent: seq<Sent>): (n: nat) {
    if sent == [] then 0 else (if FirstHand(sent[0]) then 1 else 0) + Finals(sent[1..])
  }

  lemma {:induction false} FinalsAppend(a: seq<Sent>, b: seq<Sent>)
    ensures Finals(a + b) == Finals(a) + Finals(b)
  {
    hide FirstHand;
    if a == [] {
      assert a + b == b;
    } else {
      assert (a + b)[1..] == a[1..] + b;
      FinalsAppend(a[1..], b);
    }
  }

  /** Does a run offer a 2xx to a transaction that has sent another final response and is not acknowledged? */
  predicate LateSuccess(t: Tx, es: seq<Event>)
    decreases |es|
  {
    es != [] &&
    ((t.phase == Completed && es[0].Respond? && 200 <= es[0].response.status < 300)
     || LateSuccess(Step(t, es[0]).0, es[1..]))
  }

  /** What a step adds to the count, by the phase it starts in. */
  lemma StepFinals(t: Tx, e: Event)
    ensures var (u, out) := Step(t, e);
      && (Rank(t.phase) >= 3 ==> Finals(out) == 0 && Rank(u.phase) >= 3)
      && (t.phase == Completed ==>
            Finals(out) == (if e.Respond? && 200 <= e.response.status < 300 then 1 else 0) && Rank(u.phase) >= 2
            && (e.Respond? && 200 <= e.response.status < 300 ==> Rank(u.phase) >= 3))
      && (Early(t.phase) ==> Finals(out) <= 1 && (Early(u.phase) ==> Finals(out) == 0)
                             && (Finals(out) == 0 ==> u.phase != Completed))
  {
    var out := Step(t, e).1;
    assert |out| <= 2;
    assert out != [] ==> Finals(out) == (if FirstHand(out[0]) then 1 else 0) + Finals(out[1..]);
    assert |out| == 2 ==> out[1..] == [out[1]] && out[1..][1..] == [];
    assert |out| == 2 ==> Finals(out[1..]) == if FirstHand(out[1]) then 1 else 0;
    assert |out| == 1 ==> out[1..] == [];
  }

  lemma {:induction false} NoMoreFinals(t: Tx, es: seq<Event>)
    requires Rank(t.phase) >= 3
    ensures Finals(Run(t, es).1) == 0 && !LateSuccess(t, es)
    decreases |es|
  {
    hide Step, Finals;
    assert Finals([]) == 0 by { NoFinals(); }
    if es == [] {
    } else {
      var (u, out) := Step(t, es[0]);
      StepFinals(t, es[0]);
      NoMoreFinals(u, es[1..]);
      FinalsAppend(out, Run(u, es[1..]).1);
    }
  }

  lemma NoFinals()
    ensures Finals([]) == 0
  {
  }

  lemma {:induction false} FinalsAfterCompletion(t: Tx, es: seq<Event>)
    requires t.phase == Completed
    ensures Finals(Run(t, es).1) == if LateSuccess(t, es) then 1 else 0
    decreases |es|
  {
    hide Step, Finals;
    assert Finals([]) == 0 by { NoFinals(); }
    if es == [] {
    } else {
      var (u, out) := Step(t, es[0]);
      StepFinals(t, es[0]);
      FinalsAppend(out, Run(u, es[1..]).1);
      if u.phase == Completed { FinalsAfterCompletion(u, es[1..]); } else { NoMoreFinals(u, es[1..]); }
    }
  }

  /** A run sends at most one final response, repetitions aside, if and only if no 2xx is offered in Completed. */
  lemma {:induction false} OneFinalExactly(t: Tx, es: seq<Event>)
    requires Early(t.phase)
    ensures Finals(Run(t, es).1) <= 1 <==> !LateSuccess(t, es)
    ensures Finals(Run(t, es).1) <= 2
    decreases |es|
  {
    hide Step, Finals;
    assert Finals([]) == 0 by { NoFinals(); }
    if es == [] {
    } else {
      var (u, out) := Step(t, es[0]);
      StepFinals(t, es[0]);
      FinalsAppend(out, Run(u, es[1..]).1);
      if Early(u.phase) {
        OneFinalExactly(u, es[1..]);
      } else if u.phase == Completed {
        FinalsAfterCompletion(u, es[1..]);
      } else {
        NoMoreFinals(u, es[1..]);
      }
    }
  }

  /** The last non-2xx final response offered since t. */
  function LastOffered(before: Option<Response>, es: seq<Event>): (r: Option<Response>)
    decreases |es|
  {
    if es == [] then before
    else LastOffered(if es[0].Respond? && es[0].response.status >= 300 then Some(es[0].response) else before, es[1..])
  }

  /** Timer G repeats the latest non-2xx final response offered, not the one that was first sent. */
  lemma {:induction false} RepeatsLatest(t: Tx, es: seq<Event>)
    requires Inv(t) && t.phase == Completed && Run(t, es).0.phase == Completed
    ensures Run(t, es).0.lastResp == LastOffered(t.lastResp, es)
    decreases |es|
  {
    hide Step;
    if es == [] {
    } else {
      var u := Step(t, es[0]).0;
      StepFacts(t, es[0]);
      RankNeverDecreases(u, es[1..]);
      CompletedKeeps(t, es[0]);
      RepeatsLatest(u, es[1..]);
    }
  }

  lemma CompletedKeeps(t: Tx, e: Event)
    requires t.phase == Completed && Step(t, e).0.phase == Completed
    ensures Step(t, e).0.lastResp ==
      if e.Respond? && e.response.status >= 300 then Some(e.response) else t.lastResp
  {
  }

  function CancelEvents(es: seq<Event>): (n: nat) {
    if es == [] then 0 else (if es[0].Cancel? then 1 else 0) + CancelEvents(es[1..])
  }

  /** What was sent in answer to a CANCEL, in order. */
  function Answers(sent: seq<Sent>): (r: seq<Response>) {
    if sent == [] then []
    else (if sent[0].forInvite then [] else [sent[0].response]) + Answers(sent[1..])
  }

  lemma {:induction false} AnswersAppend(a: seq<Sent>, b: seq<Sent>)
    ensures Answers(a + b) == Answers(a) + Answers(b)
  {
    if a == [] {
      assert a + b == b;
    } else {
      assert (a + b)[1..] == a[1..] + b;
      AnswersAppend(a[1..], b);
    }
  }

  predicate Refuses(t: Tx) {
    Rank(t.phase) >= 3 || (t.phase == Completed && !t.cancelOk)
  }

  lemma StepAnswers(t: Tx, e: Event)
    ensures Answers(Step(t, e).1) == if e.Cancel? then [if Refuses(t) then NO_TRANSACTION else CANCEL_OK] else []
    ensures Refuses(t) ==> Refuses(Step(t, e).0)
  {
    var out := Step(t, e).1;
    assert |out| == 2 ==> out[1..] == [out[1]] && out[1..][1..] == [];
    assert |out| == 2 ==> out[1].forInvite && Answers(out[1..]) == [];
    assert |out| == 1 ==> out[1..] == [];
  }

  /** Refusals come last. */
  predicate RefusedLast(a: seq<Response>, refuses: bool) {
    && (forall i :: 0 <= i < |a| ==> a[i] == NO_TRANSACTION || (a[i] == CANCEL_OK && !refuses))
    && (forall i, j :: 0 <= i < j < |a| && a[i] == NO_TRANSACTION ==> a[j] == NO_TRANSACTION)
  }

  /**
    * Over every run each CANCEL is answered exactly once; the answers are 200 at first and 481 from some point on, and
    * 481 throughout from a transaction that refuses.
    */
  lemma {:induction false} EveryCancelAnswered(t: Tx, es: seq<Event>)
    ensures var a := Answers(Run(t, es).1); |a| == CancelEvents(es) && RefusedLast(a, Refuses(t))
    decreases |es|
  {
    hide Step, Refuses;
    if es == [] {
    } else {
      var (u, out) := Step(t, es[0]);
      StepAnswers(t, es[0]);
      EveryCancelAnswered(u, es[1..]);
      AnswersAppend(out, Run(u, es[1..]).1);
    }
  }
}
