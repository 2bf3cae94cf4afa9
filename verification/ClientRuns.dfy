/** What a client transaction sends and what its reader gets, read off the events alone (internal/sip/uac.go). */
module ClientRuns {
  import opened Octets
  import opened Client

  predicate Stopped(es: seq<Event>) {
    StopTimers in es || Cancel in es
  }

  /** Cancelled, or timed out while the timers were not stopped. */
  ghost predicate Over(es: seq<Event>) {
    exists i :: 0 <= i < |es| && (es[i] == Cancel || ((es[i] == TimerB || es[i] == TimerD) && !Stopped(es[..i])))
  }

  predicate Matching(e: Event, least: int) {
    e.Response? && e.matches && e.status >= least
  }

  /** A matching response of status least or more has come in time. */
  ghost predicate Heard(es: seq<Event>, least: int) {
    exists i :: 0 <= i < |es| && Matching(es[i], least) && !Over(es[..i])
  }

  ghost function Sends(invite: bool, es: seq<Event>, e: Event): (r: seq<Sent>) {
    match e
    case Response(status, matches) =>
      if invite && matches && status >= 300 && !Over(es) && !Heard(es, 200) then [Ack] else []
    case TimerA(delivered) =>
      if delivered && !Stopped(es) && !Over(es) && !Heard(es, 100) then [Request] else []
    case SendCancel => if !Over(es) && !Heard(es, 200) then [CancelRequest] else []
    case _ => []
  }

  /**
    * The responses that reach the channel, and how many of them the reader has taken. A response that comes
    * while four are waiting is dropped.
    */
  ghost function Arrived(es: seq<Event>): (r: seq<int>)
    decreases |es|, 1
  {
    if es == [] then []
    else
      var n := |es| - 1;
      var before := Arrived(es[..n]);
      if Matching(es[n], 100) && !Over(es[..n]) && |before| - Taken(es[..n]) < 4 then before + [es[n].status]
      else before
  }

  ghost function Taken(es: seq<Event>): (k: nat)
    decreases |es|, 0
  {
    if es == [] then 0
    else
      var n := |es| - 1;
      Taken(es[..n]) + if es[n] == Receive && Taken(es[..n]) < |Arrived(es[..n])| then 1 else 0
  }

  lemma OverGrows(es: seq<Event>, e: Event)
    ensures Over(es + [e]) <==> Over(es) || e == Cancel || ((e == TimerB || e == TimerD) && !Stopped(es))
  {
    hide Stopped;
    var f, n := es + [e], |es|;
    assert f[n] == e && f[..n] == es;
    forall i | 0 <= i < n ensures f[i] == es[i] && f[..i] == es[..i] {
    }
    if Over(es) {
      var i :| 0 <= i < n && (es[i] == Cancel || ((es[i] == TimerB || es[i] == TimerD) && !Stopped(es[..i])));
      assert f[i] == es[i];
    }
    if e == Cancel || ((e == TimerB || e == TimerD) && !Stopped(es)) { assert f[n] == e; }
  }

  lemma HeardGrows(es: seq<Event>, e: Event, least: int)
    ensures Heard(es + [e], least) <==> Heard(es, least) || (Matching(e, least) && !Over(es))
  {
    hide Over, Matching;
    var f, n := es + [e], |es|;
    assert f[n] == e && f[..n] == es;
    forall i | 0 <= i < n ensures f[i] == es[i] && f[..i] == es[..i] {
    }
    if Heard(es, least) {
      var i :| 0 <= i < n && Matching(es[i], least) && !Over(es[..i]);
      assert f[i] == es[i];
    }
    if Matching(e, least) && !Over(es) { assert f[n] == e; }
  }

  /** The transaction seen through its events. */
  ghost predicate PhaseSeen(t: Tx, es: seq<Event>) {
    && (t.stopped <==> Stopped(es)) && (t.phase == Terminated <==> Over(es))
    && (t.phase == Calling <==> !Over(es) && !Heard(es, 100))
    && (Early(t.phase) <==> !Over(es) && !Heard(es, 200))
  }

  ghost predicate QueueSeen(t: Tx, es: seq<Event>) {
    Taken(es) <= |Arrived(es)| && t.queue == Arrived(es)[Taken(es)..]
  }

  ghost predicate Seen(t: Tx, es: seq<Event>) {
    PhaseSeen(t, es) && QueueSeen(t, es)
  }

  lemma QueueGrows(es: seq<Event>, e: Event)
    ensures var room := |Arrived(es)| - Taken(es) < 4;
      && Arrived(es + [e]) == Arrived(es) + (if Matching(e, 100) && !Over(es) && room then [e.status] else [])
      && Taken(es + [e]) == Taken(es) + if e == Receive && Taken(es) < |Arrived(es)| then 1 else 0
  {
    hide Over;
    assert (es + [e])[..|es|] == es;
    assert Arrived(es) + [] == Arrived(es);
  }

  lemma QueueStep(t: Tx, e: Event)
    ensures var room := |t.queue| < 4;
      Step(t, e).0.queue ==
        if e == Receive then (if t.queue == [] then [] else t.queue[1..])
        else if Matching(e, 100) && t.phase != Terminated && room then t.queue + [e.status]
        else t.queue
  {
  }

  lemma PhaseStep(t: Tx, es: seq<Event>, e: Event)
    requires PhaseSeen(t, es)
    ensures PhaseSeen(Step(t, e).0, es + [e])
  {
    hide Over, Heard;
    OverGrows(es, e);
    HeardGrows(es, e, 100);
    HeardGrows(es, e, 200);
    assert forall x :: x in es + [e] <==> x in es || x == e;
    HeardMore(es);
  }

  lemma StepSeen(t: Tx, es: seq<Event>, e: Event)
    requires Seen(t, es)
    ensures Seen(Step(t, e).0, es + [e])
  {
    hide Over, Heard, Arrived, Taken, Step, Stopped;
    PhaseStep(t, es, e);
    QueueGrows(es, e);
    QueueStep(t, e);
  }

  lemma HeardMore(es: seq<Event>)
    ensures Heard(es, 200) ==> Heard(es, 100)
  {
  }

  lemma {:induction false} RunSnoc(t: Tx, es: seq<Event>, e: Event)
    ensures var (u, out) := Run(t, es); var (v, more) := Step(u, e);
      Run(t, es + [e]) == (v, out + more)
    decreases |es|
  {
    hide Step;
    if es == [] {
      assert es + [e] == [e] && [e][1..] == [];
      assert Step(t, e).1 + [] == Step(t, e).1 == [] + Step(t, e).1;
    } else {
      assert (es + [e])[1..] == es[1..] + [e];
      var (u, out) := Step(t, es[0]);
      RunSnoc(u, es[1..], e);
      var (v, more) := Run(u, es[1..]);
      assert out + (more + Step(v, e).1) == out + more + Step(v, e).1;
    }
  }

  lemma {:induction false} AlwaysSeen(invite: bool, reliable: bool, es: seq<Event>)
    ensures var t := Run(New(invite, reliable), es).0; Seen(t, es) && t.invite == invite
    decreases |es|
  {
    hide Step, Seen;
    if es == [] {
      assert Seen(New(invite, reliable), []) by { SeenAtFirst(invite, reliable); }
    } else {
      var n := |es| - 1;
      AlwaysSeen(invite, reliable, es[..n]);
      assert es == es[..n] + [es[n]];
      RunSnoc(New(invite, reliable), es[..n], es[n]);
      StepSeen(Run(New(invite, reliable), es[..n]).0, es[..n], es[n]);
      StepFacts(Run(New(invite, reliable), es[..n]).0, es[n]);
    }
  }

  lemma SeenAtFirst(invite: bool, reliable: bool)
    ensures Seen(New(invite, reliable), [])
  {
  }

  /** After every run, every event sends exactly what the events so far call for. */
  lemma EverySend(invite: bool, reliable: bool, es: seq<Event>, e: Event)
    ensures Step(Run(New(invite, reliable), es).0, e).1 == Sends(invite, es, e)
  {
    hide Over, Heard, Stopped, Run, Arrived, Taken;
    AlwaysSeen(invite, reliable, es);
  }

  /**
    * The channel holds the responses that reached it and were not taken, oldest first: the reader gets every
    * one of them, once and in the order of arrival.
    */
  lemma ReaderGets(invite: bool, reliable: bool, es: seq<Event>)
    ensures Taken(es) <= |Arrived(es)| <= Taken(es) + 4
    ensures Run(New(invite, reliable), es).0.queue == Arrived(es)[Taken(es)..]
  {
    hide Over, Heard, Stopped, Run, Arrived, Taken;
    AlwaysSeen(invite, reliable, es);
    RankNeverDecreases(New(invite, reliable), es);
  }

  /** A transaction is pending until it is over. */
  lemma PendingExactly(invite: bool, reliable: bool, es: seq<Event>)
    ensures Run(New(invite, reliable), es).0.registered <==> !Over(es)
  {
    hide Over, Heard, Stopped, Run, Arrived, Taken;
    AlwaysSeen(invite, reliable, es);
    PendingWhileLive(New(invite, reliable), es);
  }
}
