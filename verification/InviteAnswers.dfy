/** What an INVITE server transaction sends, read off the events alone (internal/sip/transaction.go). */
module InviteAnswers {
  import opened Octets
  import opened InviteServer

  predicate Provisional(e: Event) { e.Respond? && 100 <= e.response.status < 200 }
  predicate Success(e: Event) { e.Respond? && 200 <= e.response.status < 300 }
  predicate Failure(e: Event) { e.Respond? && e.response.status >= 300 }

  // ---- Answers to the INVITE over a run ----

  /** Timers H and I end a transaction that is not stopped. */
  predicate EndsBy(e: Event, stopped: bool) {
    !stopped && (e == TimerH || e == TimerI)
  }

  /** After a final response other than 2xx: a 2xx, if it comes before an ACK and before any other end. */
  function Late(es: seq<Event>, stopped: bool): (r: seq<Response>)
    decreases |es|
  {
    if es == [] || es[0] == Ack || EndsBy(es[0], stopped) then []
    else if Success(es[0]) then [es[0].response]
    else Late(es[1..], stopped || es[0] == Stop)
  }

  /** The provisional responses offered before the first final one, that final one, and what comes late. */
  function Answers(es: seq<Event>, stopped: bool): (r: seq<Response>)
    decreases |es|
  {
    if es == [] || EndsBy(es[0], stopped) then []
    else if Provisional(es[0]) then [es[0].response] + Answers(es[1..], stopped)
    else if Success(es[0]) then [es[0].response]
    else if Failure(es[0]) then [es[0].response] + Late(es[1..], stopped)
    else if es[0] == Cancel(false) then [Response(487, "Request Terminated")] + Late(es[1..], stopped)
    else Answers(es[1..], stopped || es[0] == Stop)
  }

  predicate DirectOne(x: Sent) {
    x.forInvite && (x.cause == OnRespond || x.cause == OnCancel)
  }

  /** Answers to the INVITE among what was sent, repetitions aside. */
  function Direct(sent: seq<Sent>): (r: seq<Response>) {
    if sent == [] then [] else (if DirectOne(sent[0]) then [sent[0].response] else []) + Direct(sent[1..])
  }

  lemma {:induction false} DirectAppend(a: seq<Sent>, b: seq<Sent>)
    ensures Direct(a + b) == Direct(a) + Direct(b)
  {
    hide DirectOne;
    if a == [] {
      assert a + b == b;
    } else {
      assert (a + b)[0] == a[0] && (a + b)[1..] == a[1..] + b;
      DirectAppend(a[1..], b);
      var first := if DirectOne(a[0]) then [a[0].response] else [];
      assert first + (Direct(a[1..]) + Direct(b)) == first + Direct(a[1..]) + Direct(b);
    }
  }

  lemma DirectFew(sent: seq<Sent>)
    ensures sent == [] ==> Direct(sent) == []
    ensures |sent| == 1 && DirectOne(sent[0]) ==> Direct(sent) == [sent[0].response]
    ensures |sent| == 1 && !DirectOne(sent[0]) ==> Direct(sent) == []
    ensures |sent| == 2 && !sent[0].forInvite ==> Direct(sent) == Direct([sent[1]])
  {
    if |sent| == 1 {
      assert sent[1..] == [];
    } else if |sent| == 2 {
      assert sent[1..] == [sent[1]];
    }
  }

  lemma StepDirect(t: Tx, e: Event)
    ensures var (u, out) := Step(t, e);
      && u.stopped == (t.stopped || e == Stop)
      && (Rank(t.phase) >= 3 ==> Direct(out) == [] && Rank(u.phase) >= 3)
      && (t.phase == Completed ==>
            && Direct(out) == (if Success(e) then [e.response] else [])
            && (u.phase == Completed <==> e != Ack && !EndsBy(e, t.stopped) && !Success(e)) && Rank(u.phase) >= 2)
      && (Early(t.phase) ==>
            && Direct(out) == (if Provisional(e) || Success(e) || Failure(e) then [e.response]
                               else if e == Cancel(false) then [Response(487, "Request Terminated")] else [])
            && (u.phase == Completed <==> Failure(e) || e == Cancel(false))
            && (Rank(u.phase) >= 3 <==> Success(e) || EndsBy(e, t.stopped)))
  {
    hide Direct;
    var out := Step(t, e).1;
    DirectFew(out);
    if |out| == 2 { DirectFew([out[1]]); }
  }

  lemma {:induction false} NothingMore(t: Tx, es: seq<Event>)
    requires Rank(t.phase) >= 3
    ensures Direct(Run(t, es).1) == []
    decreases |es|
  {
    hide Step, Direct;
    DirectFew([]);
    if es == [] {
    } else {
      StepDirect(t, es[0]);
      NothingMore(Step(t, es[0]).0, es[1..]);
      DirectAppend(Step(t, es[0]).1, Run(Step(t, es[0]).0, es[1..]).1);
    }
  }

  lemma {:induction false} LateExactly(t: Tx, es: seq<Event>)
    requires t.phase == Completed
    ensures Direct(Run(t, es).1) == Late(es, t.stopped)
    decreases |es|
  {
    hide Step, Direct;
    DirectFew([]);
    if es == [] {
    } else {
      var (u, out) := Step(t, es[0]);
      StepDirect(t, es[0]);
      DirectAppend(out, Run(u, es[1..]).1);
      if u.phase == Completed {
        LateExactly(u, es[1..]);
      } else {
        NothingMore(u, es[1..]);
        assert Direct(out) + [] == Direct(out);
      }
    }
  }

  /** Every answer that is due goes out, in the order of the offers, and no other. */
  lemma {:induction false} AnswersExactly(t: Tx, es: seq<Event>)
    requires Early(t.phase)
    ensures Direct(Run(t, es).1) == Answers(es, t.stopped)
    decreases |es|
  {
    hide Step, Direct;
    DirectFew([]);
    if es == [] {
    } else {
      var (u, out) := Step(t, es[0]);
      StepDirect(t, es[0]);
      DirectAppend(out, Run(u, es[1..]).1);
      if Early(u.phase) {
        AnswersExactly(u, es[1..]);
      } else if u.phase == Completed {
        LateExactly(u, es[1..]);
      } else {
        NothingMore(u, es[1..]);
      }
    }
  }

  // ---- Everything that is sent, event by event ----

  predicate EndTimer(es: seq<Event>, i: nat)
    requires i < |es|
  {
    (es[i] == TimerH || es[i] == TimerI) && Stop !in es[..i]
  }

  /** The i-th event is a final answer to the INVITE, or ends the transaction without one. */
  predicate Closes(es: seq<Event>, i: nat)
    requires i < |es|
  {
    Success(es[i]) || Failure(es[i]) || es[i] == Cancel(false) || EndTimer(es, i)
  }

  /** No final answer and no other end yet. */
  predicate Open(es: seq<Event>) {
    forall i :: 0 <= i < |es| ==> !Closes(es, i)
  }

  /** The k-th event completed the transaction, and nothing has taken it further since. */
  predicate CompletedAt(es: seq<Event>, k: nat) {
    && k < |es| && Open(es[..k]) && (Failure(es[k]) || es[k] == Cancel(false))
    && forall i :: k < i < |es| ==> es[i] != Ack && !Success(es[i]) && !EndTimer(es, i)
  }

  ghost predicate IsCompleted(es: seq<Event>) {
    exists k: nat :: CompletedAt(es, k)
  }

  /** The latest failure response offered; a CANCEL without handler stands for 487. */
  function Latest(es: seq<Event>): (r: Response) {
    if es == [] then Response(487, "Request Terminated")
    else if Failure(es[|es| - 1]) then es[|es| - 1].response
    else Latest(es[..|es| - 1])
  }

  /** A CANCEL came before or with the final answer. */
  ghost predicate CancelTaken(es: seq<Event>) {
    exists i :: 0 <= i < |es| && es[i].Cancel? && Open(es[..i])
  }

  ghost function Sends(es: seq<Event>, e: Event): (r: seq<Sent>) {
    match e
    case Respond(res) =>
      if (Open(es) && res.status >= 100) || (IsCompleted(es) && 200 <= res.status < 300)
      then [Sent(true, res, OnRespond)] else []
    case Retransmission => if IsCompleted(es) then [Sent(true, Latest(es), OnRetransmission)] else []
    case TimerG => if IsCompleted(es) && Stop !in es then [Sent(true, Latest(es), OnTimerG)] else []
    case Cancel(handled) =>
      if Open(es) then
        [Sent(false, Response(200, "OK"), OnCancel)]
        + if handled then [] else [Sent(true, Response(487, "Request Terminated"), OnCancel)]
      else if IsCompleted(es) && CancelTaken(es) then [Sent(false, Response(200, "OK"), OnCancel)]
      else [Sent(false, Response(481, "Call Leg/Transaction Does Not Exist"), OnCancel)]
    case _ => []
  }

  lemma Prefix(es: seq<Event>, e: Event, i: nat)
    requires i < |es|
    ensures (es + [e])[i] == es[i] && (es + [e])[..i] == es[..i]
    ensures EndTimer(es + [e], i) == EndTimer(es, i) && Closes(es + [e], i) == Closes(es, i)
  {
    assert (es + [e])[..i] == es[..i];
  }

  lemma OpenGrows(es: seq<Event>, e: Event)
    ensures var f := es + [e];
      Open(f) <==>
      Open(es) && !Success(e) && !Failure(e) && e != Cancel(false) && !((e == TimerH || e == TimerI) && Stop !in es)
  {
    var f, n := es + [e], |es|;
    assert f[n] == e && f[..n] == es;
    forall i | 0 <= i < n ensures Closes(f, i) == Closes(es, i) {
      Prefix(es, e, i);
    }
    if Open(f) {
      assert !Closes(f, n);
      forall i | 0 <= i < n ensures !Closes(es, i) {
        assert !Closes(f, i);
      }
    }
  }

  lemma StaysCompleted(es: seq<Event>, e: Event, k: nat)
    requires k < |es|
    ensures CompletedAt(es + [e], k) <==>
      CompletedAt(es, k) && e != Ack && !Success(e) && !((e == TimerH || e == TimerI) && Stop !in es)
  {
    hide Open;
    var f, n := es + [e], |es|;
    assert f[n] == e && f[..n] == es;
    Prefix(es, e, k);
    forall i | k < i < n ensures EndTimer(f, i) == EndTimer(es, i) && f[i] == es[i] {
      Prefix(es, e, i);
    }
    if CompletedAt(f, k) { assert !EndTimer(f, n) && f[n] != Ack && !Success(f[n]); }
  }

  lemma CompletedGrows(es: seq<Event>, e: Event)
    ensures IsCompleted(es + [e]) <==>
      || (IsCompleted(es) && e != Ack && !Success(e) && !((e == TimerH || e == TimerI) && Stop !in es))
      || (Open(es) && (Failure(e) || e == Cancel(false)))
  {
    hide Open;
    var f, n := es + [e], |es|;
    assert f[n] == e && f[..n] == es;
    if k: nat :| CompletedAt(f, k) {
      if k < n { StaysCompleted(es, e, k); }
    }
    if k: nat :| CompletedAt(es, k) { StaysCompleted(es, e, k); }
    if Open(es) && (Failure(e) || e == Cancel(false)) { assert CompletedAt(f, n); }
  }

  lemma CancelGrows(es: seq<Event>, e: Event)
    ensures CancelTaken(es + [e]) <==> CancelTaken(es) || (e.Cancel? && Open(es))
  {
    hide Open;
    var f, n := es + [e], |es|;
    assert f[n] == e && f[..n] == es;
    if i :| 0 <= i < |f| && f[i].Cancel? && Open(f[..i]) {
      if i < n { Prefix(es, e, i); assert es[i].Cancel? && Open(es[..i]); }
    }
    if i :| 0 <= i < n && es[i].Cancel? && Open(es[..i]) {
      Prefix(es, e, i);
      assert f[i].Cancel? && Open(f[..i]);
    }
    if e.Cancel? && Open(es) { assert f[n].Cancel? && Open(f[..n]); }
  }

  lemma LatestGrows(es: seq<Event>, e: Event)
    ensures Latest(es + [e]) == if Failure(e) then e.response else Latest(es)
  {
    assert (es + [e])[..|es|] == es;
  }

  /** Without a failure offered, the latest one is the 487 of a CANCEL. */
  lemma {:induction false} OpenLatest(es: seq<Event>)
    requires Open(es)
    ensures Latest(es) == Response(487, "Request Terminated")
  {
    hide Open;
    if es == [] {
    } else {
      var n := |es| - 1;
      assert es == es[..n] + [es[n]];
      OpenGrows(es[..n], es[n]);
      OpenLatest(es[..n]);
    }
  }

  /** The transaction seen through its events. */
  ghost predicate Seen(t: Tx, es: seq<Event>) {
    && (t.stopped <==> Stop in es) && (Early(t.phase) <==> Open(es)) && (t.phase == Completed <==> IsCompleted(es))
    && (IsCompleted(es) ==> t.lastResp == Some(Latest(es)))
    && (Open(es) || IsCompleted(es) ==> (t.cancelOk <==> CancelTaken(es)))
  }

  lemma NotBoth(es: seq<Event>)
    ensures !(Open(es) && IsCompleted(es))
  {
    if k: nat :| CompletedAt(es, k) { assert Closes(es, k); }
  }

  lemma SeenGrows(t: Tx, es: seq<Event>, e: Event)
    requires Seen(t, es)
    ensures Seen(Step(t, e).0, es + [e])
  {
    hide Open, IsCompleted, CancelTaken, Latest;
    OpenGrows(es, e);
    CompletedGrows(es, e);
    CancelGrows(es, e);
    LatestGrows(es, e);
    NotBoth(es);
    if Open(es) { OpenLatest(es); }
    assert forall x :: x in es + [e] <==> x in es || x == e;
  }

  lemma {:induction false} AlwaysSeen(reliable: bool, es: seq<Event>)
    ensures Seen(Run(New(reliable), es).0, es)
    decreases |es|
  {
    hide Step, Seen;
    if es == [] {
      assert Seen(New(reliable), []) by { SeenAtFirst(reliable); }
    } else {
      var n := |es| - 1;
      AlwaysSeen(reliable, es[..n]);
      assert es == es[..n] + [es[n]];
      RunSnoc(New(reliable), es[..n], es[n]);
      SeenGrows(Run(New(reliable), es[..n]).0, es[..n], es[n]);
    }
  }

  lemma SeenAtFirst(reliable: bool)
    ensures Seen(New(reliable), [])
  {
  }

  lemma RunSnoc(t: Tx, es: seq<Event>, e: Event)
    ensures var (u, out) := Run(t, es); var (v, more) := Step(u, e);
      Run(t, es + [e]) == (v, out + more)
  {
    hide Step;
    RunAppend(t, es, [e]);
    var (u, out) := Run(t, es);
    assert [e][1..] == [];
    assert Step(u, e).1 + [] == Step(u, e).1;
  }

  /** After every run, every event sends exactly what the events so far call for. */
  lemma EverySend(reliable: bool, es: seq<Event>, e: Event)
    ensures Step(Run(New(reliable), es).0, e).1 == Sends(es, e)
  {
    hide Open, IsCompleted, CancelTaken, Latest, Run;
    AlwaysSeen(reliable, es);
    NotBoth(es);
  }

  /** So the whole of what a run sends is a function of its events. */
  ghost function AllSends(es: seq<Event>): (r: seq<Sent>) {
    if es == [] then [] else AllSends(es[..|es| - 1]) + Sends(es[..|es| - 1], es[|es| - 1])
  }

  lemma {:induction false} EveryRunSends(reliable: bool, es: seq<Event>)
    ensures Run(New(reliable), es).1 == AllSends(es)
    decreases |es|
  {
    hide Step, Sends;
    if es == [] {
    } else {
      var n := |es| - 1;
      EveryRunSends(reliable, es[..n]);
      assert es == es[..n] + [es[n]];
      RunSnoc(New(reliable), es[..n], es[n]);
      EverySend(reliable, es[..n], es[n]);
    }
  }

  // ---- Phases ----

  predicate Progress(e: Event) { e.Respond? && 101 <= e.response.status < 200 }

  /** The k-th event is an ACK that was accepted over an unreliable transport, and no end timer has run since. */
  ghost predicate ConfirmedAt(reliable: bool, es: seq<Event>, k: nat) {
    && !reliable && k < |es| && es[k] == Ack && IsCompleted(es[..k])
    && forall i :: k < i < |es| ==> !EndTimer(es, i)
  }

  ghost predicate IsConfirmed(reliable: bool, es: seq<Event>) {
    exists k: nat :: ConfirmedAt(reliable, es, k)
  }

  ghost predicate Progressed(es: seq<Event>) {
    exists e :: e in es && Progress(e)
  }

  ghost function PhaseBy(reliable: bool, es: seq<Event>): (p: Phase) {
    if Open(es) then (if Progressed(es) then Proceeding else Trying)
    else if IsCompleted(es) then Completed
    else if IsConfirmed(reliable, es) then Confirmed
    else Terminated
  }

  lemma ConfirmedGrows(reliable: bool, es: seq<Event>, e: Event)
    ensures IsConfirmed(reliable, es + [e]) <==>
      || (!reliable && e == Ack && IsCompleted(es))
      || (IsConfirmed(reliable, es) && !((e == TimerH || e == TimerI) && Stop !in es))
  {
    hide IsCompleted;
    var f, n := es + [e], |es|;
    assert f[n] == e && f[..n] == es;
    forall i | 0 <= i < n ensures f[i] == es[i] && f[..i] == es[..i] && EndTimer(f, i) == EndTimer(es, i) {
      Prefix(es, e, i);
    }
    if k: nat :| ConfirmedAt(reliable, f, k) {
      if k < n { assert !EndTimer(f, n); assert ConfirmedAt(reliable, es, k); }
    }
    if k: nat :| ConfirmedAt(reliable, es, k) {
      if !((e == TimerH || e == TimerI) && Stop !in es) { assert ConfirmedAt(reliable, f, k); }
    }
    if !reliable && e == Ack && IsCompleted(es) { assert ConfirmedAt(reliable, f, n); }
  }

  lemma ProgressGrows(es: seq<Event>, e: Event)
    ensures Progressed(es + [e]) <==> Progressed(es) || Progress(e)
  {
    assert forall x :: x in es + [e] <==> x in es || x == e;
    if Progress(e) { assert e in es + [e]; }
    if x :| x in es && Progress(x) { assert x in es + [e]; }
  }

  lemma ClosedBefore(es: seq<Event>, j: nat, i: nat)
    requires j < i <= |es| && Closes(es, j)
    ensures !Open(es[..i])
  {
    assert es[..i][..j] == es[..j];
    assert Closes(es[..i], j);
  }

  lemma ConfirmedCloses(reliable: bool, es: seq<Event>, k: nat)
    requires ConfirmedAt(reliable, es, k)
    ensures !Open(es) && forall i: nat :: !CompletedAt(es, i)
  {
    var j: nat :| CompletedAt(es[..k], j);
    assert es[..k][..j] == es[..j];
    assert Closes(es, j);
    forall i: nat ensures !CompletedAt(es, i) {
      if j < i <= |es| {
        ClosedBefore(es, j, i);
      } else {
        assert es[k] == Ack;
      }
    }
  }

  lemma NotYetConfirmed(reliable: bool, es: seq<Event>)
    ensures IsConfirmed(reliable, es) ==> !Open(es) && !IsCompleted(es)
  {
    hide ConfirmedAt, Open;
    if IsConfirmed(reliable, es) {
      var k: nat :| ConfirmedAt(reliable, es, k);
      ConfirmedCloses(reliable, es, k);
    }
  }

  lemma PhaseGrows(t: Tx, es: seq<Event>, e: Event)
    requires Seen(t, es) && t.phase == PhaseBy(t.reliable, es)
    ensures Step(t, e).0.phase == PhaseBy(t.reliable, es + [e])
  {
    hide Open, IsCompleted, CancelTaken, Latest, IsConfirmed, Progressed;
    NotYetConfirmed(t.reliable, es);
    OpenGrows(es, e);
    CompletedGrows(es, e);
    ConfirmedGrows(t.reliable, es, e);
    ProgressGrows(es, e);
    NotBoth(es);
  }

  /** The phase of a transaction is a function of its events. */
  lemma {:induction false} PhaseExactly(reliable: bool, es: seq<Event>)
    ensures var t := Run(New(reliable), es).0; t.phase == PhaseBy(reliable, es) && t.reliable == reliable
    decreases |es|
  {
    hide Step, Seen, PhaseBy;
    if es == [] {
      assert PhaseBy(reliable, []) == Trying by { TryingAtFirst(reliable); }
    } else {
      var n := |es| - 1;
      var t := Run(New(reliable), es[..n]).0;
      PhaseExactly(reliable, es[..n]);
      AlwaysSeen(reliable, es[..n]);
      assert es == es[..n] + [es[n]];
      RunSnoc(New(reliable), es[..n], es[n]);
      PhaseGrows(t, es[..n], es[n]);
      assert Step(t, es[n]).0.reliable == t.reliable by { ReliableStays(t, es[n]); }
    }
  }

  lemma TryingAtFirst(reliable: bool)
    ensures PhaseBy(reliable, []) == Trying
  {
  }

  lemma ReliableStays(t: Tx, e: Event)
    ensures Step(t, e).0.reliable == t.reliable
  {
  }
}
