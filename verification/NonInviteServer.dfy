/** The non-INVITE server transaction of internal/sip/transaction.go (section 17.2.2 of RFC 3261). */
module NonInviteServer {
  import opened Octets
  import opened InviteServer

  datatype State = NTrying | NProceeding | NCompleted | NTerminated

  function StateRank(s: State): (n: nat) {
    match s
    case NTrying => 0
    case NProceeding => 1
    case NCompleted => 2
    case NTerminated => 3
  }

  datatype Ntx = Ntx(state: State, lastResp: Option<Response>, stopped: bool)

  const NEW := Ntx(NTrying, None, false)

  datatype Nevent = NRespond(response: Response) | NRetransmission | TimerJ | NStop

  function NStep(t: Ntx, e: Nevent): (r: (Ntx, seq<Response>)) {
    match e
    case NRespond(res) =>
      if t.state == NTerminated then (t, [])
      else if 100 <= res.status < 200 then (if t.state == NTrying then t.(state := NProceeding) else t, [res])
      else if res.status >= 200 then (t.(state := NCompleted, lastResp := Some(res)), [res])
      else (t, [])
    case NRetransmission => (t, if t.state == NCompleted && t.lastResp.Some? then [t.lastResp.value] else [])
    case TimerJ => (if t.stopped then t else t.(state := NTerminated), [])
    case NStop => (t.(stopped := true), [])
  }

  /** Does the step start timer J? */
  predicate NArms(t: Ntx, e: Nevent) {
    e.NRespond? && e.response.status >= 200 && t.state != NTerminated
  }

  /** Timer J starts with every final response that is offered and sent. */
  lemma NArmsExactly(t: Ntx, e: Nevent)
    ensures NArms(t, e) <==> e.NRespond? && exists x :: x in NStep(t, e).1 && x.status >= 200
  {
    if NArms(t, e) { assert e.response in NStep(t, e).1; }
  }

  function NRun(t: Ntx, es: seq<Nevent>): (r: (Ntx, seq<Response>))
    decreases |es|
  {
    if es == [] then (t, [])
    else
      var (u, out) := NStep(t, es[0]);
      var (v, more) := NRun(u, es[1..]);
      (v, out + more)
  }

  /** The final response kept for repetition is the latest one sent. */
  predicate NInv(t: Ntx) {
    (t.lastResp.Some? ==> t.lastResp.value.status >= 200) && (t.state == NCompleted ==> t.lastResp.Some?)
  }

  /** Over every run the rank never decreases, and a terminated transaction sends nothing more. */
  lemma {:induction false} NonInviteRuns(t: Ntx, es: seq<Nevent>)
    requires NInv(t)
    ensures var (u, out) := NRun(t, es);
      NInv(u) && StateRank(t.state) <= StateRank(u.state) && (t.state == NTerminated ==> out == [])
    decreases |es|
  {
    if es == [] {
    } else {
      NonInviteRuns(NStep(t, es[0]).0, es[1..]);
    }
  }

  /** Answers to repeated requests are final, and the request has been answered that way before. */
  lemma RepetitionIsFinal(es: seq<Nevent>)
    ensures forall x :: x in NStep(NRun(NEW, es).0, NRetransmission).1 ==> x.status >= 200 && x in NRun(NEW, es).1
  {
    NonInviteRuns(NEW, es);
    KeptWasSent(NEW, es);
  }

  lemma {:induction false} KeptWasSent(t: Ntx, es: seq<Nevent>)
    ensures var (u, out) := NRun(t, es); u.lastResp == t.lastResp || (u.lastResp.Some? && u.lastResp.value in out)
    decreases |es|
  {
    if es == [] {
    } else {
      KeptWasSent(NStep(t, es[0]).0, es[1..]);
    }
  }

  /** No provisional response after a final one. */
  predicate ProvisionalsFirst(sent: seq<Response>) {
    forall i, j :: 0 <= i < j < |sent| && sent[i].status >= 200 ==> sent[j].status >= 200
  }

  /** Does a run offer a provisional response to a transaction that is already completed? */
  predicate LateProvisional(t: Ntx, es: seq<Nevent>)
    decreases |es|
  {
    es != [] &&
    ((t.state == NCompleted && es[0].NRespond? && 100 <= es[0].response.status < 200)
     || LateProvisional(NStep(t, es[0]).0, es[1..]))
  }

  /** A provisional does go out in Completed. */
  lemma LateProvisionalWitness()
    ensures var sent := NRun(NEW, [NRespond(Response(200, "OK")), NRespond(Response(100, "Trying"))]).1;
      |sent| == 2 && sent[0].status == 200 && sent[1].status == 100
  {
    var a, b := NRespond(Response(200, "OK")), NRespond(Response(100, "Trying"));
    assert [a, b][1..] == [b] && [b][1..] == [];
    assert NRun(NStep(NEW, a).0, [b]).1 == [b.response] + [];
  }

  lemma {:induction false} FinalThenFinal(t: Ntx, es: seq<Nevent>)
    requires NInv(t) && StateRank(t.state) >= 2
    ensures (forall x :: x in NRun(t, es).1 ==> x.status >= 200) <==> !LateProvisional(t, es)
    decreases |es|
  {
    if es == [] {
    } else {
      var (u, out) := NStep(t, es[0]);
      FinalThenFinal(u, es[1..]);
      var more := NRun(u, es[1..]).1;
      assert forall x :: x in out + more <==> x in out || x in more;
      if t.state == NCompleted && es[0].NRespond? && 100 <= es[0].response.status < 200 {
        assert out[0] in out;
      }
    }
  }

  /** Provisionals come first in what a run sends exactly when none is offered after completion. */
  lemma {:induction false} ProvisionalsFirstExactly(t: Ntx, es: seq<Nevent>)
    requires NInv(t) && StateRank(t.state) < 2
    ensures ProvisionalsFirst(NRun(t, es).1) <==> !LateProvisional(t, es)
    decreases |es|
  {
    hide ProvisionalsFirst;
    NothingFirst();
    if es == [] {
    } else {
      var (u, out) := NStep(t, es[0]);
      var more := NRun(u, es[1..]).1;
      if StateRank(u.state) < 2 {
        ProvisionalsFirstExactly(u, es[1..]);
        ShiftedOrder(out, more);
      } else {
        FinalThenFinal(u, es[1..]);
        if out == [] {
          NonInviteRuns(u, es[1..]);
          assert out + more == [];
        } else {
          assert out == [out[0]];
          FinalFirst(out[0], more);
        }
      }
    }
  }

  lemma NothingFirst()
    ensures ProvisionalsFirst([])
  {
  }

  lemma FinalFirst(x: Response, more: seq<Response>)
    requires x.status >= 200
    ensures ProvisionalsFirst([x] + more) <==> forall y :: y in more ==> y.status >= 200
  {
    var all := [x] + more;
    assert forall j :: 0 < j < |all| ==> all[j] == more[j - 1] && more[j - 1] in more;
    if ProvisionalsFirst(all) {
      forall j | 0 <= j < |more| ensures more[j].status >= 200 {
        assert all[0] == x && all[j + 1] == more[j];
      }
    }
  }

  lemma ShiftedOrder(out: seq<Response>, more: seq<Response>)
    requires |out| <= 1 && forall x :: x in out ==> x.status < 200
    ensures ProvisionalsFirst(out + more) <==> ProvisionalsFirst(more)
  {
    var all := out + more;
    assert forall j :: |out| <= j < |all| ==> all[j] == more[j - |out|];
    assert forall j :: 0 <= j < |more| ==> more[j] == all[j + |out|];
    assert forall j :: 0 <= j < |out| ==> all[j] == out[j] && out[j] in out;
  }

  // ---- Everything that is sent, event by event ----

  /** Timer J has run in a transaction that was not stopped before. */
  ghost predicate Over(es: seq<Nevent>) {
    exists i :: 0 <= i < |es| && es[i] == TimerJ && NStop !in es[..i]
  }

  /** The latest final response offered in time. */
  ghost function LatestFinal(es: seq<Nevent>): (r: Option<Response>) {
    if es == [] then None
    else
      var n := |es| - 1;
      if es[n].NRespond? && es[n].response.status >= 200 && !Over(es[..n]) then Some(es[n].response)
      else LatestFinal(es[..n])
  }

  ghost function NSends(es: seq<Nevent>, e: Nevent): (r: seq<Response>) {
    match e
    case NRespond(res) => if !Over(es) && res.status >= 100 then [res] else []
    case NRetransmission => if !Over(es) && LatestFinal(es).Some? then [LatestFinal(es).value] else []
    case _ => []
  }

  lemma OverGrows(es: seq<Nevent>, e: Nevent)
    ensures Over(es + [e]) <==> Over(es) || (e == TimerJ && NStop !in es)
  {
    var f, n := es + [e], |es|;
    assert f[n] == e && f[..n] == es;
    if i :| 0 <= i < |f| && f[i] == TimerJ && NStop !in f[..i] {
      if i < n { assert f[..i] == es[..i] && es[i] == TimerJ; }
    }
    if i :| 0 <= i < n && es[i] == TimerJ && NStop !in es[..i] {
      assert f[..i] == es[..i] && f[i] == TimerJ;
    }
  }

  ghost predicate NSeen(t: Ntx, es: seq<Nevent>) {
    && (t.stopped <==> NStop in es) && (t.state == NTerminated <==> Over(es)) && t.lastResp == LatestFinal(es)
    && (t.state == NCompleted <==> !Over(es) && LatestFinal(es).Some?)
  }

  lemma {:induction false} AlwaysNSeen(es: seq<Nevent>)
    ensures NSeen(NRun(NEW, es).0, es)
    decreases |es|
  {
    hide Over;
    if es == [] {
      assert !Over([]) by { NotOver(); }
    } else {
      var n := |es| - 1;
      AlwaysNSeen(es[..n]);
      assert es == es[..n] + [es[n]];
      NRunSnoc(NEW, es[..n], es[n]);
      OverGrows(es[..n], es[n]);
      assert forall x :: x in es <==> x in es[..n] || x == es[n];
    }
  }

  lemma NotOver()
    ensures !Over([])
  {
  }

  lemma {:induction false} NRunSnoc(t: Ntx, es: seq<Nevent>, e: Nevent)
    ensures var (u, out) := NRun(t, es); var (v, more) := NStep(u, e);
      NRun(t, es + [e]) == (v, out + more)
    decreases |es|
  {
    hide NStep;
    if es == [] {
      assert es + [e] == [e] && [e][1..] == [];
      assert NStep(t, e).1 + [] == NStep(t, e).1 == [] + NStep(t, e).1;
    } else {
      assert (es + [e])[1..] == es[1..] + [e];
      var (u, out) := NStep(t, es[0]);
      NRunSnoc(u, es[1..], e);
      var (v, more) := NRun(u, es[1..]);
      assert out + (more + NStep(v, e).1) == out + more + NStep(v, e).1;
    }
  }

  /** After every run, every event sends exactly what the events so far call for. */
  lemma EveryNSend(es: seq<Nevent>, e: Nevent)
    ensures NStep(NRun(NEW, es).0, e).1 == NSends(es, e)
  {
    hide Over, LatestFinal, NRun;
    AlwaysNSeen(es);
  }
}
