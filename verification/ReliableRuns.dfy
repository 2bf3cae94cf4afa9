/** What each event makes the reliable response manager do, read off the events (internal/sip/reliable.go). */
module ReliableRuns {
  import opened Octets
  import opened Reliable

  function Entries(es: seq<Event>): (n: nat) {
    |Run(es).state.entries|
  }

  lemma RunSnoc(es: seq<Event>, ev: Event)
    ensures var (s, out) := Step(Run(es).state, ev); Run(es + [ev]) == Log(s, Run(es).out + out)
  {
    hide Step;
    assert (es + [ev])[..|es|] == es;
  }

  lemma EntriesGrow(s: State, ev: Event)
    ensures var (r, out) := Step(s, ev);
      && |s.entries| <= |r.entries| <= |s.entries| + 1
      && (forall id :: 0 <= id < |s.entries| ==>
            && r.entries[id].callId == s.entries[id].callId && r.entries[id].cseq == s.entries[id].cseq
            && r.entries[id].hasTransport == s.entries[id].hasTransport)
      && (|r.entries| > |s.entries| ==>
            && ev.SendReliable? && r.entries[|s.entries|].callId == ev.callId
            && r.entries[|s.entries|].cseq == ev.cseq && r.entries[|s.entries|].hasTransport == ev.hasTransport)
  {
  }

  /** The event that made an entry. */
  function Maker(es: seq<Event>, id: nat): (ev: Event)
    requires id < Entries(es)
    decreases |es|
  {
    var n := |es| - 1;
    if id < Entries(es[..n]) then Maker(es[..n], id) else es[n]
  }

  lemma {:induction false} MakerIs(es: seq<Event>, id: nat)
    requires id < Entries(es)
    ensures var e := Run(es).state.entries[id];
      Maker(es, id) == SendReliable(e.callId, e.cseq, e.hasTransport)
    decreases |es|
  {
    hide Step;
    var n := |es| - 1;
    assert es == es[..n] + [es[n]];
    RunSnoc(es[..n], es[n]);
    EntriesGrow(Run(es[..n]).state, es[n]);
    if id < Entries(es[..n]) { MakerIs(es[..n], id); }
  }

  /** The entry was made for callId, and neither gave up nor was dropped. */
  ghost predicate Alive(es: seq<Event>, id: nat, callId: string) {
    && id < Entries(es) && Maker(es, id).SendReliable? && Maker(es, id).callId == callId
    && TimedOut(id) !in Run(es).out && Dropped(id) !in Run(es).out
  }

  lemma {:induction false} CountIn(out: seq<Out>, x: Out)
    ensures Count(out, x) > 0 <==> x in out
  {
    if out == [] {
    } else {
      CountIn(out[..|out| - 1], x);
      assert out == out[..|out| - 1] + [out[|out| - 1]];
    }
  }

  lemma {:induction false} NumbersIn(out: seq<Out>, id: nat, n: int)
    ensures n in Numbers(out, id) <==> Provisional(id, n) in out
  {
    if out == [] {
    } else {
      NumbersIn(out[..|out| - 1], id, n);
      assert out == out[..|out| - 1] + [out[|out| - 1]];
    }
  }

  /** An entry is alive exactly while its Call-ID leads to it. */
  lemma AliveIs(es: seq<Event>, id: nat, callId: string)
    ensures var s := Run(es).state;
      Alive(es, id, callId) <==> callId in s.pending && s.pending[callId] == id
  {
    hide Run, Recorded, Unmentioned, Maker, Indexed;
    RunKeeps(es);
    var l := Run(es);
    if id < Entries(es) {
      MakerIs(es, id);
      CountIn(l.out, TimedOut(id));
      CountIn(l.out, Dropped(id));
      DoneRecorded(l.out, id, l.state.entries[id]);
      PendingIs(l.state, id, callId);
    } else {
      PendingBound(l.state, callId);
    }
  }

  lemma DoneRecorded(out: seq<Out>, id: nat, e: Entry)
    requires Recorded(out, id, e)
    ensures e.done <==> Count(out, TimedOut(id)) > 0 || Count(out, Dropped(id)) > 0
  {
  }

  lemma PendingIs(s: State, id: nat, callId: string)
    requires Indexed(s) && id < |s.entries|
    ensures callId in s.pending && s.pending[callId] == id <==> s.entries[id].callId == callId && !s.entries[id].done
  {
  }

  lemma PendingBound(s: State, callId: string)
    requires Indexed(s)
    ensures callId in s.pending ==> s.pending[callId] < |s.entries|
  {
  }

  /** A number that was sent and not acknowledged yet. */
  ghost predicate Outstanding(es: seq<Event>, id: nat, rseq: int) {
    Provisional(id, rseq) in Run(es).out && Accepted(id, rseq) !in Run(es).out
  }

  lemma OutstandingIs(es: seq<Event>, id: nat, rseq: int)
    requires id < Entries(es)
    ensures Outstanding(es, id, rseq) <==> rseq in Run(es).state.entries[id].rseqsSent
  {
    hide Run;
    RunKeeps(es);
    var l := Run(es);
    var e := l.state.entries[id];
    assert Recorded(l.out, id, e);
    CountIn(l.out, Accepted(id, rseq));
    NumbersIn(l.out, id, rseq);
    UpToIs(e.counter, rseq);
  }

  lemma UpToIs(n: nat, k: int)
    ensures k in UpTo(n) <==> 1 <= k <= n
  {
    if 1 <= k <= n { assert UpTo(n)[k - 1] == k; }
  }

  /**
    * A PRACK is answered 200 if and only if it names a number that was sent for a live entry of its Call-ID and not
    * acknowledged yet, with the CSeq number and method of the INVITE; otherwise 481, and 400 without a Call-ID.
    */
  lemma PrackExactly(es: seq<Event>, callId: string, rseq: int, cseq: int, sameMethod: bool, id: nat)
    ensures var out := Step(Run(es).state, Prack(callId, rseq, cseq, sameMethod)).1;
      && (out == [Accepted(id, rseq)] <==>
            && callId != "" && sameMethod && Alive(es, id, callId) && Maker(es, id).cseq == cseq
            && Outstanding(es, id, rseq))
      && (out == [Rejected(400)] <==> callId == "")
      && (out == [Rejected(400)] || out == [Rejected(481)] || exists k: nat :: out == [Accepted(k, rseq)])
  {
    hide Run, Alive, Outstanding, Maker;
    var s := Run(es).state;
    RunKeeps(es);
    PendingBound(s, callId);
    AliveIs(es, id, callId);
    if Alive(es, id, callId) {
      assert id < Entries(es) by { AliveBound(es, id, callId); }
      MakerIs(es, id);
      OutstandingIs(es, id, rseq);
    }
    var out := Step(s, Prack(callId, rseq, cseq, sameMethod)).1;
    if out[0].Accepted? { assert out == [Accepted(out[0].id, rseq)]; }
  }

  lemma AliveBound(es: seq<Event>, id: nat, callId: string)
    requires Alive(es, id, callId)
    ensures id < Entries(es)
  {
  }

  /** Timer callbacks since the latest number was sent for an entry. */
  function Fires(es: seq<Event>, id: nat): (n: nat)
    decreases |es|
  {
    if es == [] then 0
    else
      var k := |es| - 1;
      var out := Step(Run(es[..k]).state, es[k]).1;
      if out != [] && out[0].Provisional? && out[0].id == id then 0
      else Fires(es[..k], id) + if es[k] == TimerFires(id) then 1 else 0
  }

  lemma StepFires(s: State, ev: Event, id: nat)
    requires Indexed(s) && id < |Step(s, ev).0.entries|
    ensures var (r, out) := Step(s, ev);
      if out != [] && out[0].Provisional? && out[0].id == id then r.entries[id].retxC == 0
      else
        && id < |s.entries| && (!r.entries[id].done ==> !s.entries[id].done)
        && (!r.entries[id].done ==>
              r.entries[id].retxC == s.entries[id].retxC + if ev == TimerFires(id) then 1 else 0)
  {
  }

  lemma {:induction false} FiresCounted(es: seq<Event>, id: nat)
    requires id < Entries(es) && !Run(es).state.entries[id].done
    ensures Run(es).state.entries[id].retxC == Fires(es, id)
    decreases |es|
  {
    hide Step, Indexed, Recorded, Unmentioned;
    var k := |es| - 1;
    assert es == es[..k] + [es[k]];
    RunSnoc(es[..k], es[k]);
    var s := Run(es[..k]).state;
    RunKeeps(es[..k]);
    StepFires(s, es[k], id);
    var out := Step(s, es[k]).1;
    if out != [] && out[0].Provisional? && out[0].id == id {
    } else {
      FiresCounted(es[..k], id);
    }
  }

  /** A timer of a live entry repeats the latest number, or gives up at its seventh callback since that was sent. */
  lemma TimerExactly(es: seq<Event>, id: nat, callId: string)
    requires Alive(es, id, callId)
    ensures Step(Run(es).state, TimerFires(id)).1 ==
      if Fires(es, id) >= 6 then [TimedOut(id)]
      else if Maker(es, id).hasTransport then [Retransmission(id, |Numbers(Run(es).out, id)|)] else []
  {
    hide Run, Alive, Maker, Numbers, Count, RepeatsSince;
    assert id < Entries(es) by { AliveBound(es, id, callId); }
    AliveIs(es, id, callId);
    RunKeeps(es);
    var l := Run(es);
    var e := l.state.entries[id];
    assert Recorded(l.out, id, e);
    assert !e.done by { PendingIs(l.state, id, callId); }
    FiresCounted(es, id);
    MakerIs(es, id);
  }

  /** An entry that is not alive, or was never made, is silent. */
  lemma TimerSilent(es: seq<Event>, id: nat)
    requires forall callId :: !Alive(es, id, callId)
    ensures Step(Run(es).state, TimerFires(id)).1 == []
  {
    hide Run, Alive, Maker;
    RunKeeps(es);
    var l := Run(es);
    if id < |l.state.entries| {
      AliveIs(es, id, l.state.entries[id].callId);
      PendingIs(l.state, id, l.state.entries[id].callId);
    }
  }

  /** Every send goes out with the next number of the live entry of its Call-ID, or with number 1 of a new one. */
  lemma SendExactly(es: seq<Event>, callId: string, cseq: int, hasTransport: bool, id: nat)
    ensures var out := Step(Run(es).state, SendReliable(callId, cseq, hasTransport)).1;
      && (Alive(es, id, callId) ==> out == [Provisional(id, |Numbers(Run(es).out, id)| + 1)])
      && ((forall k: nat :: !Alive(es, k, callId)) ==> out == [Provisional(Entries(es), 1)])
  {
    hide Run, Alive, Maker, Numbers, Count, RepeatsSince;
    RunKeeps(es);
    var l := Run(es);
    AliveIs(es, id, callId);
    if Alive(es, id, callId) {
      assert id < Entries(es) by { AliveBound(es, id, callId); }
      assert Recorded(l.out, id, l.state.entries[id]);
    }
    if callId in l.state.pending { AliveIs(es, l.state.pending[callId], callId); }
  }

  /** Cancelling drops the live entry of a Call-ID, and does nothing without one. */
  lemma CancelExactly(es: seq<Event>, callId: string, id: nat)
    ensures Step(Run(es).state, Cancel(callId)).1 == [Dropped(id)] <==> Alive(es, id, callId)
    ensures (forall k: nat :: !Alive(es, k, callId)) ==> Step(Run(es).state, Cancel(callId)).1 == []
  {
    hide Run, Alive, Maker;
    RunKeeps(es);
    var l := Run(es);
    AliveIs(es, id, callId);
    PendingBound(l.state, callId);
    if callId in l.state.pending { AliveIs(es, l.state.pending[callId], callId); }
  }
}
