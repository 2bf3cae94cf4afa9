/** Reliable provisional responses (section 3 of RFC 3262), as internal/sip/reliable.go manages them. */
module Reliable {
  import opened Octets

  /** One pendingReliable; entries are named by their position in the list of all that were ever made. */
  datatype Entry = Entry(callId: string, rseqsSent: set<int>, latestRSeq: int, counter: nat, retxC: nat, done: bool,
                         hasTransport: bool, cseq: int)

  /** pending maps a Call-ID to its entry. */
  datatype State = State(entries: seq<Entry>, pending: map<string, nat>)

  const EMPTY := State([], map[])

  const LIMIT := 7

  /**
    * The critical sections. The callback of an entry's timer may run at any point, also after the timer was stopped
    * or restarted. A PRACK arrives with its RAck header parsed; sameMethod says that its method matches.
    */
  datatype Event =
    | SendReliable(callId: string, cseq: int, hasTransport: bool)
    | Prack(callId: string, rseq: int, cseq: int, sameMethod: bool)
    | MalformedPrack
    | Cancel(callId: string)
    | TimerFires(id: nat)

  datatype Out =
    | Provisional(id: nat, rseq: int) | Retransmission(id: nat, rseq: int)
    | Accepted(id: nat, rseq: int) | Rejected(status: int) | TimedOut(id: nat) | Dropped(id: nat)

  predicate Live(s: State, callId: string) {
    callId in s.pending && s.pending[callId] < |s.entries|
  }

  function Next(e: Entry): (r: Entry) {
    var rseq := e.counter + 1;
    e.(counter := rseq, rseqsSent := e.rseqsSent + {rseq}, latestRSeq := rseq, done := false, retxC := 0)
  }

  function OnSend(s: State, callId: string, cseq: int, hasTransport: bool): (r: (State, seq<Out>)) {
    if Live(s, callId) then
      var id := s.pending[callId];
      var e := Next(s.entries[id]);
      (s.(entries := s.entries[id := e]), [Provisional(id, e.latestRSeq)])
    else
      var id := |s.entries|;
      var e := Next(Entry(callId, {}, 0, 0, 0, false, hasTransport, cseq));
      (State(s.entries + [e], s.pending[callId := id]), [Provisional(id, e.latestRSeq)])
  }

  function OnPrack(s: State, callId: string, rseq: int, cseq: int, sameMethod: bool): (r: (State, seq<Out>)) {
    if callId == "" then (s, [Rejected(400)])
    else if !Live(s, callId) then (s, [Rejected(481)])
    else
      var id := s.pending[callId];
      var e := s.entries[id];
      if e.done || rseq !in e.rseqsSent || cseq != e.cseq || !sameMethod then (s, [Rejected(481)])
      else (s.(entries := s.entries[id := e.(rseqsSent := e.rseqsSent - {rseq})]), [Accepted(id, rseq)])
  }

  function OnCancel(s: State, callId: string): (r: (State, seq<Out>)) {
    if !Live(s, callId) then (s, [])
    else
      var id := s.pending[callId];
      (State(s.entries[id := s.entries[id].(done := true)], s.pending - {callId}), [Dropped(id)])
  }

  function OnTimer(s: State, id: nat): (r: (State, seq<Out>)) {
    if id >= |s.entries| || s.entries[id].done then (s, [])
    else
      var e := s.entries[id].(retxC := s.entries[id].retxC + 1);
      if e.retxC >= LIMIT then
        (State(s.entries[id := e.(done := true)], s.pending - {e.callId}), [TimedOut(id)])
      else (s.(entries := s.entries[id := e]), if e.hasTransport then [Retransmission(id, e.latestRSeq)] else [])
  }

  function Step(s: State, ev: Event): (r: (State, seq<Out>)) {
    match ev
    case SendReliable(callId, cseq, hasTransport) => OnSend(s, callId, cseq, hasTransport)
    case Prack(callId, rseq, cseq, sameMethod) => OnPrack(s, callId, rseq, cseq, sameMethod)
    case MalformedPrack => (s, [Rejected(400)])
    case Cancel(callId) => OnCancel(s, callId)
    case TimerFires(id) => OnTimer(s, id)
  }

  /** A run and everything it did, oldest first. */
  datatype Log = Log(state: State, out: seq<Out>)

  function Extend(l: Log, ev: Event): (r: Log) {
    var (s, out) := Step(l.state, ev);
    Log(s, l.out + out)
  }

  function Run(es: seq<Event>): (l: Log) {
    if es == [] then Log(EMPTY, []) else Extend(Run(es[..|es| - 1]), es[|es| - 1])
  }

  // ---- The table ----

  /** An entry is not done exactly when its Call-ID leads to it. */
  predicate Indexed(s: State) {
    && (forall id :: 0 <= id < |s.entries| ==>
          (!s.entries[id].done <==> s.entries[id].callId in s.pending && s.pending[s.entries[id].callId] == id))
    && (forall c :: c in s.pending ==> s.pending[c] < |s.entries| && s.entries[s.pending[c]].callId == c)
  }

  lemma SendIndexed(s: State, callId: string, cseq: int, hasTransport: bool)
    requires Indexed(s)
    ensures Indexed(OnSend(s, callId, cseq, hasTransport).0)
  {
  }

  lemma PrackIndexed(s: State, callId: string, rseq: int, cseq: int, sameMethod: bool)
    requires Indexed(s)
    ensures Indexed(OnPrack(s, callId, rseq, cseq, sameMethod).0)
  {
  }

  lemma CancelIndexed(s: State, callId: string)
    requires Indexed(s)
    ensures Indexed(OnCancel(s, callId).0)
  {
  }

  lemma TimerIndexed(s: State, id: nat)
    requires Indexed(s)
    ensures Indexed(OnTimer(s, id).0)
  {
  }

  /** Every step keeps the agreement, late timer callbacks included. */
  lemma StepIndexed(s: State, ev: Event)
    requires Indexed(s)
    ensures Indexed(Step(s, ev).0)
  {
    hide Indexed, OnSend, OnPrack, OnCancel, OnTimer;
    match ev
    case SendReliable(callId, cseq, hasTransport) => SendIndexed(s, callId, cseq, hasTransport);
    case Prack(callId, rseq, cseq, sameMethod) => PrackIndexed(s, callId, rseq, cseq, sameMethod);
    case MalformedPrack =>
    case Cancel(callId) => CancelIndexed(s, callId);
    case TimerFires(id) => TimerIndexed(s, id);
  }

  // ---- The log ----

  /** The sequence numbers sent for an entry, in order. */
  function Numbers(out: seq<Out>, id: nat): (r: seq<int>) {
    if out == [] then []
    else
      var last := out[|out| - 1];
      Numbers(out[..|out| - 1], id) + if last.Provisional? && last.id == id then [last.rseq] else []
  }

  /** Retransmissions since the latest SendReliable of an entry. */
  function RepeatsSince(out: seq<Out>, id: nat): (n: nat) {
    if out == [] then 0
    else
      var last := out[|out| - 1];
      if last.Provisional? && last.id == id then 0
      else RepeatsSince(out[..|out| - 1], id) + if last.Retransmission? && last.id == id then 1 else 0
  }

  function Count(out: seq<Out>, x: Out): (n: nat) {
    if out == [] then 0 else Count(out[..|out| - 1], x) + if out[|out| - 1] == x then 1 else 0
  }

  function UpTo(n: nat): (r: seq<int>) {
    seq(n, i => i + 1)
  }

  /** What the log says about one entry. */
  ghost predicate Recorded(out: seq<Out>, id: nat, e: Entry) {
    && Numbers(out, id) == UpTo(e.counter) && e.latestRSeq == e.counter && e.counter >= 1
    && (forall n :: n in e.rseqsSent ==> 1 <= n <= e.counter)
    && (forall n :: Count(out, Accepted(id, n)) == if 1 <= n <= e.counter && n !in e.rseqsSent then 1 else 0)
    && RepeatsSince(out, id) <= e.retxC && (e.done || e.retxC < LIMIT) && RepeatsSince(out, id) < LIMIT
    && Count(out, TimedOut(id)) + Count(out, Dropped(id)) == if e.done then 1 else 0
  }

  /** What the log says about an entry that does not exist yet. */
  ghost predicate Unmentioned(out: seq<Out>, id: nat) {
    && Numbers(out, id) == [] && RepeatsSince(out, id) == 0
    && (forall n :: Count(out, Accepted(id, n)) == 0)
    && Count(out, TimedOut(id)) == 0 && Count(out, Dropped(id)) == 0
  }

  ghost predicate Inv(l: Log) {
    && Indexed(l.state)
    && (forall id :: 0 <= id < |l.state.entries| ==> Recorded(l.out, id, l.state.entries[id]))
    && (forall id :: id >= |l.state.entries| ==> Unmentioned(l.out, id))
  }

  lemma Appended(out: seq<Out>, x: Out, id: nat)
    ensures Numbers(out + [x], id) == Numbers(out, id) + if x.Provisional? && x.id == id then [x.rseq] else []
    ensures RepeatsSince(out + [x], id) == if x.Provisional? && x.id == id then 0
                                           else RepeatsSince(out, id) + if x.Retransmission? && x.id == id then 1 else 0
    ensures forall y :: Count(out + [x], y) == Count(out, y) + if x == y then 1 else 0
  {
    assert (out + [x])[..|out|] == out;
  }

  /** An output about another entry leaves a record as it was. */
  lemma OthersKeep(out: seq<Out>, x: Out, id: nat)
    requires x.Rejected? || x.id != id
    ensures forall e :: Recorded(out, id, e) ==> Recorded(out + [x], id, e)
    ensures Unmentioned(out, id) ==> Unmentioned(out + [x], id)
  {
    Appended(out, x, id);
    assert Numbers(out, id) + [] == Numbers(out, id);
  }

  lemma SendRecords(out: seq<Out>, id: nat, e: Entry)
    requires !e.done
    requires Recorded(out, id, e) || (Unmentioned(out, id) && e.counter == 0 && e.rseqsSent == {})
    ensures Recorded(out + [Provisional(id, Next(e).latestRSeq)], id, Next(e))
  {
    var x := Provisional(id, Next(e).latestRSeq);
    Appended(out, x, id);
    assert UpTo(e.counter) + [e.counter + 1] == UpTo(e.counter + 1);
  }

  lemma PrackRecords(out: seq<Out>, id: nat, e: Entry, rseq: int)
    requires Recorded(out, id, e) && rseq in e.rseqsSent
    ensures Recorded(out + [Accepted(id, rseq)], id, e.(rseqsSent := e.rseqsSent - {rseq}))
  {
    Appended(out, Accepted(id, rseq), id);
    assert Numbers(out, id) + [] == Numbers(out, id);
  }

  lemma CancelRecords(out: seq<Out>, id: nat, e: Entry)
    requires Recorded(out, id, e) && !e.done
    ensures Recorded(out + [Dropped(id)], id, e.(done := true))
  {
    Appended(out, Dropped(id), id);
    assert Numbers(out, id) + [] == Numbers(out, id);
  }

  lemma TimerRecords(out: seq<Out>, id: nat, e: Entry)
    requires Recorded(out, id, e) && !e.done
    ensures var f := e.(retxC := e.retxC + 1);
      && (f.retxC >= LIMIT ==> Recorded(out + [TimedOut(id)], id, f.(done := true)))
      && (f.retxC < LIMIT ==> Recorded(out + [Retransmission(id, f.latestRSeq)], id, f) && Recorded(out, id, f))
  {
    var f := e.(retxC := e.retxC + 1);
    assert Numbers(out, id) + [] == Numbers(out, id);
    Appended(out, TimedOut(id), id);
    Appended(out, Retransmission(id, f.latestRSeq), id);
  }

  /** A step that changes entry id to e and says x about it. */
  lemma OneEntryChanged(l: Log, s: State, id: nat, e: Entry, x: Out)
    requires Inv(l) && Indexed(s) && id <= |l.state.entries| && !x.Rejected? && x.id == id
    requires s.entries == if id < |l.state.entries| then l.state.entries[id := e] else l.state.entries + [e]
    requires Recorded(l.out + [x], id, e)
    ensures Inv(Log(s, l.out + [x]))
  {
    hide Recorded, Unmentioned, Indexed;
    forall k | 0 <= k < |s.entries| ensures Recorded(l.out + [x], k, s.entries[k]) {
      if k != id { OthersKeep(l.out, x, k); }
    }
    forall k: nat | k >= |s.entries| ensures Unmentioned(l.out + [x], k) {
      OthersKeep(l.out, x, k);
    }
  }

  lemma NothingChanged(l: Log, status: int)
    requires Inv(l)
    ensures Inv(Log(l.state, l.out + [Rejected(status)]))
  {
    hide Recorded, Unmentioned, Indexed;
    var out := l.out + [Rejected(status)];
    forall k | 0 <= k < |l.state.entries| ensures Recorded(out, k, l.state.entries[k]) {
      OthersKeep(l.out, Rejected(status), k);
    }
    forall k: nat | k >= |l.state.entries| ensures Unmentioned(out, k) {
      OthersKeep(l.out, Rejected(status), k);
    }
  }

  lemma SendKeeps(l: Log, callId: string, cseq: int, hasTransport: bool)
    requires Inv(l)
    ensures Inv(Extend(l, SendReliable(callId, cseq, hasTransport)))
  {
    hide Recorded, Unmentioned, Next;
    var ev := SendReliable(callId, cseq, hasTransport);
    StepIndexed(l.state, ev);
    var (s, out) := Step(l.state, ev);
    if Live(l.state, callId) {
      var id := l.state.pending[callId];
      SendRecords(l.out, id, l.state.entries[id]);
      OneEntryChanged(l, s, id, s.entries[id], out[0]);
    } else {
      var id := |l.state.entries|;
      var e := Entry(callId, {}, 0, 0, 0, false, hasTransport, cseq);
      SendRecords(l.out, id, e);
      OneEntryChanged(l, s, id, Next(e), out[0]);
    }
  }

  lemma PrackKeeps(l: Log, callId: string, rseq: int, cseq: int, sameMethod: bool)
    requires Inv(l)
    ensures Inv(Extend(l, Prack(callId, rseq, cseq, sameMethod)))
  {
    hide Recorded, Unmentioned;
    var ev := Prack(callId, rseq, cseq, sameMethod);
    StepIndexed(l.state, ev);
    var (s, out) := Step(l.state, ev);
    if out[0].Rejected? {
      NothingChanged(l, out[0].status);
    } else {
      var id := l.state.pending[callId];
      PrackRecords(l.out, id, l.state.entries[id], rseq);
      OneEntryChanged(l, s, id, s.entries[id], out[0]);
    }
  }

  lemma CancelKeeps(l: Log, callId: string)
    requires Inv(l)
    ensures Inv(Extend(l, Cancel(callId)))
  {
    hide Recorded, Unmentioned;
    StepIndexed(l.state, Cancel(callId));
    var (s, out) := Step(l.state, Cancel(callId));
    if !Live(l.state, callId) {
      assert l.out + [] == l.out;
    } else {
      var id := l.state.pending[callId];
      CancelRecords(l.out, id, l.state.entries[id]);
      OneEntryChanged(l, s, id, s.entries[id], out[0]);
    }
  }

  lemma TimerKeeps(l: Log, id: nat)
    requires Inv(l)
    ensures Inv(Extend(l, TimerFires(id)))
  {
    hide Recorded, Unmentioned;
    StepIndexed(l.state, TimerFires(id));
    var (s, out) := Step(l.state, TimerFires(id));
    if id >= |l.state.entries| || l.state.entries[id].done {
      assert l.out + [] == l.out;
    } else {
      TimerRecords(l.out, id, l.state.entries[id]);
      if out == [] {
        assert l.out + [] == l.out;
      } else {
        OneEntryChanged(l, s, id, s.entries[id], out[0]);
      }
    }
  }

  lemma {:induction false} RunKeeps(es: seq<Event>)
    ensures Inv(Run(es))
  {
    hide Recorded, Extend;
    if es == [] {
    } else {
      var l := Run(es[..|es| - 1]);
      RunKeeps(es[..|es| - 1]);
      match es[|es| - 1]
      case SendReliable(callId, cseq, hasTransport) => SendKeeps(l, callId, cseq, hasTransport);
      case Prack(callId, rseq, cseq, sameMethod) => PrackKeeps(l, callId, rseq, cseq, sameMethod);
      case MalformedPrack => MalformedKeeps(l);
      case Cancel(callId) => CancelKeeps(l, callId);
      case TimerFires(id) => TimerKeeps(l, id);
    }
  }

  lemma MalformedKeeps(l: Log)
    requires Inv(l)
    ensures Inv(Extend(l, MalformedPrack))
  {
    NothingChanged(l, 400);
  }

  /** Over every run: the table and the done flags agree. */
  lemma PendingExactlyWhileNotDone(es: seq<Event>, id: nat)
    requires id < |Run(es).state.entries|
    ensures var s := Run(es).state; var e := s.entries[id];
      !e.done <==> e.callId in s.pending && s.pending[e.callId] == id
  {
    hide Extend;
    RunKeeps(es);
  }

  /** Over every run: what was sent for an entry, and how often it was repeated, acknowledged and given up. */
  lemma EveryRun(es: seq<Event>, id: nat)
    requires id < |Run(es).state.entries|
    ensures var l := Run(es); var e := l.state.entries[id];
      && Numbers(l.out, id) == UpTo(e.counter) && e.latestRSeq == e.counter
      && (forall n :: Count(l.out, Accepted(id, n)) <= 1)
      && (forall n :: Count(l.out, Accepted(id, n)) == 1 ==> n in Numbers(l.out, id))
      && RepeatsSince(l.out, id) <= 6
      && Count(l.out, TimedOut(id)) <= 1
      && (Count(l.out, Dropped(id)) > 0 ==> Count(l.out, TimedOut(id)) == 0)
  {
    hide Extend;
    RunKeeps(es);
    var l := Run(es);
    var e := l.state.entries[id];
    forall n | Count(l.out, Accepted(id, n)) == 1 ensures n in Numbers(l.out, id) {
      assert 1 <= n <= e.counter;
      assert UpTo(e.counter)[n - 1] == n;
    }
  }

  // ---- The manager as the program keeps it ----

  class Manager {
    /** Every entry ever made; a pointer to an entry is its position. */
    var entries: seq<Entry>
    var pending: map<string, nat>
    ghost var out: seq<Out>

    ghost function Value(): (s: State)
      reads this
    {
      State(entries, pending)
    }

    ghost predicate Valid()
      reads this
    {
      Indexed(Value())
    }

    constructor ()
      ensures Valid() && Value() == EMPTY && out == []
    {
      entries := [];
      pending := map[];
      out := [];
    }

    method Send(callId: string, cseq: int, hasTransport: bool)
      requires Valid()
      modifies this
      ensures Valid() && Log(Value(), out) == Extend(old(Log(Value(), out)), SendReliable(callId, cseq, hasTransport))
    {
      StepIndexed(Value(), SendReliable(callId, cseq, hasTransport));
      if callId !in pending {
        pending := pending[callId := |entries|];
        entries := entries + [Entry(callId, {}, 0, 0, 0, false, hasTransport, cseq)];
      }
      var id := pending[callId];
      var pr := entries[id];
      var rseq := pr.counter + 1;
      pr := pr.(counter := rseq, rseqsSent := pr.rseqsSent + {rseq}, latestRSeq := rseq, done := false);
      out := out + [Provisional(id, rseq)];
      entries := entries[id := pr.(retxC := 0)];
    }

    method HandlePrack(callId: string, rseq: int, cseq: int, sameMethod: bool) returns (status: int)
      requires Valid()
      modifies this
      ensures Valid() && Log(Value(), out) == Extend(old(Log(Value(), out)), Prack(callId, rseq, cseq, sameMethod))
      ensures status == 200 <==> Step(old(Value()), Prack(callId, rseq, cseq, sameMethod)).1[0].Accepted?
    {
      StepIndexed(Value(), Prack(callId, rseq, cseq, sameMethod));
      status := 481;
      if callId == "" {
        status := 400;
      } else if callId in pending {
        var id := pending[callId];
        var pr := entries[id];
        if !pr.done && rseq in pr.rseqsSent && cseq == pr.cseq && sameMethod {
          entries := entries[id := pr.(rseqsSent := pr.rseqsSent - {rseq})];
          out := out + [Accepted(id, rseq)];
          return 200;
        }
      }
      out := out + [Rejected(status)];
    }

    method CancelPending(callId: string)
      requires Valid()
      modifies this
      ensures Valid() && Log(Value(), out) == Extend(old(Log(Value(), out)), Cancel(callId))
    {
      StepIndexed(Value(), Cancel(callId));
      assert out + [] == out;
      if callId !in pending { return; }
      var id := pending[callId];
      entries := entries[id := entries[id].(done := true)];
      pending := pending - {callId};
      out := out + [Dropped(id)];
    }

    /** Callback of the timer of entry id. */
    method RetransmitTimerFired(id: nat)
      requires Valid() && id < |entries|
      modifies this
      ensures Valid() && Log(Value(), out) == Extend(old(Log(Value(), out)), TimerFires(id))
    {
      StepIndexed(Value(), TimerFires(id));
      assert out + [] == out;
      var pr := entries[id];
      if pr.done { return; }
      pr := pr.(retxC := pr.retxC + 1);
      if pr.retxC >= LIMIT {
        entries := entries[id := pr.(done := true)];
        pending := pending - {pr.callId};
        out := out + [TimedOut(id)];
        return;
      }
      entries := entries[id := pr];
      if pr.hasTransport { out := out + [Retransmission(id, pr.latestRSeq)]; }
    }
  }
}
