/** Retransmission by doubling up to a ceiling, against an ideal clock (timers G and H, timers A and B). */
module Backoff {
  /** T1 shifted left by k, capped at T2, with T2 eight times T1. */
  function Shifted(t1: nat, k: nat): (d: nat) {
    if k == 0 then t1 else 2 * Shifted(t1, k - 1)
  }

  function Interval(t1: nat, k: nat): (d: nat) {
    if Shifted(t1, k) > 8 * t1 then 8 * t1 else Shifted(t1, k)
  }

  /**
    * A transaction that repeats its message: running from start until it is stopped or times out at start + 64*T1.
    * count is gCount or retxCount, due the time for which the next repetition is scheduled.
    */
  datatype State = State(t1: nat, start: nat, clock: nat, count: nat, due: nat, running: bool)

  function Started(t1: nat, now: nat): (s: State) {
    State(t1, now, now, 0, now + Interval(t1, 0), true)
  }

  /** An ideal clock runs every callback at the very time it is due, in either order when two coincide. */
  datatype Event = Wait(until: nat) | Repeat | Timeout | Halt

  predicate Enabled(s: State, e: Event) {
    match e
    case Wait(until) => s.clock <= until && (s.running ==> until <= s.due && until <= s.start + 64 * s.t1)
    case Repeat => s.running && s.clock == s.due
    case Timeout => s.running && s.clock == s.start + 64 * s.t1
    case Halt => true
  }

  function Step(s: State, e: Event): (r: State) {
    match e
    case Wait(until) => s.(clock := until)
    case Repeat => s.(count := s.count + 1, due := s.clock + Interval(s.t1, s.count + 1))
    case Timeout => s.(running := false)
    case Halt => s.(running := false)
  }

  predicate IsRun(s: State, es: seq<Event>)
    decreases |es|
  {
    es == [] || (Enabled(s, es[0]) && IsRun(Step(s, es[0]), es[1..]))
  }

  function End(s: State, es: seq<Event>): (r: State)
    decreases |es|
  {
    if es == [] then s else End(Step(s, es[0]), es[1..])
  }

  function Repeats(es: seq<Event>): (n: nat) {
    if es == [] then 0 else (if es[0] == Repeat then 1 else 0) + Repeats(es[1..])
  }

  /** When the k-th repetition (from zero) is due, in units of T1: 1, 3, 7, 15, then every eight. */
  function DueAfter(k: nat): (n: nat) {
    if k == 0 then 1 else if k == 1 then 3 else if k == 2 then 7 else 15 + 8 * (k - 3)
  }

  lemma SmallShifts(t1: nat)
    ensures Shifted(t1, 0) == t1 && Shifted(t1, 1) == 2 * t1 && Shifted(t1, 2) == 4 * t1 && Shifted(t1, 3) == 8 * t1
  {
    assert Shifted(t1, 0) == t1;
    assert Shifted(t1, 1) == 2 * t1;
    assert Shifted(t1, 2) == 4 * t1;
  }

  lemma {:induction false} ShiftedGrows(t1: nat, k: nat)
    requires k >= 3
    ensures Shifted(t1, k) >= 8 * t1
  {
    if k == 3 {
      SmallShifts(t1);
    } else {
      ShiftedGrows(t1, k - 1);
    }
  }

  lemma IntervalIs(t1: nat, k: nat)
    ensures Interval(t1, k) == if k == 0 then t1 else if k == 1 then 2 * t1 else if k == 2 then 4 * t1 else 8 * t1
  {
    if k >= 3 {
      ShiftedGrows(t1, k);
    } else {
      SmallShifts(t1);
    }
  }

  predicate Inv(s: State) {
    && s.t1 > 0 && s.start <= s.clock
    && s.due == s.start + DueAfter(s.count) * s.t1
    && (s.running ==> s.clock <= s.due && s.clock <= s.start + 64 * s.t1)
    && s.count <= 10
  }

  lemma StepKeeps(s: State, e: Event)
    requires Inv(s) && Enabled(s, e)
    ensures Inv(Step(s, e))
  {
    if e == Repeat {
      IntervalIs(s.t1, s.count + 1);
      var k, d := s.count, DueAfter(s.count);
      Scaled(d, 64, s.t1);
      assert k <= 9;
      DueStep(s.t1, k);
    }
  }

  lemma Scaled(a: nat, b: nat, t: nat)
    requires t > 0 && a * t <= b * t
    ensures a <= b
  {
    assert a > b ==> (a - b) * t > 0;
    assert (a - b) * t == a * t - b * t;
  }

  lemma DueStep(t1: nat, k: nat)
    ensures DueAfter(k + 1) * t1 == DueAfter(k) * t1 + Interval(t1, k + 1)
  {
    IntervalIs(t1, k + 1);
  }

  /** At most ten repetitions happen before the timeout, on every run and for every T1. */
  lemma {:induction false} TenRepeats(s: State, es: seq<Event>)
    requires Inv(s) && IsRun(s, es)
    ensures Inv(End(s, es)) && End(s, es).count == s.count + Repeats(es)
    ensures s.count + Repeats(es) <= 10
    decreases |es|
  {
    hide Inv, Step;
    if es == [] {
      CountBound(s);
    } else {
      StepKeeps(s, es[0]);
      StepCounts(s, es[0]);
      TenRepeats(Step(s, es[0]), es[1..]);
    }
  }

  lemma CountBound(s: State)
    requires Inv(s)
    ensures s.count <= 10
  {
  }

  lemma StepCounts(s: State, e: Event)
    ensures Step(s, e).count == s.count + if e == Repeat then 1 else 0
  {
  }

  lemma {:induction false} ShiftBound(t1: nat, k: nat)
    requires k <= 10
    ensures Shifted(t1, k) <= 1024 * t1
  {
    var a := Shifted(t1, 0);
    assert Shifted(t1, 1) == 2 * a && Shifted(t1, 2) == 4 * a;
    assert Shifted(t1, 3) == 8 * a && Shifted(t1, 4) == 16 * a;
    assert Shifted(t1, 5) == 32 * a && Shifted(t1, 6) == 64 * a;
    assert Shifted(t1, 7) == 128 * a && Shifted(t1, 8) == 256 * a;
    assert Shifted(t1, 9) == 512 * a && Shifted(t1, 10) == 1024 * a;
  }

  /** From any start: the counter stays within ten and no shift ever exceeds 1024 times T1. */
  lemma EveryRun(t1: nat, now: nat, es: seq<Event>)
    requires t1 > 0 && IsRun(Started(t1, now), es)
    ensures Repeats(es) <= 10 && End(Started(t1, now), es).count == Repeats(es)
    ensures Shifted(t1, End(Started(t1, now), es).count) <= 1024 * t1
  {
    IntervalIs(t1, 0);
    TenRepeats(Started(t1, now), es);
    ShiftBound(t1, Repeats(es));
  }

  /** n waits, each followed by a repetition. */
  function Prompt(s: State, n: nat): (es: seq<Event>)
    decreases n
  {
    if n == 0 then []
    else
      var waiting := Step(s, Wait(s.due));
      [Wait(s.due), Repeat] + Prompt(Step(waiting, Repeat), n - 1)
  }

  /** The bound is reached: a run with exactly ten repetitions exists for every T1. */
  lemma {:induction false} TenReached(s: State, n: nat)
    requires Inv(s) && s.running && s.count + n == 10
    ensures IsRun(s, Prompt(s, n)) && Repeats(Prompt(s, n)) == n
    decreases n
  {
    if n == 0 {
    } else {
      assert DueAfter(s.count) <= 63;
      assert DueAfter(s.count) * s.t1 <= 64 * s.t1;
      var w := Step(s, Wait(s.due));
      assert Enabled(s, Wait(s.due)) && Enabled(w, Repeat);
      StepKeeps(s, Wait(s.due));
      StepKeeps(w, Repeat);
      var r := Step(w, Repeat);
      TenReached(r, n - 1);
      var es := Prompt(s, n);
      var more := Prompt(r, n - 1);
      assert es[1..] == [Repeat] + more && es[1..][1..] == more;
    }
  }

  /** With ten repetitions done, the time-out comes 64 times T1 after the start. */
  lemma TimeoutReached(s: State)
    requires Inv(s) && s.running && s.count == 10
    ensures IsRun(s, [Wait(s.start + 64 * s.t1), Timeout]) && !End(s, [Wait(s.start + 64 * s.t1), Timeout]).running
  {
    var w := Wait(s.start + 64 * s.t1);
    assert DueAfter(10) == 71;
    assert s.due == s.start + 71 * s.t1;
    var es := [w, Timeout];
    assert es[1..] == [Timeout] && es[1..][1..] == [];
    assert Enabled(Step(s, w), Timeout);
    assert IsRun(Step(s, w), [Timeout]);
  }

  /** Once it has timed out or was stopped, nothing is repeated and no further time-out comes. */
  lemma {:induction false} NothingAfterEnd(s: State, es: seq<Event>)
    requires !s.running && IsRun(s, es)
    ensures Repeat !in es && Timeout !in es
    decreases |es|
  {
    if es == [] {
    } else {
      NothingAfterEnd(Step(s, es[0]), es[1..]);
    }
  }

  /** It times out at no other time, and that is the end of it. */
  lemma TimeoutOnce(s: State, after: seq<Event>)
    requires IsRun(s, [Timeout] + after)
    ensures s.running && s.clock == s.start + 64 * s.t1 && Repeat !in after && Timeout !in after
  {
    assert ([Timeout] + after)[1..] == after;
    NothingAfterEnd(Step(s, Timeout), after);
  }
}
