/** Digest nonces and their use counts (internal/sip/nonce.go). */
module Nonces {
  import opened Octets

  datatype Entry = Entry(expires: int, maxNc: u64)

  type Table = map<string, Entry>

  /** Each critical section reads the clock once. */
  datatype Event =
    | NewNonce(nonce: string, now: int)
    | Verify(nonce: string, nc: u64, now: int)
    | Sweep(now: int)

  function Expired(t: Table, now: int): (r: set<string>) {
    set n | n in t && now > t[n].expires
  }

  /** known and valid, as Verify reports them. */
  function Verdict(t: Table, n: string, nc: u64, now: int): (r: (bool, bool)) {
    if n !in t then (false, false) else (true, now <= t[n].expires && nc > t[n].maxNc)
  }

  function Step(t: Table, ttl: nat, e: Event): (r: Table) {
    match e
    case NewNonce(n, now) => t[n := Entry(now + ttl, 0)]
    case Verify(n, nc, now) =>
      if n !in t then t
      else if now > t[n].expires then t - {n}
      else if nc <= t[n].maxNc then t
      else t[n := t[n].(maxNc := nc)]
    case Sweep(now) => t - Expired(t, now)
  }

  function Run(t: Table, ttl: nat, es: seq<Event>): (r: Table)
    decreases |es|
  {
    if es == [] then t else Run(Step(t, ttl, es[0]), ttl, es[1..])
  }

  /** Answers valid to the Verify calls of a run, in order. */
  function Answers(t: Table, ttl: nat, es: seq<Event>): (r: seq<bool>)
    decreases |es|
  {
    if es == [] then []
    else (if es[0].Verify? then [Verdict(t, es[0].nonce, es[0].nc, es[0].now).1] else [])
         + Answers(Step(t, ttl, es[0]), ttl, es[1..])
  }

  /** A clock that does not run backwards. */
  predicate Timed(now: int, es: seq<Event>)
    decreases |es|
  {
    es == [] || (now <= es[0].now && Timed(es[0].now, es[1..]))
  }

  predicate Reissues(es: seq<Event>, n: string) {
    exists e :: e in es && e.NewNonce? && e.nonce == n
  }

  // ---- Counts and expiry of one nonce ----

  /** Until it is issued again, a nonce keeps its expiry and its count never drops; once gone, it stays gone. */
  lemma {:induction false} EntryEvolves(t: Table, ttl: nat, es: seq<Event>, n: string)
    requires !Reissues(es, n)
    ensures var r := Run(t, ttl, es);
      n in r ==> n in t && r[n].expires == t[n].expires && t[n].maxNc <= r[n].maxNc
    decreases |es|
  {
    if es == [] {
    } else {
      assert es[0] in es && forall e :: e in es[1..] ==> e in es;
      EntryEvolves(Step(t, ttl, es[0]), ttl, es[1..], n);
    }
  }

  /** The accepted counts of a nonce strictly increase, so no pair of nonce and count is accepted twice. */
  lemma CountsIncrease(t: Table, ttl: nat, n: string, nc: u64, now: int, between: seq<Event>, later: u64, at: int)
    requires Verdict(t, n, nc, now).1 && !Reissues(between, n)
    requires Verdict(Run(Step(t, ttl, Verify(n, nc, now)), ttl, between), n, later, at).1
    ensures nc < later
  {
    EntryEvolves(Step(t, ttl, Verify(n, nc, now)), ttl, between, n);
  }

  /** No count is accepted once the time to live of the nonce has passed. */
  lemma NotAfterExpiry(t: Table, ttl: nat, n: string, issued: int, between: seq<Event>, nc: u64, now: int)
    requires !Reissues(between, n)
    requires Verdict(Run(Step(t, ttl, NewNonce(n, issued)), ttl, between), n, nc, now).1
    ensures now <= issued + ttl && nc > 0
  {
    EntryEvolves(Step(t, ttl, NewNonce(n, issued)), ttl, between, n);
  }

  // ---- Sweeping ----

  function Unswept(es: seq<Event>): (r: seq<Event>) {
    if es == [] then [] else (if es[0].Sweep? then [] else [es[0]]) + Unswept(es[1..])
  }

  /** t is u without some entries that have expired by now. */
  predicate Thinned(t: Table, u: Table, now: int) {
    && (forall n :: n in t ==> n in u && t[n] == u[n])
    && (forall n :: n in u && n !in t ==> u[n].expires < now)
  }

  lemma SweepThins(t: Table, u: Table, ttl: nat, before: int, now: int)
    requires Thinned(t, u, before) && before <= now
    ensures Thinned(Step(t, ttl, Sweep(now)), u, now)
  {
  }

  lemma SameStep(t: Table, u: Table, ttl: nat, before: int, e: Event)
    requires Thinned(t, u, before) && before <= e.now && !e.Sweep?
    ensures Thinned(Step(t, ttl, e), Step(u, ttl, e), e.now)
    ensures e.Verify? ==> Verdict(t, e.nonce, e.nc, e.now).1 == Verdict(u, e.nonce, e.nc, e.now).1
  {
  }

  /** Sweeps, wherever they are put, never change which Verify calls are valid. */
  lemma {:induction false} SweepsInvisible(t: Table, u: Table, ttl: nat, now: int, es: seq<Event>)
    requires Thinned(t, u, now) && Timed(now, es)
    ensures Answers(t, ttl, es) == Answers(u, ttl, Unswept(es))
    decreases |es|
  {
    hide Thinned, Step, Verdict;
    if es == [] {
    } else {
      var e := es[0];
      if e.Sweep? {
        SweepThins(t, u, ttl, now, e.now);
        SweepsInvisible(Step(t, ttl, e), u, ttl, e.now, es[1..]);
        assert [] + Unswept(es[1..]) == Unswept(es[1..]);
        assert [] + Answers(Step(t, ttl, e), ttl, es[1..]) == Answers(Step(t, ttl, e), ttl, es[1..]);
      } else {
        SameStep(t, u, ttl, now, e);
        SweepsInvisible(Step(t, ttl, e), Step(u, ttl, e), ttl, e.now, es[1..]);
        assert Unswept(es)[0] == e && Unswept(es)[1..] == Unswept(es[1..]);
      }
    }
  }

  /** The same for the whole life of a manager. */
  lemma EveryRun(ttl: nat, now: int, es: seq<Event>)
    requires Timed(now, es)
    ensures Answers(map[], ttl, es) == Answers(map[], ttl, Unswept(es))
  {
    SweepsInvisible(map[], map[], ttl, now, es);
  }

  // ---- Which counts are accepted, read off the events ----

  /** When a nonce was issued last. */
  function IssuedAt(es: seq<Event>, n: string): (r: Option<int>) {
    if es == [] then None
    else
      var last := es[|es| - 1];
      if last.NewNonce? && last.nonce == n then Some(last.now) else IssuedAt(es[..|es| - 1], n)
  }

  /** The highest count presented with a nonce since then. */
  function Highest(es: seq<Event>, n: string): (c: u64) {
    if es == [] then 0
    else
      var last := es[|es| - 1];
      var before := Highest(es[..|es| - 1], n);
      if last.NewNonce? && last.nonce == n then 0
      else if last.Verify? && last.nonce == n && last.nc > before then last.nc
      else before
  }

  /** It was found expired since then, by a sweep or when it was presented. */
  predicate FoundExpired(es: seq<Event>, ttl: nat, n: string) {
    es != [] &&
    var last, before := es[|es| - 1], es[..|es| - 1];
    if last.NewNonce? && last.nonce == n then false
    else
      || FoundExpired(before, ttl, n)
      || (IssuedAt(before, n).Some? && (last.Sweep? || (last.Verify? && last.nonce == n))
          && last.now > IssuedAt(before, n).value + ttl)
  }

  function Clock(now: int, es: seq<Event>): (t: int) {
    if es == [] then now else es[|es| - 1].now
  }

  lemma {:induction false} TimedSnoc(now: int, es: seq<Event>, e: Event)
    ensures Timed(now, es + [e]) <==> Timed(now, es) && Clock(now, es) <= e.now
    decreases |es|
  {
    if es == [] {
      assert es + [e] == [e] && [e][1..] == [];
    } else {
      assert (es + [e])[1..] == es[1..] + [e];
      TimedSnoc(es[0].now, es[1..], e);
    }
  }

  lemma {:induction false} RunSnoc(t: Table, ttl: nat, es: seq<Event>, e: Event)
    ensures Run(t, ttl, es + [e]) == Step(Run(t, ttl, es), ttl, e)
    decreases |es|
  {
    hide Step;
    if es == [] {
      assert es + [e] == [e] && [e][1..] == [];
    } else {
      assert (es + [e])[1..] == es[1..] + [e];
      RunSnoc(Step(t, ttl, es[0]), ttl, es[1..], e);
    }
  }

  /** An entry is there until its time is over, with the expiry and the count that the events call for. */
  predicate Kept(t: Table, ttl: nat, es: seq<Event>, n: string, clock: int) {
    match IssuedAt(es, n)
    case None => n !in t
    case Some(at) =>
      && (n in t <==> !FoundExpired(es, ttl, n)) && (n in t ==> t[n].expires == at + ttl)
      && (n !in t ==> clock > at + ttl)
      && (n in t && clock <= at + ttl ==> t[n].maxNc == Highest(es, n))
  }

  lemma {:induction false} AlwaysKept(ttl: nat, now: int, es: seq<Event>, n: string)
    requires Timed(now, es)
    ensures Kept(Run(map[], ttl, es), ttl, es, n, Clock(now, es))
    decreases |es|
  {
    if es == [] {
    } else {
      var k := |es| - 1;
      assert es == es[..k] + [es[k]];
      TimedSnoc(now, es[..k], es[k]);
      AlwaysKept(ttl, now, es[..k], n);
      RunSnoc(map[], ttl, es[..k], es[k]);
    }
  }

  /**
    * Over every run under a clock that does not run backwards: a count is accepted if and only if the nonce was
    * issued, is within its time to live, and was not presented with that count or a higher one since. A nonce is known
    * from when it is issued until it is found expired.
    */
  lemma AcceptedExactly(ttl: nat, start: int, es: seq<Event>, n: string, nc: u64, now: int)
    requires Timed(start, es + [Verify(n, nc, now)])
    ensures Verdict(Run(map[], ttl, es), n, nc, now).1 <==>
      IssuedAt(es, n).Some? && now <= IssuedAt(es, n).value + ttl && nc > Highest(es, n)
    ensures Verdict(Run(map[], ttl, es), n, nc, now).0 <==> IssuedAt(es, n).Some? && !FoundExpired(es, ttl, n)
  {
    hide Run;
    TimedSnoc(start, es, Verify(n, nc, now));
    AlwaysKept(ttl, start, es, n);
  }

  class NonceManager {
    var entries: Table
    const ttl: nat

    constructor (ttl: nat)
      ensures entries == map[] && this.ttl == ttl
    {
      entries := map[];
      this.ttl := ttl;
    }

    /** nonce is the random string drawn by the caller. */
    method Issue(nonce: string, now: int)
      modifies this
      ensures entries == Step(old(entries), ttl, NewNonce(nonce, now))
    {
      entries := entries[nonce := Entry(now + ttl, 0)];
    }

    method Check(nonce: string, nc: u64, now: int) returns (known: bool, valid: bool)
      modifies this
      ensures (known, valid) == Verdict(old(entries), nonce, nc, now)
      ensures entries == Step(old(entries), ttl, Verify(nonce, nc, now))
    {
      if nonce !in entries { return false, false; }
      var entry := entries[nonce];
      if now > entry.expires {
        entries := entries - {nonce};
        return true, false;
      }
      if nc <= entry.maxNc { return true, false; }
      entries := entries[nonce := entry.(maxNc := nc)];
      return true, true;
    }

    method SweepExpired(now: int)
      modifies this
      ensures entries == Step(old(entries), ttl, Sweep(now))
    {
      var left := entries.Keys;
      var kept := entries;
      while left != {}
        invariant left <= old(entries).Keys
        invariant kept == old(entries) - (Expired(old(entries), now) - left)
        decreases left
      {
        var n :| n in left;
        left := left - {n};
        if now > kept[n].expires { kept := kept - {n}; }
      }
      entries := kept;
    }
  }
}
