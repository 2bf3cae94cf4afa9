/** Counting authentication failures per session and locking out (internal/sip/auth.go). */
module AuthFailures {
  import opened Octets
  import opened Nonces

  datatype Attempt = Attempt(count: nat, expires: int)

  type Counts = map<string, Attempt>

  /** How a request fares: it carries no credentials, they fail some check, or they are accepted. */
  datatype Result = NoCredentials | Failed | Passed

  /** The answer: a first challenge, a fresh challenge after a failure, 403, or the request goes through. */
  datatype Answer = Asked | Challenged | Locked | Accepted

  /** sendAuthFailureResponse treats limits below one as one. */
  function Limit(max: int): (n: nat)
    ensures n >= 1
  {
    if max < 1 then 1 else max
  }

  function CountOf(t: Counts, key: string): (n: nat) {
    if key in t then t[key].count else 0
  }

  function Answered(t: Counts, max: int, key: string, r: Result): (a: Answer) {
    match r
    case NoCredentials => Asked
    case Passed => Accepted
    case Failed => if CountOf(t, key) + 1 < Limit(max) then Challenged else Locked
  }

  function Counted(t: Counts, ttl: nat, max: int, key: string, r: Result, now: int): (u: Counts) {
    match r
    case NoCredentials => t
    case Passed => t - {key}
    case Failed =>
      if CountOf(t, key) + 1 < Limit(max) then t[key := Attempt(CountOf(t, key) + 1, now + ttl)] else t - {key}
  }

  /** Sweep removes expired counters. */
  function Swept(t: Counts, now: int): (u: Counts) {
    map k | k in t && now <= t[k].expires :: t[k]
  }

  // ---- Runs between sweeps ----

  datatype Request = Request(key: string, result: Result, now: int)

  datatype Logged = Logged(key: string, answer: Answer)

  datatype History = History(counts: Counts, log: seq<Logged>)

  function Extend(h: History, ttl: nat, max: int, q: Request): (r: History) {
    History(Counted(h.counts, ttl, max, q.key, q.result, q.now),
            h.log + [Logged(q.key, Answered(h.counts, max, q.key, q.result))])
  }

  function Run(ttl: nat, max: int, qs: seq<Request>): (h: History) {
    if qs == [] then History(map[], []) else Extend(Run(ttl, max, qs[..|qs| - 1]), ttl, max, qs[|qs| - 1])
  }

  /** Failures of a session since its last success or lockout, read off the answers it was given. */
  function Streak(log: seq<Logged>, key: string): (n: nat) {
    if log == [] then 0
    else
      var last := log[|log| - 1];
      var before := Streak(log[..|log| - 1], key);
      if last.key != key || last.answer == Asked then before
      else if last.answer == Challenged then before + 1
      else 0
  }

  /** The counter of every session is its streak, and no counter is zero or reaches the limit. */
  ghost predicate Inv(h: History, max: int) {
    && (forall k :: k in h.counts ==> 1 <= h.counts[k].count < Limit(max))
    && (forall k :: CountOf(h.counts, k) == Streak(h.log, k))
  }

  /** A failure is answered with 403 exactly when it is the limit-th of its streak, and with a challenge otherwise. */
  predicate Fair(log: seq<Logged>, max: int) {
    forall j :: 0 <= j < |log| ==>
      && (log[j].answer == Locked ==> Streak(log[..j], log[j].key) + 1 == Limit(max))
      && (log[j].answer == Challenged ==> Streak(log[..j], log[j].key) + 1 < Limit(max))
  }

  lemma ExtendKeeps(h: History, ttl: nat, max: int, q: Request)
    requires Inv(h, max)
    ensures Inv(Extend(h, ttl, max, q), max)
  {
    var r := Extend(h, ttl, max, q);
    assert r.log[..|h.log|] == h.log;
    forall k ensures CountOf(r.counts, k) == Streak(r.log, k) {
      assert CountOf(h.counts, k) == Streak(h.log, k);
    }
  }

  lemma ExtendFair(h: History, ttl: nat, max: int, q: Request)
    requires Inv(h, max) && Fair(h.log, max)
    ensures Fair(Extend(h, ttl, max, q).log, max)
  {
    var r := Extend(h, ttl, max, q);
    assert r.log[..|h.log|] == h.log;
    forall j | 0 <= j < |r.log|
      ensures r.log[j].answer == Locked ==> Streak(r.log[..j], r.log[j].key) + 1 == Limit(max)
      ensures r.log[j].answer == Challenged ==> Streak(r.log[..j], r.log[j].key) + 1 < Limit(max)
    {
      if j < |h.log| {
        assert r.log[..j] == h.log[..j] && r.log[j] == h.log[j];
      } else {
        assert CountOf(h.counts, q.key) == Streak(h.log, q.key);
        if q.key in h.counts { assert h.counts[q.key].count < Limit(max); }
      }
    }
  }

  /** Over every run without sweeps, for every limit. */
  lemma {:induction false} EveryRun(ttl: nat, max: int, qs: seq<Request>)
    ensures Inv(Run(ttl, max, qs), max) && Fair(Run(ttl, max, qs).log, max)
  {
    hide Inv, Fair, Extend;
    if qs == [] {
      NothingYet(max);
    } else {
      EveryRun(ttl, max, qs[..|qs| - 1]);
      ExtendKeeps(Run(ttl, max, qs[..|qs| - 1]), ttl, max, qs[|qs| - 1]);
      ExtendFair(Run(ttl, max, qs[..|qs| - 1]), ttl, max, qs[|qs| - 1]);
    }
  }

  lemma NothingYet(max: int)
    ensures Inv(History(map[], []), max) && Fair([], max)
  {
  }

  /** Requests without credentials, and requests of other sessions, never change a counter. */
  lemma OthersUntouched(t: Counts, ttl: nat, max: int, q: Request, key: string)
    requires q.result == NoCredentials || q.key != key
    ensures var u := Counted(t, ttl, max, q.key, q.result, q.now); key in u <==> key in t
    ensures var u := Counted(t, ttl, max, q.key, q.result, q.now); key in t ==> u[key] == t[key]
  {
  }

  // ---- Answers read off the requests, with sweeps in between ----

  datatype Event = Attempted(request: Request) | SweptAt(now: int)

  function After(t: Counts, ttl: nat, max: int, e: Event): (u: Counts) {
    match e
    case Attempted(q) => Counted(t, ttl, max, q.key, q.result, q.now)
    case SweptAt(now) => Swept(t, now)
  }

  function CountsAfter(ttl: nat, max: int, es: seq<Event>): (t: Counts) {
    if es == [] then map[] else After(CountsAfter(ttl, max, es[..|es| - 1]), ttl, max, es[|es| - 1])
  }

  predicate Fails(e: Event, key: string) {
    e.Attempted? && e.request.key == key && e.request.result == Failed
  }

  /** When a session failed last. */
  function LastFailed(es: seq<Event>, key: string): (r: Option<int>) {
    if es == [] then None
    else if Fails(es[|es| - 1], key) then Some(es[|es| - 1].request.now)
    else LastFailed(es[..|es| - 1], key)
  }

  /**
    * Failures of a session in a row: since its last success, since the last failure that reached the limit, and since a
    * sweep came more than the time to live after a failure.
    */
  function InRow(es: seq<Event>, ttl: nat, max: int, key: string): (n: nat) {
    if es == [] then 0
    else
      var last, before := es[|es| - 1], es[..|es| - 1];
      var n := InRow(before, ttl, max, key);
      match last
      case Attempted(q) =>
        if q.key != key || q.result == NoCredentials then n
        else if q.result == Passed || n + 1 >= max then 0
        else n + 1
      case SweptAt(now) =>
        if LastFailed(before, key).Some? && now > LastFailed(before, key).value + ttl then 0 else n
  }

  lemma {:induction false} RowCounted(ttl: nat, max: int, es: seq<Event>, key: string)
    ensures var t := CountsAfter(ttl, max, es);
      && CountOf(t, key) == InRow(es, ttl, max, key) && (key in t ==> t[key].count > 0)
      && (key in t ==> LastFailed(es, key).Some? && t[key].expires == LastFailed(es, key).value + ttl)
    decreases |es|
  {
    if es == [] {
    } else {
      RowCounted(ttl, max, es[..|es| - 1], key);
    }
  }

  /** Every request of every run: the failure that makes the limit gets 403, any other one a fresh challenge. */
  lemma AnsweredExactly(ttl: nat, max: int, es: seq<Event>, key: string, r: Result)
    ensures Answered(CountsAfter(ttl, max, es), max, key, r) ==
      match r {
        case NoCredentials => Asked
        case Passed => Accepted
        case Failed => if InRow(es, ttl, max, key) + 1 >= max then Locked else Challenged
      }
  {
    RowCounted(ttl, max, es, key);
  }

  // ---- Verification of a request ----

  datatype Credentials = Credentials(
    username: string, realm: string, uri: string, nonce: string, nc: u64, response: string)

  datatype Header = Missing | Malformed | Digest(creds: Credentials)

  class AttemptTracker {
    var entries: Counts
    const ttl: nat

    constructor (ttl: nat)
      ensures entries == map[] && this.ttl == ttl
    {
      entries := map[];
      this.ttl := ttl;
    }

    method Record(key: string, now: int) returns (n: nat)
      modifies this
      ensures n == CountOf(old(entries), key) + 1 && entries == old(entries)[key := Attempt(n, now + ttl)]
    {
      n := (if key in entries then entries[key].count else 0) + 1;
      entries := entries[key := Attempt(n, now + ttl)];
    }

    method Reset(key: string)
      modifies this
      ensures entries == old(entries) - {key}
    {
      entries := entries - {key};
    }

    method SweepExpired(now: int)
      modifies this
      ensures entries == Swept(old(entries), now)
    {
      var left := entries.Keys;
      var kept := entries;
      while left != {}
        invariant left <= old(entries).Keys
        invariant kept == map k | k in old(entries) && (k in left || now <= old(entries)[k].expires) :: old(entries)[k]
        decreases left
      {
        var k :| k in left;
        left := left - {k};
        if now > kept[k].expires { kept := kept - {k}; }
      }
      entries := kept;
    }
  }

  class Authenticator {
    const attempts: AttemptTracker
    const nonces: NonceManager
    const realm: string
    const ha1: map<string, string>
    /** Does the response of the credentials match the digest computed from this secret? */
    const matches: (Credentials, string) -> bool
    const max: int

    constructor (attempts: AttemptTracker, nonces: NonceManager, realm: string, ha1: map<string, string>,
                 matches: (Credentials, string) -> bool, max: int)
      ensures this.attempts == attempts && this.nonces == nonces && this.realm == realm && this.ha1 == ha1
      ensures this.matches == matches && this.max == max
    {
      this.attempts, this.nonces, this.realm := attempts, nonces, realm;
      this.ha1, this.matches, this.max := ha1, matches, max;
    }

    /** The checks that do not involve the nonce. */
    predicate Plausible(h: Header, uri: string) {
      h.Digest? && h.creds.username != "" && h.creds.uri == uri && h.creds.realm == realm
    }

    /** All checks, in the state of the nonce table in which the request arrives. */
    predicate Accepts(t: Table, h: Header, uri: string, now: int) {
      && Plausible(h, uri) && Verdict(t, h.creds.nonce, h.creds.nc, now).1
      && h.creds.username in ha1 && matches(h.creds, ha1[h.creds.username])
    }

    function ResultOf(t: Table, h: Header, uri: string, now: int): (r: Result) {
      if h.Missing? then NoCredentials else if Accepts(t, h, uri, now) then Passed else Failed
    }

    /** sendAuthFailureResponse; drawn is the nonce of the fresh challenge, if one is sent. */
    method SendFailure(key: string, now: int, drawn: string) returns (a: Answer)
      modifies attempts, nonces
      ensures a == Answered(old(attempts.entries), max, key, Failed)
      ensures attempts.entries == Counted(old(attempts.entries), attempts.ttl, max, key, Failed, now)
      ensures nonces.entries == if a == Challenged then Step(old(nonces.entries), nonces.ttl, NewNonce(drawn, now))
                                else old(nonces.entries)
    {
      var limit := if max < 1 then 1 else max;
      var count := attempts.Record(key, now);
      if count < limit {
        nonces.Issue(drawn, now);
        return Challenged;
      }
      attempts.Reset(key);
      assert attempts.entries == old(attempts.entries) - {key};
      return Locked;
    }

    /** VerifyDigestRequest: the nonce count is used up even when the digest then turns out wrong. */
    method VerifyDigestRequest(h: Header, uri: string, key: string, now: int, drawn: string)
      returns (creds: Option<Credentials>, a: Answer)
      modifies attempts, nonces
      ensures creds.Some? <==>
        && h.Digest? && h.creds.username != "" && h.creds.uri == uri && h.creds.realm == realm
        && Verdict(old(nonces.entries), h.creds.nonce, h.creds.nc, now).1
        && h.creds.username in ha1 && matches(h.creds, ha1[h.creds.username])
      ensures creds.Some? ==> h.Digest? && creds.value == h.creds && attempts.entries == old(attempts.entries)
      ensures creds.None? ==>
        var r := if h.Missing? then NoCredentials else Failed;
        && a == Answered(old(attempts.entries), max, key, r)
        && attempts.entries == Counted(old(attempts.entries), attempts.ttl, max, key, r, now)
      ensures creds.Some? ==> a == Accepted
      ensures var t :=
          if Plausible(h, uri) then Step(old(nonces.entries), nonces.ttl, Verify(h.creds.nonce, h.creds.nc, now))
          else old(nonces.entries);
        nonces.entries == if a == Asked || a == Challenged then Step(t, nonces.ttl, NewNonce(drawn, now)) else t
    {
      a := Accepted;
      if h.Missing? {
        nonces.Issue(drawn, now);
        return None, Asked;
      }
      if h.Malformed? || h.creds.username == "" || h.creds.uri != uri || h.creds.realm != realm {
        a := SendFailure(key, now, drawn);
        return None, a;
      }
      var c := h.creds;
      var known, valid := nonces.Check(c.nonce, c.nc, now);
      if !valid {
        a := SendFailure(key, now, drawn);
        return None, a;
      }
      var userExists := c.username in ha1;
      var secret :=
        if userExists then ha1[c.username] else "0000000000000000000000000000000000000000000000000000000000000000";
      if !matches(c, secret) || !userExists {
        a := SendFailure(key, now, drawn);
        return None, a;
      }
      return Some(c), Accepted;
    }

    /** requireProxyAuth, or HandleRegister with its check of the address of record: success resets the counter. */
    method Authenticate(h: Header, uri: string, key: string, now: int, drawn: string, allowed: bool) returns (a: Answer)
      modifies attempts, nonces
      ensures var r := ResultOf(old(nonces.entries), h, uri, now);
        var q := if r == Passed && !allowed then Failed else r;
        && a == Answered(old(attempts.entries), max, key, q)
        && attempts.entries == Counted(old(attempts.entries), attempts.ttl, max, key, q, now)
    {
      var creds, answer := VerifyDigestRequest(h, uri, key, now, drawn);
      if creds.None? { return answer; }
      if !allowed {
        a := SendFailure(key, now, drawn);
        return;
      }
      attempts.Reset(key);
      a := Accepted;
    }
  }
}
