/** The index of established calls by either Call-ID, and of ringing calls (internal/b2bua/call.go). */
module CallStore {
  import opened Octets

  /** trunk is empty for a call between registered users. */
  datatype Call = Call(alice: string, bob: string, trunk: string)

  datatype Index = Index(calls: map<string, Call>, bobToAlice: map<string, string>)

  const EMPTY := Index(map[], map[])

  function Stored(s: Index, c: Call): (r: Index) {
    Index(s.calls[c.alice := c], s.bobToAlice[c.bob := c.alice])
  }

  function Get(s: Index, id: string): (r: Option<Call>) {
    if id in s.calls then Some(s.calls[id])
    else if id in s.bobToAlice && s.bobToAlice[id] != "" && s.bobToAlice[id] in s.calls then
      Some(s.calls[s.bobToAlice[id]])
    else None
  }

  function Removed(s: Index, alice: string): (r: Index) {
    if alice in s.calls then Index(s.calls - {alice}, s.bobToAlice - {s.calls[alice].bob}) else s
  }

  /** Some stored call carries id on one of its legs. */
  predicate Carries(s: Index, id: string) {
    exists a :: a in s.calls && (a == id || s.calls[a].bob == id)
  }

  /** Call-IDs that no stored call carries yet. */
  predicate Fresh(s: Index, c: Call) {
    c.alice != "" && c.bob != "" && c.alice != c.bob && !Carries(s, c.alice) && !Carries(s, c.bob)
  }

  /** bobToAlice is the inverse of calls, and no identifier serves two legs. */
  predicate Inverse(s: Index) {
    && (forall a :: a in s.calls ==> s.calls[a].alice == a && a != "" && s.calls[a].bob !in s.calls)
    && (forall b :: b in s.bobToAlice ==> s.bobToAlice[b] in s.calls && s.calls[s.bobToAlice[b]].bob == b)
    && (forall a :: a in s.calls ==> s.calls[a].bob in s.bobToAlice && s.bobToAlice[s.calls[a].bob] == a)
  }

  lemma RemoveKeeps(s: Index, alice: string)
    requires Inverse(s)
    ensures Inverse(Removed(s, alice))
  {
  }

  /** Exactly the calls that can be stored without spoiling the index. */
  predicate Storable(s: Index, c: Call) {
    && c.alice != "" && c.alice != c.bob && c.bob !in s.calls
    && (c.alice in s.calls ==> s.calls[c.alice].bob == c.bob)
    && (forall a :: a in s.calls && a != c.alice ==> s.calls[a].bob != c.alice && s.calls[a].bob != c.bob)
  }

  lemma FreshStorable(s: Index, c: Call)
    requires Fresh(s, c)
    ensures Storable(s, c)
  {
    assert forall a :: a in s.calls ==>
      a != c.alice && a != c.bob && s.calls[a].bob != c.alice && s.calls[a].bob != c.bob;
  }

  lemma StoreKeeps(s: Index, c: Call)
    requires Inverse(s) && Storable(s, c)
    ensures Inverse(Stored(s, c))
  {
  }

  lemma StoreNeeds(s: Index, c: Call)
    requires Inverse(s) && Inverse(Stored(s, c))
    ensures Storable(s, c)
  {
    var r := Stored(s, c);
    assert c.alice in r.calls && r.calls[c.alice] == c;
    forall a | a in s.calls && a != c.alice ensures s.calls[a].bob != c.alice && s.calls[a].bob != c.bob {
      assert a in r.calls && r.calls[a] == s.calls[a];
      assert r.calls[a].bob !in r.calls && r.bobToAlice[r.calls[a].bob] == a;
    }
    assert c.alice in s.calls ==>
      var b := s.calls[c.alice].bob; b in r.bobToAlice && r.bobToAlice[b] == c.alice && r.calls[c.alice].bob == b;
  }

  /** Storing a call keeps the index exact if and only if the call is storable. */
  lemma StoreExact(s: Index, c: Call)
    requires Inverse(s)
    ensures Inverse(Stored(s, c)) <==> Storable(s, c)
  {
    hide Inverse, Storable, Stored;
    if Storable(s, c) { StoreKeeps(s, c); }
    if Inverse(Stored(s, c)) { StoreNeeds(s, c); }
  }

  datatype Event = Store(call: Call) | Remove(alice: string)

  /** Runs whose calls are storable when they are stored. */
  predicate AllStorable(s: Index, es: seq<Event>)
    decreases |es|
  {
    es == [] || ((es[0].Store? ==> Storable(s, es[0].call)) && AllStorable(Step(s, es[0]), es[1..]))
  }

  /** The index is exact before, throughout and after a run. */
  predicate AlwaysInverse(s: Index, es: seq<Event>)
    decreases |es|
  {
    Inverse(s) && (es == [] || AlwaysInverse(Step(s, es[0]), es[1..]))
  }

  function Step(s: Index, e: Event): (r: Index) {
    if e.Store? then Stored(s, e.call) else Removed(s, e.alice)
  }

  function End(s: Index, es: seq<Event>): (r: Index)
    decreases |es|
  {
    if es == [] then s else End(Step(s, es[0]), es[1..])
  }

  /** Get agrees with a plain search through the stored calls. */
  lemma GetIsSearch(s: Index, id: string)
    requires Inverse(s)
    ensures Get(s, id).Some? <==> Carries(s, id)
    ensures Get(s, id).Some? ==>
      var c := Get(s, id).value; c.alice in s.calls && s.calls[c.alice] == c && (c.alice == id || c.bob == id)
    ensures forall a :: a in s.calls && (a == id || s.calls[a].bob == id) ==> Get(s, id) == Some(s.calls[a])
  {
  }

  /** Over every run, the index stays exact if and only if every call was storable when it was stored. */
  lemma {:induction false} ExactRuns(s: Index, es: seq<Event>)
    requires Inverse(s)
    ensures AlwaysInverse(s, es) <==> AllStorable(s, es)
    decreases |es|
  {
    hide Inverse, Storable;
    if es == [] {
    } else {
      match es[0] {
        case Store(c) => StoreExact(s, c);
        case Remove(alice) => RemoveKeeps(s, alice);
      }
      if Inverse(Step(s, es[0])) { ExactRuns(Step(s, es[0]), es[1..]); }
    }
  }

  /** After such a run the index is exact and Get is a search. */
  lemma {:induction false} EveryRun(s: Index, es: seq<Event>, id: string)
    requires Inverse(s) && AllStorable(s, es)
    ensures Inverse(End(s, es)) && (Get(End(s, es), id).Some? <==> Carries(End(s, es), id))
    decreases |es|
  {
    hide Inverse, Storable, Carries, Get;
    if es == [] {
      GetIsSearch(s, id);
    } else {
      match es[0] {
        case Store(c) => StoreExact(s, c);
        case Remove(alice) => RemoveKeeps(s, alice);
      }
      EveryRun(Step(s, es[0]), es[1..], id);
    }
  }

  /** With a reused Alice identifier the first call's Bob leg leads to the second call. */
  lemma ReuseWitness()
    ensures var s := Stored(Stored(EMPTY, Call("a", "b", "")), Call("a", "c", ""));
      !Inverse(s) && Get(s, "b") == Some(Call("a", "c", "")) && !Carries(s, "b")
  {
    var s := Stored(Stored(EMPTY, Call("a", "b", "")), Call("a", "c", ""));
    assert "b" in s.bobToAlice && s.bobToAlice["b"] == "a" && s.calls["a"].bob == "c";
    assert "b" != "a" && "c" != "b" by { assert "b"[0] != "a"[0] && "c"[0] != "b"[0]; }
  }

  /** The store as the program keeps it; closing Bob's connection is not part of the index. */
  class CallTable {
    var calls: map<string, Call>
    var bobToAlice: map<string, string>
    /** Ringing calls by Alice's Call-ID, each with the response loop it can cancel. */
    var early: map<string, nat>

    ghost function Value(): (s: Index)
      reads this
    {
      Index(calls, bobToAlice)
    }

    constructor ()
      ensures Value() == EMPTY && early == map[]
    {
      calls := map[];
      bobToAlice := map[];
      early := map[];
    }

    method Store(call: Call)
      modifies this`calls, this`bobToAlice
      ensures Value() == Stored(old(Value()), call) && early == old(early)
    {
      calls := calls[call.alice := call];
      bobToAlice := bobToAlice[call.bob := call.alice];
    }

    method Find(id: string) returns (r: Option<Call>)
      ensures r == Get(Value(), id)
      ensures Inverse(Value()) ==> (r.Some? <==> Carries(Value(), id))
    {
      ghost var s := Value();
      if Inverse(s) { GetIsSearch(s, id); }
      if id in calls { return Some(calls[id]); }
      if id in bobToAlice && bobToAlice[id] != "" && bobToAlice[id] in calls { return Some(calls[bobToAlice[id]]); }
      r := None;
    }

    method Remove(alice: string)
      modifies this`calls, this`bobToAlice
      ensures Value() == Removed(old(Value()), alice) && early == old(early)
    {
      if alice in calls {
        bobToAlice := bobToAlice - {calls[alice].bob};
        calls := calls - {alice};
      }
    }
  }
}
