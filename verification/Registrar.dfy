/** The registrar's lists of binding objects, updated in place (internal/sip/registrar.go). */
module Registrar {
  import opened Octets
  import opened Registrations

  /** A binding object; its fields are kept as one record. */
  class Binding {
    var info: Info
    /** The address of record under which the object was made. */
    ghost const owner: string

    constructor (info: Info, ghost owner: string)
      ensures this.info == info && this.owner == owner
    {
      this.info := info;
      this.owner := owner;
    }

    method Refresh(x: Context, c: Contact)
      modifies this
      ensures info == Refreshed(x, c, old(info))
    {
      info := info.(callId := x.callId, cseq := x.cseq, expires := c.at + Lifetime(x, c), lastUpdate := c.at,
                    flow := x.flow, ob := c.ob);
      if c.regId >= 0 { info := info.(regId := c.regId); }
      if c.instance != "" { info := info.(instance := c.instance); }
    }
  }

  ghost function Infos(l: seq<Binding>): (r: seq<Info>)
    reads l
    ensures |r| == |l| && forall i :: 0 <= i < |l| ==> r[i] == l[i].info
  {
    seq(|l|, i requires 0 <= i < |l| reads l => l[i].info)
  }

  predicate NoDuplicates(l: seq<Binding>) {
    forall i, j :: 0 <= i < j < |l| ==> l[i] != l[j]
  }

  // ---- Where a list operation acts ----

  lemma {:induction false} WithoutAt(l: seq<Info>, uri: string, i: nat)
    requires i <= |l| && forall j :: 0 <= j < i ==> l[j].contact != uri
    ensures i < |l| && l[i].contact == uri ==> Without(l, uri) == l[..i] + l[i + 1..]
    ensures i == |l| ==> Without(l, uri) == l
  {
    if l == [] || i == 0 {
    } else {
      assert forall j :: 0 <= j < i - 1 ==> l[1..][j] == l[j + 1];
      WithoutAt(l[1..], uri, i - 1);
      assert i < |l| ==> l[..i] + l[i + 1..] == [l[0]] + (l[1..][..i - 1] + l[1..][i..]);
    }
  }

  lemma {:induction false} UpsertAt(l: seq<Info>, x: Context, c: Contact, i: nat)
    requires i <= |l| && forall j :: 0 <= j < i ==> l[j].contact != c.uri
    ensures i < |l| && l[i].contact == c.uri ==> Upsert(l, x, c) == l[i := Refreshed(x, c, l[i])]
    ensures i == |l| ==> Upsert(l, x, c) == l + [Created(x, c)]
  {
    hide Refreshed, Created;
    if l == [] || i == 0 {
    } else {
      assert forall j :: 0 <= j < i - 1 ==> l[1..][j] == l[j + 1];
      UpsertAt(l[1..], x, c, i - 1);
      if i < |l| { assert l[i := Refreshed(x, c, l[i])] == [l[0]] + l[1..][i - 1 := Refreshed(x, c, l[i])]; }
    }
  }

  lemma {:induction false} FilterAppend(l: seq<Info>, h: Info, p: Info -> bool)
    ensures Filter(l + [h], p) == Filter(l, p) + if p(h) then [h] else []
  {
    var x := if p(h) then [h] else [];
    if l == [] {
      assert l + [h] == [h] && [h][1..] == [];
      assert Filter([h], p) == x + [] == [] + x;
    } else {
      assert (l + [h])[1..] == l[1..] + [h];
      FilterAppend(l[1..], h, p);
      var a, f := if p(l[0]) then [l[0]] else [], Filter(l[1..], p);
      assert a + f + x == a + (f + x);
    }
  }

  lemma RemovedAt(l: seq<Binding>, i: nat)
    requires i < |l| && NoDuplicates(l)
    ensures var r := l[..i] + l[i + 1..];
      NoDuplicates(r) && (forall b :: b in r ==> b in l) && Infos(r) == Infos(l)[..i] + Infos(l)[i + 1..]
  {
    var r := l[..i] + l[i + 1..];
    assert forall j :: 0 <= j < |r| ==> r[j] == if j < i then l[j] else l[j + 1];
    assert |Infos(r)| == |l| - 1;
  }

  method RemoveBinding(l: seq<Binding>, uri: string) returns (r: seq<Binding>)
    requires NoDuplicates(l)
    ensures NoDuplicates(r) && (forall b :: b in r ==> b in l)
    ensures Infos(r) == Without(Infos(l), uri)
  {
    hide Without;
    for i := 0 to |l|
      invariant forall j :: 0 <= j < i ==> l[j].info.contact != uri
    {
      if l[i].info.contact == uri {
        WithoutAt(Infos(l), uri, i);
        r := l[..i] + l[i + 1..];
        RemovedAt(l, i);
        return;
      }
    }
    WithoutAt(Infos(l), uri, |l|);
    r := l;
  }

  method UpsertBinding(l: seq<Binding>, ghost aor: string, x: Context, c: Contact) returns (r: seq<Binding>)
    requires NoDuplicates(l) && forall b :: b in l ==> b.owner == aor
    modifies l
    ensures NoDuplicates(r) && (forall b :: b in r ==> b.owner == aor && (b in l || fresh(b)))
    ensures Infos(r) == Upsert(old(Infos(l)), x, c)
  {
    hide Refreshed, Created, Infos, Upsert;
    for i := 0 to |l|
      invariant forall j :: 0 <= j < i ==> l[j].info.contact != c.uri
      invariant Infos(l) == old(Infos(l))
    {
      if l[i].info.contact == c.uri {
        UpsertAt(Infos(l), x, c, i);
        l[i].Refresh(x, c);
        assert Infos(l) == old(Infos(l))[i := Refreshed(x, c, old(Infos(l))[i])];
        return l;
      }
    }
    UpsertAt(Infos(l), x, c, |l|);
    var b := new Binding(Created(x, c), aor);
    r := l + [b];
    assert Infos(r) == Infos(l) + [b.info];
  }

  lemma {:induction false} WithContactsAppend(l: seq<Info>, x: Context, cs: seq<Contact>, c: Contact)
    ensures WithContacts(l, x, cs + [c]) == WithContact(WithContacts(l, x, cs), x, c)
    decreases |cs|
  {
    hide WithContact;
    if cs == [] {
      assert cs + [c] == [c] && [c][1..] == [];
    } else {
      assert (cs + [c])[1..] == cs[1..] + [c];
      WithContactsAppend(WithContact(l, x, cs[0]), x, cs[1..], c);
    }
  }

  /** The contact loop of HandleRegister. */
  method UpdateContacts(l: seq<Binding>, ghost aor: string, x: Context, cs: seq<Contact>) returns (r: seq<Binding>)
    requires NoDuplicates(l) && forall b :: b in l ==> b.owner == aor
    modifies l
    ensures NoDuplicates(r) && (forall b :: b in r ==> b.owner == aor && (b in l || fresh(b)))
    ensures Infos(r) == WithContacts(old(Infos(l)), x, cs)
  {
    r := l;
    for i := 0 to |cs|
      invariant NoDuplicates(r) && (forall b :: b in r ==> b.owner == aor && (b in l || fresh(b)))
      invariant Infos(r) == WithContacts(old(Infos(l)), x, cs[..i])
    {
      var c := cs[i];
      assert cs[..i + 1] == cs[..i] + [c];
      WithContactsAppend(old(Infos(l)), x, cs[..i], c);
      var expires := x.defaultExpires as int;
      if c.expires >= 0 { expires := c.expires; }
      if expires == 0 {
        r := RemoveBinding(r, c.uri);
      } else {
        ghost var had := r;
        assert forall b :: b in r ==> b in l || fresh(b);
        assert forall i :: 0 <= i < |r| ==> r[i] in r && (r[i] in l || fresh(r[i]));
        r := UpsertBinding(r, aor, x, c);
        assert forall b :: b in r ==> b in had || fresh(b);
      }
    }
    assert cs[..|cs|] == cs;
  }

  method FilterUnexpired(l: seq<Binding>, now: int) returns (r: seq<Binding>)
    requires NoDuplicates(l)
    ensures NoDuplicates(r) && (forall b :: b in r ==> b in l)
    ensures Infos(r) == Filter(Infos(l), Unexpired(now))
  {
    r := [];
    for i := 0 to |l|
      invariant NoDuplicates(r) && (forall b :: b in r ==> b in l[..i])
      invariant Infos(r) == Filter(Infos(l[..i]), Unexpired(now))
    {
      assert l[..i + 1] == l[..i] + [l[i]];
      assert Infos(l[..i + 1]) == Infos(l[..i]) + [l[i].info];
      FilterAppend(Infos(l[..i]), l[i].info, Unexpired(now));
      if l[i].info.expires > now {
        assert l[i] !in l[..i];
        assert Infos(r + [l[i]]) == Infos(r) + [l[i].info];
        r := r + [l[i]];
      }
    }
    assert l[..|l|] == l;
  }

  method FilterFlow(l: seq<Binding>, flow: string) returns (r: seq<Binding>)
    requires NoDuplicates(l)
    ensures NoDuplicates(r) && (forall b :: b in r ==> b in l)
    ensures Infos(r) == Filter(Infos(l), OffFlow(flow))
  {
    r := [];
    for i := 0 to |l|
      invariant NoDuplicates(r) && (forall b :: b in r ==> b in l[..i])
      invariant Infos(r) == Filter(Infos(l[..i]), OffFlow(flow))
    {
      assert l[..i + 1] == l[..i] + [l[i]];
      assert Infos(l[..i + 1]) == Infos(l[..i]) + [l[i].info];
      FilterAppend(Infos(l[..i]), l[i].info, OffFlow(flow));
      if l[i].info.flow != flow {
        assert l[i] !in l[..i];
        assert Infos(r + [l[i]]) == Infos(r) + [l[i].info];
        r := r + [l[i]];
      }
    }
    assert l[..|l|] == l;
  }

  class BindingTable {
    var bindings: map<string, seq<Binding>>
    var lastCSeq: map<string, int>
    ghost var Repr: set<Binding>

    /** Every binding object is in one place of one list, and no list is empty. */
    ghost predicate Valid()
      reads this
    {
      && (forall a :: a in bindings ==> bindings[a] != [] && NoDuplicates(bindings[a]))
      && (forall a, b :: a in bindings && b in bindings[a] ==> b in Repr && b.owner == a)
    }

    ghost function Value(): (s: State)
      reads this, Repr
      requires Valid()
    {
      State(map a | a in bindings :: Infos(bindings[a]), lastCSeq)
    }

    constructor ()
      ensures Valid() && Value() == EMPTY && Repr == {}
    {
      bindings, lastCSeq, Repr := map[], map[], {};
    }

    /** GetBindings: copies, which later calls do not reach. */
    method GetBindings(aor: string) returns (r: seq<Binding>)
      requires Valid()
      ensures Infos(r) == ListOf(Value(), aor)
      ensures forall b :: b in r ==> fresh(b) && b !in Repr
    {
      var l := if aor in bindings then bindings[aor] else [];
      r := [];
      for i := 0 to |l|
        invariant forall b :: b in r ==> fresh(b)
        invariant Infos(r) == Infos(l)[..i]
      {
        var cp := new Binding(l[i].info, aor);
        assert Infos(r + [cp]) == Infos(r) + [cp.info];
        r := r + [cp];
      }
    }

    /** HandleRegister under its lock. */
    method HandleRegister(aor: string, x: Context, request: Request) returns (status: int)
      requires Valid()
      modifies this, Repr
      ensures Valid() && fresh(Repr - old(Repr))
      ensures Value() == Step(old(Value()), Register(aor, x, request))
      ensures status == if InOrder(old(Value()), x) && (request.Star? ==> x.defaultExpires == 0) then 200 else 400
    {
      hide WithContacts, Infos, NoDuplicates, WithList;
      assert NoDuplicates([]) by { EmptyNoDuplicates(); }
      assert Infos([]) == [];
      if x.callId in lastCSeq && x.cseq <= lastCSeq[x.callId] { return 400; }
      match request {
        case Star =>
          if x.defaultExpires != 0 { return 400; }
          Replace(aor, []);
          SetLast(x.callId, x.cseq);
          return 200;
        case Query => return 200;
        case Update(contacts) =>
          ChangeList(aor, x, contacts);
          SetLast(x.callId, x.cseq);
          return 200;
      }
    }

    method ChangeList(aor: string, x: Context, contacts: seq<Contact>)
      requires Valid()
      modifies this`bindings, this`Repr, Repr
      ensures lastCSeq == old(lastCSeq)
      ensures Valid() && fresh(Repr - old(Repr))
      ensures Value().bindings
           == WithList(old(Value().bindings), aor, WithContacts(ListOf(old(Value()), aor), x, contacts))
    {
      hide WithContacts, NoDuplicates;
      var had := if aor in bindings then bindings[aor] else [];
      assert forall b :: b in had ==> b.owner == aor;
      assert NoDuplicates(had) by { EmptyNoDuplicates(); }
      assert forall b :: b in had ==> b in Repr;
      var l := UpdateContacts(had, aor, x, contacts);
      forall a | a in bindings && a != aor ensures Infos(bindings[a]) == old(Infos(bindings[a])) {
        OthersOwn(a, aor, had);
      }
      WithListAgree(old(Value().bindings), Value().bindings, aor, Infos(l));
      Replace(aor, l);
    }

    lemma WithListAgree(b: map<string, seq<Info>>, c: map<string, seq<Info>>, aor: string, l: seq<Info>)
      requires b.Keys == c.Keys && forall a :: a in b && a != aor ==> b[a] == c[a]
      ensures WithList(b, aor, l) == WithList(c, aor, l)
    {
    }

    lemma OthersOwn(a: string, aor: string, had: seq<Binding>)
      requires a in bindings && a != aor
      requires forall c, b :: c in bindings && b in bindings[c] ==> b in Repr && b.owner == c
      requires forall b :: b in had ==> b.owner == aor
      ensures forall i :: 0 <= i < |bindings[a]| ==> bindings[a][i] !in had
    {
      assert forall i :: 0 <= i < |bindings[a]| ==> bindings[a][i] in bindings[a];
    }

    lemma EmptyNoDuplicates()
      ensures NoDuplicates([])
    {
    }

    method SetLast(callId: string, cseq: int)
      requires Valid()
      modifies this`lastCSeq
      ensures Valid() && Value() == old(Value()).(lastCSeq := old(lastCSeq)[callId := cseq])
    {
      hide NoDuplicates, Infos;
      lastCSeq := lastCSeq[callId := cseq];
    }

    /** The list of one address of record is replaced, or deleted when nothing is left of it. */
    method Replace(aor: string, l: seq<Binding>)
      requires Valid() && NoDuplicates(l) && forall b :: b in l ==> b.owner == aor
      modifies this`bindings, this`Repr
      ensures Valid() && Repr == old(Repr) + (set b | b in l)
      ensures Value() == old(Value()).(bindings := WithList(old(Value().bindings), aor, Infos(l)))
    {
      hide NoDuplicates, Infos;
      ghost var was, now := Value().bindings, Infos(l);
      Repr := Repr + (set b | b in l);
      if l == [] {
        bindings := bindings - {aor};
        assert Value().bindings == was - {aor};
      } else {
        bindings := bindings[aor := l];
        assert Infos(bindings[aor]) == now;
        assert Value().bindings == was[aor := now];
      }
    }

    /** What a walk over the table has done when the lists of left are still to be filtered. */
    ghost predicate Filtered(table: map<string, seq<Binding>>, left: set<string>, keep: Info -> bool)
      reads this, Repr
      requires Valid()
    {
      && left <= table.Keys && table.Keys <= bindings.Keys
      && (forall a :: a in left ==> table[a] == bindings[a])
      && (forall a :: a in table ==>
            table[a] != [] && NoDuplicates(table[a]) && forall b :: b in table[a] ==> b in bindings[a])
      && (forall a :: a in bindings && a !in left ==> (a in table <==> Filter(Infos(bindings[a]), keep) != []))
      && (forall a :: a in table && a !in left ==> Infos(table[a]) == Filter(Infos(bindings[a]), keep))
    }

    lemma FilteredNone(keep: Info -> bool)
      requires Valid()
      ensures Filtered(bindings, bindings.Keys, keep)
    {
      hide Filter, NoDuplicates;
    }

    lemma FilteredGives(table: map<string, seq<Binding>>, left: set<string>, a: string, keep: Info -> bool)
      requires Valid() && Filtered(table, left, keep) && a in left
      ensures a in table && NoDuplicates(table[a])
    {
      hide Filter;
    }

    lemma FilteredStep(table: map<string, seq<Binding>>, left: set<string>, a: string, l: seq<Binding>,
      keep: Info -> bool)
      requires Valid() && Filtered(table, left, keep) && a in left
      requires NoDuplicates(l) && (forall b :: b in l ==> b in table[a]) && Infos(l) == Filter(Infos(table[a]), keep)
      ensures Filtered(if l == [] then table - {a} else table[a := l], left - {a}, keep)
    {
      hide Filter, NoDuplicates;
      assert l == [] <==> Infos(l) == [];
    }

    /** The filtered lists take the place of the old ones. */
    method Adopt(table: map<string, seq<Binding>>, ghost keep: Info -> bool)
      requires Valid() && Filtered(table, {}, keep)
      modifies this`bindings
      ensures Valid() && Value() == old(Value()).(bindings := Kept(old(Value()).bindings, keep))
    {
      hide Filter, NoDuplicates;
      FilteredAll(table, keep);
      bindings := table;
    }

    lemma FilteredAll(table: map<string, seq<Binding>>, keep: Info -> bool)
      requires Valid() && Filtered(table, {}, keep)
      ensures (map a | a in table :: Infos(table[a])) == Kept(Value().bindings, keep)
    {
      hide Filter;
    }

    method Sweep(now: int)
      requires Valid()
      modifies this`bindings
      ensures Valid() && Value() == Step(old(Value()), Event.Sweep(now))
    {
      hide Unexpired, Filter, NoDuplicates, Infos, Filtered;
      FilteredNone(Unexpired(now));
      var table, left := bindings, bindings.Keys;
      while left != {}
        invariant Filtered(table, left, Unexpired(now))
        decreases left
        modifies {}
      {
        var a :| a in left;
        FilteredGives(table, left, a, Unexpired(now));
        var filtered := FilterUnexpired(table[a], now);
        FilteredStep(table, left, a, filtered, Unexpired(now));
        left := left - {a};
        if filtered == [] { table := table - {a}; } else { table := table[a := filtered]; }
      }
      Adopt(table, Unexpired(now));
    }

    method RemoveBindingsByFlowId(flow: string)
      requires Valid()
      modifies this`bindings
      ensures Valid() && Value() == Step(old(Value()), FlowClosed(flow))
    {
      hide OffFlow, Filter, NoDuplicates, Infos, Filtered;
      FilteredNone(OffFlow(flow));
      var table, left := bindings, bindings.Keys;
      while left != {}
        invariant Filtered(table, left, OffFlow(flow))
        decreases left
        modifies {}
      {
        var a :| a in left;
        FilteredGives(table, left, a, OffFlow(flow));
        var filtered := FilterFlow(table[a], flow);
        FilteredStep(table, left, a, filtered, OffFlow(flow));
        left := left - {a};
        if filtered == [] { table := table - {a}; } else { table := table[a := filtered]; }
      }
      Adopt(table, OffFlow(flow));
    }

    /** One step of the registrar. */
    method Take(e: Event)
      requires Valid()
      modifies this, Repr
      ensures Valid() && fresh(Repr - old(Repr)) && Value() == Step(old(Value()), e)
    {
      hide Step, Infos, NoDuplicates;
      match e {
        case Register(aor, x, request) => var status := HandleRegister(aor, x, request);
        case Sweep(now) => Sweep(now);
        case FlowClosed(flow) => RemoveBindingsByFlowId(flow);
      }
    }

    /** A list returned by GetBindings is not changed by any later run of the registrar. */
    method SnapshotSurvives(aor: string, es: seq<Event>) returns (r: seq<Binding>)
      requires Valid()
      modifies this, Repr
      ensures Valid() && Value() == Run(old(Value()), es)
      ensures Infos(r) == ListOf(old(Value()), aor)
    {
      hide Step, Infos, NoDuplicates, ListOf;
      r := GetBindings(aor);
      ghost var before := Infos(r);
      assert es[0..] == es;
      for i := 0 to |es|
        invariant Valid() && fresh(Repr - old(Repr))
        invariant forall b :: b in r ==> b !in Repr && fresh(b)
        invariant Infos(r) == before && Run(Value(), es[i..]) == Run(old(Value()), es)
      {
        assert es[i..][1..] == es[i + 1..];
        ghost var had := Repr;
        Take(es[i]);
        assert forall b :: b in Repr ==> b in had || fresh(b);
      }
    }
  }
}
