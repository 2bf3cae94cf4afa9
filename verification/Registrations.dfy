/** Registration bindings as lists that stand for maps (section 10.3 of RFC 3261, internal/sip/registrar.go). */
module Registrations {
  import opened Octets

  datatype Info = Info(contact: string, callId: string, cseq: int, expires: int, lastUpdate: int, flow: string,
                       ob: bool, regId: int, instance: string)

  /** One contact of a REGISTER; expires is -1 where the contact has none, at is the clock when it is handled. */
  datatype Contact = Contact(uri: string, expires: int, regId: int, instance: string, ob: bool, at: int)

  /** What all contacts of one REGISTER share. */
  datatype Context = Context(callId: string, cseq: int, defaultExpires: nat, flow: string)

  function Lifetime(x: Context, c: Contact): (secs: int) {
    if c.expires >= 0 then c.expires else x.defaultExpires
  }

  function Created(x: Context, c: Contact): (i: Info) {
    Info(c.uri, x.callId, x.cseq, c.at + Lifetime(x, c), c.at, x.flow, c.ob, c.regId, c.instance)
  }

  /** A refreshed binding keeps its reg-id and instance where the contact names none. */
  function Refreshed(x: Context, c: Contact, i: Info): (r: Info)
    ensures r.contact == i.contact
  {
    Info(i.contact, x.callId, x.cseq, c.at + Lifetime(x, c), c.at, x.flow, c.ob,
         if c.regId >= 0 then c.regId else i.regId, if c.instance != "" then c.instance else i.instance)
  }

  // ---- Lists ----

  function Upsert(l: seq<Info>, x: Context, c: Contact): (r: seq<Info>)
    ensures r != []
  {
    if l == [] then [Created(x, c)]
    else if l[0].contact == c.uri then [Refreshed(x, c, l[0])] + l[1..]
    else [l[0]] + Upsert(l[1..], x, c)
  }

  function Without(l: seq<Info>, uri: string): (r: seq<Info>) {
    if l == [] then [] else if l[0].contact == uri then l[1..] else [l[0]] + Without(l[1..], uri)
  }

  function Filter(l: seq<Info>, p: Info -> bool): (r: seq<Info>) {
    if l == [] then [] else (if p(l[0]) then [l[0]] else []) + Filter(l[1..], p)
  }

  function WithContact(l: seq<Info>, x: Context, c: Contact): (r: seq<Info>) {
    if Lifetime(x, c) == 0 then Without(l, c.uri) else Upsert(l, x, c)
  }

  /** The contact loop. */
  function WithContacts(l: seq<Info>, x: Context, cs: seq<Contact>): (r: seq<Info>)
    decreases |cs|
  {
    if cs == [] then l else WithContacts(WithContact(l, x, cs[0]), x, cs[1..])
  }

  // ---- Maps ----

  function AsMap(l: seq<Info>): (m: map<string, Info>) {
    if l == [] then map[] else AsMap(l[1..])[l[0].contact := l[0]]
  }

  function Contacts(l: seq<Info>): (r: seq<string>)
    ensures |r| == |l|
  {
    seq(|l|, i requires 0 <= i < |l| => l[i].contact)
  }

  /** No two bindings share a contact. */
  predicate Distinct(l: seq<Info>) {
    forall i, j :: 0 <= i < j < |l| ==> l[i].contact != l[j].contact
  }

  lemma {:induction false} AsMapKeys(l: seq<Info>)
    ensures forall k :: k in AsMap(l) <==> exists i :: 0 <= i < |l| && l[i].contact == k
    ensures forall k :: k in AsMap(l) ==> AsMap(l)[k].contact == k
  {
    if l == [] {
    } else {
      AsMapKeys(l[1..]);
      forall k ensures k in AsMap(l) <==> exists i :: 0 <= i < |l| && l[i].contact == k {
        if i :| 0 <= i < |l[1..]| && l[1..][i].contact == k { assert l[i + 1].contact == k; }
        if i :| 0 <= i < |l| && l[i].contact == k {
          if i > 0 { assert l[1..][i - 1].contact == k; }
        }
      }
    }
  }

  lemma DistinctTail(l: seq<Info>)
    requires Distinct(l) && l != []
    ensures Distinct(l[1..]) && l[0].contact !in AsMap(l[1..])
  {
    AsMapKeys(l[1..]);
    assert forall i :: 0 <= i < |l[1..]| ==> l[1..][i] == l[i + 1];
  }

  lemma DistinctCons(h: Info, t: seq<Info>)
    requires Distinct(t) && h.contact !in AsMap(t)
    ensures Distinct([h] + t) && AsMap([h] + t) == AsMap(t)[h.contact := h]
  {
    AsMapKeys(t);
    assert ([h] + t)[1..] == t;
  }

  function MapUpsert(m: map<string, Info>, x: Context, c: Contact): (r: map<string, Info>) {
    m[c.uri := if c.uri in m then Refreshed(x, c, m[c.uri]) else Created(x, c)]
  }

  /** Upserting into the list updates the map, keeps the order, and appends what is new. */
  lemma {:induction false} UpsertRefines(l: seq<Info>, x: Context, c: Contact)
    requires Distinct(l)
    ensures var r := Upsert(l, x, c);
      && Distinct(r) && AsMap(r) == MapUpsert(AsMap(l), x, c)
      && Contacts(r) == if c.uri in AsMap(l) then Contacts(l) else Contacts(l) + [c.uri]
  {
    hide Created, Refreshed, Distinct;
    if l == [] {
      assert Distinct(l);
      DistinctCons(Created(x, c), []);
      assert [Created(x, c)] + [] == [Created(x, c)];
      assert Created(x, c).contact == c.uri by { CreatedContact(x, c); }
    } else {
      var h, t := l[0], l[1..];
      DistinctTail(l);
      assert l == [h] + t;
      if h.contact == c.uri {
        DistinctCons(Refreshed(x, c, h), t);
      } else {
        UpsertRefines(t, x, c);
        DistinctCons(h, Upsert(t, x, c));
        ConsContacts(h, Upsert(t, x, c));
        ConsContacts(h, t);
      }
    }
  }

  lemma CreatedContact(x: Context, c: Contact)
    ensures Created(x, c).contact == c.uri
  {
  }

  lemma ConsContacts(h: Info, t: seq<Info>)
    ensures Contacts([h] + t) == [h.contact] + Contacts(t)
  {
  }

  function Dropped(ss: seq<string>, s: string): (r: seq<string>) {
    if ss == [] then [] else (if ss[0] == s then [] else [ss[0]]) + Dropped(ss[1..], s)
  }

  lemma {:induction false} DroppedAbsent(ss: seq<string>, s: string)
    requires s !in ss
    ensures Dropped(ss, s) == ss
  {
    if ss == [] {
    } else {
      DroppedAbsent(ss[1..], s);
    }
  }

  /** Removing from the list removes from the map and keeps the order of the rest. */
  lemma {:induction false} WithoutRefines(l: seq<Info>, uri: string)
    requires Distinct(l)
    ensures var r := Without(l, uri);
      Distinct(r) && AsMap(r) == AsMap(l) - {uri} && Contacts(r) == Dropped(Contacts(l), uri)
  {
    hide Distinct;
    if l == [] {
    } else {
      var h, t := l[0], l[1..];
      DistinctTail(l);
      assert l == [h] + t;
      ConsContacts(h, t);
      assert ([h.contact] + Contacts(t))[1..] == Contacts(t);
      if h.contact == uri {
        assert AsMap(l) - {uri} == AsMap(t);
        AsMapKeys(t);
        DroppedAbsent(Contacts(t), uri);
      } else {
        WithoutRefines(t, uri);
        DistinctCons(h, Without(t, uri));
        ConsContacts(h, Without(t, uri));
        assert AsMap(l) - {uri} == (AsMap(t) - {uri})[h.contact := h];
      }
    }
  }

  function MapFilter(m: map<string, Info>, p: Info -> bool): (r: map<string, Info>) {
    map k | k in m && p(m[k]) :: m[k]
  }

  lemma MapFilterCons(m: map<string, Info>, h: Info, p: Info -> bool)
    requires h.contact !in m
    ensures h.contact !in MapFilter(m, p)
    ensures MapFilter(m[h.contact := h], p) == if p(h) then MapFilter(m, p)[h.contact := h] else MapFilter(m, p)
  {
  }

  /** Filtering the list filters the map. */
  lemma {:induction false} FilterRefines(l: seq<Info>, p: Info -> bool)
    requires Distinct(l)
    ensures Distinct(Filter(l, p)) && AsMap(Filter(l, p)) == MapFilter(AsMap(l), p)
  {
    hide Distinct, MapFilter, AsMap;
    if l == [] {
      assert MapFilter(AsMap([]), p) == AsMap([]) by { NothingFiltered(p); }
      assert l == [];
    } else {
      var h, t := l[0], l[1..];
      DistinctTail(l);
      FilterRefines(t, p);
      assert l == [h] + t;
      DistinctCons(h, t);
      MapFilterCons(AsMap(t), h, p);
      if p(h) {
        DistinctCons(h, Filter(t, p));
      } else {
        assert [] + Filter(t, p) == Filter(t, p);
      }
    }
  }

  lemma NothingFiltered(p: Info -> bool)
    ensures MapFilter(AsMap([]), p) == AsMap([])
  {
  }

  function MapContact(m: map<string, Info>, x: Context, c: Contact): (r: map<string, Info>) {
    if Lifetime(x, c) == 0 then m - {c.uri} else MapUpsert(m, x, c)
  }

  function MapContacts(m: map<string, Info>, x: Context, cs: seq<Contact>): (r: map<string, Info>)
    decreases |cs|
  {
    if cs == [] then m else MapContacts(MapContact(m, x, cs[0]), x, cs[1..])
  }

  /** The contact loop of a REGISTER is the in-order sequence of map updates and removals. */
  lemma {:induction false} ContactsRefine(l: seq<Info>, x: Context, cs: seq<Contact>)
    requires Distinct(l)
    ensures Distinct(WithContacts(l, x, cs)) && AsMap(WithContacts(l, x, cs)) == MapContacts(AsMap(l), x, cs)
    decreases |cs|
  {
    hide Distinct, Upsert, Without, AsMap, MapUpsert;
    if cs == [] {
    } else {
      UpsertRefines(l, x, cs[0]);
      WithoutRefines(l, cs[0].uri);
      ContactsRefine(WithContact(l, x, cs[0]), x, cs[1..]);
    }
  }

  // ---- The registrar ----

  datatype State = State(bindings: map<string, seq<Info>>, lastCSeq: map<string, int>)

  const EMPTY := State(map[], map[])

  /** What a REGISTER asks for. */
  datatype Request = Query | Star | Update(contacts: seq<Contact>)

  datatype Event =
    | Register(aor: string, x: Context, request: Request)
    | Sweep(now: int)
    | FlowClosed(flow: string)

  function ListOf(s: State, aor: string): (l: seq<Info>) {
    if aor in s.bindings then s.bindings[aor] else []
  }

  function WithList(b: map<string, seq<Info>>, aor: string, l: seq<Info>): (r: map<string, seq<Info>>) {
    if l == [] then b - {aor} else b[aor := l]
  }

  /** Not a repetition: the sequence number is above the last accepted one of its Call-ID. */
  predicate InOrder(s: State, x: Context) {
    x.callId in s.lastCSeq ==> x.cseq > s.lastCSeq[x.callId]
  }

  /** Does the event change bindings with the registrar's consent? */
  predicate Accepted(s: State, e: Event) {
    && e.Register? && InOrder(s, e.x)
    && (e.request.Update? || (e.request.Star? && e.x.defaultExpires == 0))
  }

  /** Bindings for which keep holds, aor by aor. */
  function Kept(b: map<string, seq<Info>>, keep: Info -> bool): (r: map<string, seq<Info>>) {
    map a | a in b && Filter(b[a], keep) != [] :: Filter(b[a], keep)
  }

  function Unexpired(now: int): Info -> bool {
    (i: Info) => i.expires > now
  }

  function OffFlow(flow: string): Info -> bool {
    (i: Info) => i.flow != flow
  }

  function Step(s: State, e: Event): (r: State) {
    match e
    case Register(aor, x, request) =>
      if !Accepted(s, e) then s
      else
        var l := if request.Star? then [] else WithContacts(ListOf(s, aor), x, request.contacts);
        State(WithList(s.bindings, aor, l), s.lastCSeq[x.callId := x.cseq])
    case Sweep(now) => s.(bindings := Kept(s.bindings, Unexpired(now)))
    case FlowClosed(flow) => s.(bindings := Kept(s.bindings, OffFlow(flow)))
  }

  function Run(s: State, es: seq<Event>): (r: State)
    decreases |es|
  {
    if es == [] then s else Run(Step(s, es[0]), es[1..])
  }

  /** No address of record has an empty list or two bindings with one contact. */
  predicate Inv(s: State) {
    forall a :: a in s.bindings ==> s.bindings[a] != [] && Distinct(s.bindings[a])
  }

  lemma KeptInv(b: map<string, seq<Info>>, keep: Info -> bool)
    requires forall a :: a in b ==> Distinct(b[a])
    ensures forall a :: a in Kept(b, keep) ==> Kept(b, keep)[a] != [] && Distinct(Kept(b, keep)[a])
  {
    hide Distinct;
    forall a | a in Kept(b, keep) ensures Kept(b, keep)[a] != [] && Distinct(Kept(b, keep)[a]) {
      FilterRefines(b[a], keep);
    }
  }

  lemma StepKeeps(s: State, e: Event)
    requires Inv(s)
    ensures Inv(Step(s, e))
  {
    hide Distinct, WithContacts, Kept;
    match e
    case Register(aor, x, request) =>
      if request.Update? {
        assert Distinct(ListOf(s, aor)) by { EmptyDistinct(); }
        ContactsRefine(ListOf(s, aor), x, request.contacts);
      }
    case Sweep(now) => KeptInv(s.bindings, Unexpired(now));
    case FlowClosed(flow) => KeptInv(s.bindings, OffFlow(flow));
  }

  lemma EmptyDistinct()
    ensures Distinct([])
  {
  }

  /** In every reachable state the lists stand for maps. */
  lemma {:induction false} RunKeeps(s: State, es: seq<Event>)
    requires Inv(s)
    ensures Inv(Run(s, es))
    decreases |es|
  {
    hide Inv, Step;
    if es == [] {
    } else {
      StepKeeps(s, es[0]);
      RunKeeps(Step(s, es[0]), es[1..]);
    }
  }

  /** The registrar as a map of maps. */
  function MapOf(s: State, aor: string): (m: map<string, Info>) {
    AsMap(ListOf(s, aor))
  }

  /** Every step acts on the maps as its specification says. */
  lemma StepRefines(s: State, e: Event, aor: string)
    requires Inv(s)
    ensures MapOf(Step(s, e), aor) ==
      match e {
        case Register(a, x, request) =>
          if a != aor || !Accepted(s, e) then MapOf(s, aor)
          else if request.Update? then MapContacts(MapOf(s, aor), x, request.contacts)
          else map[]
        case Sweep(now) => MapFilter(MapOf(s, aor), Unexpired(now))
        case FlowClosed(flow) => MapFilter(MapOf(s, aor), OffFlow(flow))
      }
  {
    hide Distinct, WithContacts, MapContacts, Unexpired, OffFlow;
    EmptyDistinct();
    match e
    case Register(a, x, request) =>
      if request.Update? { ContactsRefine(ListOf(s, aor), x, request.contacts); }
    case Sweep(now) => KeptRefines(s, aor, Unexpired(now));
    case FlowClosed(flow) => KeptRefines(s, aor, OffFlow(flow));
  }

  lemma KeptRefines(s: State, aor: string, keep: Info -> bool)
    requires Inv(s)
    ensures MapOf(s.(bindings := Kept(s.bindings, keep)), aor) == MapFilter(MapOf(s, aor), keep)
    ensures ListOf(s.(bindings := Kept(s.bindings, keep)), aor) == Filter(ListOf(s, aor), keep)
  {
    hide Distinct;
    EmptyDistinct();
    FilterRefines(ListOf(s, aor), keep);
  }

  // ---- Sequence numbers ----

  /** The Call-ID's last accepted number never goes down. */
  lemma {:induction false} LastNeverDrops(s: State, es: seq<Event>, c: string)
    requires c in s.lastCSeq
    ensures c in Run(s, es).lastCSeq && s.lastCSeq[c] <= Run(s, es).lastCSeq[c]
    decreases |es|
  {
    hide WithContacts, Kept, WithList;
    if es == [] {
    } else {
      LastNeverDrops(Step(s, es[0]), es[1..], c);
    }
  }

  /** Two accepted changes under one Call-ID, however far apart, have increasing sequence numbers. */
  lemma AcceptedInOrder(s: State, first: Event, between: seq<Event>, second: Event)
    requires Accepted(s, first) && Accepted(Run(Step(s, first), between), second)
    requires first.x.callId == second.x.callId
    ensures first.x.cseq < second.x.cseq
  {
    hide WithContacts, Kept, WithList;
    LastNeverDrops(Step(s, first), between, first.x.callId);
  }
}
