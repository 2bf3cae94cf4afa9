/** The binding of one contact, read off the events alone (internal/sip/registrar.go). */
module RegistrationRuns {
  import opened Octets
  import opened Registrations

  /** The last sequence number accepted under a Call-ID. */
  function LastAccepted(es: seq<Event>, callId: string): (r: Option<int>)
    decreases |es|, 0
  {
    if es == [] then None
    else
      var n := |es| - 1;
      if Changes(es[..n], es[n]) && es[n].x.callId == callId then Some(es[n].x.cseq)
      else LastAccepted(es[..n], callId)
  }

  /** A REGISTER with contacts, or one that removes all at once, whose sequence number is higher than the last one. */
  predicate Changes(es: seq<Event>, e: Event)
    decreases |es|, 1
  {
    && e.Register? && (e.request.Update? || (e.request.Star? && e.x.defaultExpires == 0))
    && var last := LastAccepted(es, e.x.callId);
    last.Some? ==> e.x.cseq > last.value
  }

  /** What one contact of a REGISTER makes of a binding: its own expiry counts before the default; zero removes. */
  function AfterContact(x: Context, c: Contact, i: Option<Info>): (r: Option<Info>) {
    var life := if c.expires >= 0 then c.expires else x.defaultExpires;
    if life == 0 then None
    else
      Some(Info(c.uri, x.callId, x.cseq, c.at + life, c.at, x.flow, c.ob,
                if i.Some? && c.regId < 0 then i.value.regId else c.regId,
                if i.Some? && c.instance == "" then i.value.instance else c.instance))
  }

  function AfterContacts(x: Context, cs: seq<Contact>, uri: string, i: Option<Info>): (r: Option<Info>)
    decreases |cs|
  {
    if cs == [] then i
    else AfterContacts(x, cs[1..], uri, if cs[0].uri == uri then AfterContact(x, cs[0], i) else i)
  }

  /** The binding of a contact after a run. */
  function Binding(es: seq<Event>, aor: string, uri: string): (r: Option<Info>) {
    if es == [] then None
    else
      var n := |es| - 1;
      var i := Binding(es[..n], aor, uri);
      match es[n]
      case Register(a, x, request) =>
        if a != aor || !Changes(es[..n], es[n]) then i
        else if request.Update? then AfterContacts(x, request.contacts, uri, i)
        else None
      case Sweep(now) => if i.Some? && i.value.expires > now then i else None
      case FlowClosed(flow) => if i.Some? && i.value.flow != flow then i else None
  }

  function Lookup(m: map<string, Info>, uri: string): (r: Option<Info>) {
    if uri in m then Some(m[uri]) else None
  }

  lemma ContactLooksUp(m: map<string, Info>, x: Context, c: Contact, uri: string)
    requires forall k :: k in m ==> m[k].contact == k
    ensures var r := MapContact(m, x, c);
      && (forall k :: k in r ==> r[k].contact == k)
      && Lookup(r, uri) == if c.uri == uri then AfterContact(x, c, Lookup(m, uri)) else Lookup(m, uri)
  {
  }

  lemma {:induction false} ContactsLookUp(m: map<string, Info>, x: Context, cs: seq<Contact>, uri: string)
    requires forall k :: k in m ==> m[k].contact == k
    ensures Lookup(MapContacts(m, x, cs), uri) == AfterContacts(x, cs, uri, Lookup(m, uri))
    decreases |cs|
  {
    hide MapContact, AfterContact;
    if cs == [] {
    } else {
      ContactLooksUp(m, x, cs[0], uri);
      ContactsLookUp(MapContact(m, x, cs[0]), x, cs[1..], uri);
    }
  }

  lemma {:induction false} RunSnoc(s: State, es: seq<Event>, e: Event)
    ensures Run(s, es + [e]) == Step(Run(s, es), e)
    decreases |es|
  {
    hide Step;
    if es == [] {
      assert es + [e] == [e] && [e][1..] == [];
    } else {
      assert (es + [e])[1..] == es[1..] + [e];
      RunSnoc(Step(s, es[0]), es[1..], e);
    }
  }

  lemma StepNumbers(s: State, e: Event)
    ensures Step(s, e).lastCSeq == if Accepted(s, e) then s.lastCSeq[e.x.callId := e.x.cseq] else s.lastCSeq
  {
    hide WithContacts, Kept, WithList, ListOf;
  }

  predicate NumbersSeen(s: State, es: seq<Event>, callId: string) {
    LastAccepted(es, callId) == if callId in s.lastCSeq then Some(s.lastCSeq[callId]) else None
  }

  lemma ChangesIs(s: State, es: seq<Event>, e: Event)
    requires e.Register? ==> NumbersSeen(s, es, e.x.callId)
    ensures Changes(es, e) <==> Accepted(s, e)
  {
    hide LastAccepted;
  }

  lemma LastSnoc(es: seq<Event>, e: Event, callId: string)
    ensures LastAccepted(es + [e], callId) ==
      if Changes(es, e) && e.x.callId == callId then Some(e.x.cseq) else LastAccepted(es, callId)
  {
    hide Changes;
    assert (es + [e])[..|es|] == es;
  }

  lemma {:induction false} AlwaysNumbered(es: seq<Event>, callId: string)
    ensures NumbersSeen(Run(EMPTY, es), es, callId)
    decreases |es|
  {
    hide Step, Changes, Accepted;
    if es == [] {
    } else {
      var n := |es| - 1;
      var e, s := es[n], Run(EMPTY, es[..n]);
      assert es == es[..n] + [e];
      RunSnoc(EMPTY, es[..n], e);
      AlwaysNumbered(es[..n], callId);
      if e.Register? { AlwaysNumbered(es[..n], e.x.callId); }
      ChangesIs(s, es[..n], e);
      LastSnoc(es[..n], e, callId);
      StepNumbers(s, e);
    }
  }

  lemma ChangesExactly(es: seq<Event>, e: Event)
    ensures Changes(es, e) <==> Accepted(Run(EMPTY, es), e)
  {
    hide Run, LastAccepted;
    if e.Register? { AlwaysNumbered(es, e.x.callId); }
    ChangesIs(Run(EMPTY, es), es, e);
  }

  lemma FilterLooksUp(m: map<string, Info>, p: Info -> bool, uri: string)
    ensures var i := Lookup(m, uri); Lookup(MapFilter(m, p), uri) == if i.Some? && p(i.value) then i else None
  {
  }

  /** After every run, the registrar holds exactly the bindings that the events call for, each with its expiry. */
  lemma {:induction false} BindingExactly(es: seq<Event>, aor: string, uri: string)
    ensures Lookup(MapOf(Run(EMPTY, es), aor), uri) == Binding(es, aor, uri)
    decreases |es|
  {
    hide Step, Inv, Changes, Accepted, MapContacts, AfterContacts, MapFilter, AsMap;
    if es == [] {
      assert Lookup(MapOf(EMPTY, aor), uri) == None by { NothingYet(aor); }
    } else {
      var n := |es| - 1;
      var e, s := es[n], Run(EMPTY, es[..n]);
      assert es == es[..n] + [e];
      RunSnoc(EMPTY, es[..n], e);
      BindingExactly(es[..n], aor, uri);
      assert Inv(EMPTY) by { EmptyInv(); }
      RunKeeps(EMPTY, es[..n]);
      StepRefines(s, e, aor);
      ChangesExactly(es[..n], e);
      AsMapKeys(ListOf(s, aor));
      match e
      case Register(a, x, request) => if request.Update? { ContactsLookUp(MapOf(s, aor), x, request.contacts, uri); }
      case Sweep(now) => FilterLooksUp(MapOf(s, aor), Unexpired(now), uri);
      case FlowClosed(flow) => FilterLooksUp(MapOf(s, aor), OffFlow(flow), uri);
    }
  }

  lemma NothingYet(aor: string)
    ensures MapOf(EMPTY, aor) == map[]
  {
  }

  lemma EmptyInv()
    ensures Inv(EMPTY)
  {
  }
}
