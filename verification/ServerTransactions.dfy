/** The transaction table and the transactions in it, updated in place (internal/sip/transaction.go). */
module ServerTransactions {
  import opened Octets
  import opened InviteServer
  import opened NonInviteServer

  datatype Transaction = Invite(ist: InviteTransaction) | NonInvite(nist: NonInviteTransaction)

  twostate predicate Untouched(t: Transaction)
    reads match t case Invite(i) => {i as object} case NonInvite(n) => {n as object}
  {
    match t
    case Invite(i) => i.Value() == old(i.Value()) && i.sent == old(i.sent)
    case NonInvite(n) => n.Value() == old(n.Value()) && n.sent == old(n.sent)
  }

  /** A transaction that has just seen its request again. */
  twostate predicate Repeated(t: Transaction)
    reads match t case Invite(i) => {i as object} case NonInvite(n) => {n as object}
  {
    match t
    case Invite(i) =>
      i.Value() == old(i.Value()) && i.sent == old(i.sent) + Step(old(i.Value()), Retransmission).1
    case NonInvite(n) =>
      n.Value() == old(n.Value()) && n.sent == old(n.sent) + NStep(old(n.Value()), NRetransmission).1
  }

  class TransactionManager {
    var serverTxs: map<string, Transaction>
    /** Answers sent outside any transaction. */
    ghost var strays: seq<Response>

    constructor ()
      ensures serverTxs == map[] && strays == [] && Valid()
    {
      serverTxs := map[];
      strays := [];
    }

    ghost function Objects(): (r: set<object>)
      reads this
    {
      (set b | b in serverTxs && serverTxs[b].Invite? :: serverTxs[b].ist as object)
      + (set b | b in serverTxs && serverTxs[b].NonInvite? :: serverTxs[b].nist as object)
    }

    ghost predicate Valid()
      reads this, Objects()
    {
      forall b :: b in serverTxs ==>
        match serverTxs[b]
        case Invite(t) => t.branch == b && t.manager == this && t.Valid()
        case NonInvite(t) => t.branch == b && t.manager == this
    }

    /** HandleRequest for INVITE: one transaction per branch; a repeated INVITE only repeats the final response. */
    method HandleInvite(branch: string, reliable: bool) returns (tx: InviteTransaction?)
      requires Valid()
      modifies this, Objects()
      ensures Valid() && strays == old(strays)
      ensures branch == "" || branch in old(serverTxs) ==> tx == null && serverTxs == old(serverTxs)
      ensures branch != "" && branch in old(serverTxs) ==> Repeated(old(serverTxs)[branch])
      ensures branch != "" && branch !in old(serverTxs) ==>
        tx != null && fresh(tx) && serverTxs == old(serverTxs)[branch := Invite(tx)] && tx.Value() == New(reliable)
      ensures forall b :: b in old(serverTxs) && (b != branch || branch == "") ==> Untouched(old(serverTxs)[b])
    {
      tx := null;
      if branch == "" { return; }
      if branch in serverTxs {
        match serverTxs[branch] {
          case Invite(t) => t.HandleRetransmission();
          case NonInvite(t) => t.HandleRetransmission();
        }
        return;
      }
      tx := new InviteTransaction(this, branch, reliable);
    }

    /** HandleRequest for any method but INVITE and CANCEL. */
    method HandleNonInvite(branch: string) returns (tx: NonInviteTransaction?)
      requires Valid()
      modifies this, Objects()
      ensures Valid() && strays == old(strays)
      ensures branch == "" || branch in old(serverTxs) ==> tx == null && serverTxs == old(serverTxs)
      ensures branch != "" && branch in old(serverTxs) ==> Repeated(old(serverTxs)[branch])
      ensures branch != "" && branch !in old(serverTxs) ==>
        tx != null && fresh(tx) && serverTxs == old(serverTxs)[branch := NonInvite(tx)] && tx.Value() == NEW
      ensures forall b :: b in old(serverTxs) && (b != branch || branch == "") ==> Untouched(old(serverTxs)[b])
    {
      tx := null;
      if branch == "" { return; }
      if branch in serverTxs {
        match serverTxs[branch] {
          case Invite(t) => t.HandleRetransmission();
          case NonInvite(t) => t.HandleRetransmission();
        }
        return;
      }
      tx := new NonInviteTransaction(this, branch);
    }

    /** HandleRequest for CANCEL. */
    method HandleCancel(branch: string, handled: bool)
      requires Valid()
      modifies this, Objects()
      ensures Valid() && serverTxs == old(serverTxs)
      ensures branch in old(serverTxs) && branch != "" && old(serverTxs)[branch].Invite? ==>
        var t := old(serverTxs)[branch].ist;
        && t.Value() == Step(old(t.Value()), Cancel(handled)).0
        && t.sent == old(t.sent) + Step(old(t.Value()), Cancel(handled)).1 && strays == old(strays)
      ensures branch != "" && !(branch in old(serverTxs) && old(serverTxs)[branch].Invite?) ==>
        strays == old(strays) + [NO_TRANSACTION]
      ensures branch == "" ==> strays == old(strays)
      ensures forall b :: b in old(serverTxs) && (b != branch || branch == "" || !old(serverTxs)[b].Invite?) ==>
        Untouched(old(serverTxs)[b])
    {
      if branch == "" { return; }
      if branch in serverTxs && serverTxs[branch].Invite? {
        serverTxs[branch].ist.HandleCancelRequest(handled);
        return;
      }
      strays := strays + [NO_TRANSACTION];
    }

    /** HandleACK. */
    method HandleAck(branch: string)
      requires Valid()
      modifies this, Objects()
      ensures Valid() && strays == old(strays)
      ensures branch in old(serverTxs) && branch != "" && old(serverTxs)[branch].Invite? ==>
        var t := old(serverTxs)[branch].ist;
        && t.Value() == Step(old(t.Value()), Ack).0 && t.sent == old(t.sent)
        && serverTxs == if Deletes(old(t.Value()), Ack) then old(serverTxs) - {branch} else old(serverTxs)
      ensures !(branch in old(serverTxs) && branch != "" && old(serverTxs)[branch].Invite?) ==>
        serverTxs == old(serverTxs)
      ensures forall b :: b in old(serverTxs) && (b != branch || branch == "" || !old(serverTxs)[b].Invite?) ==>
        Untouched(old(serverTxs)[b])
    {
      if branch == "" || branch !in serverTxs || !serverTxs[branch].Invite? { return; }
      serverTxs[branch].ist.AckReceived();
    }
  }

  class InviteTransaction {
    const manager: TransactionManager
    const branch: string
    const reliable: bool
    var state: Phase
    var lastResp: Option<Response>
    var cancelOkResp: Option<Response>
    var gCount: nat
    var stopped: bool
    ghost var sent: seq<Sent>

    ghost predicate Valid()
      reads this
    {
      && (cancelOkResp.Some? ==> cancelOkResp.value == CANCEL_OK)
      && (state == Completed ==> lastResp.Some?)
    }

    ghost function Value(): (t: Tx)
      reads this
    {
      Tx(state, lastResp, cancelOkResp.Some?, gCount, reliable, stopped)
    }

    constructor (m: TransactionManager, branch: string, reliable: bool)
      modifies m`serverTxs
      ensures manager == m && this.branch == branch
      ensures Valid() && Value() == New(reliable) && sent == []
      ensures m.serverTxs == old(m.serverTxs)[branch := Invite(this)]
    {
      manager := m;
      this.branch := branch;
      this.reliable := reliable;
      state := Trying;
      lastResp := None;
      cancelOkResp := None;
      gCount := 0;
      stopped := false;
      sent := [];
      new;
      m.serverTxs := m.serverTxs[branch := Invite(this)];
    }

    method Send(forInvite: bool, res: Response, ghost cause: Cause)
      modifies this`sent
      ensures sent == old(sent) + [Sent(forInvite, res, cause)]
    {
      sent := sent + [Sent(forInvite, res, cause)];
    }

    method Deregister()
      modifies manager`serverTxs
      ensures manager.serverTxs == old(manager.serverTxs) - {branch}
    {
      manager.serverTxs := manager.serverTxs - {branch};
    }

    method Respond(res: Response)
      requires Valid()
      modifies this, manager`serverTxs
      ensures Valid() && Value() == Step(old(Value()), Event.Respond(res)).0
      ensures sent == old(sent) + Step(old(Value()), Event.Respond(res)).1
      ensures manager.serverTxs ==
        if Deletes(old(Value()), Event.Respond(res)) then old(manager.serverTxs) - {branch} else old(manager.serverTxs)
    {
      if state == Terminated || state == Confirmed { return; }
      var sc := res.status;
      if 100 <= sc < 200 {
        if sc == 100 {
          if state == Trying || state == Proceeding { Send(true, res, OnRespond); }
          return;
        }
        if state == Trying || state == Proceeding {
          state := Proceeding;
          Send(true, res, OnRespond);
        }
      } else if 200 <= sc < 300 {
        state := Terminated;
        Send(true, res, OnRespond);
        Deregister();
      } else if sc >= 300 {
        lastResp := Some(res);
        if state != Completed {
          state := Completed;
          Send(true, res, OnRespond);
          if !reliable { gCount := 0; }
        }
      }
    }

    method AckReceived()
      requires Valid()
      modifies this, manager`serverTxs
      ensures Valid() && Value() == Step(old(Value()), Ack).0
      ensures manager.serverTxs ==
        if Deletes(old(Value()), Ack) then old(manager.serverTxs) - {branch} else old(manager.serverTxs)
      ensures sent == old(sent)
    {
      if state != Completed { return; }
      state := Confirmed;
      if reliable {
        state := Terminated;
        Deregister();
      }
    }

    method HandleRetransmission()
      requires Valid()
      modifies this`sent
      ensures Valid() && Value() == Step(old(Value()), Retransmission).0
      ensures sent == old(sent) + Step(old(Value()), Retransmission).1
    {
      if state == Completed && lastResp.Some? { Send(true, lastResp.value, OnRetransmission); }
    }

    method HandleCancelRequest(handled: bool)
      requires Valid()
      modifies this
      ensures Valid() && Value() == Step(old(Value()), Cancel(handled)).0
      ensures sent == old(sent) + Step(old(Value()), Cancel(handled)).1
    {
      if state == Trying || state == Proceeding {
        Send(false, CANCEL_OK, OnCancel);
        cancelOkResp := Some(CANCEL_OK);
        if handled { return; }
        lastResp := Some(REQUEST_TERMINATED);
        Send(true, REQUEST_TERMINATED, OnCancel);
        state := Completed;
        if !reliable { gCount := 0; }
      } else if state == Completed && cancelOkResp.Some? {
        Send(false, cancelOkResp.value, OnCancel);
      } else {
        Send(false, NO_TRANSACTION, OnCancel);
      }
    }

    /** Callback of timer G. */
    method TimerGFired()
      requires Valid()
      modifies this
      ensures Valid() && Value() == Step(old(Value()), TimerG).0
      ensures sent == old(sent) + Step(old(Value()), TimerG).1
    {
      if stopped || state != Completed { return; }
      Send(true, lastResp.value, OnTimerG);
      gCount := gCount + 1;
    }

    /** Callback of timers H and I. */
    method EndTimerFired()
      requires Valid()
      modifies this, manager`serverTxs
      ensures Valid() && Value() == Step(old(Value()), TimerH).0 == Step(old(Value()), TimerI).0
      ensures Deletes(old(Value()), TimerH) == Deletes(old(Value()), TimerI)
      ensures manager.serverTxs ==
        if Deletes(old(Value()), TimerH) then old(manager.serverTxs) - {branch} else old(manager.serverTxs)
      ensures sent == old(sent)
    {
      if stopped { return; }
      state := Terminated;
      Deregister();
    }
  }

  class NonInviteTransaction {
    const manager: TransactionManager
    const branch: string
    var state: State
    var lastResp: Option<Response>
    var stopped: bool
    ghost var sent: seq<Response>

    ghost function Value(): (t: Ntx)
      reads this
    {
      Ntx(state, lastResp, stopped)
    }

    constructor (m: TransactionManager, branch: string)
      modifies m`serverTxs
      ensures manager == m && this.branch == branch
      ensures Value() == NEW && sent == []
      ensures m.serverTxs == old(m.serverTxs)[branch := NonInvite(this)]
    {
      manager := m;
      this.branch := branch;
      state := NTrying;
      lastResp := None;
      stopped := false;
      sent := [];
      new;
      m.serverTxs := m.serverTxs[branch := NonInvite(this)];
    }

    method Respond(res: Response)
      modifies this
      ensures Value() == NStep(old(Value()), NRespond(res)).0
      ensures sent == old(sent) + NStep(old(Value()), NRespond(res)).1
    {
      if state == NTerminated { return; }
      var sc := res.status;
      if 100 <= sc < 200 {
        if state == NTrying { state := NProceeding; }
        sent := sent + [res];
      } else if sc >= 200 {
        lastResp := Some(res);
        state := NCompleted;
        sent := sent + [res];
      }
    }

    method HandleRetransmission()
      modifies this`sent
      ensures Value() == old(Value())
      ensures sent == old(sent) + NStep(old(Value()), NRetransmission).1
    {
      if state == NCompleted && lastResp.Some? { sent := sent + [lastResp.value]; }
    }

    /** Callback of timer J. */
    method TimerJFired()
      modifies this, manager`serverTxs
      ensures Value() == NStep(old(Value()), TimerJ).0
      ensures manager.serverTxs ==
        if old(stopped) then old(manager.serverTxs) else old(manager.serverTxs) - {branch}
      ensures sent == old(sent)
    {
      if stopped { return; }
      state := NTerminated;
      manager.serverTxs := manager.serverTxs - {branch};
    }
  }
}
