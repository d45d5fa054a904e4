/** The kernel's IPC mechanism in place: the process table and the endpoint queues are
    updated by each host call exactly as the step system says. */
module IpcKernel {
  import opened Wrappers
  import opened Pools
  import opened IpcState
  import opened KernelAbi

  /** The two queues of an endpoint object. */
  datatype EndpointQueues = EndpointQueues(senders: BoundedQueue<nat>, receivers: BoundedQueue<nat>)

  datatype Side = Sending | Receiving

  /** A live endpoint's queues are empty, and every object of them is owned. */
  ghost predicate FreshEndpoint(q: Option<EndpointQueues>, live: bool, e: nat, owner: map<object, (nat, Side)>)
    reads set o | o in owner
  {
    && (q.Some? <==> live)
    && (q.Some? ==>
          var tx, rx := q.value.senders, q.value.receivers;
          && tx in owner && owner[tx] == (e, Sending) && tx.items in owner && owner[tx.items] == (e, Sending)
          && rx in owner && owner[rx] == (e, Receiving) && rx.items in owner && owner[rx.items] == (e, Receiving)
          && tx.items.Length == QUEUE_CAPACITY && tx.Valid() && tx.contents == []
          && rx.items.Length == QUEUE_CAPACITY && rx.Valid() && rx.contents == [])
  }

  method NewEndpoint(live: bool, e: nat, ghost owner: map<object, (nat, Side)>)
    returns (q: Option<EndpointQueues>, ghost owner': map<object, (nat, Side)>)
    ensures owner.Keys <= owner'.Keys && forall o :: o in owner ==> owner'[o] == owner[o]
    ensures forall o :: o in owner' && o !in owner ==> fresh(o)
    ensures FreshEndpoint(q, live, e, owner')
  {
    if !live { return None, owner; }
    var tx := new BoundedQueue<nat>(QUEUE_CAPACITY);
    var rx := new BoundedQueue<nat>(QUEUE_CAPACITY);
    q := Some(EndpointQueues(tx, rx));
    owner' := owner[tx := (e, Sending)][tx.items := (e, Sending)][rx := (e, Receiving)][rx.items := (e, Receiving)];
  }

  class IpcTables {
    const procs: array<Option<Process>>
    const eps: seq<Option<EndpointQueues>>

    /** The abstract state the tables hold, and which queue each object belongs to. */
    ghost var st: State
    ghost const owner: map<object, (nat, Side)>

    ghost predicate Owns(e: nat, side: Side, q: BoundedQueue<nat>) {
      && q in owner && owner[q] == (e, side)
      && q.items in owner && owner[q.items] == (e, side)
      && q.items.Length == QUEUE_CAPACITY
    }

    /** Endpoint `e`: owned queues that hold what the state says. */
    ghost predicate HoldsEndpoint(e: nat)
      requires e < |eps| && e < |st.eps|
      reads this, set o | o in owner
    {
      && (eps[e].Some? <==> st.eps[e].Some?)
      && (eps[e].Some? ==>
            var q := eps[e].value;
            && Owns(e, Sending, q.senders) && q.senders.Valid() && q.senders.contents == st.eps[e].value.senders
            && Owns(e, Receiving, q.receivers) && q.receivers.Valid() && q.receivers.contents == st.eps[e].value.receivers)
    }

    ghost predicate Valid()
      reads this, procs, set o | o in owner
    {
      && procs !in owner && this !in owner
      && Sized(st) && |eps| == MAX_ENDPOINTS
      && procs[..] == st.procs
      && forall e: nat :: e < MAX_ENDPOINTS ==> HoldsEndpoint(e)
    }

    /** The tables at boot: the given processes, and empty queues for the live endpoints. */
    constructor (table: seq<Option<Process>>, live: seq<bool>)
      requires |table| == MAX_PROCS && |live| == MAX_ENDPOINTS
      ensures Valid() && fresh(procs)
      ensures st.procs == table
      ensures forall e: nat :: e < MAX_ENDPOINTS ==> st.eps[e] == if live[e] then Some(Endpoint([], [])) else None
    {
      var slots := new Option<Process>[MAX_PROCS](i requires 0 <= i < MAX_PROCS => table[i]);
      ghost var owners: map<object, (nat, Side)> := map[];
      var queues: seq<Option<EndpointQueues>> := [];
      while |queues| < MAX_ENDPOINTS
        invariant |queues| <= MAX_ENDPOINTS && slots[..] == table && slots !in owners
        invariant forall o :: o in owners ==> fresh(o)
        invariant forall e: nat :: e < |queues| ==> FreshEndpoint(queues[e], live[e], e, owners)
      {
        ghost var before := owners;
        var at := |queues|;
        var q;
        q, owners := NewEndpoint(live[at], at, owners);
        queues := queues + [q];
        forall e: nat | e < at ensures FreshEndpoint(queues[e], live[e], e, owners) {
          assert FreshEndpoint(queues[e], live[e], e, before);
        }
      }
      procs, eps, owner := slots, queues, owners;
      st := State(table, seq(MAX_ENDPOINTS, e requires 0 <= e < MAX_ENDPOINTS => if live[e] then Some(Endpoint([], [])) else None));
      new;
      forall e: nat | e < MAX_ENDPOINTS ensures HoldsEndpoint(e) {
        assert FreshEndpoint(eps[e], live[e], e, owner);
      }
    }

    /** An endpoint whose queues are untouched is held as before. */
    twostate lemma StillHolds(f: nat)
      requires f < |eps| && f < |old(st.eps)| && f < |st.eps| && st.eps[f] == old(st.eps[f]) && old(HoldsEndpoint(f))
      requires eps[f].Some? ==>
        var q := eps[f].value;
        unchanged(q.senders) && unchanged(q.senders.items) && unchanged(q.receivers) && unchanged(q.receivers.items)
      ensures HoldsEndpoint(f)
    {}

    /** The queue of `e` on one side. */
    function QueueOf(e: nat, side: Side): BoundedQueue<nat>
      requires e < |eps| && eps[e].Some?
    {
      if side.Sending? then eps[e].value.senders else eps[e].value.receivers
    }

    /** When one queue of one endpoint alone has changed, the tables hold the state that says so. */
    twostate lemma QueueChanged(at: (nat, Side))
      requires old(Valid()) && at.0 < MAX_ENDPOINTS && eps[at.0].Some?
      requires unchanged(procs, set o | o in owner && owner[o] != at)
      requires QueueOf(at.0, at.1).Valid()
      requires st == SetEp(old(st), at.0, Endpoint(eps[at.0].value.senders.contents, eps[at.0].value.receivers.contents))
      ensures Valid()
    {
      forall f: nat | f < MAX_ENDPOINTS
        ensures HoldsEndpoint(f)
      {
        assert old(HoldsEndpoint(f));
        if f != at.0 { StillHolds(f); }
      }
    }

    /** Take the front of one queue of `e`. */
    method Pop(e: nat, side: Side) returns (r: Option<nat>)
      requires Valid() && e < MAX_ENDPOINTS
      modifies this, set o | o in owner
      ensures Valid() && st.procs == old(st.procs)
      ensures var ep := old(st.eps[e]);
        if ep.None? || (if side.Sending? then ep.value.senders else ep.value.receivers) == []
        then r == None && st == old(st)
        else if side.Sending?
        then r == Some(ep.value.senders[0]) && st == SetEp(old(st), e, ep.value.(senders := ep.value.senders[1..]))
        else r == Some(ep.value.receivers[0]) && st == SetEp(old(st), e, ep.value.(receivers := ep.value.receivers[1..]))
    {
      assert HoldsEndpoint(e);
      if eps[e].None? { return None; }
      label before:
      r := QueueOf(e, side).Pop();
      st := SetEp(st, e, Endpoint(eps[e].value.senders.contents, eps[e].value.receivers.contents));
      QueueChanged@before((e, side));
      if r.None? { assert st.eps == old(st.eps); }
    }

    /** Join the back of one queue of `e`. */
    method Push(e: nat, side: Side, p: nat) returns (ok: bool)
      requires Valid() && e < MAX_ENDPOINTS
      modifies this, set o | o in owner
      ensures Valid() && st.procs == old(st.procs)
      ensures var ep := old(st.eps[e]);
        if ep.None? || |if side.Sending? then ep.value.senders else ep.value.receivers| >= QUEUE_CAPACITY
        then !ok && st == old(st)
        else if side.Sending?
        then ok && st == SetEp(old(st), e, ep.value.(senders := ep.value.senders + [p]))
        else ok && st == SetEp(old(st), e, ep.value.(receivers := ep.value.receivers + [p]))
    {
      assert HoldsEndpoint(e);
      if eps[e].None? { return false; }
      label before:
      ok := QueueOf(e, side).Push(p);
      st := SetEp(st, e, Endpoint(eps[e].value.senders.contents, eps[e].value.receivers.contents));
      QueueChanged@before((e, side));
      if !ok { assert st.eps == old(st.eps); }
    }

    /** Replace one entry of the process table. */
    method SetProc(p: nat, v: Process)
      requires Valid() && p < MAX_PROCS
      modifies this`st, procs
      ensures Valid() && st == old(st).(procs := old(st.procs)[p := Some(v)])
    {
      label before:
      procs[p] := Some(v);
      st := st.(procs := procs[..]);
      forall f: nat | f < MAX_ENDPOINTS
        ensures HoldsEndpoint(f)
      {
        assert old@before(HoldsEndpoint(f));
      }
    }

    method StashRegs(p: nat, msg: MsgRegs)
      requires Valid() && p < MAX_PROCS
      modifies this`st, procs
      ensures Valid() && st == old(st).(procs := Stash(old(st.procs), p, msg))
    {
      if procs[p].Some? { SetProc(p, procs[p].value.(regs := msg)); }
    }

    method BlockAndYield(p: nat, reason: BlockReason, e: nat, buf: nat)
      requires Valid() && p < MAX_PROCS
      modifies this`st, procs
      ensures Valid() && st == old(st).(procs := Block(old(st.procs), p, reason, e, buf))
    {
      if procs[p].Some? {
        SetProc(p, procs[p].value.(state := Blocked(reason, e % 256), msgBuf := buf));
      }
    }

    /** Deliver kernel-side and wake, first the registers and then the state. */
    method DeliverAndWake(q: nat, msg: Option<MsgRegs>)
      requires Valid() && q < MAX_PROCS
      modifies this`st, procs
      ensures Valid() && st == old(st).(procs := Wake(old(st.procs), q, msg))
    {
      if procs[q].None? { return; }
      if msg.Some? { SetProc(q, procs[q].value.(regs := msg.value)); }
      if procs[q].value.state.Blocked? { SetProc(q, procs[q].value.(state := Ready)); }
    }

    /** Scan for the lowest process that awaits a reply on `e`. */
    method ReplyWaiterOn(e: nat) returns (r: Option<nat>)
      requires Valid()
      ensures r == ReplyWaiter(st.procs, e, 0)
    {
      var i := 0;
      while i < MAX_PROCS
        invariant i <= MAX_PROCS && ReplyWaiter(st.procs, e, 0) == ReplyWaiter(st.procs, e, i)
      {
        if procs[i].Some? && procs[i].value.state == Blocked(ReplyWait, e) { return Some(i); }
        i := i + 1;
      }
      return None;
    }

    ghost predicate QueuesNameProcesses()
      reads this
    {
      Sized(st) && QueuesInRange(st)
    }

    method IpcSendLike(p: nat, ep: Result<nat, Errno>, msg: Result<MsgRegs, Errno>, buf: nat, op: Op) returns (a: Answer)
      requires Valid() && QueuesNameProcesses() && Enabled(st, DoSend(p, ep, msg, buf, op))
      modifies this, procs, set o | o in owner
      ensures Valid() && (st, a) == Apply(old(st), DoSend(p, ep, msg, buf, op))
    {
      if ep.Err? { return Failed(ep.error); }
      if msg.Err? { return Failed(msg.error); }
      var e := ep.value;
      StashRegs(p, msg.value);
      assert st.eps[e].Some? && st.eps[e].value.receivers != [] ==> st.eps[e].value.receivers[0] in st.eps[e].value.receivers;
      var peer := Pop(e, Receiving);
      match Resolve(op, peer.Some?)
      case Rendezvous(next) =>
        DeliverAndWake(peer.value, Some(msg.value));
        if next.None? { return Done; }
        BlockAndYield(p, next.value, e, buf);
        a := Suspended;
      case Enqueue(reason) =>
        var pushed := Push(e, Sending, p);
        if !pushed { return Failed(E_AGAIN); }
        BlockAndYield(p, reason, e, buf);
        a := Suspended;
    }

    /** `write` is what writing a message into the caller's memory answers; the message
        written is the one answered. */
    method IpcRecv(p: nat, ep: Result<nat, Errno>, buf: nat, write: Result<(), Errno>) returns (a: Answer)
      requires Valid() && QueuesNameProcesses() && Enabled(st, DoRecv(p, ep, buf, write))
      modifies this, procs, set o | o in owner
      ensures Valid() && (st, a) == Apply(old(st), DoRecv(p, ep, buf, write))
    {
      if ep.Err? { return Failed(ep.error); }
      var e := ep.value;
      assert st.eps[e].Some? && st.eps[e].value.senders != [] ==> st.eps[e].value.senders[0] in st.eps[e].value.senders;
      var peer := Pop(e, Sending);
      match Resolve(Recv, peer.Some?)
      case Rendezvous(_) =>
        var tx := peer.value;
        if procs[tx].None? { return Failed(E_PERM); }
        var msg := procs[tx].value.regs;
        if write.Err? { return Failed(write.error); }
        var state := procs[tx].value.state;
        if state.Blocked? && state.reason == CallWait {
          SetProc(tx, procs[tx].value.(state := Blocked(ReplyWait, state.ep)));
        } else {
          DeliverAndWake(tx, None);
        }
        a := Received(msg);
      case Enqueue(reason) =>
        var pushed := Push(e, Receiving, p);
        if !pushed { return Failed(E_AGAIN); }
        BlockAndYield(p, reason, e, buf);
        a := Suspended;
    }

    method IpcReply(p: nat, ep: Result<nat, Errno>, msg: Result<MsgRegs, Errno>) returns (a: Answer)
      requires Valid() && QueuesNameProcesses() && Enabled(st, DoReply(p, ep, msg))
      modifies this`st, procs
      ensures Valid() && (st, a) == Apply(old(st), DoReply(p, ep, msg))
    {
      if ep.Err? { return Failed(ep.error); }
      var waiter := ReplyWaiterOn(ep.value);
      match Resolve(Reply, waiter.Some?)
      case Rendezvous(_) =>
        if msg.Err? { return Failed(msg.error); }
        DeliverAndWake(waiter.value, Some(msg.value));
        a := Done;
      case Invalid => a := Failed(E_INVAL);
    }
  }
}
