/** What every step of every interleaving keeps: queues and process states agree. */
module IpcInvariants {
  import opened Wrappers
  import opened IpcState
  import opened KernelAbi
  import opened Sequences

  /** Process `p` exists and is in state `state`. */
  ghost predicate InState(st: State, p: nat, state: ProcState) {
    p < |st.procs| && st.procs[p].Some? && st.procs[p].value.state == state
  }

  ghost predicate WaitsToSend(st: State, p: nat, e: nat) {
    InState(st, p, Blocked(SendWait, e)) || InState(st, p, Blocked(CallWait, e))
  }

  /** One endpoint: both queues bounded and free of duplicates, one of them empty, and
      everyone queued blocked on this endpoint for the reason of its queue. */
  ghost predicate EndpointOk(st: State, e: nat)
    requires Sized(st) && e < MAX_ENDPOINTS
  {
    st.eps[e].Some? ==>
      var ep := st.eps[e].value;
      && |ep.senders| <= QUEUE_CAPACITY && |ep.receivers| <= QUEUE_CAPACITY
      && NoRepeats(ep.senders) && NoRepeats(ep.receivers)
      && (ep.senders == [] || ep.receivers == [])
      && (forall q :: q in ep.senders ==> WaitsToSend(st, q, e))
      && (forall q :: q in ep.receivers ==> InState(st, q, Blocked(RecvWait, e)))
  }

  ghost predicate QueuedMeansBlocked(st: State) {
    && Sized(st)
    && forall e: nat :: e < MAX_ENDPOINTS ==> EndpointOk(st, e)
  }

  lemma QueuedInRange(st: State)
    requires QueuedMeansBlocked(st)
    ensures QueuesInRange(st)
  {
    forall e: nat | e < MAX_ENDPOINTS && st.eps[e].Some?
      ensures (forall q :: q in st.eps[e].value.senders ==> q < MAX_PROCS)
      ensures (forall q :: q in st.eps[e].value.receivers ==> q < MAX_PROCS)
    {
      assert EndpointOk(st, e);
    }
  }

  // ---- The converse: everyone blocked on a rendezvous is queued ----

  ghost predicate BlockedIsQueued(st: State, p: nat)
    requires Sized(st) && p < MAX_PROCS
  {
    st.procs[p].Some? && st.procs[p].value.state.Blocked? ==>
      var b := st.procs[p].value.state;
      && (b.reason in {SendWait, CallWait} ==> b.ep < MAX_ENDPOINTS && st.eps[b.ep].Some? && p in st.eps[b.ep].value.senders)
      && (b.reason == RecvWait ==> b.ep < MAX_ENDPOINTS && st.eps[b.ep].Some? && p in st.eps[b.ep].value.receivers)
  }

  ghost predicate BlockedMeansQueued(st: State)
    requires Sized(st)
  {
    forall p: nat :: p < MAX_PROCS ==> BlockedIsQueued(st, p)
  }

  /** The step is a receive that takes a waiting sender and then cannot write its buffer. */
  predicate Strands(st: State, s: Step) {
    && s.DoRecv? && s.ep.Ok? && s.write.Err?
    && s.ep.value < |st.eps| && st.eps[s.ep.value].Some? && st.eps[s.ep.value].value.senders != []
  }

  /** The tables at boot: empty queues, nobody blocked. */
  ghost predicate Quiet(st: State) {
    && Sized(st)
    && (forall e: nat :: e < MAX_ENDPOINTS ==> st.eps[e] in {None, Some(Endpoint([], []))})
    && (forall p: nat :: p < MAX_PROCS && st.procs[p].Some? ==> !st.procs[p].value.state.Blocked?)
  }

  lemma QuietAgrees(st: State)
    requires Quiet(st)
    ensures QueuedMeansBlocked(st) && BlockedMeansQueued(st)
  {
    forall e: nat | e < MAX_ENDPOINTS ensures EndpointOk(st, e) { assert st.eps[e] in {None, Some(Endpoint([], []))}; }
  }

  // ---- Both are kept ----

  /** Another endpoint keeps its shape when only processes outside its queues move. */
  lemma EndpointFrame(st: State, st': State, e: nat)
    requires Sized(st) && Sized(st') && e < MAX_ENDPOINTS && EndpointOk(st, e) && st'.eps[e] == st.eps[e]
    requires forall q: nat {:trigger st'.procs[q]} :: q < MAX_PROCS && st'.procs[q] != st.procs[q] ==>
               st.eps[e].Some? ==> q !in st.eps[e].value.senders && q !in st.eps[e].value.receivers
    ensures EndpointOk(st', e)
  {
    if st.eps[e].Some? {
      var ep := st.eps[e].value;
      forall q | q in ep.senders ensures WaitsToSend(st', q, e) {
        assert WaitsToSend(st, q, e);
        assert st'.procs[q] == st.procs[q];
      }
      forall q | q in ep.receivers ensures InState(st', q, Blocked(RecvWait, e)) {
        assert InState(st, q, Blocked(RecvWait, e));
        assert st'.procs[q] == st.procs[q];
      }
    }
  }

  /** A process that is running, or waits for anything but a rendezvous, is on no queue. */
  lemma NotQueued(st: State, p: nat, e: nat)
    requires QueuedMeansBlocked(st) && e < MAX_ENDPOINTS && st.eps[e].Some?
    requires p < MAX_PROCS && st.procs[p].Some?
    requires !st.procs[p].value.state.Blocked? || st.procs[p].value.state.reason in {ReplyWait, EventWait}
             || st.procs[p].value.state.ep != e
    ensures p !in st.eps[e].value.senders && p !in st.eps[e].value.receivers
  {
    assert EndpointOk(st, e);
  }

  /** From endpoint `e` alone to all endpoints: the processes that moved were on no
      other endpoint's queues. */
  lemma OneEndpointMoves(st: State, st': State, e: nat)
    requires QueuedMeansBlocked(st) && Sized(st') && e < MAX_ENDPOINTS
    requires forall f: nat :: f < MAX_ENDPOINTS && f != e ==> st'.eps[f] == st.eps[f]
    requires forall q: nat {:trigger st'.procs[q]} :: q < MAX_PROCS && st'.procs[q] != st.procs[q] ==> MayMove(st, q, e)
    requires EndpointOk(st', e)
    ensures QueuedMeansBlocked(st')
  {
    forall f: nat | f < MAX_ENDPOINTS
      ensures EndpointOk(st', f)
    {
      if f != e {
        assert EndpointOk(st, f);
        EndpointFrame(st, st', f);
      }
    }
  }

  /** `q` is on no queue of an endpoint other than `e`. */
  ghost predicate MayMove(st: State, q: nat, e: nat)
    requires Sized(st) && q < MAX_PROCS
  {
    st.procs[q].Some? ==>
      var s := st.procs[q].value.state;
      !s.Blocked? || s.reason in {ReplyWait, EventWait} || s.ep == e
  }

  /** A send that finds a receiver. */
  lemma SendMeetsReceiver(st: State, p: nat, e: nat, msg: MsgRegs, buf: nat, op: Op)
    requires QueuedMeansBlocked(st) && QueuesInRange(st) && IsRunning(st, p) && e < MAX_ENDPOINTS && op in {Send, Call}
    requires st.eps[e].Some? && st.eps[e].value.receivers != []
    ensures QueuedMeansBlocked(SendLike(st, p, e, msg, buf, op).0)
  {
    var st', ep := SendLike(st, p, e, msg, buf, op).0, st.eps[e].value;
    assert EndpointOk(st, e);
    NotQueued(st, p, e);
    PopFront(ep.receivers);
    var rx := ep.receivers[0];
    assert InState(st, rx, Blocked(RecvWait, e));
    assert forall q: nat {:trigger st'.procs[q]} :: q < MAX_PROCS && q != p && q != rx ==> st'.procs[q] == st.procs[q];
    assert st'.eps[e] == Some(Endpoint([], ep.receivers[1..]));
    forall q | q in ep.receivers[1..]
      ensures InState(st', q, Blocked(RecvWait, e))
    {
      assert InState(st, q, Blocked(RecvWait, e));
    }
    OneEndpointMoves(st, st', e);
  }

  /** A send that finds none: refused when the queue is full, otherwise queued. */
  lemma SendWaits(st: State, p: nat, e: nat, msg: MsgRegs, buf: nat, op: Op)
    requires QueuedMeansBlocked(st) && QueuesInRange(st) && IsRunning(st, p) && e < MAX_ENDPOINTS && op in {Send, Call}
    requires st.eps[e].Some? ==> st.eps[e].value.receivers == []
    ensures QueuedMeansBlocked(SendLike(st, p, e, msg, buf, op).0)
  {
    var st' := SendLike(st, p, e, msg, buf, op).0;
    assert EndpointOk(st, e);
    assert forall q: nat {:trigger st'.procs[q]} :: q < MAX_PROCS && q != p ==> st'.procs[q] == st.procs[q];
    if st.eps[e].Some? {
      NotQueued(st, p, e);
      var senders := st.eps[e].value.senders;
      PushBack(senders, p);
      forall q | q in senders
        ensures WaitsToSend(st', q, e)
      {
        assert WaitsToSend(st, q, e);
      }
    }
    assert EndpointOk(st', e);
    OneEndpointMoves(st, st', e);
  }

  lemma SendKeepsQueues(st: State, p: nat, e: nat, msg: MsgRegs, buf: nat, op: Op)
    requires QueuedMeansBlocked(st) && QueuesInRange(st) && IsRunning(st, p) && e < MAX_ENDPOINTS && op in {Send, Call}
    ensures QueuedMeansBlocked(SendLike(st, p, e, msg, buf, op).0)
  {
    if st.eps[e].Some? && st.eps[e].value.receivers != [] {
      SendMeetsReceiver(st, p, e, msg, buf, op);
    } else {
      SendWaits(st, p, e, msg, buf, op);
    }
  }

  /** A receive that finds a sender. */
  lemma RecvMeetsSender(st: State, p: nat, e: nat, buf: nat, write: Result<(), Errno>)
    requires QueuedMeansBlocked(st) && QueuesInRange(st) && IsRunning(st, p) && e < MAX_ENDPOINTS
    requires st.eps[e].Some? && st.eps[e].value.senders != []
    ensures QueuedMeansBlocked(Receive(st, p, e, buf, write).0)
  {
    var st', ep := Receive(st, p, e, buf, write).0, st.eps[e].value;
    assert EndpointOk(st, e);
    PopFront(ep.senders);
    assert WaitsToSend(st, ep.senders[0], e);
    forall q | q in ep.senders[1..]
      ensures WaitsToSend(st', q, e)
    {
      assert WaitsToSend(st, q, e);
    }
    assert EndpointOk(st', e);
    OneEndpointMoves(st, st', e);
  }

  /** A receive that finds none: refused when the queue is full, otherwise queued. */
  lemma RecvWaits(st: State, p: nat, e: nat, buf: nat, write: Result<(), Errno>)
    requires QueuedMeansBlocked(st) && QueuesInRange(st) && IsRunning(st, p) && e < MAX_ENDPOINTS
    requires st.eps[e].Some? ==> st.eps[e].value.senders == []
    ensures QueuedMeansBlocked(Receive(st, p, e, buf, write).0)
  {
    var st' := Receive(st, p, e, buf, write).0;
    assert EndpointOk(st, e);
    if st.eps[e].Some? {
      NotQueued(st, p, e);
      PushBack(st.eps[e].value.receivers, p);
    }
    assert EndpointOk(st', e);
    OneEndpointMoves(st, st', e);
  }

  lemma RecvKeepsQueues(st: State, p: nat, e: nat, buf: nat, write: Result<(), Errno>)
    requires QueuedMeansBlocked(st) && QueuesInRange(st) && IsRunning(st, p) && e < MAX_ENDPOINTS
    ensures QueuedMeansBlocked(Receive(st, p, e, buf, write).0)
  {
    if st.eps[e].Some? && st.eps[e].value.senders != [] {
      RecvMeetsSender(st, p, e, buf, write);
    } else {
      RecvWaits(st, p, e, buf, write);
    }
  }

  /** Moving a process that is on no queue keeps every queue. */
  lemma UnqueuedMoves(st: State, st': State, p: nat)
    requires QueuedMeansBlocked(st) && p < MAX_PROCS && st'.eps == st.eps
    requires |st'.procs| == MAX_PROCS
    requires forall q: nat {:trigger st'.procs[q]} :: q < MAX_PROCS && q != p ==> st'.procs[q] == st.procs[q]
    requires st.procs[p].Some?
    requires !st.procs[p].value.state.Blocked? || st.procs[p].value.state.reason in {ReplyWait, EventWait}
    ensures QueuedMeansBlocked(st')
  {
    forall f: nat | f < MAX_ENDPOINTS
      ensures EndpointOk(st', f)
    {
      assert EndpointOk(st, f);
      if st.eps[f].Some? { NotQueued(st, p, f); }
      EndpointFrame(st, st', f);
    }
  }

  /** Every step of every interleaving keeps the queues and the states in agreement,
      the failed delivery of a receive included. */
  lemma StepKeepsQueues(st: State, s: Step)
    requires QueuedMeansBlocked(st) && QueuesInRange(st) && Enabled(st, s)
    ensures QueuedMeansBlocked(Apply(st, s).0)
  {
    match s
    case DoSend(p, ep, msg, buf, op) =>
      if ep.Ok? && msg.Ok? { SendKeepsQueues(st, p, ep.value, msg.value, buf, op); }
    case DoRecv(p, ep, buf, write) =>
      if ep.Ok? { RecvKeepsQueues(st, p, ep.value, buf, write); }
    case DoReply(p, ep, msg) =>
      if ep.Ok? && msg.Ok? {
        var c := ReplyWaiter(st.procs, ep.value, 0);
        if c.Some? { UnqueuedMoves(st, Apply(st, s).0, c.value); }
      }
    case Dispatch(p) => UnqueuedMoves(st, Apply(st, s).0, p);
    case Leave(p, how) => UnqueuedMoves(st, Apply(st, s).0, p);
    case EventWake(p) => UnqueuedMoves(st, Apply(st, s).0, p);
  }

  // ---- The converse direction ----

  lemma BlockedFrame(st: State, st': State, q: nat)
    requires Sized(st) && Sized(st') && q < MAX_PROCS && BlockedIsQueued(st, q) && st'.procs[q] == st.procs[q]
    requires forall e: nat :: e < MAX_ENDPOINTS && st.eps[e].Some? ==>
               (&& st'.eps[e].Some?
                && (q in st.eps[e].value.senders ==> q in st'.eps[e].value.senders)
                && (q in st.eps[e].value.receivers ==> q in st'.eps[e].value.receivers))
    ensures BlockedIsQueued(st', q)
  {}

  lemma SendKeepsBlocked(st: State, p: nat, e: nat, msg: MsgRegs, buf: nat, op: Op)
    requires QueuedMeansBlocked(st) && QueuesInRange(st) && BlockedMeansQueued(st)
    requires IsRunning(st, p) && e < MAX_ENDPOINTS && op in {Send, Call}
    ensures BlockedMeansQueued(SendLike(st, p, e, msg, buf, op).0)
  {
    var st' := SendLike(st, p, e, msg, buf, op).0;
    assert EndpointOk(st, e);
    if st.eps[e].Some? && st.eps[e].value.receivers != [] {
      PopFront(st.eps[e].value.receivers);
      assert InState(st, st.eps[e].value.receivers[0], Blocked(RecvWait, e));
    }
    forall q: nat | q < MAX_PROCS
      ensures BlockedIsQueued(st', q)
    {
      assert BlockedIsQueued(st, q);
      if st'.procs[q] == st.procs[q] { BlockedFrame(st, st', q); }
    }
  }

  lemma RecvKeepsBlocked(st: State, p: nat, e: nat, buf: nat, write: Result<(), Errno>)
    requires QueuedMeansBlocked(st) && QueuesInRange(st) && BlockedMeansQueued(st)
    requires IsRunning(st, p) && e < MAX_ENDPOINTS
    requires write.Ok? || st.eps[e].None? || st.eps[e].value.senders == []
    ensures BlockedMeansQueued(Receive(st, p, e, buf, write).0)
  {
    var st' := Receive(st, p, e, buf, write).0;
    assert EndpointOk(st, e);
    if st.eps[e].Some? && st.eps[e].value.senders != [] {
      PopFront(st.eps[e].value.senders);
      assert WaitsToSend(st, st.eps[e].value.senders[0], e);
    }
    forall q: nat | q < MAX_PROCS
      ensures BlockedIsQueued(st', q)
    {
      assert BlockedIsQueued(st, q);
      if st'.procs[q] == st.procs[q] { BlockedFrame(st, st', q); }
    }
  }

  lemma StepKeepsBlocked(st: State, s: Step)
    requires QueuedMeansBlocked(st) && QueuesInRange(st) && BlockedMeansQueued(st) && Enabled(st, s)
    requires !Strands(st, s)
    ensures BlockedMeansQueued(Apply(st, s).0)
  {
    match s
    case DoSend(p, ep, msg, buf, op) =>
      if ep.Ok? && msg.Ok? { SendKeepsBlocked(st, p, ep.value, msg.value, buf, op); }
    case DoRecv(p, ep, buf, write) =>
      if ep.Ok? { RecvKeepsBlocked(st, p, ep.value, buf, write); }
    case _ =>
      var st' := Apply(st, s).0;
      forall q: nat | q < MAX_PROCS
        ensures BlockedIsQueued(st', q)
      {
        assert BlockedIsQueued(st, q);
        if st'.procs[q] == st.procs[q] { BlockedFrame(st, st', q); }
      }
  }

  /** A step leaves somebody blocked on a rendezvous without being queued for it exactly
      when it is a receive that took a sender and could not write its buffer. */
  lemma StepKeepsBlockedIff(st: State, s: Step)
    requires QueuedMeansBlocked(st) && QueuesInRange(st) && BlockedMeansQueued(st) && Enabled(st, s)
    ensures BlockedMeansQueued(Apply(st, s).0) <==> !Strands(st, s)
  {
    if Strands(st, s) { FailedWriteStrands(st, s.p, s.ep.value, s.buf, s.write.error); }
    else { StepKeepsBlocked(st, s); }
  }

  /** A failed write strands its sender: blocked to send, on no queue, with its message gone. */
  lemma FailedWriteStrands(st: State, p: nat, e: nat, buf: nat, err: Errno)
    requires QueuedMeansBlocked(st) && QueuesInRange(st) && IsRunning(st, p) && e < MAX_ENDPOINTS
    requires st.eps[e].Some? && st.eps[e].value.senders != []
    ensures
      var tx, st' := st.eps[e].value.senders[0], Receive(st, p, e, buf, Err(err)).0;
      tx < MAX_PROCS && WaitsToSend(st', tx, e) && !BlockedIsQueued(st', tx)
  {
    assert EndpointOk(st, e);
    PopFront(st.eps[e].value.senders);
    assert WaitsToSend(st, st.eps[e].value.senders[0], e);
  }
}
