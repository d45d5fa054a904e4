/** What each IPC call does to processes and queues, and when a blocked process runs again. */
module IpcEffects {
  import opened Wrappers
  import opened KernelAbi
  import opened IpcState
  import opened IpcInvariants
  import opened IpcRuns

  /** The processes of `moved` are as it says, and all others as before. */
  ghost predicate Moved(st: State, st': State, moved: map<nat, Process>) {
    && |st'.procs| == |st.procs|
    && forall q: nat {:trigger st'.procs[q]} :: q < |st.procs| ==>
         st'.procs[q] == if q in moved then Some(moved[q]) else st.procs[q]
  }

  /** Endpoint `e` has these queues, and every other endpoint its own. */
  ghost predicate Queues(st: State, st': State, e: nat, senders: seq<nat>, receivers: seq<nat>) {
    e < |st.eps| && st'.eps == st.eps[e := Some(Endpoint(senders, receivers))]
  }

  // ---- One call ----

  /** A send or call on a live endpoint where a receiver waits: the receiver is ready with
      the message. A sender runs on; a caller waits for its reply. */
  lemma SendToReceiver(st: State, p: nat, e: nat, m: MsgRegs, buf: nat, op: Op)
    requires QueuedMeansBlocked(st) && QueuesInRange(st) && Enabled(st, DoSend(p, Ok(e), Ok(m), buf, op))
    requires st.eps[e].Some? && st.eps[e].value.receivers != []
    ensures var (st', a), ep, me := Apply(st, DoSend(p, Ok(e), Ok(m), buf, op)), st.eps[e].value, st.procs[p].value;
      var rx := ep.receivers[0];
      && rx < MAX_PROCS && rx != p && st.procs[rx].Some? && Queues(st, st', e, ep.senders, ep.receivers[1..])
      && Moved(st, st', map[rx := Process(Ready, m, st.procs[rx].value.msgBuf),
                            p := if op == Call then Process(Blocked(ReplyWait, e), m, buf) else Process(Running, m, me.msgBuf)])
      && a == if op == Call then Suspended else Done
  {
    assert EndpointOk(st, e);
    assert InState(st, st.eps[e].value.receivers[0], Blocked(RecvWait, e));
  }

  /** Where none waits, it joins the senders and blocks for its own reason, or is refused
      when the endpoint is gone or its queue is full. */
  lemma SendWithoutReceiver(st: State, p: nat, e: nat, m: MsgRegs, buf: nat, op: Op)
    requires QueuedMeansBlocked(st) && QueuesInRange(st) && Enabled(st, DoSend(p, Ok(e), Ok(m), buf, op))
    requires st.eps[e].Some? ==> st.eps[e].value.receivers == []
    ensures var (st', a), me := Apply(st, DoSend(p, Ok(e), Ok(m), buf, op)), st.procs[p].value;
      if st.eps[e].None? || |st.eps[e].value.senders| == 8 then
        a == Failed(E_AGAIN) && st'.eps == st.eps && Moved(st, st', map[p := Process(Running, m, me.msgBuf)])
      else
        && a == Suspended && Queues(st, st', e, st.eps[e].value.senders + [p], [])
        && Moved(st, st', map[p := Process(Blocked(if op == Call then CallWait else SendWait, e), m, buf)])
  {
    assert EndpointOk(st, e);
  }

  /** A receive where a sender waits answers the sender's message. The sender is done; a
      caller goes on to wait for its reply. When the message cannot be written the
      sender is off the queue and otherwise as it was. */
  lemma ReceiveFromSender(st: State, p: nat, e: nat, buf: nat, write: Result<(), Errno>)
    requires QueuedMeansBlocked(st) && QueuesInRange(st) && Enabled(st, DoRecv(p, Ok(e), buf, write))
    requires st.eps[e].Some? && st.eps[e].value.senders != []
    ensures var (st', a), ep := Apply(st, DoRecv(p, Ok(e), buf, write)), st.eps[e].value;
      var tx := ep.senders[0];
      && tx < MAX_PROCS && tx != p && WaitsToSend(st, tx, e) && Queues(st, st', e, ep.senders[1..], ep.receivers)
      && var you := st.procs[tx].value;
      if write.Err? then a == Failed(write.error) && Moved(st, st', map[])
      else
        && a == Received(you.regs)
        && Moved(st, st', map[tx := Process(if InState(st, tx, Blocked(CallWait, e)) then Blocked(ReplyWait, e) else Ready,
                                            you.regs, you.msgBuf)])
  {
    assert EndpointOk(st, e);
    assert WaitsToSend(st, st.eps[e].value.senders[0], e);
  }

  /** Where none waits, the receiver joins the queue and blocks, or is refused. */
  lemma ReceiveWithoutSender(st: State, p: nat, e: nat, buf: nat, write: Result<(), Errno>)
    requires QueuedMeansBlocked(st) && QueuesInRange(st) && Enabled(st, DoRecv(p, Ok(e), buf, write))
    requires st.eps[e].Some? ==> st.eps[e].value.senders == []
    ensures var (st', a), me := Apply(st, DoRecv(p, Ok(e), buf, write)), st.procs[p].value;
      if st.eps[e].None? || |st.eps[e].value.receivers| == 8 then a == Failed(E_AGAIN) && st' == st
      else
        && a == Suspended && Queues(st, st', e, [], st.eps[e].value.receivers + [p])
        && Moved(st, st', map[p := Process(Blocked(RecvWait, e), me.regs, buf)])
  {
    assert EndpointOk(st, e);
  }

  /** `c` is the lowest process that waits for a reply on `e`. */
  ghost predicate FirstWaiter(st: State, e: nat, c: nat) {
    InState(st, c, Blocked(ReplyWait, e)) && forall q: nat :: q < c ==> !InState(st, q, Blocked(ReplyWait, e))
  }

  /** A reply readies the first waiter with the message; it is refused without one, and
      when the message cannot be read. */
  lemma ReplyWakes(st: State, p: nat, e: nat, msg: Result<MsgRegs, Errno>)
    requires QueuedMeansBlocked(st) && QueuesInRange(st) && Enabled(st, DoReply(p, Ok(e), msg))
    ensures var (st', a) := Apply(st, DoReply(p, Ok(e), msg));
      && (forall c: nat :: FirstWaiter(st, e, c) && msg.Ok? ==>
            a == Done && st'.eps == st.eps && Moved(st, st', map[c := Process(Ready, msg.value, st.procs[c].value.msgBuf)]))
      && (forall c: nat :: FirstWaiter(st, e, c) && msg.Err? ==> a == Failed(msg.error) && st' == st)
      && ((forall c: nat :: !FirstWaiter(st, e, c)) ==> a == Failed(E_INVAL) && st' == st)
  {
    var w := ReplyWaiter(st.procs, e, 0);
    if w.Some? {
      assert FirstWaiter(st, e, w.value);
      assert forall c: nat :: FirstWaiter(st, e, c) ==> c == w.value;
    }
  }

  /** A call whose capability or message is refused answers that error and changes nothing. */
  lemma RefusedChangesNothing(st: State, s: Step)
    requires QueuedMeansBlocked(st) && QueuesInRange(st) && Enabled(st, s)
    requires (s.DoSend? || s.DoRecv? || s.DoReply?) && (s.ep.Err? || (s.DoSend? && s.msg.Err?))
    ensures Apply(st, s) == (st, Failed(if s.ep.Err? then s.ep.error else s.msg.error))
  {}

  /** The scheduler moves one process and no queue: to running with no pending buffer, off
      the processor, or out of its wait for an event. */
  lemma SchedulerMoves(st: State, s: Step)
    requires QueuedMeansBlocked(st) && QueuesInRange(st) && Enabled(st, s) && (s.Dispatch? || s.Leave? || s.EventWake?)
    ensures var (st', a), me := Apply(st, s), st.procs[s.p].value;
      && a == Done && st'.eps == st.eps
      && Moved(st, st', map[s.p := match s
                                   case Leave(_, how) => Process(how, me.regs, me.msgBuf)
                                   case Dispatch(_) => Process(Running, me.regs, 0xFFFF_FFFF)
                                   case _ => Process(Ready, me.regs, me.msgBuf)])
  {}

  // ---- Over runs ----

  /** Step `i` is a send or call of `p` on `e` that was not refused. */
  ghost predicate Accepted(states: seq<State>, steps: seq<Step>, i: nat, p: nat, e: nat, op: Op)
    requires Run(states, steps) && i < |steps|
  {
    RunKeepsQueues(states, steps, i);
    && steps[i].DoSend? && steps[i].p == p && steps[i].ep == Ok(e) && steps[i].msg.Ok? && steps[i].op == op
    && !Apply(states[i], steps[i]).1.Failed?
  }

  /** A receiver waited on `e` before step `i`. */
  ghost predicate Met(states: seq<State>, i: nat, e: nat)
    requires i < |states| && e < |states[i].eps|
  {
    states[i].eps[e].Some? && states[i].eps[e].value.receivers != []
  }

  /** Right after an accepted call its caller waits: for its reply when a receiver took the
      request at once, and otherwise for a receiver. */
  lemma CallWaits(states: seq<State>, steps: seq<Step>, i: nat, p: nat, e: nat)
    requires Run(states, steps) && i < |steps| && Accepted(states, steps, i, p, e, Call)
    ensures e < MAX_ENDPOINTS && e < |states[i].eps|
    ensures InState(states[i + 1], p, Blocked(if Met(states, i, e) then ReplyWait else CallWait, e))
  {
    RunKeepsQueues(states, steps, i);
    var s := steps[i];
    if Met(states, i, e) { SendToReceiver(states[i], p, e, s.msg.value, s.buf, Call); }
    else { SendWithoutReceiver(states[i], p, e, s.msg.value, s.buf, Call); }
  }

  /** From then on the caller still waits, or a reply on `e` reached it since: after a take
      of its request when no receiver had waited. */
  lemma CallerRunsOnlyAfterReply(states: seq<State>, steps: seq<Step>, i: nat, j: nat, p: nat, e: nat)
    requires Run(states, steps) && i < j < |states| && Accepted(states, steps, i, p, e, Call)
    ensures e < MAX_ENDPOINTS && e < |states[i].eps|
    ensures Met(states, i, e) ==>
      InState(states[j], p, Blocked(ReplyWait, e)) || exists l: nat :: i < l < j && RepliedAt(states, steps, l, p, e)
    ensures !Met(states, i, e) ==>
      || InState(states[j], p, Blocked(CallWait, e))
      || exists k: nat :: i < k < j && TakenAt(states, steps, k, p, e) && WaitsOrReplied(states, steps, k, j, p, e)
  {
    CallWaits(states, steps, i, p, e);
    if Met(states, i, e) {
      ResumesOnlyWithReply(states, steps, i + 1, j, p, e);
    } else {
      CallerNeedsTakeThenReply(states, steps, i + 1, j, p, e);
    }
  }

  /** A queued sender stays queued until a receive takes its message, and is then ready. */
  lemma SenderMoves(st: State, s: Step, x: nat, e: nat)
    requires QueuedMeansBlocked(st) && QueuesInRange(st) && Enabled(st, s)
    requires InState(st, x, Blocked(SendWait, e)) && e < MAX_ENDPOINTS
    ensures InState(Apply(st, s).0, x, Blocked(SendWait, e))
         || (Takes(st, s, x, e) && InState(Apply(st, s).0, x, Ready))
  {
    PeerIsBlocked(st, s);
    if Peer(st, s) != Some(x) { OthersStay(st, s, x); }
  }

  lemma {:induction false} SendWaitEndsWithTake(states: seq<State>, steps: seq<Step>, i: nat, j: nat, x: nat, e: nat)
    requires Run(states, steps) && i <= j < |states| && e < MAX_ENDPOINTS && InState(states[i], x, Blocked(SendWait, e))
    ensures InState(states[j], x, Blocked(SendWait, e))
         || exists k: nat :: i <= k < j && TakenAt(states, steps, k, x, e) && InState(states[k + 1], x, Ready)
    decreases j
  {
    if i < j {
      SendWaitEndsWithTake(states, steps, i, j - 1, x, e);
      RunKeepsQueues(states, steps, j - 1);
      if InState(states[j - 1], x, Blocked(SendWait, e)) {
        SenderMoves(states[j - 1], steps[j - 1], x, e);
        if !InState(states[j], x, Blocked(SendWait, e)) { assert TakenAt(states, steps, j - 1, x, e); }
      }
    }
  }

  /** An accepted send runs on when a receiver waited. Otherwise its sender waits until a
      receive takes its message, and that leaves it ready. */
  lemma SenderRunsWhenTaken(states: seq<State>, steps: seq<Step>, i: nat, j: nat, p: nat, e: nat)
    requires Run(states, steps) && i < j < |states| && Accepted(states, steps, i, p, e, Send)
    ensures e < MAX_ENDPOINTS && e < |states[i].eps|
    ensures Met(states, i, e) ==> InState(states[i + 1], p, Running)
    ensures !Met(states, i, e) ==>
      || InState(states[j], p, Blocked(SendWait, e))
      || exists k: nat :: i < k < j && TakenAt(states, steps, k, p, e) && InState(states[k + 1], p, Ready)
  {
    RunKeepsQueues(states, steps, i);
    var s := steps[i];
    if Met(states, i, e) { SendToReceiver(states[i], p, e, s.msg.value, s.buf, Send); }
    else {
      SendWithoutReceiver(states[i], p, e, s.msg.value, s.buf, Send);
      SendWaitEndsWithTake(states, steps, i + 1, j, p, e);
    }
  }
}
