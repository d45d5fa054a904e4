/** Properties of whole IPC runs: messages are delivered in order, once and
    unchanged, and a caller resumes only with a reply to its taken request. */
module IpcRuns {
  import opened Wrappers
  import opened IpcState
  import opened IpcInvariants
  import opened Sequences
  import opened KernelAbi

  /** A run: from queues and states in agreement, enabled steps of any processes in any order. */
  ghost predicate Run(states: seq<State>, steps: seq<Step>) {
    && |states| == |steps| + 1
    && QueuedMeansBlocked(states[0])
    && forall i :: 0 <= i < |steps| ==> Follows(states[i], steps[i], states[i + 1])
  }

  ghost predicate Follows(st: State, s: Step, st': State) {
    QueuedMeansBlocked(st) ==> StepsTo(st, s, st')
  }

  /** An enabled step whose result is `st'`. */
  ghost predicate StepsTo(st: State, s: Step, st': State) {
    && QueuedMeansBlocked(st)
    && (QueuedInRange(st); Enabled(st, s) && Apply(st, s).0 == st')
  }

  lemma {:induction false} RunKeepsQueues(states: seq<State>, steps: seq<Step>, i: nat)
    requires Run(states, steps) && i < |states|
    ensures QueuedMeansBlocked(states[i]) && QueuesInRange(states[i])
    ensures i < |steps| ==> StepsTo(states[i], steps[i], states[i + 1])
  {
    if i > 0 {
      RunKeepsQueues(states, steps, i - 1);
      StepKeepsQueues(states[i - 1], steps[i - 1]);
    }
    QueuedInRange(states[i]);
    assert i < |steps| ==> Follows(states[i], steps[i], states[i + 1]);
  }

  lemma {:induction false} RunKeepsBlocked(states: seq<State>, steps: seq<Step>, i: nat)
    requires Run(states, steps) && i < |states| && BlockedMeansQueued(states[0])
    requires forall k :: 0 <= k < i ==> !Strands(states[k], steps[k])
    ensures Sized(states[i]) && BlockedMeansQueued(states[i])
  {
    if i > 0 {
      RunKeepsBlocked(states, steps, i - 1);
      RunKeepsQueues(states, steps, i - 1);
      StepKeepsBlocked(states[i - 1], steps[i - 1]);
    }
  }

  // ---- Who a step moves ----

  function Actor(s: Step): nat { s.p }

  /** The process at the other end of the step, if it reaches one. */
  ghost function Peer(st: State, s: Step): Option<nat>
    requires Sized(st) && Enabled(st, s)
  {
    match s
    case DoSend(_, Ok(e), Ok(_), _, _) =>
      if st.eps[e].Some? && st.eps[e].value.receivers != [] then Some(st.eps[e].value.receivers[0]) else None
    case DoRecv(_, Ok(e), _, _) =>
      if st.eps[e].Some? && st.eps[e].value.senders != [] then Some(st.eps[e].value.senders[0]) else None
    case DoReply(_, Ok(e), Ok(_)) => ReplyWaiter(st.procs, e, 0)
    case _ => None
  }

  /** Only the acting process and its peer change. */
  lemma OthersStay(st: State, s: Step, q: nat)
    requires Sized(st) && QueuesInRange(st) && Enabled(st, s) && q < MAX_PROCS
    requires q != Actor(s) && Peer(st, s) != Some(q)
    ensures Apply(st, s).0.procs[q] == st.procs[q]
  {}

  // ---- The message log of one endpoint ----

  /** Messages accepted from senders, taken off the sender side, and handed to receivers. */
  datatype Log = Log(accepted: seq<MsgRegs>, taken: seq<MsgRegs>, delivered: seq<MsgRegs>)

  ghost function RegsOf(st: State, q: seq<nat>): seq<MsgRegs> {
    seq(|q|, i requires 0 <= i < |q| =>
      if q[i] < |st.procs| && st.procs[q[i]].Some? then st.procs[q[i]].value.regs else MsgRegs(0, []))
  }

  ghost function Senders(st: State, e: nat): seq<nat>
    requires Sized(st) && e < MAX_ENDPOINTS
  {
    if st.eps[e].Some? then st.eps[e].value.senders else []
  }

  /** What one step adds to the log of `e`: a send or call that is not refused is
      accepted. Delivered is what a waiting receiver holds in its registers after it, or
      what a receive that takes the head sender writes to its caller. */
  ghost function Logged(st: State, s: Step, e: nat, log: Log): Log
    requires Sized(st) && QueuesInRange(st) && Enabled(st, s) && e < MAX_ENDPOINTS
  {
    match s
    case DoSend(_, Ok(f), Ok(m), _, _) =>
      if f != e || Apply(st, s).1.Failed? then log
      else if Peer(st, s).Some? then
        Log(log.accepted + [m], log.taken + [m], log.delivered + RegsOf(Apply(st, s).0, [Peer(st, s).value]))
      else log.(accepted := log.accepted + [m])
    case DoRecv(_, Ok(f), _, _) =>
      if f != e || Peer(st, s).None? then log
      else
        var m := RegsOf(st, Senders(st, e))[0];
        log.(taken := log.taken + [m],
             delivered := log.delivered + (if Apply(st, s).1.Received? then [Apply(st, s).1.msg] else []))
    case _ => log
  }

  /** Accepted messages are those taken, followed by the registers of the queued senders. */
  ghost predicate Fifo(st: State, e: nat, log: Log)
    requires Sized(st) && e < MAX_ENDPOINTS
  {
    log.accepted == log.taken + RegsOf(st, Senders(st, e))
  }

  /** A process whose registers a queue holds keeps them while it waits. */
  lemma QueuedRegsStay(st: State, s: Step, q: seq<nat>)
    requires Sized(st) && QueuesInRange(st) && Enabled(st, s)
    requires forall x :: x in q ==> x < MAX_PROCS && x != Actor(s) && Peer(st, s) != Some(x)
    ensures RegsOf(Apply(st, s).0, q) == RegsOf(st, q)
  {
    forall i | 0 <= i < |q|
      ensures RegsOf(Apply(st, s).0, q)[i] == RegsOf(st, q)[i]
    {
      assert q[i] in q;
      OthersStay(st, s, q[i]);
    }
  }

  /** Queued senders are neither the acting process nor, but for the head, its peer. */
  lemma SendersUntouched(st: State, s: Step, e: nat, x: nat)
    requires QueuedMeansBlocked(st) && QueuesInRange(st) && Enabled(st, s) && e < MAX_ENDPOINTS
    requires x in Senders(st, e)
    ensures x < MAX_PROCS && x != Actor(s)
    ensures Peer(st, s) == Some(x) ==> s.DoRecv? && s.ep == Ok(e) && x == Senders(st, e)[0]
  {
    assert EndpointOk(st, e);
    assert WaitsToSend(st, x, e);
    PeerIsBlocked(st, s);
  }

  /** What a step does to the queue of senders: a receive takes its head, a send that
      must wait joins its back, and no other step touches it. */
  lemma SendersMove(st: State, s: Step, e: nat)
    requires QueuedMeansBlocked(st) && QueuesInRange(st) && Enabled(st, s) && e < MAX_ENDPOINTS
    ensures var q, q' := Senders(st, e), Senders(Apply(st, s).0, e);
      if s.DoRecv? && s.ep == Ok(e) && q != [] then q' == q[1..]
      else if s.DoSend? && s.ep == Ok(e) && s.msg.Ok? && !Apply(st, s).1.Failed? && Peer(st, s).None?
      then q' == q + [s.p] && InState(Apply(st, s).0, s.p, Apply(st, s).0.procs[s.p].value.state)
           && Apply(st, s).0.procs[s.p].value.regs == s.msg.value
      else q' == q
  {}

  /** The senders that stay queued keep the registers their messages wait in. */
  lemma SendersKeepRegs(st: State, s: Step, e: nat)
    requires QueuedMeansBlocked(st) && QueuesInRange(st) && Enabled(st, s) && e < MAX_ENDPOINTS
    ensures var q := Senders(st, e);
      var stay := if s.DoRecv? && s.ep == Ok(e) && q != [] then q[1..] else q;
      RegsOf(Apply(st, s).0, stay) == RegsOf(st, stay)
  {
    var q := Senders(st, e);
    var stay := if s.DoRecv? && s.ep == Ok(e) && q != [] then q[1..] else q;
    assert EndpointOk(st, e);
    if q != [] { PopFront(q); }
    forall x | x in stay
      ensures x < MAX_PROCS && x != Actor(s) && Peer(st, s) != Some(x)
    {
      SendersUntouched(st, s, e, x);
    }
    QueuedRegsStay(st, s, stay);
  }

  lemma RegsOfBack(st: State, q: seq<nat>, p: nat, m: MsgRegs)
    requires p < |st.procs| && st.procs[p].Some? && st.procs[p].value.regs == m
    ensures RegsOf(st, q + [p]) == RegsOf(st, q) + [m]
  {}

  lemma RegsOfHead(st: State, q: seq<nat>)
    requires q != []
    ensures RegsOf(st, q) == [RegsOf(st, q)[0]] + RegsOf(st, q[1..])
  {}

  lemma ReceiveKeepsFifo(st: State, s: Step, e: nat, log: Log)
    requires QueuedMeansBlocked(st) && QueuesInRange(st) && Enabled(st, s) && e < MAX_ENDPOINTS
    requires Fifo(st, e, log) && s.DoRecv? && s.ep == Ok(e) && Senders(st, e) != []
    ensures Fifo(Apply(st, s).0, e, Logged(st, s, e, log))
  {
    var q := Senders(st, e);
    SendersMove(st, s, e);
    SendersKeepRegs(st, s, e);
    RegsOfHead(st, q);
    Regroup(log.taken, [RegsOf(st, q)[0]], RegsOf(st, q[1..]));
  }

  lemma WaitingSendKeepsFifo(st: State, s: Step, e: nat, log: Log)
    requires QueuedMeansBlocked(st) && QueuesInRange(st) && Enabled(st, s) && e < MAX_ENDPOINTS
    requires Fifo(st, e, log) && s.DoSend? && s.ep == Ok(e) && s.msg.Ok?
    requires !Apply(st, s).1.Failed? && Peer(st, s).None?
    ensures Fifo(Apply(st, s).0, e, Logged(st, s, e, log))
  {
    SendersMove(st, s, e);
    SendersKeepRegs(st, s, e);
    RegsOfBack(Apply(st, s).0, Senders(st, e), s.p, s.msg.value);
    Regroup(log.taken, RegsOf(st, Senders(st, e)), [s.msg.value]);
  }

  lemma StepKeepsFifo(st: State, s: Step, e: nat, log: Log)
    requires QueuedMeansBlocked(st) && QueuesInRange(st) && Enabled(st, s) && e < MAX_ENDPOINTS
    requires Fifo(st, e, log)
    ensures Fifo(Apply(st, s).0, e, Logged(st, s, e, log))
  {
    if s.DoRecv? && s.ep == Ok(e) && Senders(st, e) != [] {
      ReceiveKeepsFifo(st, s, e, log);
    } else if s.DoSend? && s.ep == Ok(e) && s.msg.Ok? && !Apply(st, s).1.Failed? && Peer(st, s).None? {
      WaitingSendKeepsFifo(st, s, e, log);
    } else {
      SendersMove(st, s, e);
      SendersKeepRegs(st, s, e);
      assert EndpointOk(st, e);
    }
  }

  /** The log after the first `n` steps of a run. */
  ghost function LogAfter(states: seq<State>, steps: seq<Step>, e: nat, n: nat): Log
    requires Run(states, steps) && n <= |steps| && e < MAX_ENDPOINTS
  {
    if n == 0 then Log(RegsOf(states[0], Senders(states[0], e)), [], [])
    else
      RunKeepsQueues(states, steps, n - 1);
      Logged(states[n - 1], steps[n - 1], e, LogAfter(states, steps, e, n - 1))
  }

  /** Over every run, first in first out: what an endpoint accepted is what was taken,
      in order, followed by what its queued senders still hold. */
  lemma {:induction false} MessagesInOrder(states: seq<State>, steps: seq<Step>, e: nat, n: nat)
    requires Run(states, steps) && n <= |steps| && e < MAX_ENDPOINTS
    ensures Sized(states[n]) && Fifo(states[n], e, LogAfter(states, steps, e, n))
  {
    RunKeepsQueues(states, steps, n);
    if n > 0 {
      MessagesInOrder(states, steps, e, n - 1);
      RunKeepsQueues(states, steps, n - 1);
      StepKeepsFifo(states[n - 1], steps[n - 1], e, LogAfter(states, steps, e, n - 1));
    }
  }

  /** A step that loses a message of `e`. */
  predicate LosesFrom(st: State, s: Step, e: nat) { Strands(st, s) && s.ep == Ok(e) }

  /** How many of the first `n` steps lose a message of `e`. */
  ghost function Losses(states: seq<State>, steps: seq<Step>, e: nat, n: nat): (r: nat)
    requires n <= |steps| && n <= |states|
    ensures r == 0 <==> forall k :: 0 <= k < n ==> !LosesFrom(states[k], steps[k], e)
  {
    if n == 0 then 0 else Losses(states, steps, e, n - 1) + if LosesFrom(states[n - 1], steps[n - 1], e) then 1 else 0
  }

  lemma StepLoses(st: State, s: Step, e: nat, log: Log)
    requires QueuedMeansBlocked(st) && QueuesInRange(st) && Enabled(st, s) && e < MAX_ENDPOINTS
    ensures var log' := Logged(st, s, e, log);
      && |log'.taken| - |log'.delivered| == |log.taken| - |log.delivered| + (if LosesFrom(st, s, e) then 1 else 0)
      && (!LosesFrom(st, s, e) && log.delivered == log.taken ==> log'.delivered == log'.taken)
  {
    PeerIsBlocked(st, s);
    if s.DoSend? && s.ep == Ok(e) && s.msg.Ok? && Peer(st, s).Some? { ReceiverHoldsMessage(st, s, s.msg.value, e); }
  }

  lemma {:induction false} LossesCount(states: seq<State>, steps: seq<Step>, e: nat, n: nat)
    requires Run(states, steps) && n <= |steps| && e < MAX_ENDPOINTS
    ensures var log := LogAfter(states, steps, e, n);
      && |log.taken| == |log.delivered| + Losses(states, steps, e, n)
      && (Losses(states, steps, e, n) == 0 ==> log.delivered == log.taken)
  {
    if n > 0 {
      LossesCount(states, steps, e, n - 1);
      RunKeepsQueues(states, steps, n - 1);
      StepLoses(states[n - 1], steps[n - 1], e, LogAfter(states, steps, e, n - 1));
    }
  }

  /** Each accepted message reaches a receiver once, unchanged and in order, or still waits,
      exactly when no receive on the endpoint took a sender and then could not write. */
  lemma NothingIsLostIff(states: seq<State>, steps: seq<Step>, e: nat, n: nat)
    requires Run(states, steps) && n <= |steps| && e < MAX_ENDPOINTS
    ensures Sized(states[n])
    ensures LogAfter(states, steps, e, n).accepted == LogAfter(states, steps, e, n).delivered + RegsOf(states[n], Senders(states[n], e))
            <==> forall k :: 0 <= k < n ==> !LosesFrom(states[k], steps[k], e)
  {
    MessagesInOrder(states, steps, e, n);
    LossesCount(states, steps, e, n);
    var log, held := LogAfter(states, steps, e, n), RegsOf(states[n], Senders(states[n], e));
    if log.accepted == log.delivered + held { assert |log.taken| == |log.delivered|; }
  }

  /** A delivery to a waiting receiver leaves it ready, the message in its registers. */
  lemma ReceiverHoldsMessage(st: State, s: Step, m: MsgRegs, e: nat)
    requires QueuedMeansBlocked(st) && QueuesInRange(st) && Enabled(st, s)
    requires s.DoSend? && s.ep == Ok(e) && s.msg == Ok(m) && Peer(st, s).Some?
    ensures InState(Apply(st, s).0, Peer(st, s).value, Ready)
    ensures Apply(st, s).0.procs[Peer(st, s).value].value.regs == m
  {
    assert EndpointOk(st, e);
    assert InState(st, Peer(st, s).value, Blocked(RecvWait, e));
  }

  /** A ready process keeps its registers until the scheduler dispatches it. */
  lemma ReadyKeepsMessage(st: State, s: Step, q: nat)
    requires QueuedMeansBlocked(st) && QueuesInRange(st) && Enabled(st, s) && InState(st, q, Ready)
    ensures s == Dispatch(q) || Apply(st, s).0.procs[q] == st.procs[q]
  {
    PeerIsBlocked(st, s);
    if q != Actor(s) { OthersStay(st, s, q); }
  }

  /** The peer a step reaches was blocked on that endpoint, for the matching reason. */
  lemma PeerIsBlocked(st: State, s: Step)
    requires QueuedMeansBlocked(st) && QueuesInRange(st) && Enabled(st, s)
    ensures var x := Peer(st, s); x.Some? ==>
      && s.ep.Ok?
      && (s.DoSend? ==> InState(st, x.value, Blocked(RecvWait, s.ep.value)))
      && (s.DoRecv? ==> WaitsToSend(st, x.value, s.ep.value))
      && (s.DoReply? ==> InState(st, x.value, Blocked(ReplyWait, s.ep.value)))
  {
    match s
    case DoSend(_, Ok(f), Ok(_), _, _) => assert EndpointOk(st, f);
    case DoRecv(_, Ok(f), _, _) => assert EndpointOk(st, f);
    case _ =>
  }

  // ---- Calls and replies ----

  /** The step is a receive on `e` that takes the request of `c`. */
  ghost predicate Takes(st: State, s: Step, c: nat, e: nat)
    requires Sized(st) && Enabled(st, s)
  {
    s.DoRecv? && s.ep == Ok(e) && s.write.Ok? && Peer(st, s) == Some(c)
  }

  /** The step is a reply on `e` that reaches `c` with message `m`. */
  ghost predicate Replies(st: State, s: Step, c: nat, e: nat, m: MsgRegs)
    requires Sized(st) && Enabled(st, s)
  {
    s.DoReply? && s.ep == Ok(e) && s.msg == Ok(m) && Peer(st, s) == Some(c)
  }

  /** A queued caller stays queued to call until a receive takes its request. */
  lemma CallerMoves(st: State, s: Step, c: nat, e: nat)
    requires QueuedMeansBlocked(st) && QueuesInRange(st) && Enabled(st, s)
    requires InState(st, c, Blocked(CallWait, e)) && e < MAX_ENDPOINTS
    ensures InState(Apply(st, s).0, c, Blocked(CallWait, e))
            || (Takes(st, s, c, e) && InState(Apply(st, s).0, c, Blocked(ReplyWait, e)))
  {
    PeerIsBlocked(st, s);
    if Peer(st, s) != Some(c) { OthersStay(st, s, c); }
  }

  /** A caller whose request was taken waits until a reply on its endpoint reaches it,
      and wakes with that reply in its registers. */
  lemma WaiterMoves(st: State, s: Step, c: nat, e: nat)
    requires QueuedMeansBlocked(st) && QueuesInRange(st) && Enabled(st, s)
    requires InState(st, c, Blocked(ReplyWait, e)) && e < MAX_ENDPOINTS
    ensures InState(Apply(st, s).0, c, Blocked(ReplyWait, e))
            || GotReply(st, s, Apply(st, s).0, c, e)
  {
    PeerIsBlocked(st, s);
    if Peer(st, s) != Some(c) { OthersStay(st, s, c); }
    else {
      assert s.DoReply?;
      assert RepliedWith(st, s, Apply(st, s).0, c, e, s.msg.value);
    }
  }

  ghost predicate RepliedWith(st: State, s: Step, st': State, c: nat, e: nat, m: MsgRegs)
    requires Sized(st) && Enabled(st, s)
  {
    Replies(st, s, c, e, m) && InState(st', c, Ready) && st'.procs[c].value.regs == m
  }

  ghost predicate GotReply(st: State, s: Step, st': State, c: nat, e: nat)
    requires Sized(st) && Enabled(st, s)
  {
    exists m :: RepliedWith(st, s, st', c, e, m)
  }

  /** Step `l` of the run replies to `c` on `e`, and leaves it ready with the reply. */
  ghost predicate RepliedAt(states: seq<State>, steps: seq<Step>, l: nat, c: nat, e: nat)
    requires Run(states, steps) && l < |steps|
  {
    RunKeepsQueues(states, steps, l);
    GotReply(states[l], steps[l], states[l + 1], c, e)
  }

  ghost predicate TakenAt(states: seq<State>, steps: seq<Step>, k: nat, c: nat, e: nat)
    requires Run(states, steps) && k < |steps|
  {
    RunKeepsQueues(states, steps, k);
    Takes(states[k], steps[k], c, e)
  }

  /** From waiting for a reply at `i` to any other state at `j`: a reply came in between. */
  lemma {:induction false} ResumesOnlyWithReply(states: seq<State>, steps: seq<Step>, i: nat, j: nat, c: nat, e: nat)
    requires Run(states, steps) && i <= j < |states| && e < MAX_ENDPOINTS
    requires InState(states[i], c, Blocked(ReplyWait, e))
    ensures InState(states[j], c, Blocked(ReplyWait, e))
            || exists l: nat :: i <= l < j && RepliedAt(states, steps, l, c, e)
    decreases j
  {
    if i < j {
      ResumesOnlyWithReply(states, steps, i, j - 1, c, e);
      if InState(states[j - 1], c, Blocked(ReplyWait, e)) {
        RunKeepsQueues(states, steps, j - 1);
        WaiterMoves(states[j - 1], steps[j - 1], c, e);
        if !InState(states[j], c, Blocked(ReplyWait, e)) { assert RepliedAt(states, steps, j - 1, c, e); }
      }
    }
  }

  /** Since it was taken at `k`, the caller waits for its reply or was sent it. */
  ghost predicate WaitsOrReplied(states: seq<State>, steps: seq<Step>, k: nat, j: nat, c: nat, e: nat)
    requires Run(states, steps) && j < |states|
  {
    InState(states[j], c, Blocked(ReplyWait, e)) || exists l: nat :: k < l < j && RepliedAt(states, steps, l, c, e)
  }

  lemma WaitsOrRepliedStays(states: seq<State>, steps: seq<Step>, k: nat, j: nat, c: nat, e: nat)
    requires Run(states, steps) && k < j < |steps| && e < MAX_ENDPOINTS && WaitsOrReplied(states, steps, k, j, c, e)
    ensures WaitsOrReplied(states, steps, k, j + 1, c, e)
  {
    RunKeepsQueues(states, steps, j);
    if InState(states[j], c, Blocked(ReplyWait, e)) {
      WaiterMoves(states[j], steps[j], c, e);
      if !InState(states[j + 1], c, Blocked(ReplyWait, e)) { assert RepliedAt(states, steps, j, c, e); }
    }
  }

  lemma CallWaitsOrIsTaken(states: seq<State>, steps: seq<Step>, j: nat, c: nat, e: nat)
    requires Run(states, steps) && j < |steps| && e < MAX_ENDPOINTS && InState(states[j], c, Blocked(CallWait, e))
    ensures InState(states[j + 1], c, Blocked(CallWait, e))
         || (TakenAt(states, steps, j, c, e) && InState(states[j + 1], c, Blocked(ReplyWait, e)))
  {
    RunKeepsQueues(states, steps, j);
    CallerMoves(states[j], steps[j], c, e);
  }

  /** A caller blocked on its request at `i` that no longer waits on this call at `j` was
      first taken by a receive on its endpoint and then sent a reply on that endpoint. */
  lemma {:induction false} CallerNeedsTakeThenReply(states: seq<State>, steps: seq<Step>, i: nat, j: nat, c: nat, e: nat)
    requires Run(states, steps) && i <= j < |states| && e < MAX_ENDPOINTS
    requires InState(states[i], c, Blocked(CallWait, e))
    ensures || InState(states[j], c, Blocked(CallWait, e))
            || exists k: nat :: i <= k < j && TakenAt(states, steps, k, c, e) && WaitsOrReplied(states, steps, k, j, c, e)
    decreases j
  {
    if i < j {
      CallerNeedsTakeThenReply(states, steps, i, j - 1, c, e);
      if InState(states[j - 1], c, Blocked(CallWait, e)) {
        CallWaitsOrIsTaken(states, steps, j - 1, c, e);
      } else {
        var k: nat :| i <= k < j - 1 && TakenAt(states, steps, k, c, e) && WaitsOrReplied(states, steps, k, j - 1, c, e);
        WaitsOrRepliedStays(states, steps, k, j - 1, c, e);
      }
    }
  }

  /** A reply reaches exactly the lowest process that waits for one on its endpoint, and is
      refused exactly when none does. */
  lemma ReplyReachesLowest(st: State, p: nat, e: nat, msg: Result<MsgRegs, Errno>, c: nat)
    requires QueuedMeansBlocked(st) && QueuesInRange(st) && Enabled(st, DoReply(p, Ok(e), msg)) && msg.Ok?
    ensures var s := DoReply(p, Ok(e), msg);
      && (Peer(st, s) == Some(c) <==>
            InState(st, c, Blocked(ReplyWait, e)) && forall q: nat :: q < c ==> !InState(st, q, Blocked(ReplyWait, e)))
      && (Apply(st, s).1 == Failed(E_INVAL) <==> forall q: nat :: q < MAX_PROCS ==> !InState(st, q, Blocked(ReplyWait, e)))
  {
    var w := ReplyWaiter(st.procs, e, 0);
    if w.Some? && InState(st, c, Blocked(ReplyWait, e)) && w.value < c { assert InState(st, w.value, Blocked(ReplyWait, e)); }
    if w.Some? { assert InState(st, w.value, Blocked(ReplyWait, e)); }
  }

  // ---- Stranded senders ----

  /** Blocked to send or call on `e`, and not queued there. */
  ghost predicate Stranded(st: State, x: nat, e: nat) {
    WaitsToSend(st, x, e) && (e < |st.eps| && st.eps[e].Some? ==> x !in st.eps[e].value.senders)
  }

  lemma StepKeepsStranded(st: State, s: Step, x: nat, e: nat)
    requires QueuedMeansBlocked(st) && QueuesInRange(st) && Enabled(st, s) && e < MAX_ENDPOINTS && Stranded(st, x, e)
    ensures Stranded(Apply(st, s).0, x, e)
  {
    PeerIsBlocked(st, s);
    PeerIsQueued(st, s, x, e);
    OthersStay(st, s, x);
    SendersMove(st, s, e);
    if Senders(st, e) != [] { assert EndpointOk(st, e); PopFront(Senders(st, e)); }
  }

  lemma PeerIsQueued(st: State, s: Step, x: nat, e: nat)
    requires QueuedMeansBlocked(st) && QueuesInRange(st) && Enabled(st, s) && e < MAX_ENDPOINTS && Stranded(st, x, e)
    ensures x != Actor(s) && Peer(st, s) != Some(x)
  {
    PeerIsBlocked(st, s);
  }

  /** A sender that a failed receive stranded is never released: it stays blocked and on no
      queue in every later state of every run. */
  lemma {:induction false} StrandedStays(states: seq<State>, steps: seq<Step>, i: nat, j: nat, x: nat, e: nat)
    requires Run(states, steps) && i <= j < |states| && e < MAX_ENDPOINTS && Stranded(states[i], x, e)
    ensures Stranded(states[j], x, e)
    decreases j
  {
    if i < j {
      StrandedStays(states, steps, i, j - 1, x, e);
      RunKeepsQueues(states, steps, j - 1);
      StepKeepsStranded(states[j - 1], steps[j - 1], x, e);
    }
  }
}
