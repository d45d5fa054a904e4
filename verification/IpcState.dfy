/** Synchronous IPC as a step system: processes, endpoint queues, and one pure
    transition per host call. Interleavings are runs of these steps. */
module IpcState {
  import opened Wrappers
  import opened Bytes
  import opened KernelAbi

  const MAX_ENDPOINTS: nat := 64
  const QUEUE_CAPACITY: nat := 8
  const NO_MSG_BUF: nat := 0xFFFF_FFFF

  // ---- Processes ----

  /** A message: a badge and the data words. */
  datatype MsgRegs = MsgRegs(badge: nat, words: seq<nat>)

  datatype BlockReason = SendWait | RecvWait | ReplyWait | CallWait | EventWait

  datatype ProcState =
    | Ready | Running | Library | Exited | Faulted
    | Blocked(reason: BlockReason, ep: nat)

  datatype Process = Process(state: ProcState, regs: MsgRegs, msgBuf: nat)

  /** An endpoint's waiting senders and receivers, front first. */
  datatype Endpoint = Endpoint(senders: seq<nat>, receivers: seq<nat>)

  datatype State = State(procs: seq<Option<Process>>, eps: seq<Option<Endpoint>>)

  ghost predicate Sized(st: State) {
    |st.procs| == MAX_PROCS && |st.eps| == MAX_ENDPOINTS
  }

  // ---- The decision plane ----

  datatype Op = Send | Recv | Call | Reply

  datatype Outcome = Rendezvous(block: Option<BlockReason>) | Enqueue(reason: BlockReason) | Invalid

  /** `resolve`: what a caller does, given whether a peer waits. */
  function Resolve(op: Op, peerWaiting: bool): Outcome {
    match op
    case Send => if peerWaiting then Rendezvous(None) else Enqueue(SendWait)
    case Recv => if peerWaiting then Rendezvous(None) else Enqueue(RecvWait)
    case Call => if peerWaiting then Rendezvous(Some(ReplyWait)) else Enqueue(CallWait)
    case Reply => if peerWaiting then Rendezvous(None) else Invalid
  }

  // ---- The mechanism ----

  /** What the host call does: return a code, with a message in the caller's memory or
      without, or suspend the caller. */
  datatype Answer = Done | Received(msg: MsgRegs) | Failed(error: Errno) | Suspended

  /** `block_and_yield`. */
  function Block(procs: seq<Option<Process>>, p: nat, reason: BlockReason, ep: nat, buf: nat): (r: seq<Option<Process>>)
    requires p < |procs|
    ensures |r| == |procs|
  {
    if procs[p].None? then procs
    else procs[p := Some(procs[p].value.(state := Blocked(reason, ep % 256), msgBuf := buf))]
  }

  /** `Process::wake`: only a blocked process becomes ready. */
  function Woken(p: Process): Process {
    if p.state.Blocked? then p.(state := Ready) else p
  }

  /** `deliver_and_wake`. */
  function Wake(procs: seq<Option<Process>>, q: nat, msg: Option<MsgRegs>): (r: seq<Option<Process>>)
    requires q < |procs|
    ensures |r| == |procs|
  {
    if procs[q].None? then procs
    else
      var p := procs[q].value;
      procs[q := Some(Woken(if msg.Some? then p.(regs := msg.value) else p))]
  }

  /** `reply_waiter_on`: the lowest process waiting for a reply on `ep`, from `i` on. */
  function ReplyWaiter(procs: seq<Option<Process>>, ep: nat, i: nat): (r: Option<nat>)
    ensures r.Some? ==> i <= r.value < |procs| && procs[r.value].Some? && procs[r.value].value.state == Blocked(ReplyWait, ep)
    ensures r.None? ==> forall j :: i <= j < |procs| && procs[j].Some? ==> procs[j].value.state != Blocked(ReplyWait, ep)
    ensures r.Some? ==> forall j :: i <= j < r.value && procs[j].Some? ==> procs[j].value.state != Blocked(ReplyWait, ep)
    decreases |procs| - i
  {
    if i >= |procs| then None
    else if procs[i].Some? && procs[i].value.state == Blocked(ReplyWait, ep) then Some(i)
    else ReplyWaiter(procs, ep, i + 1)
  }

  function SetEp(st: State, e: nat, ep: Endpoint): State
    requires e < |st.eps|
  {
    st.(eps := st.eps[e := Some(ep)])
  }

  /** Put the outbound message in the sender's own registers. */
  function Stash(procs: seq<Option<Process>>, p: nat, msg: MsgRegs): (r: seq<Option<Process>>)
    requires p < |procs|
    ensures |r| == |procs|
  {
    if procs[p].None? then procs else procs[p := Some(procs[p].value.(regs := msg))]
  }

  /** `do_send_like`, once the endpoint and the message are in hand. */
  function SendLike(st: State, p: nat, e: nat, msg: MsgRegs, buf: nat, op: Op): (r: (State, Answer))
    requires Sized(st) && p < MAX_PROCS && e < MAX_ENDPOINTS && op in {Send, Call}
    requires st.eps[e].Some? ==> forall q :: q in st.eps[e].value.receivers ==> q < MAX_PROCS
    ensures Sized(r.0)
  {
    var procs := Stash(st.procs, p, msg);
    var st1 := st.(procs := procs);
    if st.eps[e].Some? && st.eps[e].value.receivers != [] then
      var ep := st.eps[e].value;
      var rx := ep.receivers[0];
      assert rx in ep.receivers;
      var st2 := SetEp(st1, e, ep.(receivers := ep.receivers[1..])).(procs := Wake(procs, rx, Some(msg)));
      match Resolve(op, true)
      case Rendezvous(Some(reason)) => (st2.(procs := Block(st2.procs, p, reason, e, buf)), Suspended)
      case _ => (st2, Done)
    else if st.eps[e].None? || |st.eps[e].value.senders| >= QUEUE_CAPACITY then
      (st1, Failed(E_AGAIN))
    else
      var ep := st.eps[e].value;
      var st2 := SetEp(st1, e, ep.(senders := ep.senders + [p]));
      (st2.(procs := Block(procs, p, Resolve(op, false).reason, e, buf)), Suspended)
  }

  /** `ipc_recv_impl`: `write` is the outcome of writing into the caller's memory. */
  function Receive(st: State, p: nat, e: nat, buf: nat, write: Result<(), Errno>): (r: (State, Answer))
    requires Sized(st) && p < MAX_PROCS && e < MAX_ENDPOINTS
    requires st.eps[e].Some? ==> forall q :: q in st.eps[e].value.senders ==> q < MAX_PROCS
    ensures Sized(r.0)
  {
    if st.eps[e].Some? && st.eps[e].value.senders != [] then
      var ep := st.eps[e].value;
      var tx := ep.senders[0];
      assert tx in ep.senders;
      var st1 := SetEp(st, e, ep.(senders := ep.senders[1..]));
      if st.procs[tx].None? then (st1, Failed(E_PERM))
      else if write.Err? then (st1, Failed(write.error))
      else
        var sender := st.procs[tx].value;
        if sender.state.Blocked? && sender.state.reason == CallWait then
          (st1.(procs := st.procs[tx := Some(sender.(state := Blocked(ReplyWait, sender.state.ep)))]), Received(sender.regs))
        else
          (st1.(procs := Wake(st.procs, tx, None)), Received(sender.regs))
    else if st.eps[e].None? || |st.eps[e].value.receivers| >= QUEUE_CAPACITY then
      (st, Failed(E_AGAIN))
    else
      var ep := st.eps[e].value;
      var st1 := SetEp(st, e, ep.(receivers := ep.receivers + [p]));
      (st1.(procs := Block(st.procs, p, RecvWait, e, buf)), Suspended)
  }

  /** `ipc_reply_impl`: the message is read only when someone waits. */
  function ReplyTo(st: State, e: nat, msg: Result<MsgRegs, Errno>): (r: (State, Answer))
    requires Sized(st) && e < MAX_ENDPOINTS
    ensures Sized(r.0)
  {
    match ReplyWaiter(st.procs, e, 0)
    case None => (st, Failed(E_INVAL))
    case Some(c) =>
      if msg.Err? then (st, Failed(msg.error))
      else (st.(procs := Wake(st.procs, c, Some(msg.value))), Done)
  }

  // ---- Steps ----

  /** A step of the system. A host call carries what the capability check answered
      and what the caller's memory held; the other steps are the scheduler's. */
  datatype Step =
    | DoSend(p: nat, ep: Result<nat, Errno>, msg: Result<MsgRegs, Errno>, buf: nat, op: Op)
    | DoRecv(p: nat, ep: Result<nat, Errno>, buf: nat, write: Result<(), Errno>)
    | DoReply(p: nat, ep: Result<nat, Errno>, msg: Result<MsgRegs, Errno>)
    | Dispatch(p: nat)
    | Leave(p: nat, how: ProcState)
    | EventWake(p: nat)

  predicate IsRunning(st: State, p: nat)
    requires |st.procs| == MAX_PROCS
  {
    p < MAX_PROCS && st.procs[p].Some? && st.procs[p].value.state == Running
  }

  /** Only a running process makes a host call; the scheduler dispatches ready ones,
      and a running one may be preempted, end, or wait for an audit event. */
  ghost predicate Enabled(st: State, s: Step)
    requires Sized(st)
  {
    match s
    case DoSend(p, ep, _, _, op) => IsRunning(st, p) && (ep.Ok? ==> ep.value < MAX_ENDPOINTS) && op in {Send, Call}
    case DoRecv(p, ep, _, _) => IsRunning(st, p) && (ep.Ok? ==> ep.value < MAX_ENDPOINTS)
    case DoReply(p, ep, _) => IsRunning(st, p) && (ep.Ok? ==> ep.value < MAX_ENDPOINTS)
    case Dispatch(p) => p < MAX_PROCS && st.procs[p].Some? && st.procs[p].value.state == Ready
    case Leave(p, how) => IsRunning(st, p) && (how in {Ready, Exited, Faulted} || (how.Blocked? && how.reason == EventWait))
    case EventWake(p) =>
      p < MAX_PROCS && st.procs[p].Some? && st.procs[p].value.state.Blocked? && st.procs[p].value.state.reason == EventWait
  }

  /** Process ids in the queues are process ids. */
  ghost predicate QueuesInRange(st: State)
    requires Sized(st)
  {
    forall e: nat :: e < MAX_ENDPOINTS && st.eps[e].Some? ==>
      && (forall q :: q in st.eps[e].value.senders ==> q < MAX_PROCS)
      && (forall q :: q in st.eps[e].value.receivers ==> q < MAX_PROCS)
  }

  function SetState(st: State, p: nat, state: ProcState): State
    requires p < |st.procs| && st.procs[p].Some?
  {
    st.(procs := st.procs[p := Some(st.procs[p].value.(state := state))])
  }

  ghost function Apply(st: State, s: Step): (r: (State, Answer))
    requires Sized(st) && QueuesInRange(st) && Enabled(st, s)
    ensures Sized(r.0)
  {
    match s
    case DoSend(p, ep, msg, buf, op) =>
      if ep.Err? then (st, Failed(ep.error))
      else if msg.Err? then (st, Failed(msg.error))
      else SendLike(st, p, ep.value, msg.value, buf, op)
    case DoRecv(p, ep, buf, write) =>
      if ep.Err? then (st, Failed(ep.error)) else Receive(st, p, ep.value, buf, write)
    case DoReply(p, ep, msg) =>
      if ep.Err? then (st, Failed(ep.error)) else ReplyTo(st, ep.value, msg)
    case Dispatch(p) =>
      (st.(procs := st.procs[p := Some(st.procs[p].value.(state := Running, msgBuf := NO_MSG_BUF))]), Done)
    case Leave(p, how) => (SetState(st, p, how), Done)
    case EventWake(p) => (SetState(st, p, Ready), Done)
  }

  // ---- The wire form of a message ----

  /** Registers as the source holds them: a badge and four 64-bit words. */
  ghost predicate Marshalable(m: MsgRegs) {
    m.badge < Pow256(8) && |m.words| == 4 && forall i :: 0 <= i < 4 ==> m.words[i] < Pow256(8)
  }

  function EncodeMsg(m: MsgRegs): (r: seq<byte>)
    requires |m.words| == 4
    ensures |r| == 40
  {
    LeBytes(m.badge, 8) + LeBytes(m.words[0], 8) + LeBytes(m.words[1], 8) + LeBytes(m.words[2], 8) + LeBytes(m.words[3], 8)
  }

  function DecodeMsg(b: seq<byte>): MsgRegs
    requires |b| == 40
  {
    MsgRegs(LeValue(b[0..8]), [LeValue(b[8..16]), LeValue(b[16..24]), LeValue(b[24..32]), LeValue(b[32..40])])
  }

  /** The badge comes first, then the words in order, eight bytes each. */
  lemma MsgLayout(m: MsgRegs, i: nat)
    requires Marshalable(m) && i < 4
    ensures LeValue(EncodeMsg(m)[..8]) == m.badge
    ensures LeValue(EncodeMsg(m)[8 + 8 * i..16 + 8 * i]) == m.words[i]
  {
    MsgRoundTrip(m);
    assert EncodeMsg(m)[..8] == EncodeMsg(m)[0..8];
    assert DecodeMsg(EncodeMsg(m)).words[i] == m.words[i];
  }

  /** A message crosses linear memory unchanged. */
  lemma MsgRoundTrip(m: MsgRegs)
    requires Marshalable(m)
    ensures DecodeMsg(EncodeMsg(m)) == m
  {
    var b := EncodeMsg(m);
    assert b[0..8] == LeBytes(m.badge, 8);
    assert b[8..16] == LeBytes(m.words[0], 8);
    assert b[16..24] == LeBytes(m.words[1], 8);
    assert b[24..32] == LeBytes(m.words[2], 8);
    assert b[32..40] == LeBytes(m.words[3], 8);
    LeRoundTrip(m.badge, 8);
    LeRoundTrip(m.words[0], 8);
    LeRoundTrip(m.words[1], 8);
    LeRoundTrip(m.words[2], 8);
    LeRoundTrip(m.words[3], 8);
    assert DecodeMsg(b).words == m.words;
  }
}
