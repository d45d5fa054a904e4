/** The submission ring over registered handles: what a drained entry is answered. */
module RingDispatch {
  import opened Wrappers
  import opened KernelAbi
  import opened Bytes
  import opened CapTypes
  import opened CapState
  import opened CapRuns
  import opened RingDrain

  /** `dispatch`: the refusal, or what the operation answers on the slot resolved. The
      operations of the ring move no capability, so one state serves a whole drain. */
  function Answer(st: State, table: seq<RegEntry>, procId: nat, operate: (nat, Sqe, nat) -> int, i: nat, sqe: Sqe): int
    requires |table| == REG_SLOTS
  {
    match Dispatch(st, table, procId, sqe.op, sqe.regIdx)
    case Err(e) => Code(e)
    case Ok(slot) => operate(i, sqe, slot)
  }

  function Answering(st: State, table: seq<RegEntry>, procId: nat, operate: (nat, Sqe, nat) -> int): (nat, Sqe) -> int
    requires |table| == REG_SLOTS
  {
    (i: nat, sqe: Sqe) => Answer(st, table, procId, operate, i, sqe)
  }

  /** What an entry that names the handle of slot `slot` is answered. */
  function HandleAnswer(held: bool, kind: Kind, operate: (nat, Sqe, nat) -> int, slot: nat, i: nat, sqe: Sqe): int {
    if !held || sqe.op !in {1, 2} then -2
    else if kind == Notification then operate(i, sqe, slot)
    else -1
  }

  lemma AnswerByHandle(
    states: seq<State>, calls: seq<(nat, Call)>, i: nat, j: nat,
    table: seq<RegEntry>, procId: nat, slot: nat, operate: (nat, Sqe, nat) -> int, k: nat, sqe: Sqe)
    requires SoundRun(states, calls) && i <= j < |states| && InRange(procId, slot)
    requires CapAt(states[i], Index(procId, slot)).kind != Empty
    requires |table| == REG_SLOTS && sqe.regIdx < REG_SLOTS && table[sqe.regIdx] == Registration(states[i], procId, slot)
    ensures Answer(states[j], table, procId, operate, k, sqe)
         == HandleAnswer(HeldThroughout(states, i, j, Index(procId, slot)), CapAt(states[i], Index(procId, slot)).kind,
                         operate, slot, k, sqe)
  {
    DispatchIffStillHeld(states, calls, i, j, table, procId, slot, sqe.op, sqe.regIdx);
    NoResurrection(states, calls, i, j, Index(procId, slot));
  }

  /** Every entry that a drain reaches and that names a registered handle is completed, with
      its own user data, by the operation on the registered slot while the cap has stayed
      and is a notification, by E_PERM while it is another kind, and by E_INVAL from the
      moment it left its slot, whatever fills that slot since. */
  lemma HandleCompletion(
    states: seq<State>, calls: seq<(nat, Call)>, i: nat, j: nat,
    table: seq<RegEntry>, procId: nat, slot: nat, operate: (nat, Sqe, nat) -> int,
    mem: seq<byte>, d: RingDesc, count: nat, k: nat, sqe: Sqe)
    requires SoundRun(states, calls) && i <= j < |states| && InRange(procId, slot)
    requires CapAt(states[i], Index(procId, slot)).kind != Empty && |table| == REG_SLOTS
    requires Layout(d, Reached(|mem|, d, 0, count)) && k < Reached(|mem|, d, 0, count) && EntryInBounds(|mem|, d, k)
    requires DecodeSqe(mem[SqOff(d, k)..SqOff(d, k) + SQE_SIZE], 0) == Some(sqe)
    requires sqe.regIdx < REG_SLOTS && table[sqe.regIdx] == Registration(states[i], procId, slot)
    ensures var answer := Answering(states[j], table, procId, operate);
      var held := HeldThroughout(states, i, j, Index(procId, slot));
      && Sized(Completion(answer))
      && Drain(mem, d, 0, count, Completion(answer)).0[CqOff(d, k)..CqOff(d, k) + CQE_SIZE]
         == EncodeCqe(sqe.userData, HandleAnswer(held, CapAt(states[i], Index(procId, slot)).kind, operate, slot, k, sqe))
  {
    var answer := Answering(states[j], table, procId, operate);
    CompletionSized(answer);
    AnswerByHandle(states, calls, i, j, table, procId, slot, operate, k, sqe);
    AnsweredAt(mem, d, count, answer, k, sqe);
  }
}
