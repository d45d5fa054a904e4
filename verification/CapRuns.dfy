/** Safety over whole runs of the capability machine: no resurrection, stale
    handles, and what a live derivation chain keeps. */
module CapRuns {
  import opened Wrappers
  import opened CapTypes
  import opened CapState
  import opened CapGenerations
  import opened KernelAbi

  ghost predicate Follows(st: State, procId: nat, call: Call, st': State) {
    WellFormed(st) ==> st' == Next(st, procId, call)
  }

  /** A run: from a well-formed state, calls of any processes in any order. */
  ghost predicate Run(states: seq<State>, calls: seq<(nat, Call)>) {
    && |states| == |calls| + 1
    && WellFormed(states[0])
    && (forall i :: 0 <= i < |calls| ==> Follows(states[i], calls[i].0, calls[i].1, states[i + 1]))
  }

  lemma {:induction false} RunWellFormed(states: seq<State>, calls: seq<(nat, Call)>, i: nat)
    requires Run(states, calls) && i < |states|
    ensures WellFormed(states[i])
  {
    if i > 0 {
      RunWellFormed(states, calls, i - 1);
      assert Follows(states[i - 1], calls[i - 1].0, calls[i - 1].1, states[i]);
      NextWellFormed(states[i - 1], calls[i - 1].0, calls[i - 1].1);
    }
  }

  ghost function Last(states: seq<State>): State
    requires states != []
  {
    states[|states| - 1]
  }

  /** One more call. */
  lemma Extend(states: seq<State>, calls: seq<(nat, Call)>, procId: nat, call: Call, st': State)
    requires Run(states, calls) && WellFormed(Last(states)) && st' == Next(Last(states), procId, call)
    ensures Run(states + [st'], calls + [(procId, call)]) && WellFormed(st')
  {
    NextWellFormed(Last(states), procId, call);
    var states', calls' := states + [st'], calls + [(procId, call)];
    forall i | 0 <= i < |calls'| ensures Follows(states'[i], calls'[i].0, calls'[i].1, states'[i + 1]) {
      if i < |calls| { assert Follows(states[i], calls[i].0, calls[i].1, states[i + 1]); }
    }
  }

  /** The state after two more calls. */
  ghost function NextTwo(st: State, procId: nat, c0: Call, c1: Call): State
    requires WellFormed(st)
  {
    NextWellFormed(st, procId, c0);
    Next(Next(st, procId, c0), procId, c1)
  }

  /** Two more calls. */
  lemma ExtendTwice(states: seq<State>, calls: seq<(nat, Call)>, procId: nat, c0: Call, c1: Call)
    returns (states': seq<State>, calls': seq<(nat, Call)>)
    requires Run(states, calls) && WellFormed(Last(states))
    ensures Run(states', calls') && states' != [] && states'[0] == states[0] && calls' == calls + [(procId, c0)] + [(procId, c1)]
    ensures Last(states') == NextTwo(Last(states), procId, c0, c1) && WellFormed(Last(states'))
  {
    var st1 := Next(Last(states), procId, c0);
    Extend(states, calls, procId, c0, st1);
    var st2 := Next(st1, procId, c1);
    Extend(states + [st1], calls + [(procId, c0)], procId, c1, st2);
    states', calls' := states + [st1] + [st2], calls + [(procId, c0)] + [(procId, c1)];
  }

  /** Every call of the run respects saturation. */
  ghost predicate Respects(states: seq<State>, calls: seq<(nat, Call)>)
    requires |states| == |calls| + 1
  {
    forall i :: 0 <= i < |calls| ==> RespectsSaturation(states[i], calls[i].0, calls[i].1)
  }

  /** A run that starts sound and never fills a saturated slot. */
  ghost predicate SoundRun(states: seq<State>, calls: seq<(nat, Call)>) {
    Run(states, calls) && GenerationsOk(states[0]) && Respects(states, calls)
  }

  lemma {:induction false} SoundThroughout(states: seq<State>, calls: seq<(nat, Call)>, i: nat)
    requires SoundRun(states, calls) && i < |states|
    ensures GenerationsOk(states[i])
  {
    if i > 0 {
      SoundThroughout(states, calls, i - 1);
      assert Follows(states[i - 1], calls[i - 1].0, calls[i - 1].1, states[i]);
      CallKeepsGenerations(states[i - 1], calls[i - 1].0, calls[i - 1].1);
    }
  }

  /** One call of a sound run moves each slot by a `SlotStep`. */
  lemma RunSteps(states: seq<State>, calls: seq<(nat, Call)>, i: nat, k: nat)
    requires SoundRun(states, calls) && i < |calls| && k < TOTAL_SLOTS
    ensures WellFormed(states[i]) && WellFormed(states[i + 1]) && SlotStep(states[i], states[i + 1], k)
  {
    SoundThroughout(states, calls, i);
    assert Follows(states[i], calls[i].0, calls[i].1, states[i + 1]);
    CallSteps(states[i], calls[i].0, calls[i].1);
  }

  lemma {:induction false} GenerationsNeverFall(states: seq<State>, calls: seq<(nat, Call)>, i: nat, j: nat, k: nat)
    requires SoundRun(states, calls) && i <= j < |states| && k < TOTAL_SLOTS
    ensures Generation(states[i], k) <= Generation(states[j], k)
    decreases j
  {
    if i < j {
      GenerationsNeverFall(states, calls, i, j - 1, k);
      SoundThroughout(states, calls, j - 1);
      RunSteps(states, calls, j - 1, k);
    }
  }

  /** The occupant of slot `k` at `i` is there at every state up to `j`. */
  ghost predicate HeldThroughout(states: seq<State>, i: nat, j: nat, k: nat)
    requires i <= j < |states|
  {
    forall m :: i <= m <= j ==> CapAt(states[m], k) == CapAt(states[i], k)
  }

  /** No resurrection. A slot occupied at `i` shows the same generation at `j` exactly
      when its occupant never left: slot and generation name one occupancy. */
  lemma {:induction false} NoResurrection(states: seq<State>, calls: seq<(nat, Call)>, i: nat, j: nat, k: nat)
    requires SoundRun(states, calls) && i <= j < |states| && k < TOTAL_SLOTS
    requires CapAt(states[i], k).kind != Empty
    ensures Generation(states[j], k) == Generation(states[i], k) <==> HeldThroughout(states, i, j, k)
    decreases j
  {
    if i < j {
      NoResurrection(states, calls, i, j - 1, k);
      GenerationsNeverFall(states, calls, i, j - 1, k);
      SoundThroughout(states, calls, j - 1);
      RunSteps(states, calls, j - 1, k);
      if HeldThroughout(states, i, j, k) {
        assert HeldThroughout(states, i, j - 1, k);
        assert CapAt(states[j], k) == CapAt(states[j - 1], k) == CapAt(states[i], k);
      }
    }
  }

  /** A cap that recorded its parent at `i` and whose link is live at `j` still hangs
      below the very cap it was derived from. */
  lemma LiveLinkMeansSameParent(states: seq<State>, calls: seq<(nat, Call)>, i: nat, j: nat, c: nat, p: nat)
    requires SoundRun(states, calls) && i <= j < |states| && c < TOTAL_SLOTS && p < TOTAL_SLOTS
    requires CapAt(states[i], p).kind != Empty && c < |states[j].slots| && p < |states[j].gens| && IsChild(states[j], c, p)
    requires CapAt(states[j], c).parent.generation == Generation(states[i], p)
    ensures HeldThroughout(states, i, j, p)
    ensures Derived(CapAt(states[i], p), CapAt(states[j], c))
  {
    NoResurrection(states, calls, i, j, p);
    SoundThroughout(states, calls, j);
    assert LinkOk(states[j], states[j].slots[c]);
  }

  // ---- Along a live chain ----

  /** Along a live chain, either the object never changes and rights only shrink, or it
      leads from a socket with at most read and write up to a network interface. */
  lemma {:induction false} ChainKeepsObject(st: State, i: nat, t: nat, n: nat)
    requires GenerationsOk(st) && i < TOTAL_SLOTS && t < TOTAL_SLOTS
    requires Occupied(st, t) && Descends(st, i, t, n)
    ensures if st.slots[i].kind == st.slots[t].kind then Narrowed(st.slots[t], st.slots[i])
            else st.slots[t].kind == Net && st.slots[i].kind == Socket && SubRights(st.slots[i].rights, READ | WRITE)
    decreases n
  {
    if n > 0 {
      var p := ParentIndex(st.slots[i]);
      assert LinkOk(st, st.slots[i]);
      ChainKeepsObject(st, p, t, n - 1);
      NarrowedTwice(st.slots[t], st.slots[p], st.slots[i]);
    } else {
      assert SubRights(st.slots[i].rights, st.slots[i].rights);
    }
  }

  /** One more link on either kind of chain. */
  lemma NarrowedTwice(top: Cap, parent: Cap, child: Cap)
    requires Derived(parent, child)
    requires if parent.kind == top.kind then Narrowed(top, parent)
             else top.kind == Net && parent.kind == Socket && SubRights(parent.rights, READ | WRITE)
    ensures if child.kind == top.kind then Narrowed(top, child)
            else top.kind == Net && child.kind == Socket && SubRights(child.rights, READ | WRITE)
  {
    if Narrowed(parent, child) {
      if parent.kind == top.kind { SubRightsTransitive(child.rights, parent.rights, top.rights); }
      else { SubRightsTransitive(child.rights, parent.rights, READ | WRITE); }
    }
  }

  // ---- Registered handles ----

  const REG_SLOTS: nat := 64

  datatype RegEntry = RegEntry(kind: Kind, rights: bv8, cspaceSlot: nat, regGeneration: nat, poolIndex: nat)

  /** The resolution `cap_register` caches for the cap in a slot. */
  function Registration(st: State, procId: nat, slot: nat): RegEntry {
    var i := Index(procId, slot);
    RegEntry(CapAt(st, i).kind, CapAt(st, i).rights, slot, Generation(st, i), CapAt(st, i).poolIndex)
  }

  datatype RegCheck = Accepted | OutOfRange | NotLive | Stale | NotPermitted

  function ValidateHandle(regIdx: nat, live: bool, regGeneration: nat, curGeneration: nat, opPermitted: bool): RegCheck {
    if regIdx >= REG_SLOTS then OutOfRange
    else if !live then NotLive
    else if regGeneration != curGeneration then Stale
    else if !opPermitted then NotPermitted
    else Accepted
  }

  const RING_OP_NOTIFY_WAIT: nat := 1
  const RING_OP_NOTIFY_ACK: nat := 2

  predicate IsKnownOp(op: nat) { RING_OP_NOTIFY_WAIT <= op <= RING_OP_NOTIFY_ACK }

  predicate OpPermittedFor(kind: Kind, op: nat) {
    (op == RING_OP_NOTIFY_WAIT || op == RING_OP_NOTIFY_ACK) && kind == Notification
  }

  /** `dispatch` up to its delegation: the CSpace slot the operation runs on, or the refusal. */
  function Dispatch(st: State, table: seq<RegEntry>, procId: nat, op: nat, regIdx: nat): Result<nat, Errno>
    requires |table| == REG_SLOTS
  {
    if !IsKnownOp(op) || regIdx >= REG_SLOTS then Err(E_INVAL)
    else
      var entry := table[regIdx];
      var live := entry.kind != Empty;
      var curGen := if live then Generation(st, Index(procId, entry.cspaceSlot)) else 0;
      match ValidateHandle(regIdx, live, entry.regGeneration, curGen, OpPermittedFor(entry.kind, op))
      case Accepted => Ok(entry.cspaceSlot)
      case NotPermitted => Err(E_PERM)
      case _ => Err(E_INVAL)
  }

  /** A handle past the table, or of an entry that is free, is refused as invalid. */
  lemma DispatchNeedsEntry(st: State, table: seq<RegEntry>, procId: nat, op: nat, regIdx: nat)
    requires |table| == REG_SLOTS && (regIdx >= 64 || table[regIdx].kind == Empty)
    ensures Dispatch(st, table, procId, op, regIdx) == Err(E_INVAL)
  {}

  /** A handle registered at `i` is dispatched at `j` exactly when its cap has been in
      place ever since, the operation is one of the two known ones, and the cap is a
      notification; the cached kind, rights and pool index are then the live ones. Once
      the cap has left, a known operation is refused as invalid. */
  lemma DispatchIffStillHeld(
    states: seq<State>, calls: seq<(nat, Call)>, i: nat, j: nat,
    table: seq<RegEntry>, procId: nat, slot: nat, op: nat, regIdx: nat)
    requires SoundRun(states, calls) && i <= j < |states| && InRange(procId, slot)
    requires CapAt(states[i], Index(procId, slot)).kind != Empty
    requires |table| == REG_SLOTS && regIdx < REG_SLOTS && table[regIdx] == Registration(states[i], procId, slot)
    ensures
      var d, k := Dispatch(states[j], table, procId, op, regIdx), Index(procId, slot);
      && (d.Ok? <==> HeldThroughout(states, i, j, k) && op in {1, 2} && CapAt(states[i], k).kind == Notification)
      && (d == Err(E_PERM) <==> HeldThroughout(states, i, j, k) && op in {1, 2} && CapAt(states[i], k).kind != Notification)
      && (d.Err? ==> d.error in {E_PERM, E_INVAL})
      && (d.Ok? ==>
            && d.value == slot
            && CapAt(states[j], k).kind == table[regIdx].kind
            && CapAt(states[j], k).rights == table[regIdx].rights
            && CapAt(states[j], k).poolIndex == table[regIdx].poolIndex)
      && (!HeldThroughout(states, i, j, k) ==> d == Err(E_INVAL))
  {
    NoResurrection(states, calls, i, j, Index(procId, slot));
    if HeldThroughout(states, i, j, Index(procId, slot)) {
      assert CapAt(states[j], Index(procId, slot)) == CapAt(states[i], Index(procId, slot));
    }
  }
}
