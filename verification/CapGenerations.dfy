/** Generations: no capability is ever taken for an earlier occupant of its slot. */
module CapGenerations {
  import opened CapTypes
  import opened CapState

  // ---- What one call may do to one slot ----

  /** Nothing; or an occupied slot emptied at a new generation; or an empty slot
      filled at the same one. */
  ghost predicate SlotStep(st: State, st': State, k: nat)
    requires WellFormed(st) && WellFormed(st') && k < TOTAL_SLOTS
  {
    || (st'.slots[k] == st.slots[k] && st'.gens[k] == st.gens[k])
    || (Occupied(st, k) && st'.slots[k] == EMPTY_CAP
        && (st'.gens[k] == Bump(st.gens[k]) || (st.gens[k] == MAX_GEN && st'.gens[k] == 0)))
    || (!Occupied(st, k) && st'.gens[k] == st.gens[k] && Justified(st, st'.slots[k]))
  }

  /** A newly installed cap: its parent link is not from the future, and a live
      link leads to a cap it could derive from. */
  ghost predicate Justified(st: State, c: Cap)
    requires WellFormed(st)
  {
    && ParentInRange(c)
    && LinkOk(st, c)
  }

  ghost predicate LinkOk(st: State, c: Cap)
    requires WellFormed(st) && ParentInRange(c)
  {
    c.parent.At? ==>
      var p := ParentIndex(c);
      && c.parent.generation <= st.gens[p]
      && (c.parent.generation == st.gens[p] ==> Occupied(st, p) && Derived(st.slots[p], c))
  }

  /** What a sweep does to each slot. */
  lemma {:induction false} SweepSlots(st: State, doomed: set<nat>, n: nat, k: nat)
    requires WellFormed(st) && n <= TOTAL_SLOTS && k < TOTAL_SLOTS
    ensures SweepBelow(st, doomed, n).slots[k] == if k in doomed && k < n then EMPTY_CAP else st.slots[k]
    ensures SweepBelow(st, doomed, n).gens[k] == if k in doomed && k < n then Bump(st.gens[k]) else st.gens[k]
  {
    if n > 0 { SweepSlots(st, doomed, n - 1, k); }
  }

  lemma CascadeOccupied(st: State, t: nat, i: nat)
    requires WellFormed(st) && t < TOTAL_SLOTS && Occupied(st, t)
    requires i in Cascade(st, t)
    ensures i < TOTAL_SLOTS && Occupied(st, i)
  {}

  /** Revocation, slot by slot: the cascade is emptied and its generations are
      bumped; every other slot is untouched. */
  lemma RevokeSlots(st: State, t: nat, k: nat)
    requires WellFormed(st) && t < TOTAL_SLOTS && k < TOTAL_SLOTS
    ensures |Revoked(st, t).slots| == TOTAL_SLOTS && |Revoked(st, t).gens| == TOTAL_SLOTS
    ensures Revoked(st, t).slots[k] == if k in Cascade(st, t) then EMPTY_CAP else st.slots[k]
    ensures Revoked(st, t).gens[k] == if k in Cascade(st, t) then Bump(st.gens[k]) else st.gens[k]
  {
    SweepSlots(st, Cascade(st, t), TOTAL_SLOTS, k);
  }

  lemma RevokedWellFormed(st: State, t: nat)
    requires WellFormed(st) && t < TOTAL_SLOTS
    ensures WellFormed(Revoked(st, t))
  {
    forall k: nat | k < TOTAL_SLOTS
      ensures Revoked(st, t).gens[k] <= MAX_GEN && ParentInRange(Revoked(st, t).slots[k])
    {
      RevokeSlots(st, t, k);
    }
  }

  lemma InstallWellFormed(st: State, i: nat, c: Cap)
    requires WellFormed(st) && i < TOTAL_SLOTS && ParentInRange(c)
    ensures WellFormed(Install(st, i, c))
  {}

  lemma VacateWellFormed(st: State, i: nat, g: nat)
    requires WellFormed(st) && i < TOTAL_SLOTS && g <= MAX_GEN
    ensures WellFormed(Vacate(st, i, g))
  {}

  /** Every call keeps the sizes, the widths and the parent ranges. */
  lemma NextWellFormed(st: State, procId: nat, call: Call)
    requires WellFormed(st)
    ensures WellFormed(Next(st, procId, call))
  {
    if Outcome(st, procId, call).Ok? {
      match call
      case DoMint(_, t, _, _) => FillWellFormed(st, procId, call, Index(procId, t));
      case DoCopy(s, t) =>
        assert ParentInRange(st.slots[Index(procId, s)]);
        FillWellFormed(st, procId, call, Index(procId, t));
      case DoSocketCreate(t, _) => FillWellFormed(st, procId, call, Index(procId, t));
      case DoDelete(s) => VacateWellFormed(st, Index(procId, s), Bump(st.gens[Index(procId, s)]));
      case DoRevoke(s) => RevokedWellFormed(st, Index(procId, s));
      case DoSocketClose(s) =>
        var i := Index(procId, s);
        VacateWellFormed(st, i, if st.gens[i] < MAX_GEN then st.gens[i] + 1 else 0);
    }
  }

  /** A call that fills slot `t` with a cap whose parent is in range. */
  lemma FillWellFormed(st: State, procId: nat, call: Call, t: nat)
    requires WellFormed(st) && t < TOTAL_SLOTS
    requires var st' := Next(st, procId, call);
      st'.gens == st.gens && |st'.slots| == TOTAL_SLOTS && st'.slots == st.slots[t := st'.slots[t]] && ParentInRange(st'.slots[t])
    ensures WellFormed(Next(st, procId, call))
  {}

  /** The links a cap may carry stay justified when copied or derived. */
  ghost predicate LinksOk(st: State)
    requires WellFormed(st)
  {
    forall i: nat :: i < TOTAL_SLOTS && Occupied(st, i) ==> LinkOk(st, st.slots[i])
  }

  /** Every call keeps the sizes and moves each slot by a `SlotStep`. */
  lemma CallSteps(st: State, procId: nat, call: Call)
    requires WellFormed(st) && LinksOk(st)
    ensures WellFormed(Next(st, procId, call))
    ensures forall k: nat :: k < TOTAL_SLOTS ==> SlotStep(st, Next(st, procId, call), k)
  {
    var out := Outcome(st, procId, call);
    if out.Ok? {
      match call
      case DoMint(p, t, r, b) => MintSteps(st, procId, p, t, r, b);
      case DoCopy(s, t) => InstallSteps(st, Index(procId, t), st.slots[Index(procId, s)].(generation := st.gens[Index(procId, t)]));
      case DoDelete(s) => VacateSteps(st, Index(procId, s), Bump(st.gens[Index(procId, s)]));
      case DoRevoke(s) => RevokeSteps(st, Index(procId, s));
      case DoSocketCreate(s, d) => SocketSteps(st, procId, s, d);
      case DoSocketClose(s) =>
        var i := Index(procId, s);
        VacateSteps(st, i, if st.gens[i] < MAX_GEN then st.gens[i] + 1 else 0);
    }
  }

  lemma InstallSteps(st: State, i: nat, c: Cap)
    requires WellFormed(st) && i < TOTAL_SLOTS && !Occupied(st, i) && Justified(st, c)
    ensures WellFormed(Install(st, i, c))
    ensures forall k: nat :: k < TOTAL_SLOTS ==> SlotStep(st, Install(st, i, c), k)
  {
    InstallWellFormed(st, i, c);
  }

  lemma VacateSteps(st: State, i: nat, g: nat)
    requires WellFormed(st) && i < TOTAL_SLOTS && Occupied(st, i)
    requires g == Bump(st.gens[i]) || (st.gens[i] == MAX_GEN && g == 0)
    ensures WellFormed(Vacate(st, i, g))
    ensures forall k: nat :: k < TOTAL_SLOTS ==> SlotStep(st, Vacate(st, i, g), k)
  {
    VacateWellFormed(st, i, g);
  }

  lemma RevokeSteps(st: State, t: nat)
    requires WellFormed(st) && t < TOTAL_SLOTS && Occupied(st, t)
    ensures WellFormed(Revoked(st, t))
    ensures forall k: nat :: k < TOTAL_SLOTS ==> SlotStep(st, Revoked(st, t), k)
  {
    RevokedWellFormed(st, t);
    forall k: nat | k < TOTAL_SLOTS
      ensures SlotStep(st, Revoked(st, t), k)
    {
      RevokeSlots(st, t, k);
      if k in Cascade(st, t) { CascadeOccupied(st, t, k); }
    }
  }

  lemma MintSteps(st: State, procId: nat, p: nat, t: nat, r: bv32, b: nat)
    requires WellFormed(st) && Mint(st, procId, p, t, r, b).Ok?
    ensures WellFormed(Mint(st, procId, p, t, r, b).value)
    ensures forall k: nat :: k < TOTAL_SLOTS ==> SlotStep(st, Mint(st, procId, p, t, r, b).value, k)
  {
    var pi, ti := Index(procId, p), Index(procId, t);
    var child := Derive(st.slots[pi], At(procId, p, st.gens[pi]), r as bv8, b).value;
    assert ParentIndex(child) == pi;
    InstallSteps(st, ti, child.(generation := st.gens[ti]));
  }

  lemma SocketSteps(st: State, procId: nat, s: nat, d: DriverAnswer)
    requires WellFormed(st) && SocketCreate(st, procId, s, d).Ok?
    ensures WellFormed(SocketCreate(st, procId, s, d).value)
    ensures forall k: nat :: k < TOTAL_SLOTS ==> SlotStep(st, SocketCreate(st, procId, s, d).value, k)
  {
    var n, t, x := Index(procId, SLOT_NET), Index(procId, s), FirstFree(st.objs, Socket, 0).value;
    var cap := Cap(0, At(procId, SLOT_NET, st.gens[n]), st.gens[t], x, Socket, READ | WRITE);
    var st1 := st.(objs := st.objs[(Socket, x) := 0]);
    assert ParentIndex(cap) == n;
    InstallSteps(st1, t, cap);
    forall k: nat | k < TOTAL_SLOTS
      ensures SlotStep(st, SocketCreate(st, procId, s, d).value, k)
    {
      assert SlotStep(st1, SocketCreate(st, procId, s, d).value, k);
    }
  }

  // ---- The saturation condition ----

  /** No occupied slot sits at the saturated generation. */
  ghost predicate Unsaturated(st: State)
    requires WellFormed(st)
  {
    forall k: nat :: k < TOTAL_SLOTS && Occupied(st, k) ==> st.gens[k] < MAX_GEN
  }

  /** The call does not fill a slot whose generation has saturated: the refusal that
      the CSpace documentation asks of mint, and that the code does not make. */
  predicate RespectsSaturation(st: State, procId: nat, call: Call) {
    match call
    case DoMint(_, t, _, _) => InRange(procId, t) ==> Generation(st, Index(procId, t)) < MAX_GEN
    case DoCopy(_, t) => InRange(procId, t) ==> Generation(st, Index(procId, t)) < MAX_GEN
    case DoSocketCreate(t, _) => InRange(procId, t) ==> Generation(st, Index(procId, t)) < MAX_GEN
    case _ => true
  }

  ghost predicate GenerationsOk(st: State) {
    WellFormed(st) && LinksOk(st) && Unsaturated(st)
  }

  /** Emptying and filling slots keeps every recorded parent link honest. */
  lemma StepKeepsLinks(st: State, st': State)
    requires GenerationsOk(st) && WellFormed(st')
    requires forall k: nat :: k < TOTAL_SLOTS ==> SlotStep(st, st', k)
    ensures LinksOk(st')
  {
    forall i: nat | i < TOTAL_SLOTS && Occupied(st', i)
      ensures LinkOk(st', st'.slots[i])
    {
      assert SlotStep(st, st', i);
      var c := st'.slots[i];
      assert LinkOk(st, c);
      if c.parent.At? {
        assert SlotStep(st, st', ParentIndex(c));
      }
    }
  }

  lemma FillKeepsUnsaturated(st: State, st': State)
    requires GenerationsOk(st) && WellFormed(st')
    requires forall k: nat :: k < TOTAL_SLOTS ==> SlotStep(st, st', k)
    requires forall k: nat :: k < TOTAL_SLOTS && !Occupied(st, k) && Occupied(st', k) ==> st.gens[k] < MAX_GEN
    ensures Unsaturated(st')
  {
    forall k: nat | k < TOTAL_SLOTS && Occupied(st', k)
      ensures st'.gens[k] < MAX_GEN
    {
      assert SlotStep(st, st', k);
    }
  }

  /** The invariant holds across every call that respects saturation. */
  lemma CallKeepsGenerations(st: State, procId: nat, call: Call)
    requires GenerationsOk(st) && RespectsSaturation(st, procId, call)
    ensures GenerationsOk(Next(st, procId, call))
  {
    var st' := Next(st, procId, call);
    CallSteps(st, procId, call);
    StepKeepsLinks(st, st');
    forall k: nat | k < TOTAL_SLOTS && !Occupied(st, k) && Occupied(st', k)
      ensures st.gens[k] < MAX_GEN
    {
      if call.DoRevoke? && Outcome(st, procId, call).Ok? { RevokeSlots(st, Index(procId, call.slot), k); }
    }
    FillKeepsUnsaturated(st, st');
  }
}
