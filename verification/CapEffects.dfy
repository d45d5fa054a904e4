/** What each capability call does to slots, generations and objects, when it is refused, and
    what that means for the derivation tree. */
module CapEffects {
  import opened Wrappers
  import opened KernelAbi
  import opened CapTypes
  import opened CapState
  import opened CapGenerations
  import opened CapRuns
  import opened CapKernel

  // ---- Objects ----

  /** One more cap names `k`: its refcount rises by one, short of 65535. */
  ghost predicate Gained(before: Objects, after: Objects, k: Key) {
    forall j: Key ::
      && (j in after <==> j in before)
      && (j in before ==> after[j] == if j != k then before[j] else if before[j] < 65_535 then before[j] + 1 else 65_535)
  }

  /** One cap fewer names `k`: its refcount falls by one, and the last frees it. */
  ghost predicate Dropped(before: Objects, after: Objects, k: Key) {
    forall j: Key ::
      && (j in after <==> j in before && (j == k ==> before[j] > 1))
      && (j in after ==> after[j] == if j == k then before[j] - 1 else before[j])
  }

  /** The object a cap of this kind names, if the kind has objects at all. */
  ghost predicate CountsFor(c: Cap, before: Objects, after: Objects, up: bool) {
    if c.kind == Empty || c.kind == EventLog then after == before
    else if up then Gained(before, after, (c.kind, c.poolIndex))
    else Dropped(before, after, (c.kind, c.poolIndex))
  }

  // ---- One call ----

  ghost predicate Slots256(procId: nat, a: nat, b: nat) { procId < 16 && a < 256 && b < 256 }

  /** Mint fills an empty slot with a child of the source at the source's generation: the
      same object, exactly the rights asked for, and the badge when it is an endpoint. */
  lemma MintEffects(st: State, procId: nat, p: nat, t: nat, rights: bv32, badge: nat)
    requires WellFormed(st)
    ensures var out, i, k := Outcome(st, procId, DoMint(p, t, rights, badge)), procId * 256 + p, procId * 256 + t;
      && (out == Err(E_PERM) <==>
            && Slots256(procId, p, t) && st.slots[i].kind != Empty && st.slots[k].kind == Empty
            && rights <= 15 && (rights as bv8) & !st.slots[i].rights != 0)
      && (out.Ok? <==>
            && Slots256(procId, p, t) && st.slots[i].kind != Empty && st.slots[k].kind == Empty
            && rights <= 15 && (rights as bv8) & !st.slots[i].rights == 0)
      && (out.Err? ==> out.error in {E_PERM, E_INVAL})
      && (out.Ok? ==>
            var from, st' := st.slots[i], out.value;
            var c := Cap(if from.kind == Endpoint then badge else 0, At(procId, p, st.gens[i]), st.gens[k],
                         from.poolIndex, from.kind, rights as bv8);
            st'.slots == st.slots[k := c] && st'.gens == st.gens && CountsFor(c, st.objs, st'.objs, true))
  {
    RightsInUse(rights);
  }

  lemma RightsInUse(rights: bv32)
    ensures rights <= 15 <==> rights <= 0xFF && (rights as bv8) & !15 == 0
  {}

  /** Copy fills an empty slot with a sibling of the source: everything the source has, its
      parent link included, but the generation of its own slot. */
  lemma CopyEffects(st: State, procId: nat, s: nat, t: nat)
    requires WellFormed(st)
    ensures var out, i, k := Outcome(st, procId, DoCopy(s, t)), procId * 256 + s, procId * 256 + t;
      && (out.Ok? <==> Slots256(procId, s, t) && st.slots[i].kind != Empty && st.slots[k].kind == Empty)
      && (out.Err? ==> out.error == E_INVAL)
      && (out.Ok? ==>
            var from, st' := st.slots[i], out.value;
            var c := Cap(from.badge, from.parent, st.gens[k], from.poolIndex, from.kind, from.rights);
            st'.slots == st.slots[k := c] && st'.gens == st.gens && CountsFor(c, st.objs, st'.objs, true))
  {}

  /** Delete empties one slot, whoever hangs below it, and its generation rises by one. */
  lemma DeleteEffects(st: State, procId: nat, s: nat)
    requires WellFormed(st)
    ensures var out, i := Outcome(st, procId, DoDelete(s)), procId * 256 + s;
      && (out.Ok? <==> Slots256(procId, s, s) && st.slots[i].kind != Empty)
      && (out.Err? ==> out.error == E_INVAL)
      && (out.Ok? ==> Emptied(st, out.value, {i}) && CountsFor(st.slots[i], st.objs, out.value.objs, false))
  {}

  /** Exactly these slots are empty now, each at its next generation, short of 65535. */
  ghost predicate Emptied(st: State, st': State, gone: set<nat>) {
    && |st'.slots| == |st.slots| && |st'.gens| == |st.gens| == |st.slots|
    && forall k: nat {:trigger st'.slots[k]} {:trigger st'.gens[k]} :: k < |st.slots| ==>
         && st'.slots[k] == (if k in gone then Cap(0, Root, 0, 65_535, Empty, 0) else st.slots[k])
         && st'.gens[k] == (if k in gone && st.gens[k] < 65_535 then st.gens[k] + 1 else st.gens[k])
  }

  /** Revoke asks for the write right and empties the cap with everything derived from it. */
  lemma RevokeEffects(st: State, procId: nat, s: nat)
    requires WellFormed(st)
    ensures var out, i := Outcome(st, procId, DoRevoke(s)), procId * 256 + s;
      && (out == Err(E_INVAL) <==> !Slots256(procId, s, s) || st.slots[i].kind == Empty)
      && (out == Err(E_PERM) <==> Slots256(procId, s, s) && st.slots[i].kind != Empty && st.slots[i].rights & 2 == 0)
      && (out.Err? ==> out.error in {E_PERM, E_INVAL})
      && (out.Ok? ==> Emptied(st, out.value, Cascade(st, i)))
  {
    var i := procId * 256 + s;
    if Slots256(procId, s, s) {
      forall k: nat | k < TOTAL_SLOTS
        ensures Revoked(st, i).slots[k] == if k in Cascade(st, i) then EMPTY_CAP else st.slots[k]
        ensures Revoked(st, i).gens[k] == if k in Cascade(st, i) then Bump(st.gens[k]) else st.gens[k]
      {
        RevokeSlots(st, i, k);
      }
    }
  }

  /** `x` is the least of the 256 socket objects that is free. */
  ghost predicate LeastFreeSocket(objs: Objects, x: nat) {
    x < 256 && (Socket, x) !in objs && forall y: nat :: y < x ==> (Socket, y) in objs
  }

  /** Socket creation asks for the write right on the caller's network cap in slot 2, then
      the driver, then for a free object; the socket may be read and written. */
  lemma SocketCreateEffects(st: State, procId: nat, slot: nat, driver: DriverAnswer, x: nat)
    requires WellFormed(st)
    ensures var out, n, k := Outcome(st, procId, DoSocketCreate(slot, driver)), procId * 256 + 2, procId * 256 + slot;
      && (out == Err(E_INVAL) <==> !Slots256(procId, slot, slot))
      && (Slots256(procId, slot, slot) ==>
            (out == Err(E_PERM) <==> st.slots[n].kind != Net || st.slots[n].rights & 2 == 0 || st.slots[k].kind != Empty))
      && (Slots256(procId, slot, slot) && out != Err(E_PERM) && driver.Trapped? ==> out == Err(E_NOMEM))
      && (Slots256(procId, slot, slot) && out != Err(E_PERM) && driver.Answered? && driver.code < 0 ==>
            out == Err(E_DRIVER(driver.code)))
      && (Slots256(procId, slot, slot) && out != Err(E_PERM) && driver.Answered? && driver.code >= 0 ==>
            && (out == Err(E_NOMEM) <==> forall y: nat :: y < 256 ==> (Socket, y) in st.objs)
            && (out.Ok? <==> out != Err(E_NOMEM))
            && (LeastFreeSocket(st.objs, x) ==>
                  && out.Ok?
                  && out.value.slots == st.slots[k := Cap(0, At(procId, 2, st.gens[n]), st.gens[k], x, Socket, 3)]
                  && out.value.gens == st.gens && out.value.objs == st.objs[(Socket, x) := 1]))
  {
    var free := FirstFree(st.objs, Socket, 0);
    if LeastFreeSocket(st.objs, x) && free.Some? { assert free.value == x; }
    assert READ | WRITE == 3;
  }

  /** Socket close empties one socket slot, and its generation wraps from 65535 to 0. */
  lemma SocketCloseEffects(st: State, procId: nat, slot: nat)
    requires WellFormed(st)
    ensures var out, i := Outcome(st, procId, DoSocketClose(slot)), procId * 256 + slot;
      && (out == Err(E_PERM) <==> Slots256(procId, slot, slot) && st.slots[i].kind != Socket)
      && (out.Ok? <==> Slots256(procId, slot, slot) && st.slots[i].kind == Socket && (Socket, st.slots[i].poolIndex) in st.objs)
      && (out.Err? ==> out.error in {E_PERM, E_INVAL})
      && (out.Ok? ==>
            && out.value.slots == st.slots[i := Cap(0, Root, 0, 65_535, Empty, 0)]
            && out.value.gens == st.gens[i := if st.gens[i] == 65_535 then 0 else st.gens[i] + 1]
            && CountsFor(st.slots[i], st.objs, out.value.objs, false))
  {}

  // ---- The derivation tree ----

  /** No cap descends from itself: live parent links form trees. */
  ghost predicate Forest(st: State) {
    WellFormed(st) && forall i: nat, n: nat {:trigger Descends(st, i, i, n)} :: i < TOTAL_SLOTS && n > 0 ==> !Descends(st, i, i, n)
  }

  /** The live link of `i` was there before. */
  ghost predicate LinkIsOld(st: State, st': State, i: nat)
    requires WellFormed(st) && WellFormed(st') && i < TOTAL_SLOTS
  {
    st'.slots[i].parent.At? && IsChild(st', i, ParentIndex(st'.slots[i])) ==>
      st'.slots[i] == st.slots[i] && IsChild(st, i, ParentIndex(st.slots[i]))
  }

  /** A chain from a slot whose links are old, to slots whose links are old, is old. */
  lemma {:induction false} OldChain(st: State, st': State, filled: nat, i: nat, j: nat, n: nat)
    requires WellFormed(st) && WellFormed(st') && i < TOTAL_SLOTS && j < TOTAL_SLOTS && i != filled
    requires forall k: nat :: k < TOTAL_SLOTS && k != filled ==> LinkIsOld(st, st', k)
    requires forall k: nat :: k < TOTAL_SLOTS && filled < TOTAL_SLOTS ==> !IsChild(st', k, filled)
    requires Descends(st', i, j, n)
    ensures Descends(st, i, j, n) && (n > 0 ==> j != filled)
    decreases n
  {
    if n > 0 {
      var p := ParentIndex(st'.slots[i]);
      assert LinkIsOld(st, st', i) && IsChild(st', i, p);
      if n > 1 { OldChain(st, st', filled, p, j, n - 1); }
      else {
        assert Descends(st', p, j, 0);
        assert Descends(st, p, j, 0);
      }
    }
  }

  /** Every call that respects saturation keeps the forest. */
  lemma CallKeepsForest(st: State, procId: nat, call: Call)
    requires GenerationsOk(st) && RespectsSaturation(st, procId, call) && Forest(st)
    ensures Forest(Next(st, procId, call))
  {
    var st' := Next(st, procId, call);
    CallSteps(st, procId, call);
    var filled := FilledSlot(st, procId, call);
    forall k: nat | k < TOTAL_SLOTS && k != filled ensures LinkIsOld(st, st', k) {
      assert SlotStep(st, st', k);
      StepLinks(st, st', procId, call, k, filled);
    }
    forall k: nat | k < TOTAL_SLOTS && filled < TOTAL_SLOTS ensures !IsChild(st', k, filled) {
      FreshHasNoChild(st, st', procId, call, k, filled);
    }
    forall i: nat, n: nat {:trigger Descends(st', i, i, n)} | i < TOTAL_SLOTS && n > 0 ensures !Descends(st', i, i, n) {
      if Descends(st', i, i, n) {
        if i == filled { LoopEntersStart(st', i, i, n); }
        else { OldChain(st, st', filled, i, i, n); }
      }
    }
  }

  /** The slot a call fills, or none: `TOTAL_SLOTS`. */
  ghost function FilledSlot(st: State, procId: nat, call: Call): nat
    requires WellFormed(st)
  {
    if Outcome(st, procId, call).Err? then TOTAL_SLOTS
    else
      match call
      case DoMint(_, t, _, _) => procId * 256 + t
      case DoCopy(_, t) => procId * 256 + t
      case DoSocketCreate(t, _) => procId * 256 + t
      case _ => TOTAL_SLOTS
  }

  lemma OthersNotFilled(st: State, procId: nat, call: Call, k: nat)
    requires WellFormed(st) && k < TOTAL_SLOTS && k != FilledSlot(st, procId, call)
    requires |Next(st, procId, call).slots| == TOTAL_SLOTS && !Occupied(st, k)
    ensures !Occupied(Next(st, procId, call), k)
  {
    if call.DoRevoke? && Outcome(st, procId, call).Ok? { RevokeSlots(st, Index(procId, call.slot), k); }
  }

  lemma StepLinks(st: State, st': State, procId: nat, call: Call, k: nat, filled: nat)
    requires GenerationsOk(st) && WellFormed(st') && st' == Next(st, procId, call) && k < TOTAL_SLOTS && k != filled
    requires filled == FilledSlot(st, procId, call) && forall i: nat :: i < TOTAL_SLOTS ==> SlotStep(st, st', i)
    ensures LinkIsOld(st, st', k)
  {
    if Occupied(st', k) {
      if !Occupied(st, k) { OthersNotFilled(st, procId, call, k); }
      assert SlotStep(st, st', k);
      assert st'.slots[k] == st.slots[k];
      assert LinkOk(st, st.slots[k]);
      if st.slots[k].parent.At? { assert SlotStep(st, st', ParentIndex(st.slots[k])); }
    }
  }

  /** Nothing hangs below a slot that was just filled: no older link shows its generation. */
  lemma FreshHasNoChild(st: State, st': State, procId: nat, call: Call, k: nat, filled: nat)
    requires GenerationsOk(st) && RespectsSaturation(st, procId, call) && WellFormed(st') && st' == Next(st, procId, call)
    requires filled == FilledSlot(st, procId, call) && filled < TOTAL_SLOTS && k < TOTAL_SLOTS
    ensures !IsChild(st', k, filled)
  {
    CallSteps(st, procId, call);
    assert SlotStep(st, st', k);
    assert Occupied(st', k) ==> LinkOk(st, st'.slots[k]);
  }

  /** A chain of at least one link ends at a slot with a child. */
  lemma {:induction false} LoopEntersStart(st: State, i: nat, j: nat, n: nat)
    requires WellFormed(st) && i < TOTAL_SLOTS && j < TOTAL_SLOTS && n > 0 && Descends(st, i, j, n)
    ensures exists k: nat :: k < TOTAL_SLOTS && IsChild(st, k, j)
    decreases n
  {
    var p := ParentIndex(st.slots[i]);
    if n > 1 { LoopEntersStart(st, p, j, n - 1); }
    else {
      assert Descends(st, p, j, 0);
      assert IsChild(st, i, j);
    }
  }

  /** Over every sound run from a forest, boot's among them, derivation stays a forest. */
  lemma {:induction false} RunKeepsForest(states: seq<State>, calls: seq<(nat, Call)>, i: nat)
    requires SoundRun(states, calls) && i < |states| && Forest(states[0])
    ensures Forest(states[i])
  {
    if i > 0 {
      RunKeepsForest(states, calls, i - 1);
      SoundThroughout(states, calls, i - 1);
      assert Follows(states[i - 1], calls[i - 1].0, calls[i - 1].1, states[i]);
      CallKeepsForest(states[i - 1], calls[i - 1].0, calls[i - 1].1);
    }
  }

  /** Caps without parents form a forest. */
  lemma RootsAreForest(st: State)
    requires WellFormed(st) && forall i :: 0 <= i < TOTAL_SLOTS ==> st.slots[i].parent == Root
    ensures Forest(st)
  {}

  // ---- What mint and copy mean for revocation ----

  /** A copy is below its source only if the source was below itself, so never in a forest:
      revoking the source leaves the copy. */
  lemma CopyOutlivesSource(st: State, procId: nat, s: nat, t: nat)
    requires GenerationsOk(st) && Forest(st) && RespectsSaturation(st, procId, DoCopy(s, t)) && Outcome(st, procId, DoCopy(s, t)).Ok?
    ensures var st', i, k := Next(st, procId, DoCopy(s, t)), procId * 256 + s, procId * 256 + t;
      && i < TOTAL_SLOTS && k < TOTAL_SLOTS && WellFormed(st') && k !in Cascade(st', i)
      && |Revoked(st', i).slots| == TOTAL_SLOTS && Revoked(st', i).slots[k] == st'.slots[k]
  {
    var st', i, k := Next(st, procId, DoCopy(s, t)), procId * 256 + s, procId * 256 + t;
    NextWellFormed(st, procId, DoCopy(s, t));
    CallKeepsForest(st, procId, DoCopy(s, t));
    if k in Cascade(st', i) {
      var n: nat :| Descends(st', k, i, n);
      assert n > 0;
      SiblingsDescend(st', i, k, i, n);
    }
    RevokeSlots(st', i, k);
  }

  /** Slots with one parent link descend alike. */
  lemma SiblingsDescend(st: State, a: nat, b: nat, j: nat, n: nat)
    requires WellFormed(st) && a < TOTAL_SLOTS && b < TOTAL_SLOTS && j < TOTAL_SLOTS && n > 0
    requires Occupied(st, a) && Occupied(st, b) && st.slots[a].parent == st.slots[b].parent && Descends(st, b, j, n)
    ensures Descends(st, a, j, n)
  {}

  /** Whatever else the source hangs below, the copy does too: revoking it sweeps both. */
  lemma CopySharesAncestors(st: State, procId: nat, s: nat, t: nat, a: nat)
    requires WellFormed(st) && Outcome(st, procId, DoCopy(s, t)).Ok? && a < TOTAL_SLOTS
    requires a != procId * 256 + s && a != procId * 256 + t
    ensures var st', i, k := Next(st, procId, DoCopy(s, t)), procId * 256 + s, procId * 256 + t;
      i < TOTAL_SLOTS && k < TOTAL_SLOTS && WellFormed(st') && (i in Cascade(st', a) <==> k in Cascade(st', a))
  {
    var st', i, k := Next(st, procId, DoCopy(s, t)), procId * 256 + s, procId * 256 + t;
    NextWellFormed(st, procId, DoCopy(s, t));
    if i in Cascade(st', a) {
      var n: nat :| Descends(st', i, a, n);
      SiblingsDescend(st', k, i, a, n);
    }
    if k in Cascade(st', a) {
      var n: nat :| Descends(st', k, a, n);
      SiblingsDescend(st', i, k, a, n);
    }
  }

  /** A minted cap is below its source, and goes with it. */
  lemma MintGoesWithSource(st: State, procId: nat, p: nat, t: nat, rights: bv32, badge: nat)
    requires WellFormed(st) && Outcome(st, procId, DoMint(p, t, rights, badge)).Ok?
    ensures var st', i, k := Next(st, procId, DoMint(p, t, rights, badge)), procId * 256 + p, procId * 256 + t;
      && i < TOTAL_SLOTS && k < TOTAL_SLOTS && WellFormed(st') && k in Cascade(st', i)
      && |Revoked(st', i).slots| == TOTAL_SLOTS && Revoked(st', i).slots[k] == EMPTY_CAP
  {
    var st', i, k := Next(st, procId, DoMint(p, t, rights, badge)), procId * 256 + p, procId * 256 + t;
    NextWellFormed(st, procId, DoMint(p, t, rights, badge));
    assert Descends(st', i, i, 0);
    assert Descends(st', k, i, 1);
    RevokeSlots(st', i, k);
  }

  // ---- Boot ----

  function Owned(kind: Kind, pooled: nat, rights: bv8): Cap { Cap(0, Root, 0, pooled, kind, rights) }

  /** What boot hands out, by process and slot: the UART driver (1) may read the UART
      endpoint; the hello tenants (2 and 3) may write it and the exit endpoint, and read and
      write the network interface and the endpoint they share; the network driver (4) may
      read and write the interface and its interrupt. Nobody else holds anything. */
  lemma BootHoldings(f: BootFlags)
    ensures WellFormed(BootState(f)) && Forest(BootState(f))
    ensures forall p: nat, s: nat {:trigger Index(p, s)} :: p < 16 && s < 256 ==>
      BootState(f).slots[Index(p, s)] ==
        if p == 1 && s == 0 && f.mmioUart then Owned(Endpoint, 0, 1)
        else if p in {2, 3} && s == 0 && f.stdout then Owned(Endpoint, 0, 2)
        else if p in {2, 3} && s == 1 && f.exit then Owned(Endpoint, 1, 2)
        else if p in {2, 3} && s == 2 then Owned(Net, 0, 3)
        else if p in {2, 3} && s == 3 then Owned(Endpoint, 2, 3)
        else if p == 4 && s == 0 then Owned(Net, 0, 3)
        else if p == 4 && s == 1 then Owned(Notification, 0, 3)
        else Cap(0, Root, 0, 65_535, Empty, 0)
  {
    BootIsSound(f);
    assert READ | WRITE == 3;
    forall i | 0 <= i < TOTAL_SLOTS ensures BootState(f).slots[i].parent == Root { BootCapIsRoot(f, i); }
    RootsAreForest(BootState(f));
  }
}
