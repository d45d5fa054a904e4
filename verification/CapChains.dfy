/** Links that keep the object and narrow the rights: which call breaks them, and how. */
module CapChains {
  import opened Wrappers
  import opened CapTypes
  import opened CapState
  import opened CapGenerations
  import opened CapRuns
  import opened CapKernel

  /** Every live link keeps the object and gains no right. */
  ghost predicate LinksNarrow(st: State)
    requires WellFormed(st)
  {
    forall i: nat :: i < TOTAL_SLOTS ==> LinkNarrows(st, i)
  }

  ghost predicate LinkNarrows(st: State, i: nat)
    requires WellFormed(st) && i < TOTAL_SLOTS
  {
    st.slots[i].parent.At? && IsChild(st, i, ParentIndex(st.slots[i])) ==> Narrowed(st.slots[ParentIndex(st.slots[i])], st.slots[i])
  }

  /** A created socket hangs by a live link below the interface, as an object of another
      kind; it has a right the interface cap lacks exactly when that cap cannot be read. */
  lemma SocketBreaksLink(st: State, procId: nat, slot: nat, driver: DriverAnswer)
    requires WellFormed(st) && SocketCreate(st, procId, slot, driver).Ok?
    ensures var st', n, t := SocketCreate(st, procId, slot, driver).value, Index(procId, SLOT_NET), Index(procId, slot);
      && n < TOTAL_SLOTS && t < TOTAL_SLOTS && |st'.slots| == |st'.gens| == TOTAL_SLOTS
      && IsChild(st', t, n) && !Narrowed(st'.slots[n], st'.slots[t])
      && st'.slots[n].kind == Net && st'.slots[t].kind == Socket
      && (SubRights(st'.slots[t].rights, st'.slots[n].rights) <==> st'.slots[n].rights & READ != 0)
  {
    ReadWriteWithin(st.slots[Index(procId, SLOT_NET)].rights);
  }

  lemma ReadWriteWithin(r: bv8)
    requires r & WRITE != 0
    ensures SubRights(READ | WRITE, r) <==> r & READ != 0
  {}

  /** From a sound state, a link of slot `i` after one step is one it had before, or that
      of a newly filled slot. */
  lemma LinkBefore(st: State, st': State, i: nat)
    requires GenerationsOk(st) && WellFormed(st') && i < TOTAL_SLOTS && Occupied(st, i)
    requires forall k: nat :: k < TOTAL_SLOTS ==> SlotStep(st, st', k)
    requires LinkNarrows(st, i)
    ensures LinkNarrows(st', i)
  {
    assert SlotStep(st, st', i);
    if st'.slots[i].parent.At? && IsChild(st', i, ParentIndex(st'.slots[i])) {
      var p := ParentIndex(st'.slots[i]);
      assert SlotStep(st, st', p);
      assert LinkOk(st, st.slots[i]);
    }
  }

  /** A newly filled slot's link narrows when its cap is narrowed from its live parent. */
  lemma FillNarrows(st: State, st': State, t: nat)
    requires GenerationsOk(st) && WellFormed(st') && t < TOTAL_SLOTS && !Occupied(st, t)
    requires forall k: nat :: k < TOTAL_SLOTS && k != t ==> st'.slots[k] == st.slots[k]
    requires st'.gens == st.gens && LinkOk(st, st'.slots[t])
    requires st'.slots[t].parent.At? && st'.slots[t].parent.generation == st.gens[ParentIndex(st'.slots[t])] ==>
               Narrowed(st.slots[ParentIndex(st'.slots[t])], st'.slots[t])
    ensures LinkNarrows(st', t)
  {}

  lemma MintNarrows(st: State, procId: nat, p: nat, t: nat, r: bv32, b: nat)
    requires GenerationsOk(st) && WellFormed(Next(st, procId, DoMint(p, t, r, b))) && Mint(st, procId, p, t, r, b).Ok?
    ensures LinkNarrows(Mint(st, procId, p, t, r, b).value, Index(procId, t))
  {
    DeriveNarrows(st.slots[Index(procId, p)], At(procId, p, st.gens[Index(procId, p)]), r as bv8, b);
    FillNarrows(st, Mint(st, procId, p, t, r, b).value, Index(procId, t));
  }

  lemma CopyNarrows(st: State, procId: nat, s: nat, t: nat)
    requires GenerationsOk(st) && LinksNarrow(st) && WellFormed(Next(st, procId, DoCopy(s, t))) && Copy(st, procId, s, t).Ok?
    ensures LinkNarrows(Copy(st, procId, s, t).value, Index(procId, t))
  {
    assert LinkNarrows(st, Index(procId, s));
    assert LinkOk(st, st.slots[Index(procId, s)]);
    FillNarrows(st, Copy(st, procId, s, t).value, Index(procId, t));
  }

  /** A successful call from a sound state keeps every link narrowing exactly when it does
      not create a socket. */
  lemma CallKeepsLinksIff(st: State, procId: nat, call: Call)
    requires GenerationsOk(st) && RespectsSaturation(st, procId, call) && LinksNarrow(st) && Outcome(st, procId, call).Ok?
    ensures WellFormed(Next(st, procId, call))
    ensures LinksNarrow(Next(st, procId, call)) <==> !call.DoSocketCreate?
  {
    var st' := Next(st, procId, call);
    CallSteps(st, procId, call);
    if call.DoSocketCreate? {
      SocketBreaksLink(st, procId, call.slot, call.driver);
      assert !LinkNarrows(st', Index(procId, call.slot));
    } else {
      forall i: nat | i < TOTAL_SLOTS ensures LinkNarrows(st', i) {
        if Occupied(st, i) { LinkBefore(st, st', i); }
        else { FilledSlotNarrows(st, procId, call, i); }
      }
    }
  }

  lemma FilledSlotNarrows(st: State, procId: nat, call: Call, i: nat)
    requires GenerationsOk(st) && LinksNarrow(st) && WellFormed(Next(st, procId, call)) && Outcome(st, procId, call).Ok?
    requires !call.DoSocketCreate? && i < TOTAL_SLOTS && !Occupied(st, i)
    ensures LinkNarrows(Next(st, procId, call), i)
  {
    match call
    case DoMint(p, t, r, b) => if i == Index(procId, t) { MintNarrows(st, procId, p, t, r, b); }
    case DoCopy(s, t) => if i == Index(procId, t) { CopyNarrows(st, procId, s, t); }
    case DoRevoke(s) => RevokeSlots(st, Index(procId, s), i);
    case _ =>
  }

  /** Over every sound run that creates no socket, links only narrow. */
  lemma {:induction false} RunKeepsLinks(states: seq<State>, calls: seq<(nat, Call)>, i: nat)
    requires SoundRun(states, calls) && i < |states| && WellFormed(states[0]) && LinksNarrow(states[0])
    requires forall k :: 0 <= k < |calls| ==> !calls[k].1.DoSocketCreate?
    ensures WellFormed(states[i]) && LinksNarrow(states[i])
  {
    if i > 0 {
      RunKeepsLinks(states, calls, i - 1);
      SoundThroughout(states, calls, i - 1);
      assert Follows(states[i - 1], calls[i - 1].0, calls[i - 1].1, states[i]);
      if Outcome(states[i - 1], calls[i - 1].0, calls[i - 1].1).Ok? {
        CallKeepsLinksIff(states[i - 1], calls[i - 1].0, calls[i - 1].1);
      }
    }
  }

  // ---- A run from boot that widens rights ----

  /** A caller with a readable and writable network cap, two empty slots and no socket yet. */
  ghost predicate CanWiden(st: State, procId: nat, spare: nat, slot: nat) {
    && WellFormed(st) && InRange(procId, SLOT_NET) && InRange(procId, spare) && InRange(procId, slot)
    && spare != slot && spare != SLOT_NET && slot != SLOT_NET
    && var n, s, t := Index(procId, SLOT_NET), Index(procId, spare), Index(procId, slot);
    && st.slots[n].kind == Net && st.slots[n].rights == READ | WRITE
    && st.slots[s] == EMPTY_CAP && st.slots[t] == EMPTY_CAP && (Socket, 0) !in st.objs
  }

  /** The calls: keep only the write right, put that cap in the network slot, make a socket. */
  function WideningCalls(spare: nat, slot: nat): seq<Call> {
    [DoMint(SLOT_NET, spare, 2, 0), DoDelete(SLOT_NET), DoCopy(spare, SLOT_NET), DoSocketCreate(slot, Answered(0))]
  }

  lemma NarrowInPlace(st: State, procId: nat, spare: nat, slot: nat)
    requires CanWiden(st, procId, spare, slot)
    ensures var st1 := Next(st, procId, DoMint(SLOT_NET, spare, 2, 0));
      && WellFormed(st1) && st1.slots[Index(procId, spare)].kind == Net && st1.slots[Index(procId, spare)].rights == WRITE
      && Occupied(st1, Index(procId, SLOT_NET)) && st1.slots[Index(procId, slot)] == EMPTY_CAP && (Socket, 0) !in st1.objs
  {
    NextWellFormed(st, procId, DoMint(SLOT_NET, spare, 2, 0));
    assert (2 as bv32) as bv8 == WRITE;
    assert WRITE & !RIGHTS_MASK == 0 && WRITE & !(READ | WRITE) == 0;
  }

  lemma MoveToNetSlot(st: State, procId: nat, spare: nat, slot: nat)
    requires WellFormed(st) && InRange(procId, SLOT_NET) && InRange(procId, spare) && InRange(procId, slot)
    requires spare != slot && spare != SLOT_NET && slot != SLOT_NET
    requires st.slots[Index(procId, spare)].kind == Net && st.slots[Index(procId, spare)].rights == WRITE
    requires Occupied(st, Index(procId, SLOT_NET)) && st.slots[Index(procId, slot)] == EMPTY_CAP && (Socket, 0) !in st.objs
    ensures var st1 := Next(st, procId, DoDelete(SLOT_NET));
      && WellFormed(st1)
      && var st2 := Next(st1, procId, DoCopy(spare, SLOT_NET));
      && WellFormed(st2) && st2.slots[Index(procId, SLOT_NET)].kind == Net && st2.slots[Index(procId, SLOT_NET)].rights == WRITE
      && st2.slots[Index(procId, slot)] == EMPTY_CAP && (Socket, 0) !in st2.objs
  {
    NextWellFormed(st, procId, DoDelete(SLOT_NET));
    NextWellFormed(Next(st, procId, DoDelete(SLOT_NET)), procId, DoCopy(spare, SLOT_NET));
  }

  /** From such a state, the four calls hang a readable socket below a write-only interface cap. */
  lemma Widens(st: State, procId: nat, spare: nat, slot: nat) returns (states: seq<State>, calls: seq<(nat, Call)>)
    requires CanWiden(st, procId, spare, slot)
    ensures Run(states, calls) && states != [] && states[0] == st && |calls| == 4 && Widened(Last(states), procId, slot)
    ensures forall i :: 0 <= i < 4 ==> calls[i] == (procId, WideningCalls(spare, slot)[i])
  {
    NarrowInPlace(st, procId, spare, slot);
    var st1 := Next(st, procId, DoMint(SLOT_NET, spare, 2, 0));
    MoveToNetSlot(st1, procId, spare, slot);
    var st3 := NextTwo(st1, procId, DoDelete(SLOT_NET), DoCopy(spare, SLOT_NET));
    SocketWidens(st3, procId, slot);
    assert Run([st], []);
    states, calls := ExtendTwice([st], [], procId, DoMint(SLOT_NET, spare, 2, 0), DoDelete(SLOT_NET));
    states, calls := ExtendTwice(states, calls, procId, DoCopy(spare, SLOT_NET), DoSocketCreate(slot, Answered(0)));
  }

  /** A socket that may be read, by a live link below a network cap that may not. */
  ghost predicate Widened(st: State, procId: nat, slot: nat) {
    && InRange(procId, SLOT_NET) && InRange(procId, slot) && |st.slots| == |st.gens| == TOTAL_SLOTS
    && var n, t := Index(procId, SLOT_NET), Index(procId, slot);
    && IsChild(st, t, n) && st.slots[t].kind == Socket && st.slots[t].rights & READ != 0
    && st.slots[n].kind == Net && st.slots[n].rights & READ == 0
  }

  lemma SocketWidens(st: State, procId: nat, slot: nat)
    requires WellFormed(st) && InRange(procId, SLOT_NET) && InRange(procId, slot)
    requires st.slots[Index(procId, SLOT_NET)].kind == Net && st.slots[Index(procId, SLOT_NET)].rights == WRITE
    requires st.slots[Index(procId, slot)] == EMPTY_CAP && (Socket, 0) !in st.objs && slot != SLOT_NET
    ensures Widened(Next(st, procId, DoSocketCreate(slot, Answered(0))), procId, slot)
  {
    assert FirstFree(st.objs, Socket, 0) == Some(0);
    SocketBreaksLink(st, procId, slot, Answered(0));
  }

  lemma HelloCanWiden(f: BootFlags)
    ensures CanWiden(BootState(f), HELLO, 5, 6)
  {
    BootIsSound(f);
    var st := BootState(f);
    assert st.slots[514] == BootCap(f, 514) && st.slots[517] == BootCap(f, 517) && st.slots[518] == BootCap(f, 518);
    assert Index(HELLO, SLOT_NET) == 514 && Index(HELLO, 5) == 517 && Index(HELLO, 6) == 518;
  }

  /** The first hello tenant can, after boot, hold a socket it may read below a network cap
      it may only write. */
  lemma BootRunWidens(f: BootFlags) returns (states: seq<State>, calls: seq<(nat, Call)>)
    ensures Run(states, calls) && states != [] && states[0] == BootState(f) && Widened(Last(states), HELLO, 6)
  {
    HelloCanWiden(f);
    states, calls := Widens(BootState(f), HELLO, 5, 6);
  }
}
