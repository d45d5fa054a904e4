/** The code that walks and changes CSpaces in place: the revocation set, the
    two-phase revoke, the capability system calls and the boot-time caps, each
    proved to compute its transition of `CapState`. */
module CapKernel {
  import opened Wrappers
  import opened Words
  import opened Bitmaps
  import opened Sequences
  import opened CapTypes
  import opened CapState
  import opened CapGenerations
  import opened CapRefcounts
  import opened KernelAbi

  /** The stack bitmap of one cascade. */
  class RevokeSet {
    const bits: array<u64>
    ghost var members: set<nat>

    ghost predicate Valid()
      reads this, bits
    {
      && bits.Length == 64
      && Refines(bits[..], members)
      && forall i :: i in members ==> i < TOTAL_SLOTS
    }

    constructor ()
      ensures Valid() && fresh(bits) && members == {}
    {
      bits := new u64[64](_ => 0);
      members := {};
      new;
      forall k: nat | k < 64
        ensures Shows(bits[..][k], members, k)
      {
        forall j: nat | j < 64 ensures !Bit(0, j) { NoBitsInZero(j); }
      }
    }

    method Add(procId: nat, slot: nat)
      requires Valid() && InRange(procId, slot)
      modifies this, bits
      ensures Valid() && members == old(members) + {Index(procId, slot)}
    {
      ghost var was := bits[..];
      var i := procId * CSPACE_SLOTS + slot;
      SwitchNumber(was, members, i, true);
      bits[i / 64] := Switched(bits[i / 64], i % 64, true);
      members := members + {i};
      assert bits[..] == was[i / 64 := bits[i / 64]];
    }

    method Contains(procId: nat, slot: nat) returns (yes: bool)
      requires Valid() && InRange(procId, slot)
      ensures yes <==> Index(procId, slot) in members
    {
      var i := procId * CSPACE_SLOTS + slot;
      NumberIsShown(bits[..], members, i);
      yes := Bit(bits[i / 64], i % 64);
    }
  }

  /** Every slot empty at generation zero, every pool empty. */
  function Zeroed(): (st: State)
    ensures WellFormed(st)
  {
    State(seq(TOTAL_SLOTS, _ => EMPTY_CAP), seq(TOTAL_SLOTS, _ => 0), map[])
  }

  // ---- The fixpoint ----

  /** No slot outside `marked` and below `n` is a live child of a marked one. */
  ghost predicate ClosedBelow(st: State, marked: set<nat>, n: nat)
    requires WellFormed(st) && n <= TOTAL_SLOTS
  {
    forall i: nat :: i < n && i !in marked ==> !HasParentIn(st, i, marked)
  }

  predicate HasParentIn(st: State, i: nat, marked: set<nat>)
    requires |st.slots| == |st.gens| == TOTAL_SLOTS && i < TOTAL_SLOTS
    requires ParentInRange(st.slots[i])
  {
    st.slots[i].parent.At? && ParentIndex(st.slots[i]) in marked && IsChild(st, i, ParentIndex(st.slots[i]))
  }

  /** Marking a live child of a cascade member keeps the marks inside the cascade. */
  lemma MarkIsSound(st: State, t: nat, i: nat, marked: set<nat>)
    requires WellFormed(st) && t < TOTAL_SLOTS && i < TOTAL_SLOTS
    requires marked <= Cascade(st, t) && HasParentIn(st, i, marked)
    ensures i in Cascade(st, t)
  {
    var n: nat :| Descends(st, ParentIndex(st.slots[i]), t, n);
    assert Descends(st, i, t, n + 1);
  }

  lemma {:induction false} ClosedReachesAll(st: State, t: nat, i: nat, n: nat, marked: set<nat>)
    requires WellFormed(st) && t < TOTAL_SLOTS && i < TOTAL_SLOTS
    requires t in marked && ClosedBelow(st, marked, TOTAL_SLOTS) && Descends(st, i, t, n)
    ensures i in marked
    decreases n
  {
    if n > 0 {
      ClosedReachesAll(st, t, ParentIndex(st.slots[i]), n - 1, marked);
      assert i !in marked ==> HasParentIn(st, i, marked);
    }
  }

  /** A closed set of marks holding the target is the whole cascade. */
  lemma ClosedIsCascade(st: State, t: nat, marked: set<nat>)
    requires WellFormed(st) && t < TOTAL_SLOTS
    requires t in marked && marked <= Cascade(st, t) && ClosedBelow(st, marked, TOTAL_SLOTS)
    ensures marked == Cascade(st, t)
  {
    forall i | i in Cascade(st, t)
      ensures i in marked
    {
      var n: nat :| Descends(st, i, t, n);
      ClosedReachesAll(st, t, i, n, marked);
    }
  }

  class CSpaces {
    /** Slot `(proc, slot)` of every process, at `proc * 256 + slot`. */
    const slots: array<Cap>
    const gens: array<nat>
    var objs: Objects

    ghost predicate Valid()
      reads this, slots, gens
    {
      && slots.Length == TOTAL_SLOTS && gens.Length == TOTAL_SLOTS
      && WellFormed(Abs())
    }

    ghost function Abs(): State
      reads this, slots, gens
    {
      State(slots[..], gens[..], objs)
    }

    constructor ()
      ensures Valid() && fresh(slots) && fresh(gens)
      ensures Abs() == Zeroed()
    {
      slots := new Cap[TOTAL_SLOTS](_ => EMPTY_CAP);
      gens := new nat[TOTAL_SLOTS](_ => 0);
      objs := map[];
      new;
      assert slots[..] == Zeroed().slots && gens[..] == Zeroed().gens;
    }

    /** Phase A. Scans all slots until a pass marks nothing new; each changing pass
        shrinks the set of unmarked slots. Ends with exactly the cascade marked. */
    method Discover(marks: RevokeSet, ghost t: nat)
      requires Valid() && marks.Valid() && t < TOTAL_SLOTS && marks.members == {t}
      modifies marks, marks.bits
      ensures marks.Valid() && marks.members == Cascade(Abs(), t)
    {
      ghost var st := Abs();
      assert Descends(st, t, t, 0);
      var changed := true;
      while changed
        invariant marks.Valid() && Abs() == st
        invariant t in marks.members && marks.members <= Cascade(st, t)
        invariant !changed ==> ClosedBelow(st, marks.members, TOTAL_SLOTS)
        decreases Upto(TOTAL_SLOTS) - marks.members, changed
      {
        changed := Pass(marks, t, st);
      }
      ClosedIsCascade(st, t, marks.members);
    }

    /** One pass over every slot of every process. */
    method Pass(marks: RevokeSet, ghost t: nat, ghost st: State) returns (changed: bool)
      requires Valid() && st == Abs() && marks.Valid() && t < TOTAL_SLOTS
      requires t in marks.members && marks.members <= Cascade(st, t)
      modifies marks, marks.bits
      ensures marks.Valid() && old(marks.members) <= marks.members <= Cascade(st, t)
      ensures changed ==> old(marks.members) < marks.members
      ensures !changed ==> marks.members == old(marks.members) && ClosedBelow(st, marks.members, TOTAL_SLOTS)
    {
      changed := false;
      var procId := 0;
      while procId < MAX_PROCS
        invariant procId <= MAX_PROCS
        invariant marks.Valid() && Abs() == st
        invariant old(marks.members) <= marks.members <= Cascade(st, t)
        invariant changed ==> old(marks.members) < marks.members
        invariant !changed ==> marks.members == old(marks.members) && ClosedBelow(st, marks.members, procId * CSPACE_SLOTS)
      {
        var slot := 0;
        while slot < CSPACE_SLOTS
          invariant slot <= CSPACE_SLOTS
          invariant marks.Valid() && Abs() == st
          invariant old(marks.members) <= marks.members <= Cascade(st, t)
          invariant changed ==> old(marks.members) < marks.members
          invariant !changed ==> marks.members == old(marks.members) && ClosedBelow(st, marks.members, procId * CSPACE_SLOTS + slot)
        {
          var marked := Visit(marks, procId, slot, t, st);
          changed := changed || marked;
          slot := slot + 1;
        }
        procId := procId + 1;
      }
    }

    /** The body of the scan: mark the slot if it is an unmarked live child of a marked one. */
    method Visit(marks: RevokeSet, procId: nat, slot: nat, ghost t: nat, ghost st: State) returns (marked: bool)
      requires Valid() && st == Abs() && marks.Valid() && t < TOTAL_SLOTS && InRange(procId, slot)
      requires marks.members <= Cascade(st, t)
      modifies marks, marks.bits
      ensures marks.Valid() && old(marks.members) <= marks.members <= Cascade(st, t)
      ensures marked ==> old(marks.members) < marks.members
      ensures !marked ==> marks.members == old(marks.members)
      ensures !marked ==> Index(procId, slot) in marks.members || !HasParentIn(st, Index(procId, slot), marks.members)
    {
      var i := procId * CSPACE_SLOTS + slot;
      var already := marks.Contains(procId, slot);
      if already { return false; }
      var cap := slots[i];
      assert cap == st.slots[i] && ParentInRange(cap);
      if cap.kind == Empty || cap.parent == Root { return false; }
      var p := cap.parent;
      var parentMarked := marks.Contains(p.procId, p.slot);
      if !parentMarked { return false; }
      if gens[p.procId * CSPACE_SLOTS + p.slot] != p.generation { return false; }
      assert HasParentIn(st, i, marks.members);
      MarkIsSound(st, t, i, marks.members);
      marks.Add(procId, slot);
      return true;
    }

    /** `inc_refcount`. */
    method IncRef(kind: Kind, x: nat)
      modifies this`objs
      ensures objs == IncRefcount(old(objs), kind, x)
    {
      if Pooled(kind) && (kind, x) in objs {
        var r := objs[(kind, x)];
        objs := objs[(kind, x) := if r < MAX_GEN then r + 1 else MAX_GEN];
      }
    }

    /** `dec_refcount`: an object whose count reaches zero goes back to its pool. */
    method DecRef(kind: Kind, x: nat)
      modifies this`objs
      ensures objs == DecRefcount(old(objs), kind, x)
    {
      if Pooled(kind) && (kind, x) in objs {
        var r := if objs[(kind, x)] > 0 then objs[(kind, x)] - 1 else 0;
        objs := objs[(kind, x) := r];
        if r == 0 {
          objs := objs - {(kind, x)};
          assert objs == old(objs) - {(kind, x)};
        }
      }
    }

    /** Empty slot `i`, set its generation, release its object. */
    method VacateSlot(i: nat, g: nat)
      requires Valid() && i < TOTAL_SLOTS && g <= MAX_GEN
      modifies this`objs, slots, gens
      ensures Valid() && Abs() == Vacate(old(Abs()), i, g)
    {
      ghost var st := Abs();
      var kind, x := slots[i].kind, slots[i].poolIndex;
      slots[i] := EMPTY_CAP;
      gens[i] := g;
      DecRef(kind, x);
      assert slots[..] == st.slots[i := EMPTY_CAP] && gens[..] == st.gens[i := g];
      VacateWellFormed(st, i, g);
    }

    /** Phase B: empty every marked slot, in index order. */
    method Clear(marks: RevokeSet)
      requires Valid() && marks.Valid()
      requires forall i :: i in marks.members ==> Occupied(Abs(), i)
      modifies this`objs, slots, gens
      ensures Valid() && Abs() == SweepBelow(old(Abs()), marks.members, TOTAL_SLOTS)
    {
      ghost var st, doomed := Abs(), marks.members;
      var i := 0;
      while i < TOTAL_SLOTS
        invariant i <= TOTAL_SLOTS
        invariant Valid() && marks.Valid() && marks.members == doomed
        invariant Abs() == SweepBelow(st, doomed, i)
      {
        var hit := marks.Contains(i / CSPACE_SLOTS, i % CSPACE_SLOTS);
        if hit && slots[i].kind != Empty {
          VacateSlot(i, Bump(gens[i]));
        }
        SweepSlots(st, doomed, i, i);
        i := i + 1;
      }
    }

    /** `revoke`: the target and everything derived from it, or a refusal of an empty
        or out-of-range slot. */
    method RevokeCap(procId: nat, slot: nat) returns (r: Result<(), KernelError>)
      requires Valid()
      modifies this`objs, slots, gens
      ensures Valid()
      ensures r.Err? <==> !InRange(procId, slot) || !Occupied(old(Abs()), Index(procId, slot))
      ensures r.Err? ==> r.error == InvalidArgument && Abs() == old(Abs())
      ensures r.Ok? ==> Abs() == Revoked(old(Abs()), Index(procId, slot))
    {
      if !InRange(procId, slot) { return Err(InvalidArgument); }
      var t := procId * CSPACE_SLOTS + slot;
      if slots[t].kind == Empty { return Err(InvalidArgument); }
      ghost var st := Abs();
      var marks := new RevokeSet();
      marks.Add(procId, slot);
      Discover(marks, t);
      forall i | i in marks.members
        ensures Occupied(st, i)
      {
        CascadeOccupied(st, t, i);
      }
      Clear(marks);
      return Ok(());
    }

    /** `cap_revoke`: the write right is checked before the cascade. */
    method CapRevoke(procId: nat, slot: nat) returns (r: Result<(), Errno>)
      requires Valid()
      modifies this`objs, slots, gens
      ensures Valid() && Abs() == Next(old(Abs()), procId, DoRevoke(slot))
      ensures Answers(r, Revoke(old(Abs()), procId, slot))
    {
      if !InRange(procId, slot) { return Err(E_INVAL); }
      var cap := slots[procId * CSPACE_SLOTS + slot];
      if cap.kind == Empty { return Err(E_INVAL); }
      if cap.rights & WRITE == 0 { return Err(E_PERM); }
      var done := RevokeCap(procId, slot);
      if done.Err? { return Err(E_INVAL); }
      return Ok(());
    }

    /** Put a cap into an empty slot and count it. */
    method InstallCap(i: nat, c: Cap)
      requires Valid() && i < TOTAL_SLOTS && ParentInRange(c)
      modifies this`objs, slots
      ensures Valid() && Abs() == Install(old(Abs()), i, c)
    {
      ghost var st := Abs();
      slots[i] := c;
      IncRef(c.kind, c.poolIndex);
      assert slots[..] == st.slots[i := c];
      InstallWellFormed(st, i, c);
    }

    /** `cap_mint`. */
    method CapMint(procId: nat, parentSlot: nat, targetSlot: nat, rights: bv32, badge: nat) returns (r: Result<(), Errno>)
      requires Valid()
      modifies this`objs, slots
      ensures Valid() && Abs() == Next(old(Abs()), procId, DoMint(parentSlot, targetSlot, rights, badge))
      ensures Answers(r, Mint(old(Abs()), procId, parentSlot, targetSlot, rights, badge))
    {
      if !InRange(procId, parentSlot) || !InRange(procId, targetSlot) { return Err(E_INVAL); }
      if rights > 0xFF { return Err(E_INVAL); }
      var p, t := procId * CSPACE_SLOTS + parentSlot, procId * CSPACE_SLOTS + targetSlot;
      if slots[p].kind == Empty || slots[t].kind != Empty { return Err(E_INVAL); }
      var derived := Derive(slots[p], At(procId, parentSlot, gens[p]), rights as bv8, badge);
      match derived
      case Err(PermissionDenied) => return Err(E_PERM);
      case Err(_) => return Err(E_INVAL);
      case Ok(child) =>
        InstallCap(t, child.(generation := gens[t]));
        return Ok(());
    }

    /** `cap_copy`. */
    method CapCopy(procId: nat, srcSlot: nat, targetSlot: nat) returns (r: Result<(), Errno>)
      requires Valid()
      modifies this`objs, slots
      ensures Valid() && Abs() == Next(old(Abs()), procId, DoCopy(srcSlot, targetSlot))
      ensures Answers(r, Copy(old(Abs()), procId, srcSlot, targetSlot))
    {
      if !InRange(procId, srcSlot) || !InRange(procId, targetSlot) { return Err(E_INVAL); }
      var s, t := procId * CSPACE_SLOTS + srcSlot, procId * CSPACE_SLOTS + targetSlot;
      assert ParentInRange(Abs().slots[s]);
      if slots[s].kind == Empty || slots[t].kind != Empty { return Err(E_INVAL); }
      InstallCap(t, slots[s].(generation := gens[t]));
      return Ok(());
    }

    /** `cap_delete`. */
    method CapDelete(procId: nat, slot: nat) returns (r: Result<(), Errno>)
      requires Valid()
      modifies this`objs, slots, gens
      ensures Valid() && Abs() == Next(old(Abs()), procId, DoDelete(slot))
      ensures Answers(r, Delete(old(Abs()), procId, slot))
    {
      if !InRange(procId, slot) { return Err(E_INVAL); }
      var i := procId * CSPACE_SLOTS + slot;
      if slots[i].kind == Empty { return Err(E_INVAL); }
      VacateSlot(i, Bump(gens[i]));
      return Ok(());
    }

    /** `net_socket_create`: the driver is asked only once the checks have passed; its own
        error is handed on, and its socket is given back when no object is left. */
    method NetSocketCreate(procId: nat, slot: nat, driver: DriverAnswer) returns (r: Result<(), Errno>, rolledBack: bool)
      requires Valid()
      modifies this`objs, slots
      ensures Valid() && Abs() == Next(old(Abs()), procId, DoSocketCreate(slot, driver))
      ensures Answers(r, SocketCreate(old(Abs()), procId, slot, driver))
      ensures rolledBack <==> r == Err(E_NOMEM) && driver.Answered?
    {
      rolledBack := false;
      if !InRange(procId, slot) { return Err(E_INVAL), false; }
      var n, t := procId * CSPACE_SLOTS + SLOT_NET, procId * CSPACE_SLOTS + slot;
      if slots[n].kind != Net || slots[n].rights & WRITE == 0 || slots[t].kind != Empty { return Err(E_PERM), false; }
      if driver.Trapped? { return Err(E_NOMEM), false; }
      if driver.code < 0 { return Err(E_DRIVER(driver.code)), false; }
      ghost var st := Abs();
      var x := AllocObject(Socket);
      if x.None? { return Err(E_NOMEM), true; }
      assert Abs() == st.(objs := st.objs[(Socket, x.value) := 0]);
      InstallCap(t, Cap(0, At(procId, SLOT_NET, gens[n]), gens[t], x.value, Socket, READ | WRITE));
      return Ok(()), false;
    }

    /** `net_socket_close`: its generation bump wraps, and a driver error is handed on after
        the cap is gone. */
    method NetSocketClose(procId: nat, slot: nat, driver: int) returns (r: Result<(), Errno>)
      requires Valid()
      modifies this`objs, slots, gens
      ensures Valid() && Abs() == Next(old(Abs()), procId, DoSocketClose(slot))
      ensures var done := SocketClose(old(Abs()), procId, slot);
        r == if done.Err? then Err(done.error) else if driver != 0 then Err(E_DRIVER(driver)) else Ok(())
    {
      if !InRange(procId, slot) { return Err(E_INVAL); }
      var i := procId * CSPACE_SLOTS + slot;
      if slots[i].kind != Socket { return Err(E_PERM); }
      if (Socket, slots[i].poolIndex) !in objs { return Err(E_INVAL); }
      VacateSlot(i, if gens[i] < MAX_GEN then gens[i] + 1 else 0);
      return if driver != 0 then Err(E_DRIVER(driver)) else Ok(());
    }

    // ---- Boot ----

    /** `Pool::alloc` of a fresh object, refcount zero. */
    method AllocObject(kind: Kind) returns (r: Option<nat>)
      modifies this`objs
      ensures r == FirstFree(old(objs), kind, 0)
      ensures objs == if r.Some? then old(objs)[(kind, r.value) := 0] else old(objs)
    {
      r := FirstFree(objs, kind, 0);
      if r.Some? { objs := objs[(kind, r.value) := 0]; }
    }

    /** A kernel-issued cap written straight into a slot, uncounted, when `grant` says so. */
    method InstallRoot(grant: bool, i: nat, c: Cap)
      requires Valid() && i < TOTAL_SLOTS && c.parent == Root
      modifies slots
      ensures Valid() && Abs() == old(Abs()).(slots := Granted(old(Abs()).slots, grant, i, c))
    {
      if grant {
        ghost var st := Abs();
        slots[i] := c;
        assert slots[..] == st.slots[i := c];
      }
    }
  }

  /** The call's answer to its caller. */
  ghost predicate Answers(r: Result<(), Errno>, outcome: Result<State, Errno>) {
    if outcome.Ok? then r == Ok(()) else r == Err(outcome.error)
  }

  /** How many caps name each of the five objects boot allocates. */
  datatype Tally = Tally(uart: nat, exit: nat, demo: nat, net: nat, irq: nat) {
    function Of(k: Key): nat {
      if k == (Endpoint, 0) then uart
      else if k == (Endpoint, 1) then exit
      else if k == (Endpoint, 2) then demo
      else if k == (Net, 0) then net
      else if k == (Notification, 0) then irq
      else 0
    }

    function Plus(c: Cap): Tally {
      if c.kind == Endpoint && c.poolIndex == 0 then this.(uart := uart + 1)
      else if c.kind == Endpoint && c.poolIndex == 1 then this.(exit := exit + 1)
      else if c.kind == Endpoint && c.poolIndex == 2 then this.(demo := demo + 1)
      else if c.kind == Net then this.(net := net + 1)
      else this.(irq := irq + 1)
    }
  }

  /** A root cap over one of those five objects. */
  predicate BootObject(c: Cap) {
    c.parent == Root && ((c.kind == Endpoint && c.poolIndex < 3) || ((c.kind == Net || c.kind == Notification) && c.poolIndex == 0))
  }

  ghost predicate Tallied(slots: seq<Cap>, owed: Tally) {
    forall k: Key :: Count(slots, k) == owed.Of(k)
  }

  lemma TallyInstall(slots: seq<Cap>, i: nat, c: Cap, owed: Tally)
    requires Tallied(slots, owed) && i < |slots| && slots[i].kind == Empty && BootObject(c)
    ensures Tallied(slots[i := c], owed.Plus(c))
  {
    forall k: Key
      ensures Count(slots[i := c], k) == owed.Plus(c).Of(k)
    {
      CountUpdate(slots, i, c, k);
    }
  }

  lemma {:induction false} NothingTallied(slots: seq<Cap>, k: Key)
    requires forall i :: 0 <= i < |slots| ==> slots[i].kind == Empty
    ensures Count(slots, k) == 0
  {
    if slots != [] { NothingTallied(slots[..|slots| - 1], k); }
  }

  // Slot indices of the boot modules: UART driver 1, hello tenants 2 and 3, NIC driver 4.
  const UART_PRIMARY: nat := 256
  const HELLO_STDOUT: nat := 512
  const HELLO_EXIT: nat := 513
  const HELLO_NET: nat := 514
  const HELLO_IPC: nat := 515
  const HELLO_B_STDOUT: nat := 768
  const HELLO_B_EXIT: nat := 769
  const HELLO_B_NET: nat := 770
  const HELLO_B_IPC: nat := 771
  const NIC_PRIMARY: nat := 1024
  const NIC_IRQ: nat := 1025

  function RootCap(kind: Kind, x: nat, rights: bv8): Cap { Cap(0, Root, 0, x, kind, rights) }

  /** The switches of the static configuration. */
  datatype BootFlags = BootFlags(mmioUart: bool, stdout: bool, exit: bool)

  /** The caps `init_root_caps` leaves. */
  function BootCap(f: BootFlags, i: nat): Cap {
    if i == UART_PRIMARY && f.mmioUart then RootCap(Endpoint, 0, READ)
    else if (i == HELLO_STDOUT || i == HELLO_B_STDOUT) && f.stdout then RootCap(Endpoint, 0, WRITE)
    else if (i == HELLO_EXIT || i == HELLO_B_EXIT) && f.exit then RootCap(Endpoint, 1, WRITE)
    else if i == HELLO_NET || i == HELLO_B_NET || i == NIC_PRIMARY then RootCap(Net, 0, READ | WRITE)
    else if i == HELLO_IPC || i == HELLO_B_IPC then RootCap(Endpoint, 2, READ | WRITE)
    else if i == NIC_IRQ then RootCap(Notification, 0, READ | WRITE)
    else EMPTY_CAP
  }

  function Granted(slots: seq<Cap>, grant: bool, i: nat, c: Cap): (r: seq<Cap>)
    requires i < |slots|
    ensures |r| == |slots|
  {
    if grant then slots[i := c] else slots
  }

  /** A hello tenant's stdout and exit caps, from slot index `at` on. */
  function TenantCaps(slots: seq<Cap>, at: nat, f: BootFlags, uart: nat, exitEp: nat): (r: seq<Cap>)
    requires |slots| == TOTAL_SLOTS && at + 2 <= TOTAL_SLOTS
    ensures |r| == TOTAL_SLOTS
  {
    Granted(Granted(slots, f.stdout, at, RootCap(Endpoint, uart, WRITE)), f.exit, at + 1, RootCap(Endpoint, exitEp, WRITE))
  }

  /** stdout and exit: the UART driver and the two hello tenants. */
  function ConsoleCaps(slots: seq<Cap>, f: BootFlags, uart: nat, exitEp: nat): (r: seq<Cap>)
    requires |slots| == TOTAL_SLOTS
    ensures |r| == TOTAL_SLOTS
  {
    var s1 := Granted(slots, f.mmioUart, UART_PRIMARY, RootCap(Endpoint, uart, READ));
    TenantCaps(TenantCaps(s1, HELLO_STDOUT, f, uart, exitEp), HELLO_B_STDOUT, f, uart, exitEp)
  }

  /** The network interface: its driver and the two tenants. */
  function NetCaps(slots: seq<Cap>, net: nat): (r: seq<Cap>)
    requires |slots| == TOTAL_SLOTS
    ensures |r| == TOTAL_SLOTS
  {
    var s1 := Granted(slots, true, NIC_PRIMARY, RootCap(Net, net, READ | WRITE));
    var s2 := Granted(s1, true, HELLO_NET, RootCap(Net, net, READ | WRITE));
    Granted(s2, true, HELLO_B_NET, RootCap(Net, net, READ | WRITE))
  }

  /** The demo endpoint of the tenants, and the driver's interrupt notification. */
  function IpcCaps(slots: seq<Cap>, demo: nat, irq: nat): (r: seq<Cap>)
    requires |slots| == TOTAL_SLOTS
    ensures |r| == TOTAL_SLOTS
  {
    var s1 := Granted(slots, true, HELLO_IPC, RootCap(Endpoint, demo, READ | WRITE));
    var s2 := Granted(s1, true, HELLO_B_IPC, RootCap(Endpoint, demo, READ | WRITE));
    Granted(s2, true, NIC_IRQ, RootCap(Notification, irq, READ | WRITE))
  }

  ghost function B(b: bool): nat { if b then 1 else 0 }

  const CONSOLE_SLOTS: set<nat> := {UART_PRIMARY, HELLO_STDOUT, HELLO_EXIT, HELLO_B_STDOUT, HELLO_B_EXIT}
  const NET_SLOTS: set<nat> := {NIC_PRIMARY, HELLO_NET, HELLO_B_NET}
  const IPC_SLOTS: set<nat> := {HELLO_IPC, HELLO_B_IPC, NIC_IRQ}

  /** The slots in `done` show their boot caps, the others are empty, and the tally is `owed`. */
  ghost predicate Booting(slots: seq<Cap>, f: BootFlags, done: set<nat>, owed: Tally) {
    && |slots| == TOTAL_SLOTS
    && (forall i: nat :: i < TOTAL_SLOTS ==> slots[i] == if i in done then BootCap(f, i) else EMPTY_CAP)
    && Tallied(slots, owed)
  }

  lemma GrantStep(slots: seq<Cap>, grant: bool, i: nat, c: Cap, f: BootFlags, done: set<nat>, owed: Tally)
    requires Booting(slots, f, done, owed) && i < TOTAL_SLOTS && i !in done && BootObject(c)
    requires BootCap(f, i) == if grant then c else EMPTY_CAP
    ensures Booting(Granted(slots, grant, i, c), f, done + {i}, if grant then owed.Plus(c) else owed)
  {
    if grant { TallyInstall(slots, i, c, owed); }
  }

  lemma TenantCapsBoot(slots: seq<Cap>, at: nat, f: BootFlags, done: set<nat>, owed: Tally)
    requires Booting(slots, f, done, owed) && at !in done && at + 1 !in done
    requires at == HELLO_STDOUT || at == HELLO_B_STDOUT
    ensures Booting(TenantCaps(slots, at, f, 0, 1), f, done + {at} + {at + 1},
                    owed.(uart := owed.uart + B(f.stdout), exit := owed.exit + B(f.exit)))
  {
    var tx, ex := RootCap(Endpoint, 0, WRITE), RootCap(Endpoint, 1, WRITE);
    GrantStep(slots, f.stdout, at, tx, f, done, owed);
    GrantStep(Granted(slots, f.stdout, at, tx), f.exit, at + 1, ex, f, done + {at}, if f.stdout then owed.Plus(tx) else owed);
  }

  lemma ZeroedBoots(f: BootFlags)
    ensures Booting(Zeroed().slots, f, {}, Tally(0, 0, 0, 0, 0))
  {
    forall k: Key
      ensures Count(Zeroed().slots, k) == 0
    {
      NothingTallied(Zeroed().slots, k);
    }
  }

  /** The console caps, on storage with no boot cap yet. */
  lemma ConsoleCapsBoot(slots: seq<Cap>, f: BootFlags)
    requires Booting(slots, f, {}, Tally(0, 0, 0, 0, 0))
    ensures Booting(ConsoleCaps(slots, f, 0, 1), f, CONSOLE_SLOTS,
                    Tally(B(f.mmioUart) + 2 * B(f.stdout), 2 * B(f.exit), 0, 0, 0))
  {
    var rx, none: set<nat> := RootCap(Endpoint, 0, READ), {};
    var d1 := none + {UART_PRIMARY};
    var d2 := d1 + {HELLO_STDOUT} + {HELLO_EXIT};
    GrantStep(slots, f.mmioUart, UART_PRIMARY, rx, f, none, Tally(0, 0, 0, 0, 0));
    var s1 := Granted(slots, f.mmioUart, UART_PRIMARY, rx);
    TenantCapsBoot(s1, HELLO_STDOUT, f, d1, Tally(B(f.mmioUart), 0, 0, 0, 0));
    TenantCapsBoot(TenantCaps(s1, HELLO_STDOUT, f, 0, 1), HELLO_B_STDOUT, f, d2, Tally(B(f.mmioUart) + B(f.stdout), B(f.exit), 0, 0, 0));
    assert d2 + {HELLO_B_STDOUT} + {HELLO_B_EXIT} == CONSOLE_SLOTS;
  }

  lemma NetCapsBoot(slots: seq<Cap>, f: BootFlags, done: set<nat>, owed: Tally)
    requires Booting(slots, f, done, owed) && done !! NET_SLOTS
    ensures Booting(NetCaps(slots, 0), f, done + NET_SLOTS, owed.(net := owed.net + 3))
  {
    var c := RootCap(Net, 0, READ | WRITE);
    var s1 := Granted(slots, true, NIC_PRIMARY, c);
    var s2 := Granted(s1, true, HELLO_NET, c);
    GrantStep(slots, true, NIC_PRIMARY, c, f, done, owed);
    GrantStep(s1, true, HELLO_NET, c, f, done + {NIC_PRIMARY}, owed.Plus(c));
    GrantStep(s2, true, HELLO_B_NET, c, f, done + {NIC_PRIMARY} + {HELLO_NET}, owed.Plus(c).Plus(c));
    assert done + {NIC_PRIMARY} + {HELLO_NET} + {HELLO_B_NET} == done + NET_SLOTS;
  }

  lemma IpcCapsBoot(slots: seq<Cap>, f: BootFlags, done: set<nat>, owed: Tally)
    requires Booting(slots, f, done, owed) && done !! IPC_SLOTS
    ensures Booting(IpcCaps(slots, 2, 0), f, done + IPC_SLOTS, owed.(demo := owed.demo + 2, irq := owed.irq + 1))
  {
    var c, n := RootCap(Endpoint, 2, READ | WRITE), RootCap(Notification, 0, READ | WRITE);
    var s1 := Granted(slots, true, HELLO_IPC, c);
    var s2 := Granted(s1, true, HELLO_B_IPC, c);
    GrantStep(slots, true, HELLO_IPC, c, f, done, owed);
    GrantStep(s1, true, HELLO_B_IPC, c, f, done + {HELLO_IPC}, owed.Plus(c));
    GrantStep(s2, true, NIC_IRQ, n, f, done + {HELLO_IPC} + {HELLO_B_IPC}, owed.Plus(c).Plus(c));
    assert done + {HELLO_IPC} + {HELLO_B_IPC} + {NIC_IRQ} == done + IPC_SLOTS;
  }

  /** The refcounts `init_root_caps` gives its objects. */
  function BootObjects(f: BootFlags): Objects {
    map[(Endpoint, 0) := (if f.mmioUart then 1 else 0) + 2 * (if f.stdout then 1 else 0),
        (Endpoint, 1) := 2 * (if f.exit then 1 else 0),
        (Net, 0) := 3, (Endpoint, 2) := 2, (Notification, 0) := 1]
  }

  /** The state `init_root_caps` leaves. */
  function BootState(f: BootFlags): State {
    State(IpcCaps(NetCaps(ConsoleCaps(Zeroed().slots, f, 0, 1), 0), 2, 0), Zeroed().gens, BootObjects(f))
  }

  ghost function BootTally(f: BootFlags): Tally {
    Tally(B(f.mmioUart) + 2 * B(f.stdout), 2 * B(f.exit), 2, 3, 1)
  }

  /** With every boot slot decided, the contents are the boot caps. */
  lemma AllDecided(slots: seq<Cap>, f: BootFlags, owed: Tally, i: nat)
    requires Booting(slots, f, CONSOLE_SLOTS + NET_SLOTS + IPC_SLOTS, owed) && i < TOTAL_SLOTS
    ensures slots[i] == BootCap(f, i)
  {
    assert slots[i] == if i in CONSOLE_SLOTS + NET_SLOTS + IPC_SLOTS then BootCap(f, i) else EMPTY_CAP;
  }

  lemma BootCapIsRoot(f: BootFlags, i: nat)
    ensures BootCap(f, i).parent == Root
  {}

  /** Root caps at generation zero carry no links. */
  lemma RootCapsAreSound(st: State)
    requires |st.slots| == |st.gens| == TOTAL_SLOTS
    requires forall i :: 0 <= i < TOTAL_SLOTS ==> st.gens[i] == 0 && st.slots[i].parent == Root
    ensures WellFormed(st) && GenerationsOk(st)
  {}

  lemma TallyIsExact(st: State, f: BootFlags)
    requires |st.slots| == TOTAL_SLOTS && Tallied(st.slots, BootTally(f)) && st.objs == BootObjects(f)
    ensures RefExact(st)
  {
    forall k: Key
      ensures KeyExact(st, k)
    {
      assert Count(st.slots, k) == BootTally(f).Of(k);
    }
  }

  /** All the grants, on storage with no boot cap yet. */
  lemma AllCapsBoot(slots: seq<Cap>, f: BootFlags)
    requires Booting(slots, f, {}, Tally(0, 0, 0, 0, 0))
    ensures Booting(IpcCaps(NetCaps(ConsoleCaps(slots, f, 0, 1), 0), 2, 0), f, CONSOLE_SLOTS + NET_SLOTS + IPC_SLOTS, BootTally(f))
  {
    ConsoleCapsBoot(slots, f);
    OtherCapsBoot(ConsoleCaps(slots, f, 0, 1), f, Tally(B(f.mmioUart) + 2 * B(f.stdout), 2 * B(f.exit), 0, 0, 0));
  }

  lemma OtherCapsBoot(slots: seq<Cap>, f: BootFlags, owed: Tally)
    requires Booting(slots, f, CONSOLE_SLOTS, owed) && owed.demo == owed.net == owed.irq == 0
    ensures Booting(IpcCaps(NetCaps(slots, 0), 2, 0), f, CONSOLE_SLOTS + NET_SLOTS + IPC_SLOTS,
                    owed.(demo := 2, net := 3, irq := 1))
  {
    NetCapsBoot(slots, f, CONSOLE_SLOTS, owed);
    IpcCapsBoot(NetCaps(slots, 0), f, CONSOLE_SLOTS + NET_SLOTS, owed.(net := 3));
  }

  /** Boot establishes the invariants of every later run: exactly the boot caps, no
      parent links, and refcounts equal to the number of caps naming each object. */
  lemma BootIsSound(f: BootFlags)
    ensures WellFormed(BootState(f)) && RefExact(BootState(f)) && GenerationsOk(BootState(f))
    ensures forall i: nat :: i < TOTAL_SLOTS ==> BootState(f).slots[i] == BootCap(f, i)
  {
    var st := BootState(f);
    ZeroedBoots(f);
    AllCapsBoot(Zeroed().slots, f);
    TallyIsExact(st, f);
    forall i: nat | i < TOTAL_SLOTS
      ensures st.slots[i] == BootCap(f, i) && st.slots[i].parent == Root
    {
      AllDecided(st.slots, f, BootTally(f), i);
      BootCapIsRoot(f, i);
    }
    RootCapsAreSound(st);
  }

  /** The first hello tenant's process. */
  const HELLO: nat := 2

  /** `init_root_caps` on zeroed storage. */
  method Boot(f: BootFlags) returns (cs: CSpaces)
    ensures cs.Valid() && fresh(cs) && cs.Abs() == BootState(f)
  {
    cs := new CSpaces();
    var uart, exitEp, net, demo, irq := BootAllocs(cs);
    cs.InstallRoot(f.mmioUart, UART_PRIMARY, RootCap(Endpoint, uart, READ));
    cs.InstallRoot(f.stdout, HELLO_STDOUT, RootCap(Endpoint, uart, WRITE));
    cs.InstallRoot(f.exit, HELLO_EXIT, RootCap(Endpoint, exitEp, WRITE));
    cs.InstallRoot(f.stdout, HELLO_B_STDOUT, RootCap(Endpoint, uart, WRITE));
    cs.InstallRoot(f.exit, HELLO_B_EXIT, RootCap(Endpoint, exitEp, WRITE));
    cs.InstallRoot(true, NIC_PRIMARY, RootCap(Net, net, READ | WRITE));
    cs.InstallRoot(true, HELLO_NET, RootCap(Net, net, READ | WRITE));
    cs.InstallRoot(true, HELLO_B_NET, RootCap(Net, net, READ | WRITE));
    cs.InstallRoot(true, HELLO_IPC, RootCap(Endpoint, demo, READ | WRITE));
    cs.InstallRoot(true, HELLO_B_IPC, RootCap(Endpoint, demo, READ | WRITE));
    cs.InstallRoot(true, NIC_IRQ, RootCap(Notification, irq, READ | WRITE));
    cs.objs := BootObjects(f);
  }

  /** The pool allocations of `init_root_caps`: first fit from empty pools. */
  method BootAllocs(cs: CSpaces) returns (uart: nat, exitEp: nat, net: nat, demo: nat, irq: nat)
    requires cs.objs == map[]
    modifies cs`objs
    ensures uart == 0 && exitEp == 1 && net == 0 && demo == 2 && irq == 0
  {
    var a := cs.AllocObject(Endpoint);
    var b := cs.AllocObject(Endpoint);
    assert a == Some(0) && b == Some(1);
    var c := cs.AllocObject(Net);
    assert c == Some(0);
    var d := cs.AllocObject(Endpoint);
    assert d == Some(2);
    var e := cs.AllocObject(Notification);
    return a.value, b.value, c.value, d.value, e.value;
  }
}
