/** The capability machine as a pure transition system: slots, generations and
    refcounted objects, with one function per system call.

    Slot `(proc, slot)` is index `proc * 256 + slot`, the index the revocation
    bitmap uses. A pool object is its refcount; the rest of it is not modelled. */
module CapState {
  import opened Wrappers
  import opened CapTypes
  import opened KernelAbi

  /** A pooled object: its kind and pool index. */
  type Key = (Kind, nat)
  type Objects = map<Key, nat>

  datatype State = State(slots: seq<Cap>, gens: seq<nat>, objs: Objects)

  function Index(procId: nat, slot: nat): nat { procId * CSPACE_SLOTS + slot }

  predicate InRange(procId: nat, slot: nat) { procId < MAX_PROCS && slot < CSPACE_SLOTS }

  /** Sizes are right, generations are 16-bit, and every recorded parent names a real slot. */
  ghost predicate WellFormed(st: State) {
    && |st.slots| == TOTAL_SLOTS && |st.gens| == TOTAL_SLOTS
    && (forall i :: 0 <= i < TOTAL_SLOTS ==> st.gens[i] <= MAX_GEN)
    && (forall i :: 0 <= i < TOTAL_SLOTS ==> ParentInRange(st.slots[i]))
  }

  predicate ParentInRange(c: Cap) { c.parent.At? ==> InRange(c.parent.procId, c.parent.slot) }

  /** The generation of slot `i`, if there is one. */
  function Generation(st: State, i: nat): nat { if i < |st.gens| then st.gens[i] else 0 }

  /** The cap in slot `i`, if there is one. */
  function CapAt(st: State, i: nat): Cap { if i < |st.slots| then st.slots[i] else EMPTY_CAP }

  predicate Occupied(st: State, i: nat)
    requires i < |st.slots|
  {
    st.slots[i].kind != Empty
  }

  // ---- Objects ----

  predicate Names(c: Cap, k: Key) { c.kind == k.0 && c.poolIndex == k.1 && Pooled(c.kind) }

  function DecRefcount(objs: Objects, kind: Kind, x: nat): Objects {
    if !Pooled(kind) || (kind, x) !in objs then objs
    else if objs[(kind, x)] <= 1 then objs - {(kind, x)}
    else objs[(kind, x) := objs[(kind, x)] - 1]
  }

  function IncRefcount(objs: Objects, kind: Kind, x: nat): Objects {
    if !Pooled(kind) || (kind, x) !in objs then objs
    else objs[(kind, x) := if objs[(kind, x)] < MAX_GEN then objs[(kind, x)] + 1 else MAX_GEN]
  }

  /** `Pool::alloc`: the first free index from `x` on. */
  function FirstFree(objs: Objects, kind: Kind, x: nat): (r: Option<nat>)
    ensures r.Some? ==> x <= r.value < PoolCapacity(kind) && (kind, r.value) !in objs
    ensures r.Some? ==> forall y: nat :: x <= y < r.value ==> (kind, y) in objs
    ensures r.None? ==> forall y: nat :: x <= y < PoolCapacity(kind) ==> (kind, y) in objs
    decreases PoolCapacity(kind) - x
  {
    if x >= PoolCapacity(kind) then None
    else if (kind, x) !in objs then Some(x)
    else FirstFree(objs, kind, x + 1)
  }

  // ---- Slots ----

  function Bump(g: nat): nat { if g < MAX_GEN then g + 1 else MAX_GEN }

  /** Empty a slot, move its generation to `g` and drop its reference. */
  function Vacate(st: State, i: nat, g: nat): State
    requires i < |st.slots| && i < |st.gens|
  {
    State(st.slots[i := EMPTY_CAP], st.gens[i := g], DecRefcount(st.objs, st.slots[i].kind, st.slots[i].poolIndex))
  }

  function ClearSlot(st: State, i: nat): State
    requires i < |st.slots| && i < |st.gens|
  {
    Vacate(st, i, Bump(st.gens[i]))
  }

  /** Put a capability into a slot and count its reference. */
  function Install(st: State, i: nat, c: Cap): State
    requires i < |st.slots|
  {
    st.(slots := st.slots[i := c], objs := IncRefcount(st.objs, c.kind, c.poolIndex))
  }

  // ---- Derivation ----

  function ParentIndex(c: Cap): nat
    requires c.parent.At?
  {
    Index(c.parent.procId, c.parent.slot)
  }

  /** The cap in `i` is a live child of slot `p`: its recorded parent is `p` at `p`'s current generation. */
  predicate IsChild(st: State, i: nat, p: nat)
    requires i < |st.slots| && p < |st.gens|
  {
    && Occupied(st, i)
    && st.slots[i].parent.At?
    && ParentIndex(st.slots[i]) == p
    && st.slots[i].parent.generation == st.gens[p]
  }

  /** `i` reaches `t` by `n` live parent links. */
  ghost predicate Descends(st: State, i: nat, t: nat, n: nat)
    requires WellFormed(st) && i < TOTAL_SLOTS && t < TOTAL_SLOTS
    decreases n
  {
    if n == 0 then i == t
    else
      && st.slots[i].parent.At?
      && IsChild(st, i, ParentIndex(st.slots[i]))
      && Descends(st, ParentIndex(st.slots[i]), t, n - 1)
  }

  /** The slots a revocation of `t` must sweep: `t` and everything derived from it. */
  ghost predicate InCascade(st: State, t: nat, i: nat)
    requires WellFormed(st) && i < TOTAL_SLOTS && t < TOTAL_SLOTS
  {
    exists n: nat :: Descends(st, i, t, n)
  }

  ghost function Cascade(st: State, t: nat): set<nat>
    requires WellFormed(st) && t < TOTAL_SLOTS
  {
    set i: nat | i < TOTAL_SLOTS && InCascade(st, t, i)
  }

  /** Clear, in index order, the members of `doomed` below `n`. */
  ghost function SweepBelow(st: State, doomed: set<nat>, n: nat): (r: State)
    requires n <= |st.slots| && n <= |st.gens|
    ensures |r.slots| == |st.slots| && |r.gens| == |st.gens|
  {
    if n == 0 then st
    else
      var before := SweepBelow(st, doomed, n - 1);
      if n - 1 in doomed then ClearSlot(before, n - 1) else before
  }

  /** The state after a revocation. */
  ghost function Revoked(st: State, t: nat): State
    requires WellFormed(st) && t < TOTAL_SLOTS
  {
    SweepBelow(st, Cascade(st, t), TOTAL_SLOTS)
  }

  // ---- System calls ----

  /** `cap_mint(parent_slot, target_slot, rights, badge)`. */
  function Mint(st: State, procId: nat, parentSlot: nat, targetSlot: nat, rights: bv32, badge: nat): Result<State, Errno>
    requires |st.slots| == |st.gens| == TOTAL_SLOTS
  {
    if !InRange(procId, parentSlot) || !InRange(procId, targetSlot) || rights > 0xFF then Err(E_INVAL)
    else
      var p, t := Index(procId, parentSlot), Index(procId, targetSlot);
      if !Occupied(st, p) || Occupied(st, t) then Err(E_INVAL)
      else
        match Derive(st.slots[p], At(procId, parentSlot, st.gens[p]), rights as bv8, badge)
        case Err(PermissionDenied) => Err(E_PERM)
        case Err(_) => Err(E_INVAL)
        case Ok(child) => Ok(Install(st, t, child.(generation := st.gens[t])))
  }

  /** `cap_copy(src_slot, target_slot)`: a sibling, sharing the source's parent. */
  function Copy(st: State, procId: nat, srcSlot: nat, targetSlot: nat): Result<State, Errno>
    requires |st.slots| == |st.gens| == TOTAL_SLOTS
  {
    if !InRange(procId, srcSlot) || !InRange(procId, targetSlot) then Err(E_INVAL)
    else
      var s, t := Index(procId, srcSlot), Index(procId, targetSlot);
      if !Occupied(st, s) || Occupied(st, t) then Err(E_INVAL)
      else Ok(Install(st, t, st.slots[s].(generation := st.gens[t])))
  }

  /** `cap_delete(slot)`: one cap, no cascade. */
  function Delete(st: State, procId: nat, slot: nat): Result<State, Errno>
    requires |st.slots| == |st.gens| == TOTAL_SLOTS
  {
    if !InRange(procId, slot) || !Occupied(st, Index(procId, slot)) then Err(E_INVAL)
    else Ok(ClearSlot(st, Index(procId, slot)))
  }

  /** `cap_revoke(slot)`: needs the write right. */
  ghost function Revoke(st: State, procId: nat, slot: nat): Result<State, Errno>
    requires WellFormed(st)
  {
    if !InRange(procId, slot) || !Occupied(st, Index(procId, slot)) then Err(E_INVAL)
    else if st.slots[Index(procId, slot)].rights & WRITE == 0 then Err(E_PERM)
    else Ok(Revoked(st, Index(procId, slot)))
  }

  const SLOT_NET: nat := 2

  /** The driver trapped or is missing, or answered a handle or an error code. */
  datatype DriverAnswer = Trapped | Answered(code: int)

  /** `net_socket_create`: a socket object of its own below the caller's Net cap. */
  function SocketCreate(st: State, procId: nat, slot: nat, driver: DriverAnswer): Result<State, Errno>
    requires |st.slots| == |st.gens| == TOTAL_SLOTS
  {
    if !InRange(procId, slot) then Err(E_INVAL)
    else
      var n, t := Index(procId, SLOT_NET), Index(procId, slot);
      if st.slots[n].kind != Net || st.slots[n].rights & WRITE == 0 || Occupied(st, t) then Err(E_PERM)
      else if driver.Trapped? then Err(E_NOMEM)
      else if driver.code < 0 then Err(E_DRIVER(driver.code))
      else
        match FirstFree(st.objs, Socket, 0)
        case None => Err(E_NOMEM)
        case Some(x) =>
          var cap := Cap(0, At(procId, SLOT_NET, st.gens[n]), st.gens[t], x, Socket, READ | WRITE);
          Ok(Install(st.(objs := st.objs[(Socket, x) := 0]), t, cap))
  }

  /** `net_socket_close(slot)`: its generation bump wraps where the others saturate. */
  function SocketClose(st: State, procId: nat, slot: nat): Result<State, Errno>
    requires |st.slots| == |st.gens| == TOTAL_SLOTS
  {
    if !InRange(procId, slot) then Err(E_INVAL)
    else
      var i := Index(procId, slot);
      if st.slots[i].kind != Socket then Err(E_PERM)
      else if (Socket, st.slots[i].poolIndex) !in st.objs then Err(E_INVAL)
      else Ok(Vacate(st, i, if st.gens[i] < MAX_GEN then st.gens[i] + 1 else 0))
  }

  datatype Call =
    | DoMint(parentSlot: nat, targetSlot: nat, rights: bv32, badge: nat)
    | DoCopy(srcSlot: nat, targetSlot: nat)
    | DoDelete(slot: nat)
    | DoRevoke(slot: nat)
    | DoSocketCreate(slot: nat, driver: DriverAnswer)
    | DoSocketClose(slot: nat)

  ghost function Outcome(st: State, procId: nat, call: Call): Result<State, Errno>
    requires WellFormed(st)
  {
    match call
    case DoMint(p, t, r, b) => Mint(st, procId, p, t, r, b)
    case DoCopy(s, t) => Copy(st, procId, s, t)
    case DoDelete(s) => Delete(st, procId, s)
    case DoRevoke(s) => Revoke(st, procId, s)
    case DoSocketCreate(s, d) => SocketCreate(st, procId, s, d)
    case DoSocketClose(s) => SocketClose(st, procId, s)
  }

  /** A refused call changes nothing. */
  ghost function Next(st: State, procId: nat, call: Call): State
    requires WellFormed(st)
  {
    match Outcome(st, procId, call)
    case Ok(st') => st'
    case Err(_) => st
  }
}
