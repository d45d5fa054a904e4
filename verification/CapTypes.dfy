/** Capabilities, their identifiers and derivation. */
module CapTypes {
  import opened Wrappers
  import opened KernelAbi

  const CSPACE_SLOTS: nat := 256
  /** Slots of all CSpaces together. */
  const TOTAL_SLOTS: nat := 4096
  /** `u16::MAX`, where generations and refcounts saturate. */
  const MAX_GEN: nat := 65_535

  datatype Kind = Empty | Endpoint | Notification | Untyped | Frame | Net | Socket | EventLog

  /** Kinds with a pooled object behind them. */
  predicate Pooled(k: Kind) { k != Empty && k != EventLog }

  function PoolCapacity(k: Kind): nat {
    match k
    case Endpoint => 64
    case Notification => 64
    case Untyped => 16
    case Frame => 1024
    case Net => 4
    case Socket => 256
    case _ => 0
  }

  const READ: bv8 := 1
  const WRITE: bv8 := 2
  /** Read, write, grant, grant-reply: the rights in use. */
  const RIGHTS_MASK: bv8 := 15

  /** Every right of `a` is a right of `b`. */
  predicate SubRights(a: bv8, b: bv8) { a & !b == 0 }

  lemma SubRightsTransitive(a: bv8, b: bv8, c: bv8)
    requires SubRights(a, b) && SubRights(b, c)
    ensures SubRights(a, c)
  {}

  // ---- Identifiers ----

  /** A `CapId`, unpacked: the root sentinel, or a slot at a generation. */
  datatype CapId = Root | At(procId: nat, slot: nat, generation: nat)

  const ROOT_BITS: nat := 0xFFFF_FFFF

  function Pack(procId: nat, slot: nat, generation: nat): nat {
    generation * 0x1_0000 + procId * 0x100 + slot
  }

  function Unpack(bits: nat): CapId {
    if bits == ROOT_BITS then Root else At(bits / 0x100 % 0x100, bits % 0x100, bits / 0x1_0000 % 0x1_0000)
  }

  /** Packing loses nothing, and collides with the sentinel in exactly one case,
      which no process below `MAX_PROCS` can reach. */
  lemma PackRoundTrip(procId: nat, slot: nat, generation: nat)
    requires procId < 256 && slot < 256 && generation <= MAX_GEN
    ensures var bits := Pack(procId, slot, generation);
      bits <= 0xFFFF_FFFF && bits % 0x100 == slot && bits / 0x100 % 0x100 == procId && bits / 0x1_0000 == generation
    ensures Unpack(Pack(procId, slot, generation)) == At(procId, slot, generation) <==>
            !(procId == 255 && slot == 255 && generation == MAX_GEN)
    ensures procId < MAX_PROCS ==> Unpack(Pack(procId, slot, generation)) == At(procId, slot, generation)
  {
    var bits := Pack(procId, slot, generation);
    assert bits / 0x100 == generation * 0x100 + procId;
    assert bits / 0x1_0000 == generation;
  }

  // ---- Capabilities ----

  datatype Cap = Cap(badge: nat, parent: CapId, generation: nat, poolIndex: nat, kind: Kind, rights: bv8)

  const EMPTY_CAP: Cap := Cap(0, Root, 0, MAX_GEN, Empty, 0)

  /** The pure core of mint. */
  function Derive(parent: Cap, parentId: CapId, requested: bv8, badge: nat): Result<Cap, KernelError> {
    if parent.kind == Empty then Err(InvalidArgument)
    else if requested & !RIGHTS_MASK != 0 then Err(InvalidArgument)
    else if requested & !parent.rights != 0 then Err(PermissionDenied)
    else Ok(Cap(if parent.kind == Endpoint then badge else 0, parentId, 0, parent.poolIndex, parent.kind, requested))
  }

  /** The same object, and no right the parent lacks. */
  predicate Narrowed(parent: Cap, child: Cap) {
    child.kind == parent.kind && child.poolIndex == parent.poolIndex && SubRights(child.rights, parent.rights)
  }

  /** What `derive` answers: the refusals in order, and otherwise a narrowed cap with
      exactly the rights asked for, and the badge exactly on an endpoint. */
  lemma DeriveNarrows(parent: Cap, parentId: CapId, requested: bv8, badge: nat)
    ensures var r := Derive(parent, parentId, requested, badge);
      && (r == Err(PermissionDenied) <==>
            parent.kind != Empty && SubRights(requested, RIGHTS_MASK) && !SubRights(requested, parent.rights))
      && (r == Err(InvalidArgument) <==> parent.kind == Empty || !SubRights(requested, RIGHTS_MASK))
      && (r.Ok? ==>
            && Narrowed(parent, r.value) && r.value.rights == requested && r.value.parent == parentId
            && r.value.badge == (if parent.kind == Endpoint then badge else 0) && r.value.generation == 0)
  {}

  /** Deriving in two steps reaches nothing that one step could not. */
  lemma DeriveTwice(parent: Cap, id1: CapId, r1: bv8, b1: nat, id2: CapId, r2: bv8, b2: nat)
    requires Derive(parent, id1, r1, b1).Ok? && Derive(Derive(parent, id1, r1, b1).value, id2, r2, b2).Ok?
    ensures Derive(Derive(parent, id1, r1, b1).value, id2, r2, b2) == Derive(parent, id2, r2, b2)
  {
    SubRightsTransitive(r2, r1, parent.rights);
  }

  /** `child` could hang below `parent`: narrowed from it, or a socket with at most read
      and write below a network interface that may be written. */
  predicate Derived(parent: Cap, child: Cap) {
    || Narrowed(parent, child)
    || (parent.kind == Net && parent.rights & WRITE != 0 && child.kind == Socket && SubRights(child.rights, READ | WRITE))
  }
}
