/** Sv39 page-table entries, address decomposition and the page walk
    (RISC-V Privileged Architecture 20211203, sections 4.3 and 4.4).

    Fields of a word are read by division and remainder; an OR of disjoint
    fields is their sum. */
module PageTable {
  import opened Wrappers
  import opened Words

  const PAGE: nat := 4096
  const PT_ENTRIES: nat := 512
  /** The mask `0x00FF_FFFF_FFFF_FFFF` keeps 56 bits. */
  const PPN_LIMIT: nat := 0x100_0000_0000_0000
  const VA_LIMIT: nat := 0x80_0000_0000
  const PAGES_PER_SPACE: nat := 0x800_0000

  // ---- Flags: the low ten bits of an entry ----

  type Flags = f: nat | f < 1024

  const VALID: Flags := 1
  const READ: Flags := 2
  const WRITE: Flags := 4
  const EXECUTE: Flags := 8
  const GLOBAL: Flags := 32
  const ACCESS: Flags := 64
  const DIRTY: Flags := 128

  const KERNEL_RX: Flags := VALID + READ + EXECUTE + ACCESS + GLOBAL
  const KERNEL_RO: Flags := VALID + READ + ACCESS + GLOBAL
  const KERNEL_RW: Flags := VALID + READ + WRITE + ACCESS + DIRTY + GLOBAL

  predicate FlagsValid(f: nat) { f % 2 == 1 }
  predicate FlagsWritable(f: nat) { f / 4 % 2 == 1 }
  predicate FlagsExecutable(f: nat) { f / 8 % 2 == 1 }
  /** Any of R, W, X. */
  predicate FlagsLeaf(f: nat) { f / 2 % 8 != 0 }

  // ---- Entries ----

  function FlagsOf(pte: nat): Flags { pte % 1024 }
  predicate IsValid(pte: nat) { FlagsValid(pte) }
  predicate IsLeaf(pte: nat) { IsValid(pte) && FlagsLeaf(FlagsOf(pte)) }
  predicate IsBranch(pte: nat) { IsValid(pte) && !FlagsLeaf(FlagsOf(pte)) }

  function Ppn(pte: nat): nat { pte / 1024 % PPN_LIMIT }
  /** `(ppn << 12) as usize`, dropping what leaves the word. */
  function PhysAddr(pte: nat): nat { Ppn(pte) * PAGE % U64_LIMIT }

  /** `Pte::new`: a leaf mapping the page of `pa`. */
  function NewLeaf(pa: nat, f: Flags): nat { pa / PAGE % PPN_LIMIT * 1024 + f }
  /** `Pte::branch`: a pointer to the next table. */
  function NewBranch(table: nat): nat { table / PAGE % PPN_LIMIT * 1024 + VALID }

  /** An entry gives back its page and flags, and nothing spills past 64 bits. */
  lemma EntryRoundTrip(pa: u64, f: Flags)
    ensures NewLeaf(pa, f) < U64_LIMIT
    ensures FlagsOf(NewLeaf(pa, f)) == f
    ensures PhysAddr(NewLeaf(pa, f)) == pa - pa % PAGE
    ensures IsValid(NewLeaf(pa, f)) <==> FlagsValid(f)
    ensures NewBranch(pa) < U64_LIMIT
    ensures IsBranch(NewBranch(pa))
    ensures PhysAddr(NewBranch(pa)) == pa - pa % PAGE
  {
    var q := pa / PAGE;
    assert q % PPN_LIMIT == q;
    PackedFields(q, f);
    PackedFields(q, VALID);
    assert q * PAGE == pa - pa % PAGE;
  }

  /** Division and remainder by 1024 take a packed word apart. */
  lemma PackedFields(q: nat, f: Flags)
    requires q < 0x10_0000_0000_0000
    ensures (q * 1024 + f) / 1024 == q && (q * 1024 + f) % 1024 == f
    ensures IsValid(q * 1024 + f) <==> FlagsValid(f)
    ensures Ppn(q * 1024 + f) == q && PhysAddr(q * 1024 + f) == q * PAGE
  {}

  /** Bits 54-63 of an entry are reserved; they stay clear exactly for pages
      within the 56-bit physical space, since the mask keeps 56 and not 44 bits. */
  lemma ReservedBitsClearIff(pa: u64, f: Flags)
    ensures NewLeaf(pa, f) < 0x40_0000_0000_0000 <==> pa < PPN_LIMIT
  {}

  // ---- satp ----

  const PPN_FIELD: nat := 0x1000_0000_0000

  /** `make_satp`: the bits of the masked page number above its 44-bit field fall on those
      of the address-space identifier. */
  function MakeSatp(root: nat, asid: nat): nat {
    var ppn := root / PAGE % PPN_LIMIT;
    8 * 0x1000_0000_0000_0000 + Or(asid, ppn / PPN_FIELD) * PPN_FIELD + ppn % PPN_FIELD
  }

  /** The mode field always reads Sv39. The 44-bit PPN field names the root exactly when the
      root lies in the 56-bit physical space; the identifier field reads back exactly when
      the bits of the page number that spill onto it are its own. */
  lemma SatpNamesRootIff(root: u64, asid: nat)
    requires asid < 0x1_0000
    ensures MakeSatp(root, asid) / 0x1000_0000_0000_0000 == 8
    ensures MakeSatp(root, asid) % PPN_FIELD == root / PAGE <==> root < PPN_LIMIT
    ensures MakeSatp(root, asid) / PPN_FIELD % 0x1_0000 == asid <==> BitsWithin(root / PAGE / PPN_FIELD, asid)
    ensures root < PPN_LIMIT ==> MakeSatp(root, asid) / PPN_FIELD % 0x1_0000 == asid
  {
    var high := root / PAGE / PPN_FIELD;
    PageNumberFits(root);
    SatpOr(asid, high);
    SatpFields(Or(asid, high), root / PAGE % PPN_FIELD);
  }

  lemma SatpOr(asid: nat, high: nat)
    requires asid < 0x1_0000 && high < 0x1_0000
    ensures Or(asid, high) < 0x1_0000 && (Or(asid, high) == asid <==> BitsWithin(high, asid)) && Or(asid, 0) == asid
  {
    assert Pow2(8) == 0x100 && Pow2(16) == 0x1_0000;
    OrFits(asid, high, 16);
    OrKeepsIff(asid, high);
    OrNothing(asid);
  }

  lemma PageNumberFits(root: u64)
    ensures root / PAGE % PPN_LIMIT == root / PAGE && root / PAGE / PPN_FIELD < 0x1_0000
    ensures root / PAGE % PPN_FIELD == root / PAGE <==> root < PPN_LIMIT
    ensures root < PPN_LIMIT ==> root / PAGE / PPN_FIELD == 0
  {}

  lemma SatpFields(field: nat, low: nat)
    requires field < 0x1_0000 && low < PPN_FIELD
    ensures var s := 8 * 0x1000_0000_0000_0000 + field * PPN_FIELD + low;
      && s / 0x1000_0000_0000_0000 == 8 && s % PPN_FIELD == low && s / PPN_FIELD % 0x1_0000 == field
  {
    var s := 8 * 0x1000_0000_0000_0000 + field * PPN_FIELD + low;
    assert s / PPN_FIELD == 8 * 0x1_0000 + field;
  }

  // ---- Virtual addresses ----

  function Vpn(va: nat, level: nat): nat
    requires level <= 2
  {
    if level == 2 then va / 0x4000_0000 % 512
    else if level == 1 then va / 0x20_0000 % 512
    else va / PAGE % 512
  }

  /** The page of the 39-bit space an address falls in; higher bits are masked away. */
  function PageNumber(va: nat): nat { va / PAGE % PAGES_PER_SPACE }

  /** `va_from_parts`. */
  function VaFromParts(v2: nat, v1: nat, v0: nat, offset: nat): nat {
    v2 * 0x4000_0000 + v1 * 0x20_0000 + v0 * PAGE + offset
  }

  lemma VaRoundTrip(va: nat)
    ensures VaFromParts(Vpn(va, 2), Vpn(va, 1), Vpn(va, 0), va % PAGE) == va % VA_LIMIT
  {
    PageNumberFromParts(va);
    var p, h := va / PAGE, va / PAGE / PAGES_PER_SPACE;
    assert p == h * PAGES_PER_SPACE + PageNumber(va);
    assert va == h * VA_LIMIT + PageNumber(va) * PAGE + va % PAGE;
    DropHigh(h, PageNumber(va) * PAGE + va % PAGE);
  }

  lemma DropHigh(h: nat, low: nat)
    requires low < VA_LIMIT
    ensures (h * VA_LIMIT + low) % VA_LIMIT == low
  {}

  /** Two addresses share a page of the space iff they share all three indices. */
  lemma SamePageIff(a: nat, b: nat)
    ensures PageNumber(a) == PageNumber(b) <==>
            Vpn(a, 2) == Vpn(b, 2) && Vpn(a, 1) == Vpn(b, 1) && Vpn(a, 0) == Vpn(b, 0)
  {
    PageNumberFromParts(a);
    PageNumberFromParts(b);
  }

  lemma PageNumberFromParts(a: nat)
    ensures PageNumber(a) == Vpn(a, 2) * 0x4_0000 + Vpn(a, 1) * 512 + Vpn(a, 0)
  {
    IndicesOfPage(a);
    PartsOfPage(a / PAGE);
  }

  /** The higher indices divide the page as they divide the address. */
  lemma IndicesOfPage(a: nat)
    ensures a / 0x20_0000 == a / PAGE / 512
    ensures a / 0x4000_0000 == a / PAGE / 512 / 512
  {}

  lemma PartsOfPage(p: nat)
    ensures p % PAGES_PER_SPACE == p / 512 / 512 % 512 * 0x4_0000 + p / 512 % 512 * 512 + p % 512
  {
    var r := p / 512;
    var q := r / 512;
    assert p == r * 512 + p % 512 && r == q * 512 + r % 512 && q == q / 512 * 512 + q % 512;
    assert p == q / 512 * PAGES_PER_SPACE + (q % 512 * 0x4_0000 + r % 512 * 512 + p % 512);
  }

  // ---- The walk ----

  /** Physical memory, one 64-bit word per address. */
  type Memory = nat -> u64

  datatype WalkResult = WalkResult(phys: nat, flags: Flags)

  function EntryAddr(table: nat, index: nat): nat { table + index * 8 }

  /** An entry as the walk understands it. */
  datatype Entry = Empty | Branch(child: nat) | Leaf(page: nat, flags: Flags)

  function Decode(pte: nat): Entry {
    if !IsValid(pte) then Empty
    else if IsLeaf(pte) then Leaf(PhysAddr(pte), FlagsOf(pte))
    else Branch(PhysAddr(pte))
  }

  /** What a level-0 entry translates to. */
  function LeafView(pte: nat, va: nat): Option<WalkResult> {
    if IsLeaf(pte) then Some(WalkResult(PhysAddr(pte) + va % PAGE, FlagsOf(pte))) else None
  }

  /** The translation from a table at `level`: superpages are refused. */
  function WalkFrom(mem: Memory, table: nat, va: nat, level: nat): Option<WalkResult>
    requires level <= 2
    decreases level
  {
    var pte := mem(EntryAddr(table, Vpn(va, level)));
    if level == 0 then LeafView(pte, va)
    else if IsBranch(pte) then WalkFrom(mem, PhysAddr(pte), va, level - 1)
    else None
  }

  function Translate(mem: Memory, root: nat, va: nat): Option<WalkResult> {
    WalkFrom(mem, root, va, 2)
  }

  /** One level of the walk, as a case analysis on the entry found there. */
  lemma WalkStep(mem: Memory, table: nat, va: nat, level: nat)
    requires level <= 2
    ensures var pte := mem(EntryAddr(table, Vpn(va, level)));
            && (!IsValid(pte) ==> WalkFrom(mem, table, va, level) == None)
            && (IsLeaf(pte) && level > 0 ==> WalkFrom(mem, table, va, level) == None)
            && (level == 0 ==> WalkFrom(mem, table, va, level) == LeafView(pte, va))
            && (IsBranch(pte) && level > 0 ==>
                  WalkFrom(mem, table, va, level) == WalkFrom(mem, PhysAddr(pte), va, level - 1))
  {}

  /** A table's 512 entries are words of eight bytes that fill its page end to end. */
  lemma EntriesTile(table: nat, i: nat)
    ensures EntryAddr(table, 0) == table && EntryAddr(table, i + 1) == EntryAddr(table, i) + 8
    ensures EntryAddr(table, 512) == table + 4096
  {}

  /** What an entry is, by its four low bits: valid, and then a leaf if it may be read,
      written or executed. */
  lemma EntryKinds(pte: nat)
    ensures IsBranch(pte) <==> pte % 2 == 1 && pte / 2 % 2 == 0 && pte / 4 % 2 == 0 && pte / 8 % 2 == 0
    ensures IsLeaf(pte) <==> pte % 2 == 1 && (pte / 2 % 2 == 1 || pte / 4 % 2 == 1 || pte / 8 % 2 == 1)
  {
    LowFlags(pte);
    ThreeBits(pte / 2);
  }

  lemma LowFlags(pte: nat)
    ensures pte % 1024 / 2 % 8 == pte / 2 % 8
  {
    var q := pte / 1024;
    assert pte == q * 1024 + pte % 1024;
    assert pte / 2 == q * 512 + pte % 1024 / 2;
    assert pte / 2 == (q * 64 + pte % 1024 / 2 / 8) * 8 + pte % 1024 / 2 % 8;
  }

  lemma ThreeBits(x: nat)
    ensures x % 8 == 0 <==> x % 2 == 0 && x / 2 % 2 == 0 && x / 4 % 2 == 0
  {
    var q, r := x / 8, x % 8;
    assert x / 2 == 4 * q + r / 2 && x / 4 == 2 * q + r / 4;
    EvenPart(4 * q, r);
    EvenPart(2 * q, r / 2);
    EvenPart(q, r / 4);
  }

  lemma EvenPart(a: nat, b: nat)
    ensures (2 * a + b) % 2 == b % 2
  {}

  /** The page an entry points at: its bits from the tenth on. */
  lemma EntryPoints(pte: u64)
    ensures PhysAddr(pte) == pte / 1024 * 4096 % 0x1_0000_0000_0000_0000
  {}

  lemma LeafViewIff(pte: nat, va: nat, phys: nat, flags: Flags)
    ensures LeafView(pte, va) == Some(WalkResult(phys, flags)) <==>
      IsLeaf(pte) && phys == PhysAddr(pte) + va % 4096 && flags == FlagsOf(pte)
  {}

  /** One level of the walk reads a branch, or resolves nothing. */
  lemma WalkDown(mem: Memory, table: nat, va: nat, level: nat, pte: nat)
    requires 0 < level <= 2 && pte == mem(EntryAddr(table, Vpn(va, level)))
    ensures WalkFrom(mem, table, va, level) == if IsBranch(pte) then WalkFrom(mem, PhysAddr(pte), va, level - 1) else None
  {}

  /** A walk reads one entry a level, each table where the branch before it points: two
      branches and a leaf, whose page is joined with the lowest 12 bits. Nothing else resolves. */
  lemma TranslateIff(mem: Memory, root: nat, va: nat, e2: nat, e1: nat, e0: nat, phys: nat, flags: Flags)
    requires e2 == mem(EntryAddr(root, Vpn(va, 2)))
    requires e1 == mem(EntryAddr(PhysAddr(e2), Vpn(va, 1)))
    requires e0 == mem(EntryAddr(PhysAddr(e1), Vpn(va, 0)))
    ensures Translate(mem, root, va) == Some(WalkResult(phys, flags)) <==>
      IsBranch(e2) && IsBranch(e1) && IsLeaf(e0) && phys == PhysAddr(e0) + va % 4096 && flags == FlagsOf(e0)
  {
    WalkDown(mem, root, va, 2, e2);
    WalkDown(mem, PhysAddr(e2), va, 1, e1);
    LeafViewIff(e0, va, phys, flags);
  }

  /** The loop of `walk`: from the root, through branches, to a level-0 leaf. */
  method Walk(mem: Memory, root: nat, va: nat) returns (r: Option<WalkResult>)
    ensures r == Translate(mem, root, va)
  {
    var table := root;
    ghost var goal := Translate(mem, root, va);
    var level: int := 2;
    while level >= 0
      invariant -1 <= level <= 2
      invariant level >= 0 ==> WalkFrom(mem, table, va, level) == goal
      invariant level < 0 ==> goal == None
    {
      WalkStep(mem, table, va, level);
      var pte := mem(EntryAddr(table, Vpn(va, level)));
      if !IsValid(pte) { return None; }
      if IsLeaf(pte) {
        if level != 0 { return None; }
        return Some(WalkResult(PhysAddr(pte) + va % PAGE, FlagsOf(pte)));
      }
      table := PhysAddr(pte);
      level := level - 1;
    }
    return None;
  }
}
