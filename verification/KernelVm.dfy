/** The kernel's page mapper: the code that changes table memory and draws pages
    from the allocator. `Translate` of the tree is its abstract state. */
module KernelVm {
  import opened Wrappers
  import opened KernelAbi
  import opened Words
  import opened PageTable
  import opened TableTree
  import opened KernelMap
  import opened Sequences
  import PA = PageAllocator

  // ---- What an operation did to the translations ----

  /** Page `n` of the space now reads as `pte`; every other page reads as before. */
  ghost predicate Remapped(mem: Memory, mem': Memory, root: nat, n: nat, pte: nat) {
    forall va: nat :: Translate(mem', root, va) ==
                      if PageNumber(va) == n then LeafView(pte, va) else Translate(mem, root, va)
  }

  ghost predicate SameTranslation(mem: Memory, mem': Memory, root: nat) {
    forall va: nat :: Translate(mem', root, va) == Translate(mem, root, va)
  }

  ghost predicate SameResolve(es: Entries, es': Entries, root: nat) {
    forall p: Path :: p.InRange() ==> Resolve(es', root, p, 2) == Resolve(es, root, p, 2)
  }

  /** `child` now hangs at entry `i` of `t`: either it was there and nothing moved,
      or it is a new empty table. */
  ghost predicate ChildOf(es: Entries, es': Entries, tables: Tables, tables': Tables, t: nat, i: nat, child: nat) {
    && t in tables && tables[t].level > 0
    && tables' == WithTable(tables, t, i, child)
    && es'(t, i) == Branch(child)
    && if es(t, i) == Empty then child !in tables && es' == Grown(es, t, i, child)
       else es' == es && tables' == tables
  }

  ghost function Cost(es: Entries, t: nat, i: nat): nat {
    if es(t, i) == Empty then 1 else 0
  }

  // ---- Pages behind the tables ----

  /** The address of a page among `pages`. */
  ghost predicate IsPageIn(addr: nat, base: nat, pages: set<nat>) {
    exists p :: p in pages && base + p * PAGE == addr
  }

  /** Every table lives in an allocated page. */
  ghost predicate Backed(tables: Tables, base: nat, pages: set<nat>) {
    forall t :: t in tables ==> IsPageIn(t, base, pages)
  }

  /** The allocated set gained exactly the page at `addr`. */
  ghost predicate TookPage(base: nat, was: set<nat>, now: set<nat>, addr: nat) {
    !IsPageIn(addr, base, was) && exists p: nat :: now == was + {p} && base + p * PAGE == addr
  }

  lemma TookOnePage(base: nat, was: set<nat>, now: set<nat>, p: nat, addr: nat)
    requires p !in was && now == was + {p} && base + p * PAGE == addr
    ensures TookPage(base, was, now, addr)
  {}

  lemma BackedGrows(tables: Tables, base: nat, was: set<nat>, now: set<nat>, t: nat, i: nat, child: nat)
    requires Backed(tables, base, was) && TookPage(base, was, now, child)
    requires t in tables && tables[t].level > 0
    ensures Backed(WithTable(tables, t, i, child), base, now)
  {
    var p: nat :| now == was + {p} && base + p * PAGE == child;
    forall u | u in WithTable(tables, t, i, child)
      ensures IsPageIn(u, base, now)
    {
      if u != child {
        var q :| q in was && base + q * PAGE == u;
        assert q in now;
      } else {
        assert p in now;
      }
    }
  }

  lemma NoneFreeIff(total: nat, used: set<nat>)
    requires used <= Upto(total)
    ensures |Upto(total) - used| == 0 <==> used == Upto(total)
  {
    assert used == Upto(total) <==> Upto(total) - used == {};
  }

  /** One more page in use is one fewer free. */
  lemma OneFewer(total: nat, was: set<nat>, p: nat)
    requires p < total && p !in was
    ensures |Upto(total) - (was + {p})| == |Upto(total) - was| - 1
  {
    assert Upto(total) - was == (Upto(total) - (was + {p})) + {p};
  }

  // ---- Steps of `map_page` ----

  /** A page taken from the pool is no table of the tree. */
  lemma NewTable(
    es: Entries, root: nat, tables: Tables, t: nat, i: nat, base: nat, was: set<nat>, now: set<nat>, child: nat)
    requires Tree(es, root, tables) && t in tables && tables[t].level > 0 && i < PT_ENTRIES && es(t, i) == Empty
    requires Backed(tables, base, was) && TookPage(base, was, now, child)
    ensures CanGrow(es, root, tables, t, i, child)
  {}

  /** Memory is ready for the ghost state to hang the empty table `child` at entry `i` of `t`. */
  ghost predicate Installed(
    mem: Memory, es: Entries, root: nat, tables: Tables, t: nat, i: nat, child: nat, base: nat, pages: set<nat>) {
    && CanGrow(es, root, tables, t, i, child)
    && Linked(mem, Grown(es, t, i, child), WithTable(tables, t, i, child))
    && Backed(WithTable(tables, t, i, child), base, pages)
  }

  /** Zeroing a page taken from the pool and branching to it hangs an empty table. */
  lemma InstalledTable(
    mem: Memory, mem1: Memory, mem2: Memory, es: Entries, tables: Tables, root: nat, t: nat, i: nat, child: nat,
    base: nat, was: set<nat>, now: set<nat>)
    requires Linked(mem, es, tables) && Tree(es, root, tables) && Backed(tables, base, was)
    requires t in tables && tables[t].level > 0 && i < PT_ENTRIES && es(t, i) == Empty
    requires IsTableAddr(child) && TookPage(base, was, now, child)
    requires forall k: nat :: k < PT_ENTRIES ==> mem1(EntryAddr(child, k)) == 0
    requires forall a: nat :: a / PAGE != child / PAGE ==> mem1(a) == mem(a)
    requires mem2(EntryAddr(t, i)) == NewBranch(child)
    requires forall a: nat :: a != EntryAddr(t, i) ==> mem2(a) == mem1(a)
    ensures Installed(mem2, es, root, tables, t, i, child, base, now)
  {
    NewTable(es, root, tables, t, i, base, was, now, child);
    BackedGrows(tables, base, was, now, t, i, child);
    EntryRoundTrip(child, VALID);
    assert Decode(NewBranch(child)) == Branch(child);
    LinkAfterZero(mem, mem1, es, tables, child, Place(tables[t].level - 1, t, i));
    LinkAfterWrite(mem1, mem2, Cleared(es, child), WithTable(tables, t, i, child), t, i, NewBranch(child));
  }

  lemma GrowResolvesSame(es: Entries, root: nat, tables: Tables, t: nat, i: nat, child: nat)
    requires CanGrow(es, root, tables, t, i, child)
    ensures Tree(Grown(es, t, i, child), root, WithTable(tables, t, i, child))
    ensures SameResolve(es, Grown(es, t, i, child), root)
  {
    GrowKeepsTree(es, root, tables, t, i, child);
    forall p: Path | p.InRange()
      ensures Resolve(Grown(es, t, i, child), root, p, 2) == Resolve(es, root, p, 2)
    {
      GrowKeepsResolve(es, root, tables, t, i, child, root, p, 2);
    }
  }

  /** The tables `map_page` has to create are those its two descents find missing. */
  lemma MissingIsCostOfSteps(
    es: Entries, es1: Entries, tables: Tables, tables1: Tables, root: nat, p: Path, l1: nat)
    requires Tree(es, root, tables) && p.InRange() && ChildOf(es, es1, tables, tables1, root, p.i2, l1)
    requires Tree(es1, root, tables1)
    ensures Missing(es, root, p, 2) == Cost(es, root, p.i2) + Cost(es1, l1, p.i1)
  {
    assert EntryOk(es, tables, root, p.i2);
    assert EntryOk(es1, tables1, l1, p.i1);
    if es(root, p.i2).Branch? {
      assert Missing(es, root, p, 2) == Missing(es, l1, p, 1);
    }
  }

  /** After two successful descents the leaf table of the path is in place. */
  lemma TwoDescents(
    es: Entries, es1: Entries, es2: Entries, tables: Tables, tables1: Tables, tables2: Tables,
    root: nat, p: Path, l1: nat, l0: nat)
    requires Tree(es1, root, tables1)
    requires ChildOf(es, es1, tables, tables1, root, p.i2, l1)
    requires tables[root].level == 2
    requires ChildOf(es1, es2, tables1, tables2, l1, p.i1, l0)
    ensures LeafTable(es2, root, p, 2) == Some(l0)
  {
    assert tables1[l1].level == 1;
    assert es2(root, p.i2) == Branch(l1);
    assert LeafTable(es2, root, p, 2) == LeafTable(es2, l1, p, 1) == LeafTable(es2, l0, p, 0);
  }

  /** From resolutions of paths to translations of addresses, when nothing moved. */
  lemma SameResolveIsSameTranslation(
    mem: Memory, mem': Memory, es: Entries, es': Entries, tables: Tables, tables': Tables, root: nat)
    requires Linked(mem, es, tables) && Tree(es, root, tables)
    requires Linked(mem', es', tables') && Tree(es', root, tables')
    requires SameResolve(es, es', root)
    ensures SameTranslation(mem, mem', root)
  {
    forall va: nat
      ensures Translate(mem', root, va) == Translate(mem, root, va)
    {
      WalkIsResolve(mem, es, root, tables, root, va, 2);
      WalkIsResolve(mem', es', root, tables', root, va, 2);
      SamePath(va, va);
    }
  }

  lemma DecodeView(pte: nat, va: nat)
    ensures LeafView(pte, va) == EntryView(if Decode(pte).Leaf? then Decode(pte) else Empty, va)
  {}

  /** From resolutions of paths to translations of addresses, after one leaf write. */
  lemma LeafWriteRemaps(
    mem: Memory, mem': Memory, es: Entries, es2: Entries, tables: Tables, tables2: Tables,
    root: nat, va: nat, l0: nat, pte: nat)
    requires Linked(mem, es, tables) && Tree(es, root, tables)
    requires Tree(es2, root, tables2) && SameResolve(es, es2, root)
    requires LeafTable(es2, root, PathOf(va), 2) == Some(l0)
    requires Linked(mem', Update(es2, l0, PathOf(va).i0, Decode(pte)), tables2)
    requires Tree(Update(es2, l0, PathOf(va).i0, Decode(pte)), root, tables2)
    ensures Remapped(mem, mem', root, PageNumber(va), pte)
  {
    var p := PathOf(va);
    var es' := Update(es2, l0, p.i0, Decode(pte));
    forall a: nat
      ensures Translate(mem', root, a) ==
              if PageNumber(a) == PageNumber(va) then LeafView(pte, a) else Translate(mem, root, a)
    {
      var q := PathOf(a);
      SamePath(va, a);
      SamePath(a, va);
      WalkIsResolve(mem, es, root, tables, root, a, 2);
      WalkIsResolve(mem', es', root, tables2, root, a, 2);
      LeafWriteChangesOnePath(es2, root, tables2, l0, p, Decode(pte), q);
      DecodeView(pte, a);
    }
  }

  class Mapper {
    /** All of physical memory, one word per address. */
    var mem: Memory
    const alloc: PA.BitmapAllocator
    /** Where each table of the tree hangs, and what its entries decode to. */
    ghost var tables: Tables
    ghost var entries: Entries

    constructor (memory: Memory, allocator: PA.BitmapAllocator)
      ensures mem == memory && alloc == allocator && tables == map[]
    {
      mem, alloc, tables := memory, allocator, map[];
    }

    /** A tree of distinct allocated pages under `root`. */
    ghost predicate Valid(root: nat)
      reads this, alloc, alloc.bitmap
    {
      && alloc.Valid()
      && Backed(tables, alloc.baseAddr, alloc.used)
      && Linked(mem, entries, tables)
      && Tree(entries, root, tables)
    }

    /** The root is a page of the pool. */
    lemma RootInPool(root: nat)
      requires Valid(root)
      ensures alloc.baseAddr <= root < alloc.baseAddr + alloc.totalPages * PAGE
    {
      assert IsPageIn(root, alloc.baseAddr, alloc.used);
    }

    method ReadPte(table: nat, index: nat) returns (pte: nat)
      requires index < PT_ENTRIES
      ensures pte == mem(EntryAddr(table, index))
    {
      pte := mem(EntryAddr(table, index));
    }

    method WritePte(table: nat, index: nat, pte: u64)
      requires index < PT_ENTRIES
      modifies this`mem
      ensures mem(EntryAddr(table, index)) == pte
      ensures forall a: nat :: a != EntryAddr(table, index) ==> mem(a) == old(mem)(a)
    {
      var m, at := mem, EntryAddr(table, index);
      mem := (a: nat) => if a == at then pte else m(a);
    }

    /** `zero_page`, a word at a time. */
    method ZeroPage(page: nat)
      requires IsTableAddr(page)
      modifies this`mem
      ensures forall k: nat :: k < PT_ENTRIES ==> mem(EntryAddr(page, k)) == 0
      ensures forall a: nat :: a / PAGE != page / PAGE ==> mem(a) == old(mem)(a)
    {
      var i := 0;
      while i < PT_ENTRIES
        invariant i <= PT_ENTRIES
        invariant forall k: nat :: k < i ==> mem(EntryAddr(page, k)) == 0
        invariant forall a: nat :: a / PAGE != page / PAGE ==> mem(a) == old(mem)(a)
      {
        assert EntryAddr(page, i) / PAGE == page / PAGE;
        WritePte(page, i, 0);
        i := i + 1;
      }
    }

    /** One page from the pool, with the kernel's error code for an empty pool. */
    method TakePage() returns (r: Result<nat, KernelError>)
      requires alloc.Valid()
      modifies alloc`used, alloc.bitmap
      ensures alloc.Valid()
      ensures r.Err? <==> old(alloc.FreePages()) == 0
      ensures r.Err? ==> r.error == OutOfPages && alloc.used == old(alloc.used)
      ensures r.Ok? ==> TookPage(alloc.baseAddr, old(alloc.used), alloc.used, r.value)
      ensures r.Ok? ==> alloc.FreePages() == old(alloc.FreePages()) - 1 && IsTableAddr(r.value)
    {
      ghost var was: set<nat> := alloc.used;
      var got := alloc.Alloc();
      NoneFreeIff(alloc.totalPages, was);
      if got.Err? {
        return Err(if got.error == PA.OutOfMemory then OutOfPages else InvalidArgument);
      }
      ghost var p: nat :| p < alloc.totalPages && got.value == alloc.AddrOf(p)
                          && p !in was && alloc.used == was + {p};
      OneFewer(alloc.totalPages, was, p);
      alloc.AddrIsAligned(p);
      TookOnePage(alloc.baseAddr, was, alloc.used, p, got.value);
      return Ok(got.value);
    }

    /** A page that no table occupies, zeroed; memory outside it is untouched.
        The only failure is an exhausted pool. */
    method AllocZeroedPage() returns (r: Result<nat, KernelError>)
      requires alloc.Valid()
      modifies this`mem, alloc`used, alloc.bitmap
      ensures alloc.Valid()
      ensures r.Err? <==> old(alloc.FreePages()) == 0
      ensures r.Err? ==> r.error == OutOfPages && mem == old(mem) && alloc.used == old(alloc.used)
      ensures r.Ok? ==> TookPage(alloc.baseAddr, old(alloc.used), alloc.used, r.value)
      ensures r.Ok? ==> alloc.FreePages() == old(alloc.FreePages()) - 1 && IsTableAddr(r.value)
      ensures r.Ok? ==> forall k: nat :: k < PT_ENTRIES ==> mem(EntryAddr(r.value, k)) == 0
      ensures r.Ok? ==> forall a: nat :: a / PAGE != r.value / PAGE ==> mem(a) == old(mem)(a)
    {
      r := TakePage();
      if r.Ok? {
        ZeroPage(r.value);
      }
    }

    /** Installs a zeroed child table under an empty entry of the tree. */
    method InstallTable(table: nat, index: nat, ghost root: nat, ghost es: Entries, ghost ts: Tables)
      returns (r: Result<nat, KernelError>)
      requires Valid(root) && es == entries && ts == tables
      requires table in ts && ts[table].level > 0 && index < PT_ENTRIES
      requires es(table, index) == Empty
      modifies this`mem, alloc`used, alloc.bitmap
      ensures alloc.Valid()
      ensures r.Err? <==> old(alloc.FreePages()) == 0
      ensures r.Err? ==> r.error == OutOfPages && mem == old(mem) && alloc.used == old(alloc.used)
      ensures r.Ok? ==> alloc.FreePages() == old(alloc.FreePages()) - 1
      ensures r.Ok? ==> Installed(mem, es, root, ts, table, index, r.value, alloc.baseAddr, alloc.used)
    {
      ghost var mem0, pages := mem, alloc.used;
      r := AllocZeroedPage();
      if r.Err? { return; }
      var child := r.value;
      ghost var mem1 := mem;
      EntryRoundTrip(child, VALID);
      WritePte(table, index, NewBranch(child));
      InstalledTable(mem0, mem1, mem, es, ts, root, table, index, child, alloc.baseAddr, pages, alloc.used);
    }

    /** The child table under an entry, created on demand. In a well-formed tree the
        refusal of a leaf where a branch belongs is never taken. */
    method WalkOrCreate(table: nat, index: nat, ghost root: nat) returns (r: Result<nat, KernelError>)
      requires Valid(root)
      requires table in tables && tables[table].level > 0 && index < PT_ENTRIES
      modifies this, alloc`used, alloc.bitmap
      ensures Valid(root)
      ensures SameResolve(old(entries), entries, root)
      ensures r.Err? <==> old(entries)(table, index) == Empty && old(alloc.FreePages()) == 0
      ensures r.Err? ==> r.error == OutOfPages
      ensures r.Ok? ==> ChildOf(old(entries), entries, old(tables), tables, table, index, r.value)
      ensures alloc.FreePages() == old(alloc.FreePages()) - (if r.Ok? then Cost(old(entries), table, index) else 0)
    {
      var existing := ReadPte(table, index);
      assert entries(table, index) == Decode(existing);
      assert EntryOk(entries, tables, table, index);
      if IsValid(existing) {
        r := if IsBranch(existing) then Ok(PhysAddr(existing)) else Err(InvalidArgument);
        assert tables == WithTable(tables, table, index, PhysAddr(existing));
        return;
      }
      ghost var es, ts := entries, tables;
      r := InstallTable(table, index, root, es, ts);
      if r.Ok? {
        GrowResolvesSame(es, root, ts, table, index, r.value);
        entries, tables := Grown(es, table, index, r.value), WithTable(ts, table, index, r.value);
      }
    }

    /** The two descents of `map_page`: the level-0 table for an address, created on demand. */
    method DescendTo(root: nat, ghost p: Path, vpn2: nat, vpn1: nat) returns (r: Result<nat, KernelError>)
      requires Valid(root) && p.InRange() && vpn2 == p.i2 && vpn1 == p.i1
      modifies this, alloc`used, alloc.bitmap
      ensures Valid(root)
      ensures SameResolve(old(entries), entries, root)
      ensures r.Err? <==> old(alloc.FreePages()) < Missing(old(entries), root, p, 2)
      ensures r.Err? ==> r.error == OutOfPages
      ensures r.Ok? ==> LeafTable(entries, root, p, 2) == Some(r.value)
      ensures r.Ok? ==> alloc.FreePages() == old(alloc.FreePages()) - Missing(old(entries), root, p, 2)
    {
      ghost var es, ts := entries, tables;
      assert EntryOk(es, ts, root, vpn2);
      var l1 := WalkOrCreate(root, vpn2, root);
      if l1.Err? { return l1; }
      ghost var es1, ts1 := entries, tables;
      MissingIsCostOfSteps(es, es1, ts, ts1, root, p, l1.value);
      r := WalkOrCreate(l1.value, vpn1, root);
      if r.Ok? {
        TwoDescents(es, es1, entries, ts, ts1, tables, root, p, l1.value, r.value);
      }
    }

    /** Maps one page. On success exactly that page of the space is retranslated;
        it fails exactly when the pool cannot supply the missing tables, and then
        no translation has changed. */
    method MapPage(root: nat, va: nat, pa: u64, flags: Flags) returns (r: Result<(), KernelError>)
      requires Valid(root)
      modifies this, alloc`used, alloc.bitmap
      ensures Valid(root)
      ensures r.Err? <==> old(alloc.FreePages()) < Missing(old(entries), root, PathOf(va), 2)
      ensures r.Err? ==> r.error == OutOfPages && SameTranslation(old(mem), mem, root)
      ensures r.Ok? ==> Remapped(old(mem), mem, root, PageNumber(va), NewLeaf(pa, flags))
      ensures r.Ok? ==> alloc.FreePages() == old(alloc.FreePages()) - Missing(old(entries), root, PathOf(va), 2)
    {
      SamePath(va, va);
      var l0 := DescendTo(root, PathOf(va), Vpn(va, 2), Vpn(va, 1));
      if l0.Err? {
        SameResolveIsSameTranslation(old(mem), mem, old(entries), entries, old(tables), tables, root);
        return Err(l0.error);
      }
      EntryRoundTrip(pa, flags);
      WriteLeaf(l0.value, va, NewLeaf(pa, flags), root, old(mem), old(entries), old(tables));
      return Ok(());
    }

    /** The final write of `map_page`, against the state the call started from. */
    method WriteLeaf(l0: nat, va: nat, pte: nat, ghost root: nat, ghost mem0: Memory, ghost es0: Entries, ghost ts0: Tables)
      requires Valid(root) && pte < U64_LIMIT
      requires LeafTable(entries, root, PathOf(va), 2) == Some(l0)
      requires Linked(mem0, es0, ts0) && Tree(es0, root, ts0) && SameResolve(es0, entries, root)
      modifies this`mem, this`entries
      ensures Valid(root)
      ensures Remapped(mem0, mem, root, PageNumber(va), pte)
    {
      ghost var p, e := PathOf(va), Decode(pte);
      SamePath(va, va);
      LeafTableInTree(entries, root, tables, root, p, 2);
      WritePte(l0, Vpn(va, 0), pte);
      LinkAfterWrite(old(mem), mem, entries, tables, l0, p.i0, pte);
      LeafWriteKeepsTree(entries, root, tables, l0, p.i0, e);
      LeafWriteRemaps(mem0, mem, es0, entries, ts0, tables, root, va, l0, pte);
      entries := Update(entries, l0, p.i0, e);
    }

    /** The loop of `map_range`, over page addresses. */
    method MapPages(root: nat, first: nat, end: nat, flags: Flags) returns (r: Result<(), KernelError>)
      requires Valid(root)
      requires Aligned(first) && Aligned(end) && first <= end < U64_LIMIT
      modifies this, alloc`used, alloc.bitmap
      ensures Valid(root)
      ensures r.Ok? ==> Overlaid(old(mem), mem, root, first, end, flags)
      ensures r.Err? ==> r.error == OutOfPages
      ensures r.Err? ==> exists upto :: first <= upto < end && Overlaid(old(mem), mem, root, first, upto, flags)
    {
      var addr := first;
      while addr < end
        invariant Valid(root)
        invariant Aligned(addr) && first <= addr <= end
        invariant Overlaid(old(mem), mem, root, first, addr, flags)
      {
        ghost var before := mem;
        var next := addr + PAGE;
        NextPage(addr, end, next);
        r := MapPage(root, addr, addr, flags);
        if r.Err? {
          OverlaidThenSame(old(mem), before, mem, root, first, addr, flags);
          return;
        }
        OverlaidThenPage(old(mem), before, mem, root, first, addr, flags);
        addr := next;
      }
      return Ok(());
    }

    /** Identity-maps `[start, end)`. On success every page of the space reads through the
        last covering address of the range, or as before; the only failure is an empty
        pool, and then some leading part of the range is mapped. */
    method MapRange(root: nat, range: Range) returns (r: Result<(), KernelError>)
      requires Valid(root)
      modifies this, alloc`used, alloc.bitmap
      ensures Valid(root)
      ensures r.Ok? ==> Overlaid(old(mem), mem, root, range.First(), range.Limit(), range.flags)
      ensures r.Err? ==> r.error == OutOfPages
      ensures r.Err? ==> exists upto :: range.First() <= upto < range.Limit()
                                        && Overlaid(old(mem), mem, root, range.First(), upto, range.flags)
    {
      RangeAligned(range);
      if range.First() <= range.Limit() {
        r := MapPages(root, range.First(), range.Limit(), range.flags);
      } else {
        r := Ok(());
      }
    }

    /** The mapping sequence of `init`: every range in order, stopping at the first failure. */
    method MapRanges(root: nat, ranges: seq<Range>) returns (r: Result<(), KernelError>)
      requires Valid(root)
      requires Covers(mem, root, [])
      modifies this, alloc`used, alloc.bitmap
      ensures Valid(root)
      ensures r.Err? ==> r.error == OutOfPages
      ensures r.Ok? ==> Covers(mem, root, ranges)
    {
      var i := 0;
      while i < |ranges|
        invariant i <= |ranges|
        invariant Valid(root)
        invariant Covers(mem, root, ranges[..i])
      {
        ghost var before, done := mem, ranges[..i + 1];
        assert done[..i] == ranges[..i] && done[i] == ranges[i];
        var one := MapRange(root, ranges[i]);
        if one.Err? { return one; }
        OverlaidIsCovering(before, mem, root, done);
        i := i + 1;
      }
      assert ranges[..i] == ranges;
      return Ok(());
    }

    /** A zeroed root page is an empty tree. */
    method NewRoot() returns (r: Result<nat, KernelError>)
      requires alloc.Valid() && tables == map[]
      modifies this, alloc`used, alloc.bitmap
      ensures r.Err? ==> r.error == OutOfPages
      ensures r.Ok? ==> Valid(r.value) && Covers(mem, r.value, [])
    {
      ghost var pages := alloc.used;
      r := AllocZeroedPage();
      if r.Ok? {
        var root := r.value;
        ghost var es: Entries := (t, i) => Empty;
        ghost var ts: Tables := map[root := Place(2, 0, 0)];
        EmptyRoot(mem, es, root, ts, alloc.baseAddr, pages, alloc.used);
        entries, tables := es, ts;
      }
    }
  }

  // ---- Overlaying a range on existing translations ----

  /** The pages of `[s, e)` are identity-mapped over what was there. */
  ghost predicate Overlaid(mem: Memory, mem': Memory, root: nat, s: nat, e: nat, f: Flags) {
    forall va: nat :: Translate(mem', root, va) ==
                      match LastCover(PageNumber(va), s, e)
                      case Some(a) => LeafView(NewLeaf(a, f), va)
                      case None => Translate(mem, root, va)
  }

  /** Every translation is the one the ranges, mapped in order, leave. */
  ghost predicate Covers(mem: Memory, root: nat, ranges: seq<Range>) {
    forall va: nat :: Translate(mem, root, va) == CoveringView(Covering(ranges, PageNumber(va)), va)
  }

  lemma OverlaidThenSame(mem: Memory, mem1: Memory, mem2: Memory, root: nat, s: nat, e: nat, f: Flags)
    requires Overlaid(mem, mem1, root, s, e, f) && SameTranslation(mem1, mem2, root)
    ensures Overlaid(mem, mem2, root, s, e, f)
  {}

  lemma OverlaidThenPage(mem: Memory, mem1: Memory, mem2: Memory, root: nat, s: nat, e: nat, f: Flags)
    requires s <= e
    requires Overlaid(mem, mem1, root, s, e, f) && Remapped(mem1, mem2, root, PageNumber(e), NewLeaf(e, f))
    ensures Overlaid(mem, mem2, root, s, e + PAGE, f)
  {}

  lemma OverlaidIsCovering(mem: Memory, mem': Memory, root: nat, ranges: seq<Range>)
    requires ranges != []
    requires var k := |ranges| - 1;
             Overlaid(mem, mem', root, ranges[k].First(), ranges[k].Limit(), ranges[k].flags)
    requires Covers(mem, root, ranges[..|ranges| - 1])
    ensures Covers(mem', root, ranges)
  {}

  lemma EmptyRoot(mem: Memory, es: Entries, root: nat, tables: Tables, base: nat, was: set<nat>, now: set<nat>)
    requires IsTableAddr(root) && TookPage(base, was, now, root)
    requires forall k: nat :: k < PT_ENTRIES ==> mem(EntryAddr(root, k)) == 0
    requires tables == map[root := Place(2, 0, 0)] && forall t, i :: es(t, i) == Empty
    ensures Tree(es, root, tables) && Linked(mem, es, tables) && Backed(tables, base, now)
    ensures Covers(mem, root, [])
  {
    var p: nat :| now == was + {p} && base + p * PAGE == root;
    assert p in now;
    forall va: nat
      ensures Translate(mem, root, va) == None
    {
      SamePath(va, va);
      assert mem(EntryAddr(root, Vpn(va, 2))) == 0;
    }
  }

  // ---- Boot ----

  /** Where the linker and the board descriptor put things. */
  datatype Layout = Layout(
    heapStart: nat, heapEnd: nat,
    textStart: nat, textEnd: nat, rodataStart: nat, rodataEnd: nat, dataStart: nat, dataEnd: nat,
    bssStart: nat, bssEnd: nat, stackBottom: nat, stackTop: nat,
    runtimeHeapStart: nat, runtimeHeapEnd: nat,
    uartBase: nat, plicBase: nat, mmio: seq<(nat, nat)>)
  {
    /** The `map_range` calls of `init`, in order. */
    function BootRanges(): seq<Range> {
      [ Range(textStart, textEnd, KERNEL_RX),
        Range(rodataStart, rodataEnd, KERNEL_RO),
        Range(dataStart, dataEnd, KERNEL_RW),
        Range(bssStart, bssEnd, KERNEL_RW),
        Range(stackBottom, stackTop, KERNEL_RW),
        Range(heapStart, heapEnd, KERNEL_RW),
        Range(runtimeHeapStart, runtimeHeapEnd, KERNEL_RW),
        Range(uartBase, uartBase + PAGE, KERNEL_RW),
        Range(plicBase, plicBase + 0x40_0000, KERNEL_RW)
      ] + seq(|mmio|, i requires 0 <= i < |mmio| => Range(mmio[i].0, mmio[i].0 + mmio[i].1, KERNEL_RW))
    }

    /** Every region ends within the 39-bit space. */
    predicate Fits() {
      && textEnd <= VA_LIMIT && rodataEnd <= VA_LIMIT && dataEnd <= VA_LIMIT && bssEnd <= VA_LIMIT
      && stackTop <= VA_LIMIT && heapEnd <= VA_LIMIT && runtimeHeapEnd <= VA_LIMIT
      && uartBase + 0x1000 <= VA_LIMIT && plicBase + 0x40_0000 <= VA_LIMIT
      && forall i :: 0 <= i < |mmio| ==> mmio[i].0 + mmio[i].1 <= VA_LIMIT
    }

    /** `va` is on a page of data, bss, stack, either heap, or a device. */
    ghost predicate HoldsState(va: nat) {
      || OnPages(dataStart, dataEnd, va) || OnPages(bssStart, bssEnd, va) || OnPages(stackBottom, stackTop, va)
      || OnPages(heapStart, heapEnd, va) || OnPages(runtimeHeapStart, runtimeHeapEnd, va)
      || OnPages(uartBase, uartBase + 0x1000, va) || OnPages(plicBase, plicBase + 0x40_0000, va)
      || exists i :: 0 <= i < |mmio| && OnPages(mmio[i].0, mmio[i].0 + mmio[i].1, va)
    }
  }

  /** The page of `va` meets the region from `start` to `end`. */
  predicate OnPages(start: nat, end: nat, va: nat) { start / 4096 <= va / 4096 && va / 4096 * 4096 < end }

  /** `va` resolves to itself with exactly these permissions: bits 1, 2 and 3 of the flags. */
  predicate Permits(w: Option<WalkResult>, va: nat, read: bool, write: bool, execute: bool) {
    && w.Some? && w.value.phys == va && w.value.flags % 2 == 1
    && (w.value.flags / 2 % 2 == 1 <==> read) && (w.value.flags / 4 % 2 == 1 <==> write) && (w.value.flags / 8 % 2 == 1 <==> execute)
  }

  /** State may be read and written; what is left of read-only data only read; what is left
      of the text read and executed; and nothing else resolves. */
  ghost predicate BootView(l: Layout, va: nat, w: Option<WalkResult>) {
    if l.HoldsState(va) then Permits(w, va, true, true, false)
    else if OnPages(l.rodataStart, l.rodataEnd, va) then Permits(w, va, true, false, false)
    else if OnPages(l.textStart, l.textEnd, va) then Permits(w, va, true, false, true)
    else w == None
  }

  lemma TouchesIff(r: Range, va: nat)
    requires r.end <= VA_LIMIT
    ensures r.Touches(va) <==> OnPages(r.start, r.end, va)
    ensures r.Limit() <= VA_LIMIT
  {
    PageBelow(va / PAGE, r.end);
    PageBelow(va / PAGE, r.Limit());
    assert r.First() == r.start / PAGE * PAGE && r.Limit() == (r.end + (PAGE - 1)) / PAGE * PAGE;
  }

  lemma PageBelow(p: nat, end: nat)
    ensures p * PAGE < end <==> p < (end + (PAGE - 1)) / PAGE
  {}

  /** satp reads Sv39, and on a heap within the 56-bit physical space it names the root and
      address space 0. */
  ghost predicate NamesRoot(satp: nat, root: nat, heapEnd: nat) {
    && satp / 0x1000_0000_0000_0000 == 8
    && (satp % PPN_FIELD == root / PAGE <==> root < PPN_LIMIT)
    && (heapEnd <= PPN_LIMIT ==> satp % PPN_FIELD == root / PAGE && satp / PPN_FIELD % 0x1_0000 == 0)
  }

  lemma SatpNames(root: nat, heapEnd: nat)
    requires root < heapEnd < U64_LIMIT
    ensures NamesRoot(MakeSatp(root, 0), root, heapEnd)
  {
    SatpNamesRootIff(root, 0);
  }

  /** `init` up to the write of satp. The refusal and the exhausted pool are its only
      failures, and a completed map translates as its ranges say. The bound on the heap
      is the allocator's own assertion. */
  method Init(memory: Memory, l: Layout) returns (r: Result<nat, KernelError>, satp: nat, vm: Mapper?)
    requires l.heapEnd < U64_LIMIT && (l.heapStart < l.heapEnd ==> (l.heapEnd - l.heapStart) / PAGE <= PA.MAX_PAGES)
    ensures r == Err(InvalidArgument) <==> l.heapEnd <= l.heapStart || l.heapStart % PAGE != 0
    ensures r.Err? ==> r.error == InvalidArgument || r.error == OutOfPages
    ensures r.Ok? ==> vm != null && vm.Valid(r.value) && satp == MakeSatp(r.value, 0) && NamesRoot(satp, r.value, l.heapEnd)
    ensures r.Ok? ==> Covers(vm.mem, r.value, l.BootRanges())
    ensures r.Ok? && l.Fits() ==> forall va: nat :: va < VA_LIMIT ==> BootView(l, va, Translate(vm.mem, r.value, va))
  {
    satp, vm := 0, null;
    if l.heapEnd <= l.heapStart || l.heapStart % PAGE != 0 {
      return Err(InvalidArgument), satp, vm;
    }
    var numPages := (l.heapEnd - l.heapStart) / PAGE;
    if numPages == 0 {
      return Err(OutOfPages), satp, vm;
    }
    var alloc := new PA.BitmapAllocator(l.heapStart, numPages);
    var mapper := new Mapper(memory, alloc);
    r := mapper.NewRoot();
    if r.Err? { return; }
    var mapped := mapper.MapRanges(r.value, l.BootRanges());
    if mapped.Err? { return Err(mapped.error), satp, vm; }
    mapper.RootInPool(r.value);
    SatpNames(r.value, l.heapEnd);
    satp, vm := MakeSatp(r.value, 0), mapper;
    if l.Fits() {
      forall va: nat | va < VA_LIMIT ensures BootView(l, va, Translate(vm.mem, r.value, va)) {
        BootMapMeans(l, vm.mem, r.value, va);
      }
    }
  }

  lemma BootRangesFit(l: Layout)
    requires l.Fits()
    ensures forall i :: 0 <= i < |l.BootRanges()| ==> l.BootRanges()[i].end <= VA_LIMIT
  {}

  lemma BootRangesOnPages(l: Layout, va: nat)
    requires l.Fits()
    ensures forall i :: 0 <= i < |l.BootRanges()| ==>
      var r := l.BootRanges()[i]; r.Limit() <= VA_LIMIT && (r.Touches(va) <==> OnPages(r.start, r.end, va))
  {
    BootRangesFit(l);
    forall i | 0 <= i < |l.BootRanges()|
      ensures var r := l.BootRanges()[i]; r.Limit() <= VA_LIMIT && (r.Touches(va) <==> OnPages(r.start, r.end, va))
    {
      TouchesIff(l.BootRanges()[i], va);
    }
  }

  /** Some range after the first two meets the page exactly when it holds state. */
  lemma StateRanges(l: Layout, va: nat)
    requires l.Fits()
    ensures l.HoldsState(va) <==> exists i :: 2 <= i < |l.BootRanges()| && l.BootRanges()[i].Touches(va)
  {
    var ranges := l.BootRanges();
    BootRangesOnPages(l, va);
    if OnPages(l.dataStart, l.dataEnd, va) { assert ranges[2].Touches(va); }
    if OnPages(l.bssStart, l.bssEnd, va) { assert ranges[3].Touches(va); }
    if OnPages(l.stackBottom, l.stackTop, va) { assert ranges[4].Touches(va); }
    if OnPages(l.heapStart, l.heapEnd, va) { assert ranges[5].Touches(va); }
    if OnPages(l.runtimeHeapStart, l.runtimeHeapEnd, va) { assert ranges[6].Touches(va); }
    if OnPages(l.uartBase, l.uartBase + 0x1000, va) { assert ranges[7].Touches(va); }
    if OnPages(l.plicBase, l.plicBase + 0x40_0000, va) { assert ranges[8].Touches(va); }
    forall i | 0 <= i < |l.mmio| && OnPages(l.mmio[i].0, l.mmio[i].0 + l.mmio[i].1, va) ensures ranges[9 + i].Touches(va) {}
  }

  lemma FlagBits()
    ensures KERNEL_RX % 2 == 1 && KERNEL_RX / 2 % 2 == 1 && KERNEL_RX / 4 % 2 == 0 && KERNEL_RX / 8 % 2 == 1
    ensures KERNEL_RO % 2 == 1 && KERNEL_RO / 2 % 2 == 1 && KERNEL_RO / 4 % 2 == 0 && KERNEL_RO / 8 % 2 == 0
    ensures KERNEL_RW % 2 == 1 && KERNEL_RW / 2 % 2 == 1 && KERNEL_RW / 4 % 2 == 1 && KERNEL_RW / 8 % 2 == 0
  {}

  /** On a board whose regions all end below 2^39, the kernel map that `Init` completes
      resolves an address iff some region touches its page; it resolves to itself with
      the last such region's flags, and nothing is both writable and executable. */
  lemma BootMapIsIdentity(l: Layout, mem: Memory, root: nat, va: nat)
    requires forall i :: 0 <= i < |l.BootRanges()| ==> l.BootRanges()[i].Limit() <= VA_LIMIT
    requires Covers(mem, root, l.BootRanges())
    requires va < VA_LIMIT
    ensures IdentityView(l.BootRanges(), va, Translate(mem, root, va))
  {
    var ranges := l.BootRanges();
    forall i | 0 <= i < |ranges|
      ensures KernelRange(ranges[i])
    {
      if i >= 9 { assert ranges[i].flags == KERNEL_RW; }
    }
    KernelRangesIdentity(ranges, va);
  }

  lemma CodeRanges(l: Layout, va: nat)
    requires l.Fits()
    ensures var ranges := l.BootRanges();
      && (ranges[0].Touches(va) <==> OnPages(l.textStart, l.textEnd, va)) && ranges[0].flags == KERNEL_RX
      && (ranges[1].Touches(va) <==> OnPages(l.rodataStart, l.rodataEnd, va)) && ranges[1].flags == KERNEL_RO
      && forall i :: 2 <= i < |ranges| ==> ranges[i].flags == KERNEL_RW
  {
    BootRangesOnPages(l, va);
  }

  /** The last touching range is of state when any is, then of read-only data, then of text. */
  lemma LastIs(ranges: seq<Range>, va: nat, i: nat)
    requires |ranges| >= 2 && LastTouching(ranges, va, i)
    ensures i >= 2 <==> exists k :: 2 <= k < |ranges| && ranges[k].Touches(va)
    ensures i < 2 ==> (i == 1 <==> ranges[1].Touches(va))
  {}

  /** What the completed map means, region by region. */
  lemma BootMapMeans(l: Layout, mem: Memory, root: nat, va: nat)
    requires l.Fits() && Covers(mem, root, l.BootRanges()) && va < VA_LIMIT
    ensures BootView(l, va, Translate(mem, root, va))
  {
    var ranges, w := l.BootRanges(), Translate(mem, root, va);
    BootRangesOnPages(l, va);
    BootMapIsIdentity(l, mem, root, va);
    StateRanges(l, va);
    CodeRanges(l, va);
    ViewOfLast(ranges, l, va, w);
  }

  lemma ViewOfLast(ranges: seq<Range>, l: Layout, va: nat, w: Option<WalkResult>)
    requires |ranges| >= 9 && IdentityView(ranges, va, w)
    requires l.HoldsState(va) <==> exists i :: 2 <= i < |ranges| && ranges[i].Touches(va)
    requires (ranges[0].Touches(va) <==> OnPages(l.textStart, l.textEnd, va)) && ranges[0].flags == KERNEL_RX
    requires (ranges[1].Touches(va) <==> OnPages(l.rodataStart, l.rodataEnd, va)) && ranges[1].flags == KERNEL_RO
    requires forall i :: 2 <= i < |ranges| ==> ranges[i].flags == KERNEL_RW
    ensures BootView(l, va, w)
  {
    FlagBits();
    if w.Some? {
      var i: nat :| LastTouching(ranges, va, i) && w.value.flags == ranges[i].flags;
      LastIs(ranges, va, i);
    }
  }
}
