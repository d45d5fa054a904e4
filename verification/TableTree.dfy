/** The shape invariant of a page-table tree, and the separation facts that make
    one write change one translation.

    Tables are seen here as rows of decoded entries; the last section ties rows
    to words of memory. Every table records, in ghost state, its level and the
    one entry that points to it: back pointers make the tree a tree. */
module TableTree {
  import opened Wrappers
  import opened Words
  import opened PageTable

  /** Where a table hangs: its level, and the table and index of its parent entry. */
  datatype Place = Place(level: nat, parent: nat, index: nat)

  type Tables = map<nat, Place>

  /** Entry `i` of table `t`. */
  type Entries = (nat, nat) -> Entry

  /** The three indices of a virtual address. */
  datatype Path = Path(i2: nat, i1: nat, i0: nat) {
    function At(level: nat): nat
      requires level <= 2
    {
      if level == 2 then i2 else if level == 1 then i1 else i0
    }

    predicate InRange() { i2 < PT_ENTRIES && i1 < PT_ENTRIES && i0 < PT_ENTRIES }
  }

  ghost predicate EntryOk(es: Entries, tables: Tables, t: nat, i: nat)
    requires t in tables && tables[t].level > 0
  {
    match es(t, i)
    case Empty => true
    case Branch(c) => c in tables && tables[c] == Place(tables[t].level - 1, t, i)
    case Leaf(_, _) => false
  }

  ghost predicate Tree(es: Entries, root: nat, tables: Tables) {
    && root in tables && tables[root].level == 2
    && (forall t :: t in tables ==> tables[t].level <= 2)
    && (forall t, i: nat :: t in tables && tables[t].level > 0 && i < PT_ENTRIES ==> EntryOk(es, tables, t, i))
  }

  /** The level-0 table a path leads to, if the branches to it exist. */
  ghost function LeafTable(es: Entries, t: nat, p: Path, level: nat): Option<nat>
    requires level <= 2
    decreases level
  {
    if level == 0 then Some(t)
    else if es(t, p.At(level)).Branch? then LeafTable(es, es(t, p.At(level)).child, p, level - 1)
    else None
  }

  /** The leaf a path resolves to; `Empty` when there is none. */
  ghost function Resolve(es: Entries, t: nat, p: Path, level: nat): Entry
    requires level <= 2
  {
    match LeafTable(es, t, p, level)
    case None => Empty
    case Some(t0) => if es(t0, p.i0).Leaf? then es(t0, p.i0) else Empty
  }

  lemma {:induction false} LeafTableInTree(es: Entries, root: nat, tables: Tables, t: nat, p: Path, level: nat)
    requires Tree(es, root, tables) && level <= 2 && p.InRange()
    requires t in tables && tables[t].level == level
    ensures var l := LeafTable(es, t, p, level);
            l.Some? ==> l.value in tables && tables[l.value].level == 0
    decreases level
  {
    if level > 0 {
      assert EntryOk(es, tables, t, p.At(level));
      var e := es(t, p.At(level));
      if e.Branch? { LeafTableInTree(es, root, tables, e.child, p, level - 1); }
    }
  }

  /** Separation: descents that meet in one leaf table came the same way. */
  lemma {:induction false} LeafTablesDistinct(
    es: Entries, root: nat, tables: Tables, t: nat, t': nat, p: Path, p': Path, level: nat)
    requires Tree(es, root, tables) && level <= 2 && p.InRange() && p'.InRange()
    requires t in tables && tables[t].level == level
    requires t' in tables && tables[t'].level == level
    requires LeafTable(es, t, p, level).Some?
    requires LeafTable(es, t, p, level) == LeafTable(es, t', p', level)
    ensures t == t'
    ensures level >= 1 ==> p.i1 == p'.i1
    ensures level == 2 ==> p.i2 == p'.i2
    decreases level
  {
    if level > 0 {
      assert EntryOk(es, tables, t, p.At(level));
      assert EntryOk(es, tables, t', p'.At(level));
      LeafTablesDistinct(es, root, tables, es(t, p.At(level)).child, es(t', p'.At(level)).child, p, p', level - 1);
    }
  }

  // ---- Changing the tree ----

  ghost function Update(es: Entries, t: nat, i: nat, e: Entry): Entries {
    (u: nat, k: nat) => if u == t && k == i then e else es(u, k)
  }

  ghost function Cleared(es: Entries, t: nat): Entries {
    (u: nat, k: nat) => if u == t then Empty else es(u, k)
  }

  ghost function WithTable(tables: Tables, t: nat, i: nat, child: nat): Tables
    requires t in tables && tables[t].level > 0
  {
    tables[child := Place(tables[t].level - 1, t, i)]
  }

  /** An empty table `child` hung at the empty entry `i` of `t`. */
  ghost function Grown(es: Entries, t: nat, i: nat, child: nat): Entries {
    Update(Cleared(es, child), t, i, Branch(child))
  }

  ghost predicate CanGrow(es: Entries, root: nat, tables: Tables, t: nat, i: nat, child: nat) {
    && Tree(es, root, tables)
    && t in tables && tables[t].level > 0 && i < PT_ENTRIES
    && child !in tables && es(t, i) == Empty
  }

  lemma GrowKeepsTree(es: Entries, root: nat, tables: Tables, t: nat, i: nat, child: nat)
    requires CanGrow(es, root, tables, t, i, child)
    ensures Tree(Grown(es, t, i, child), root, WithTable(tables, t, i, child))
  {
    var tables' := WithTable(tables, t, i, child);
    forall u, k: nat | u in tables' && tables'[u].level > 0 && k < PT_ENTRIES
      ensures EntryOk(Grown(es, t, i, child), tables', u, k)
    {
      if u in tables { assert EntryOk(es, tables, u, k); }
    }
  }

  /** A path that was not resolved by growing stays as it was. */
  lemma {:induction false} GrowKeepsResolve(
    es: Entries, root: nat, tables: Tables, t: nat, i: nat, child: nat, u: nat, p: Path, level: nat)
    requires CanGrow(es, root, tables, t, i, child) && p.InRange()
    requires level <= 2 && u in tables && tables[u].level == level
    ensures Resolve(Grown(es, t, i, child), u, p, level) == Resolve(es, u, p, level)
    decreases level
  {
    var es' := Grown(es, t, i, child);
    if level > 0 {
      var k := p.At(level);
      assert EntryOk(es, tables, u, k);
      if u == t && k == i {
        EmptyTableResolvesNothing(es', child, p, level - 1);
      } else if es(u, k).Branch? {
        GrowKeepsResolve(es, root, tables, t, i, child, es(u, k).child, p, level - 1);
      }
    }
  }

  lemma EmptyTableResolvesNothing(es: Entries, t: nat, p: Path, level: nat)
    requires level <= 2 && forall k: nat :: es(t, k) == Empty
    ensures Resolve(es, t, p, level) == Empty
  {}

  lemma LeafWriteKeepsTree(es: Entries, root: nat, tables: Tables, t0: nat, i: nat, e: Entry)
    requires Tree(es, root, tables) && t0 in tables && tables[t0].level == 0
    ensures Tree(Update(es, t0, i, e), root, tables)
  {
    forall u, k: nat | u in tables && tables[u].level > 0 && k < PT_ENTRIES
      ensures EntryOk(Update(es, t0, i, e), tables, u, k)
    {
      assert EntryOk(es, tables, u, k);
    }
  }

  lemma {:induction false} LeafWriteKeepsDescent(
    es: Entries, root: nat, tables: Tables, t0: nat, i: nat, e: Entry, u: nat, p: Path, level: nat)
    requires Tree(es, root, tables) && t0 in tables && tables[t0].level == 0 && p.InRange()
    requires level <= 2 && u in tables && tables[u].level == level
    ensures LeafTable(Update(es, t0, i, e), u, p, level) == LeafTable(es, u, p, level)
    decreases level
  {
    if level > 0 {
      assert EntryOk(es, tables, u, p.At(level));
      var c := es(u, p.At(level));
      if c.Branch? { LeafWriteKeepsDescent(es, root, tables, t0, i, e, c.child, p, level - 1); }
    }
  }

  /** One leaf write changes the resolution of exactly one path. */
  lemma LeafWriteChangesOnePath(es: Entries, root: nat, tables: Tables, t0: nat, p: Path, e: Entry, q: Path)
    requires Tree(es, root, tables) && p.InRange() && q.InRange()
    requires LeafTable(es, root, p, 2) == Some(t0)
    ensures Resolve(Update(es, t0, p.i0, e), root, q, 2) ==
            if q == p then (if e.Leaf? then e else Empty) else Resolve(es, root, q, 2)
  {
    LeafTableInTree(es, root, tables, root, p, 2);
    LeafWriteKeepsDescent(es, root, tables, t0, p.i0, e, root, q, 2);
    if q != p && LeafTable(es, root, q, 2) == Some(t0) {
      LeafTablesDistinct(es, root, tables, root, root, p, q, 2);
    }
  }

  /** How many tables the way to a leaf still lacks. */
  ghost function Missing(es: Entries, t: nat, p: Path, level: nat): (n: nat)
    requires level <= 2
    ensures n <= level
    decreases level
  {
    if level == 0 then 0
    else if es(t, p.At(level)).Branch? then Missing(es, es(t, p.At(level)).child, p, level - 1)
    else level
  }

  // ---- Rows of entries in memory ----

  function PathOf(va: nat): Path { Path(Vpn(va, 2), Vpn(va, 1), Vpn(va, 0)) }

  /** Two addresses share a page of the space iff they share a path. */
  lemma SamePath(a: nat, b: nat)
    ensures PageNumber(a) == PageNumber(b) <==> PathOf(a) == PathOf(b)
    ensures PathOf(a).InRange()
  {
    SamePageIff(a, b);
  }

  ghost predicate IsTableAddr(t: nat) { t % PAGE == 0 && t < U64_LIMIT }

  /** `es` is what the words of the tables decode to. */
  ghost predicate Linked(mem: Memory, es: Entries, tables: Tables) {
    && (forall t :: t in tables ==> IsTableAddr(t))
    && (forall t, i: nat {:trigger mem(EntryAddr(t, i))} ::
          t in tables && i < PT_ENTRIES ==> es(t, i) == Decode(mem(EntryAddr(t, i))))
  }

  /** Entry addresses of table pages never collide. */
  lemma EntryAddrInjective(t: nat, i: nat, t': nat, i': nat)
    requires IsTableAddr(t) && IsTableAddr(t') && i < PT_ENTRIES && i' < PT_ENTRIES
    ensures EntryAddr(t, i) == EntryAddr(t', i') ==> t == t' && i == i'
    ensures EntryAddr(t, i) / PAGE == t / PAGE
    ensures t / PAGE == t' / PAGE ==> t == t'
  {}

  lemma LinkAfterWrite(mem: Memory, mem': Memory, es: Entries, tables: Tables, t: nat, i: nat, pte: nat)
    requires Linked(mem, es, tables) && t in tables && i < PT_ENTRIES
    requires mem'(EntryAddr(t, i)) == pte
    requires forall a: nat :: a != EntryAddr(t, i) ==> mem'(a) == mem(a)
    ensures Linked(mem', Update(es, t, i, Decode(pte)), tables)
  {
    forall u, k: nat | u in tables && k < PT_ENTRIES
      ensures Update(es, t, i, Decode(pte))(u, k) == Decode(mem'(EntryAddr(u, k)))
    {
      EntryAddrInjective(t, i, u, k);
      assert es(u, k) == Decode(mem(EntryAddr(u, k)));
    }
  }

  lemma LinkAfterZero(mem: Memory, mem': Memory, es: Entries, tables: Tables, child: nat, place: Place)
    requires Linked(mem, es, tables) && IsTableAddr(child) && child !in tables
    requires forall k: nat :: k < PT_ENTRIES ==> mem'(EntryAddr(child, k)) == 0
    requires forall a: nat :: a / PAGE != child / PAGE ==> mem'(a) == mem(a)
    ensures Linked(mem', Cleared(es, child), tables[child := place])
  {
    forall u, k: nat | u in tables[child := place] && k < PT_ENTRIES
      ensures Cleared(es, child)(u, k) == Decode(mem'(EntryAddr(u, k)))
    {
      EntryAddrInjective(u, k, child, 0);
      if u != child {
        assert mem'(EntryAddr(u, k)) == mem(EntryAddr(u, k));
        assert es(u, k) == Decode(mem(EntryAddr(u, k)));
      }
    }
  }

  ghost function EntryView(e: Entry, va: nat): Option<WalkResult> {
    if e.Leaf? then Some(WalkResult(e.page + va % PAGE, e.flags)) else None
  }

  /** The walk over memory is the resolution of the address's path. */
  lemma {:induction false} WalkIsResolve(
    mem: Memory, es: Entries, root: nat, tables: Tables, t: nat, va: nat, level: nat)
    requires Linked(mem, es, tables) && Tree(es, root, tables)
    requires level <= 2 && t in tables && tables[t].level == level
    ensures WalkFrom(mem, t, va, level) == EntryView(Resolve(es, t, PathOf(va), level), va)
    decreases level
  {
    var k := PathOf(va).At(level);
    assert k == Vpn(va, level) && k < PT_ENTRIES;
    var pte := mem(EntryAddr(t, k));
    assert es(t, k) == Decode(pte);
    WalkStep(mem, t, va, level);
    if level > 0 {
      assert EntryOk(es, tables, t, k);
      if IsBranch(pte) { WalkIsResolve(mem, es, root, tables, PhysAddr(pte), va, level - 1); }
    }
  }
}
