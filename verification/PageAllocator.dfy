/** The bitmap allocator of physical pages.

    The 512-word bitmap refines one finite set of page numbers, the ghost field
    `used`; every contract below is about that set. */
module PageAllocator {
  import opened Wrappers
  import opened Words
  import opened Bitmaps
  import opened Sequences

  const PAGE_SIZE: nat := 4096
  const MAX_PAGES: nat := 32_768
  const BITMAP_WORDS: nat := MAX_PAGES / 64

  datatype AllocError = OutOfMemory | DoubleFree | InvalidAddress | NotAligned

  ghost predicate FullBelow(used: set<nat>, n: nat) {
    forall p: nat :: p < n ==> p in used
  }

  /** A word of all ones extends the fully used prefix. */
  lemma FullWord(w: u64, used: set<nat>, k: nat)
    requires w == ALL_ONES && Shows(w, used, k) && FullBelow(used, 64 * k)
    ensures FullBelow(used, 64 * (k + 1))
  {
    Pow2At64();
    forall p: nat | p < 64 * (k + 1)
      ensures p in used
    {
      if p >= 64 * k { AllOnesHasEveryBit(64, p - 64 * k); }
    }
  }

  /** Any other word shows the least free page. */
  lemma LeastFree(w: u64, used: set<nat>, k: nat)
    requires w != ALL_ONES && Shows(w, used, k) && FullBelow(used, 64 * k)
    ensures TrailingOnes(w) < 64
    ensures k * 64 + TrailingOnes(w) !in used
    ensures FullBelow(used, k * 64 + TrailingOnes(w))
  {
    Pow2At64();
    LowestZero(w, 64);
    forall p: nat | p < 64 * k + TrailingOnes(w)
      ensures p in used
    {
      if p >= 64 * k { assert Bit(w, p - 64 * k); }
    }
  }

  lemma FullMeansAllUsed(used: set<nat>, total: nat, n: nat)
    requires used <= Upto(total) && FullBelow(used, n) && total <= n
    ensures used == Upto(total)
  {}

  ghost function Below(used: set<nat>, n: nat): set<nat> {
    set p: nat | p in used && p < n
  }

  lemma {:induction false} BitsBelow(w: u64, used: set<nat>, k: nat, j: nat)
    requires Shows(w, used, k) && j <= 64
    ensures |Below(used, 64 * k + j)| == |Below(used, 64 * k)| + CountBelow(w, j)
  {
    if j > 0 {
      BitsBelow(w, used, k, j - 1);
      var p := 64 * k + (j - 1);
      assert Bit(w, j - 1) <==> p in used;
      assert Below(used, p + 1) == Below(used, p) + (if p in used then {p} else {});
    }
  }

  /** One more word of the bitmap contributes its `count_ones`. */
  lemma WordAddsItsOnes(w: u64, used: set<nat>, k: nat)
    requires Shows(w, used, k)
    ensures |Below(used, 64 * (k + 1))| == |Below(used, 64 * k)| + PopCount(w)
  {
    Pow2At64();
    BitsBelow(w, used, k, 64);
    PopCountCountsBits(w, 64);
  }

  class BitmapAllocator {
    const bitmap: array<u64>
    const baseAddr: nat
    const totalPages: nat
    /** The abstract state: the page numbers in use. */
    ghost var used: set<nat>

    ghost predicate Valid()
      reads this, bitmap
    {
      && bitmap.Length == BITMAP_WORDS
      && totalPages <= MAX_PAGES
      && baseAddr % PAGE_SIZE == 0
      && baseAddr + totalPages * PAGE_SIZE <= U64_LIMIT
      && used <= Upto(totalPages)
      && Refines(bitmap[..], used)
    }

    /** How many pages are left. */
    ghost function FreePages(): nat
      reads this
    {
      |Upto(totalPages) - used|
    }

    /** The address of page `p`. */
    function AddrOf(p: nat): nat {
      baseAddr + p * PAGE_SIZE
    }

    /** Page addresses are aligned machine addresses. */
    lemma AddrIsAligned(p: nat)
      requires Valid() && p < totalPages
      ensures AddrOf(p) % PAGE_SIZE == 0 && AddrOf(p) < U64_LIMIT
    {
      assert AddrOf(p) == (baseAddr / PAGE_SIZE + p) * PAGE_SIZE;
    }

    /** How many words the scans look at. */
    function WordsUsed(): nat {
      (totalPages + 63) / 64
    }

    /** `new` followed by `init`, whose assertions are the requires. */
    constructor (base: nat, numPages: nat)
      requires base % PAGE_SIZE == 0
      requires numPages <= MAX_PAGES
      requires base + numPages * PAGE_SIZE <= U64_LIMIT
      ensures Valid() && fresh(bitmap)
      ensures baseAddr == base && totalPages == numPages
      ensures used == {}
    {
      bitmap := new u64[BITMAP_WORDS](_ => 0);
      baseAddr := base;
      totalPages := numPages;
      used := {};
      new;
      forall k: nat | k < BITMAP_WORDS
        ensures Shows(bitmap[..][k], used, k)
      {
        forall j: nat | j < 64 ensures !Bit(0, j) { NoBitsInZero(j); }
      }
    }

    /** Switch the bit of page `p`: the one write the operations share. */
    method Switch(p: nat, on: bool)
      requires Valid() && p < totalPages
      modifies this`used, bitmap
      ensures Valid()
      ensures used == With(old(used), p, on)
    {
      ghost var was := bitmap[..];
      PlaceInWords(p, BITMAP_WORDS);
      SwitchNumber(was, used, p, on);
      bitmap[p / 64] := Switched(bitmap[p / 64], p % 64, on);
      used := With(used, p, on);
      assert bitmap[..] == was[p / 64 := bitmap[p / 64]];
    }

    /** First-fit: the least free page, or `OutOfMemory` exactly when none is free. */
    method Alloc() returns (r: Result<nat, AllocError>)
      requires Valid()
      modifies this`used, bitmap
      ensures Valid()
      ensures r.Err? <==> old(used) == Upto(totalPages)
      ensures r.Err? ==> r.error == OutOfMemory && used == old(used)
      ensures r.Ok? ==> exists p: nat ::
        && p < totalPages && r.value == AddrOf(p)
        && p !in old(used)
        && FullBelow(old(used), p)
        && used == old(used) + {p}
    {
      ghost var was := used;
      var i := 0;
      while i < WordsUsed()
        invariant i <= WordsUsed()
        invariant used == was && bitmap[..] == old(bitmap[..])
        invariant FullBelow(was, 64 * i)
      {
        var word := bitmap[i];
        assert Shows(bitmap[..][i], was, i);
        if word != ALL_ONES {
          LeastFree(word, was, i);
          var page := i * 64 + TrailingOnes(word);
          if page >= totalPages {
            FullMeansAllUsed(was, totalPages, page);
            return Err(OutOfMemory);
          }
          Switch(page, true);
          assert FullBelow(was, page);
          return Ok(AddrOf(page));
        }
        FullWord(word, was, i);
        i := i + 1;
      }
      FullMeansAllUsed(was, totalPages, 64 * i);
      return Err(OutOfMemory);
    }

    /** The page an address names, or the refusal `free` and `mark_allocated` share. */
    function PageOf(addr: nat): (r: Result<nat, AllocError>)
      requires baseAddr % PAGE_SIZE == 0
      ensures r == Err(NotAligned) <==> addr % PAGE_SIZE != 0
      ensures r == Err(InvalidAddress) <==>
              addr % PAGE_SIZE == 0 && !(baseAddr <= addr < baseAddr + totalPages * PAGE_SIZE)
      ensures r.Ok? ==> r.value < totalPages && AddrOf(r.value) == addr
    {
      if addr % PAGE_SIZE != 0 then Err(NotAligned)
      else if addr < baseAddr then Err(InvalidAddress)
      else
        var p := (addr - baseAddr) / PAGE_SIZE;
        if p >= totalPages then Err(InvalidAddress) else Ok(p)
    }

    /** The bit test of `free`, `mark_allocated` and `is_allocated`. */
    method TestBit(p: nat) returns (set_: bool)
      requires Valid() && p < totalPages
      ensures set_ <==> p in used
    {
      PlaceInWords(p, BITMAP_WORDS);
      NumberIsShown(bitmap[..], used, p);
      set_ := Bit(bitmap[p / 64], p % 64);
    }

    /** Clears exactly the page's bit; freeing a free page is refused. */
    method Free(addr: nat) returns (r: Result<(), AllocError>)
      requires Valid()
      modifies this`used, bitmap
      ensures Valid()
      ensures PageOf(addr).Err? ==> r == Err(PageOf(addr).error)
      ensures PageOf(addr).Ok? ==>
              r == if PageOf(addr).value in old(used) then Ok(()) else Err(DoubleFree)
      ensures used == if r.Ok? then old(used) - {PageOf(addr).value} else old(used)
    {
      var at := PageOf(addr);
      if at.Err? { return Err(at.error); }
      var isSet := TestBit(at.value);
      if !isSet { return Err(DoubleFree); }
      Switch(at.value, false);
      return Ok(());
    }

    /** Reserves exactly the named page; an already allocated page is refused. */
    method MarkAllocated(addr: nat) returns (r: Result<(), AllocError>)
      requires Valid()
      modifies this`used, bitmap
      ensures Valid()
      ensures PageOf(addr).Err? ==> r == Err(PageOf(addr).error)
      ensures PageOf(addr).Ok? ==>
              r == if PageOf(addr).value in old(used) then Err(DoubleFree) else Ok(())
      ensures used == if r.Ok? then old(used) + {PageOf(addr).value} else old(used)
    {
      var at := PageOf(addr);
      if at.Err? { return Err(at.error); }
      var isSet := TestBit(at.value);
      if isSet { return Err(DoubleFree); }
      Switch(at.value, true);
      return Ok(());
    }

    /** An address is allocated when it is a page address in use; anything else is not. */
    method IsAllocated(addr: nat) returns (yes: bool)
      requires Valid()
      ensures yes <==> exists p :: p in used && AddrOf(p) == addr
    {
      var at := PageOf(addr);
      if at.Err? {
        assert forall p :: p in used ==> AddrOf(p) != addr;
        return false;
      }
      yes := TestBit(at.value);
    }

    /** The popcount sum over the words in use is the size of the set. */
    method AllocatedCount() returns (count: nat)
      requires Valid()
      ensures count == |used|
    {
      count := 0;
      var i := 0;
      assert Below(used, 0) == {};
      while i < WordsUsed()
        invariant i <= WordsUsed()
        invariant count == |Below(used, 64 * i)|
      {
        assert Shows(bitmap[..][i], used, i);
        WordAddsItsOnes(bitmap[i], used, i);
        count := count + PopCount(bitmap[i]);
        i := i + 1;
      }
      assert Below(used, 64 * i) == used;
    }

    /** Conservation: allocated plus free is the pool, and the subtraction cannot underflow. */
    method FreeCount() returns (count: nat)
      requires Valid()
      ensures count == FreePages()
      ensures count + |used| == totalPages
    {
      var inUse := AllocatedCount();
      assert Upto(totalPages) == used + (Upto(totalPages) - used);
      count := totalPages - inUse;
    }
  }
}
